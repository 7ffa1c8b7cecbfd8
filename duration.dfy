/** The mute-duration grammar of the admin `/mute` command and the
    remaining-time text shown to a muted user (bot/handlers.py). */
module DurationParser {
  import opened Wrappers
  import opened Digits

  /** Cyrillic letters that mark an hours token and a minutes token. */
  const HourMark: char := 'ч'
  const MinuteMark: char := 'м'

  /** No mute is longer than 24 hours. */
  const MaxMinutes: int := 1440
  /** The one-hour default. */
  const DefaultMinutes: int := 60

  /** A parsed duration: minutes and the text that echoes it to the admin. */
  datatype Duration = Duration(minutes: int, display: string)

  function Min(a: int, b: int): int {
    if a <= b then a else b
  }

  /** `' '.join(parts)`. */
  function Join(parts: seq<string>): string {
    if parts == [] then ""
    else if |parts| == 1 then parts[0]
    else parts[0] + " " + Join(parts[1..])
  }

  /** Position `i` of `s` starts a match of the pattern `(\d+)<mark>`:
      a digit there, and the greedy digit run from it is followed by `mark`. */
  predicate MarkedAt(s: string, i: nat, mark: char) {
    i < |s| && IsDigit(s[i]) &&
    var run := LeadingDigits(s[i..]);
    i + |run| < |s| && s[i + |run|] == mark
  }

  /** `re.search(r'(\d+)<mark>', s)` followed by `int(group(1))`: the value of
      the digit group of the leftmost match. A digit run not followed by the
      mark is skipped as a whole, as no match can start inside it. */
  function FirstMarked(s: string, mark: char): Option<nat>
    decreases |s|
  {
    if s == [] then None
    else if !IsDigit(s[0]) then FirstMarked(s[1..], mark)
    else
      var run := LeadingDigits(s);
      if |run| < |s| && s[|run|] == mark then Some(DigitsValue(run))
      else FirstMarked(s[|run|..], mark)
  }

  /** Matching at `i` in `s` is matching at `i - 1` once the first character is dropped. */
  lemma MarkedAtShift(s: string, i: nat, mark: char)
    requires 1 <= i
    requires s != []
    ensures MarkedAt(s, i, mark) == MarkedAt(s[1..], i - 1, mark)
  {
  }

  /** Matching at `i` in `s` is matching at `i - k` once the first `k` characters are dropped. */
  lemma MarkedAtDrop(s: string, k: nat, i: nat, mark: char)
    requires k <= i && k <= |s|
    ensures MarkedAt(s, i, mark) == MarkedAt(s[k..], i - k, mark)
  {
  }

  /** Where the pattern matches nowhere, FirstMarked finds nothing. */
  lemma {:induction false} FirstMarkedNoMatch(s: string, mark: char)
    requires forall i :: 0 <= i < |s| ==> !MarkedAt(s, i, mark)
    ensures FirstMarked(s, mark) == None
    decreases |s|
  {
    if s == [] {
    } else if !IsDigit(s[0]) {
      forall j | 0 <= j < |s| - 1 ensures !MarkedAt(s[1..], j, mark) {
        MarkedAtShift(s, j + 1, mark);
      }
      FirstMarkedNoMatch(s[1..], mark);
    } else {
      var run := LeadingDigits(s);
      assert s[0..] == s;
      assert !MarkedAt(s, 0, mark);
      var rest := s[|run|..];
      forall j | 0 <= j < |rest| ensures !MarkedAt(rest, j, mark) {
        MarkedAtDrop(s, |run|, j + |run|, mark);
      }
      FirstMarkedNoMatch(rest, mark);
    }
  }

  /** FirstMarked finds nothing exactly when the pattern matches nowhere. */
  lemma FirstMarkedNone(s: string, mark: char)
    ensures FirstMarked(s, mark).None? <==> forall i :: 0 <= i < |s| ==> !MarkedAt(s, i, mark)
  {
    if exists i :: 0 <= i < |s| && MarkedAt(s, i, mark) {
      var i := LeftmostMark(s, mark, |s|);
      FirstMarkedLeftmost(s, mark, i);
    } else {
      FirstMarkedNoMatch(s, mark);
    }
  }

  /** Some position below `bound` matches; the least one is returned. */
  lemma {:induction false} LeftmostMark(s: string, mark: char, bound: nat) returns (i: nat)
    requires exists k :: 0 <= k < bound && MarkedAt(s, k, mark)
    ensures i < bound && MarkedAt(s, i, mark)
    ensures forall k :: 0 <= k < i ==> !MarkedAt(s, k, mark)
  {
    if exists k :: 0 <= k < bound - 1 && MarkedAt(s, k, mark) {
      i := LeftmostMark(s, mark, bound - 1);
    } else {
      i := bound - 1;
    }
  }

  /** FirstMarked reads the digit group of the leftmost match. */
  lemma {:induction false} FirstMarkedLeftmost(s: string, mark: char, i: nat)
    requires MarkedAt(s, i, mark)
    requires forall k :: 0 <= k < i ==> !MarkedAt(s, k, mark)
    ensures FirstMarked(s, mark) == Some(DigitsValue(LeadingDigits(s[i..])))
    decreases |s|
  {
    if !IsDigit(s[0]) {
      LeftmostPastNonDigit(s, mark, i);
      FirstMarkedLeftmost(s[1..], mark, i - 1);
    } else {
      var run := LeadingDigits(s);
      if |run| < |s| && s[|run|] == mark {
        assert s[0..] == s;
        assert MarkedAt(s, 0, mark);
      } else {
        LeftmostPastRun(s, mark, i);
        FirstMarkedLeftmost(s[|run|..], mark, i - |run|);
      }
    }
  }

  /** A leading non-digit starts no match: the leftmost match moves one place left. */
  lemma LeftmostPastNonDigit(s: string, mark: char, i: nat)
    requires MarkedAt(s, i, mark) && !IsDigit(s[0])
    requires forall k :: 0 <= k < i ==> !MarkedAt(s, k, mark)
    ensures 1 <= i
    ensures MarkedAt(s[1..], i - 1, mark)
    ensures forall k :: 0 <= k < i - 1 ==> !MarkedAt(s[1..], k, mark)
    ensures s[1..][i - 1..] == s[i..]
    ensures FirstMarked(s, mark) == FirstMarked(s[1..], mark)
  {
    MarkedAtShift(s, i, mark);
    forall k | 0 <= k < i - 1 ensures !MarkedAt(s[1..], k, mark) {
      MarkedAtShift(s, k + 1, mark);
    }
  }

  /** A leading digit run that the mark does not follow starts no match
      anywhere inside it: the leftmost match lies beyond the run. */
  lemma LeftmostPastRun(s: string, mark: char, i: nat)
    requires MarkedAt(s, i, mark) && IsDigit(s[0])
    requires forall k :: 0 <= k < i ==> !MarkedAt(s, k, mark)
    requires var run := LeadingDigits(s); !(|run| < |s| && s[|run|] == mark)
    ensures var run := LeadingDigits(s);
      && |run| <= i
      && MarkedAt(s[|run|..], i - |run|, mark)
      && (forall k :: 0 <= k < i - |run| ==> !MarkedAt(s[|run|..], k, mark))
      && s[|run|..][i - |run|..] == s[i..]
      && FirstMarked(s, mark) == FirstMarked(s[|run|..], mark)
  {
    var run := LeadingDigits(s);
    if i < |run| {
      LeadingDigitsSuffix(s, i);
    }
    var rest := s[|run|..];
    MarkedAtDrop(s, |run|, i, mark);
    forall k | 0 <= k < i - |run| ensures !MarkedAt(rest, k, mark) {
      MarkedAtDrop(s, |run|, k + |run|, mark);
    }
  }

  /** The minutes that the found hours and minutes tokens add up to. */
  function TokenMinutes(hours: Option<nat>, minutes: Option<nat>): (total: nat)
    ensures hours.None? && minutes.None? ==> total == 0
  {
    (if hours.Some? then hours.value * 60 else 0) + (if minutes.Some? then minutes.value else 0)
  }

  /** The echo of the found tokens, hours first, as `str` writes the numbers. */
  function TokenParts(hours: Option<nat>, minutes: Option<nat>): (parts: seq<string>)
    ensures |parts| == (if hours.Some? then 1 else 0) + (if minutes.Some? then 1 else 0)
  {
    (if hours.Some? then [NatToString(hours.value) + "ч"] else [])
    + (if minutes.Some? then [NatToString(minutes.value) + "м"] else [])
  }

  /** `parse_duration`: the first digit run marked `ч` counts hours and the
      first marked `м` counts minutes; both are summed and echoed hours first.
      When they add up to zero, the whole string is read as a bare number of
      hours, else the one-hour default is taken. The total is capped at 24
      hours. The empty string gives the one-hour default at once. */
  function ParseDuration(s: string): (r: Duration)
    ensures r.minutes <= MaxMinutes
  {
    if s == [] then Duration(DefaultMinutes, "1 час")
    else
      var hours := FirstMarked(s, HourMark);
      var minutes := FirstMarked(s, MinuteMark);
      var total := TokenMinutes(hours, minutes);
      var parts := TokenParts(hours, minutes);
      if total != 0 then Duration(Min(total, MaxMinutes), Join(parts))
      else
        match ParseInt(s)
        case Some(n) => Duration(Min(n * 60, MaxMinutes), Join(parts + [IntToString(n) + "ч"]))
        case None => Duration(DefaultMinutes, Join(parts + ["1ч"]))
  }

  /** The `/mute` handler's duration: the first argument word, or `1ч` when the
      command has no argument, parsed and then forced to one hour when not positive. */
  function MuteDuration(arg: Option<string>): (r: Duration)
    ensures 1 <= r.minutes <= MaxMinutes
    ensures arg.None? ==> r == Duration(60, "1ч")
    ensures arg.Some? && ParseDuration(arg.value).minutes > 0 ==> r == ParseDuration(arg.value)
    ensures arg.Some? && ParseDuration(arg.value).minutes <= 0 ==> r == Duration(60, "1ч")
  {
    var parsed := ParseDuration(if arg.Some? then arg.value else "1ч");
    if parsed.minutes <= 0 then Duration(DefaultMinutes, "1ч") else parsed
  }

  /** A string without a marker letter has no marked digit run. */
  lemma NoMarkNoMatch(s: string, mark: char)
    ensures mark !in s ==> FirstMarked(s, mark) == None
  {
  }

  /** The digits of `n` followed by `mark` are read back as `n`. */
  lemma MarkedNumber(n: nat, mark: char, rest: string)
    requires !IsDigit(mark)
    ensures FirstMarked(NatToString(n) + [mark] + rest, mark) == Some(n)
  {
    var digits := NatToString(n);
    var s := digits + [mark] + rest;
    LeadingDigitsOfPrefix(digits, [mark] + rest);
    assert s == digits + ([mark] + rest);
    NatToStringRoundTrip(n);
  }

  /** A marked number whose mark is not the one searched for is skipped. */
  lemma SkipMarkedNumber(n: nat, other: char, mark: char, rest: string)
    requires !IsDigit(other) && other != mark
    ensures FirstMarked(NatToString(n) + [other] + rest, mark) == FirstMarked(rest, mark)
  {
    var digits := NatToString(n);
    var s := digits + [other] + rest;
    LeadingDigitsOfPrefix(digits, [other] + rest);
    assert s == digits + ([other] + rest);
    assert s[|digits|..] == [other] + rest;
    assert ([other] + rest)[1..] == rest;
  }

  /** `parse_duration("")` is the one-hour default, spelled `1 час`. */
  lemma ParseDurationEmpty()
    ensures ParseDuration("") == Duration(60, "1 час")
  {
  }

  /** A found marked digit run rules out the bare-integer reading: the
      marker letter is neither a digit nor a minus sign. */
  lemma MarkedNotInt(s: string, mark: char)
    requires FirstMarked(s, mark).Some?
    requires !IsDigit(mark) && mark != '-'
    ensures ParseInt(s) == None
  {
    NoMarkNoMatch(s, mark);
    var i :| 0 <= i < |s| && s[i] == mark;
    assert !IsDigit(s[i]);
    if i > 0 {
      assert s[1..][i - 1] == mark;
    }
  }

  /** Whatever tokens are found decide the result: a positive sum is capped
      and echoed hours first; a zero sum falls back to one hour and keeps the
      zero tokens in the echo, followed by `1ч`. */
  lemma ParseDurationTokens(s: string, h: Option<nat>, m: Option<nat>)
    requires FirstMarked(s, HourMark) == h && FirstMarked(s, MinuteMark) == m
    requires h.Some? || m.Some?
    ensures ParseDuration(s)
         == if TokenMinutes(h, m) > 0 then Duration(Min(TokenMinutes(h, m), MaxMinutes), Join(TokenParts(h, m)))
            else Duration(DefaultMinutes, Join(TokenParts(h, m) + ["1ч"]))
  {
    if h.Some? {
      MarkedNotInt(s, HourMark);
    } else {
      MarkedNotInt(s, MinuteMark);
    }
  }

  /** `' '.join` of two parts puts one space between them. */
  lemma JoinTwo(a: string, b: string)
    ensures Join([a, b]) == a + " " + b
  {
    assert [a, b][1..] == [b];
  }

  /** Both tokens found, not both zero: the sum, capped, echoed `<h>ч <m>м`. */
  lemma ParseDurationBoth(s: string, h: nat, m: nat)
    requires FirstMarked(s, HourMark) == Some(h) && FirstMarked(s, MinuteMark) == Some(m)
    requires 60 * h + m > 0
    ensures ParseDuration(s) == Duration(Min(60 * h + m, MaxMinutes), NatToString(h) + "ч " + NatToString(m) + "м")
  {
    ParseDurationTokens(s, Some(h), Some(m));
    var hs, ms := NatToString(h), NatToString(m);
    assert TokenParts(Some(h), Some(m)) == [hs + "ч", ms + "м"];
    JoinTwo(hs + "ч", ms + "м");
    EchoBoth(hs, ms);
  }

  /** Regrouping the two-part echo. */
  lemma EchoBoth(hs: string, ms: string)
    ensures hs + "ч" + " " + (ms + "м") == hs + "ч " + ms + "м"
  {
  }

  /** Hours alone, `"<h>ч"`: `h` hours, capped, echoed `<h>ч`; zero hours
      fall back to one hour and are echoed `0ч 1ч`. */
  lemma ParseDurationHoursOnly(h: nat)
    ensures ParseDuration(NatToString(h) + "ч")
         == if h > 0 then Duration(Min(60 * h, MaxMinutes), NatToString(h) + "ч")
            else Duration(60, NatToString(h) + "ч 1ч")
  {
    var s := NatToString(h) + [HourMark] + [];
    assert s == NatToString(h) + "ч";
    MarkedNumber(h, HourMark, []);
    SkipMarkedNumber(h, HourMark, MinuteMark, []);
    ParseDurationTokens(s, Some(h), None);
    assert TokenParts(Some(h), None) == [NatToString(h) + "ч"];
    assert [NatToString(h) + "ч"] + ["1ч"] == [NatToString(h) + "ч", "1ч"];
    JoinTwo(NatToString(h) + "ч", "1ч");
  }

  /** Minutes alone, `"<m>м"`: `m` minutes, capped, echoed `<m>м`; zero
      minutes fall back to one hour and are echoed `0м 1ч`. */
  lemma ParseDurationMinutesOnly(m: nat)
    ensures ParseDuration(NatToString(m) + "м")
         == if m > 0 then Duration(Min(m, MaxMinutes), NatToString(m) + "м")
            else Duration(60, NatToString(m) + "м 1ч")
  {
    var s := NatToString(m) + [MinuteMark] + [];
    assert s == NatToString(m) + "м";
    MarkedNumber(m, MinuteMark, []);
    SkipMarkedNumber(m, MinuteMark, HourMark, []);
    ParseDurationTokens(s, None, Some(m));
    assert TokenParts(None, Some(m)) == [NatToString(m) + "м"];
    assert [NatToString(m) + "м"] + ["1ч"] == [NatToString(m) + "м", "1ч"];
    JoinTwo(NatToString(m) + "м", "1ч");
  }

  /** Hours then minutes, `"<h>ч<m>м"`: the sum, capped, echoed hours first. */
  lemma ParseDurationHoursMinutes(h: nat, m: nat)
    requires h * 60 + m > 0
    ensures ParseDuration(NatToString(h) + "ч" + NatToString(m) + "м")
         == Duration(Min(h * 60 + m, MaxMinutes), NatToString(h) + "ч " + NatToString(m) + "м")
  {
    var tail := NatToString(m) + [MinuteMark];
    var s := NatToString(h) + [HourMark] + tail;
    assert s == NatToString(h) + "ч" + NatToString(m) + "м";
    MarkedNumber(h, HourMark, tail);
    SkipMarkedNumber(h, HourMark, MinuteMark, tail);
    assert tail == NatToString(m) + [MinuteMark] + [];
    MarkedNumber(m, MinuteMark, []);
    ParseDurationBoth(s, h, m);
  }

  /** Minutes written first, `"<m>м<h>ч"`: the same duration and the same echo,
      hours first. */
  lemma ParseDurationMinutesHours(h: nat, m: nat)
    requires h * 60 + m > 0
    ensures ParseDuration(NatToString(m) + "м" + NatToString(h) + "ч")
         == Duration(Min(h * 60 + m, MaxMinutes), NatToString(h) + "ч " + NatToString(m) + "м")
  {
    var tail := NatToString(h) + [HourMark];
    var s := NatToString(m) + [MinuteMark] + tail;
    assert s == NatToString(m) + "м" + NatToString(h) + "ч";
    MarkedNumber(m, MinuteMark, tail);
    SkipMarkedNumber(m, MinuteMark, HourMark, tail);
    assert tail == NatToString(h) + [HourMark] + [];
    MarkedNumber(h, HourMark, []);
    ParseDurationBoth(s, h, m);
  }

  /** A bare integer counts hours, capped, and is echoed as `<n>ч`; zero and
      negative numbers give a total that is not positive. */
  lemma ParseDurationBareHours(n: int)
    ensures ParseDuration(IntToString(n)) == Duration(Min(n * 60, MaxMinutes), IntToString(n) + "ч")
  {
    var s := IntToString(n);
    NoMarkNoMatch(s, HourMark);
    NoMarkNoMatch(s, MinuteMark);
    IntToStringRoundTrip(n);
  }

  /** No marked digit run and no integer form: the one-hour default, echoed `1ч`. */
  lemma ParseDurationNoToken(s: string)
    requires s != []
    requires forall i :: 0 <= i < |s| ==> !MarkedAt(s, i, HourMark) && !MarkedAt(s, i, MinuteMark)
    requires ParseInt(s) == None
    ensures ParseDuration(s) == Duration(60, "1ч")
  {
    FirstMarkedNoMatch(s, HourMark);
    FirstMarkedNoMatch(s, MinuteMark);
  }

  /** A bare run of digits, leading zeros included, counts hours; the echo
      is the number as `str` writes it: `"007"` gives seven hours shown `7ч`. */
  lemma ParseDurationBareDigits(s: string)
    requires s != [] && AllDigits(s)
    ensures ParseDuration(s) == Duration(Min(DigitsValue(s) * 60, MaxMinutes), NatToString(DigitsValue(s)) + "ч")
  {
    NoMarkNoMatch(s, HourMark);
    NoMarkNoMatch(s, MinuteMark);
  }

  /** `/mute 30м` is a thirty-minute mute. */
  lemma MuteThirtyMinutes()
    ensures MuteDuration(Some("30м")) == Duration(30, "30м")
  {
    var digits := NatToString(30);
    assert digits == NatToString(3) + "0";
    assert NatToString(3) == "3";
    ParseDurationMinutesOnly(30);
    assert digits + "м" == "30м";
  }

  /** `/mute 3000м` is capped at a day and keeps its echo. */
  lemma MuteCappedAtDay()
    ensures MuteDuration(Some("3000м")) == Duration(1440, "3000м")
  {
    var digits := NatToString(3000);
    assert digits == NatToString(300) + "0";
    assert NatToString(300) == NatToString(30) + "0";
    assert NatToString(30) == "30";
    ParseDurationMinutesOnly(3000);
    assert digits + "м" == "3000м";
  }

  /** `/mute 0` and `/mute -5` are read as hours that are not positive and
      become one hour. */
  lemma MuteNonPositiveHours()
    ensures MuteDuration(Some("0")) == Duration(60, "1ч")
    ensures MuteDuration(Some("-5")) == Duration(60, "1ч")
  {
    assert IntToString(0) == "0";
    ParseDurationBareHours(0);
    assert IntToString(-5) == "-5";
    ParseDurationBareHours(-5);
  }

  /** The result is not positive only for a bare integer that is not positive:
      the case the `/mute` handler replaces by one hour. */
  lemma ParseDurationNonPositive(s: string)
    ensures ParseDuration(s).minutes <= 0 <==> ParseInt(s).Some? && ParseInt(s).value <= 0
  {
    if ParseInt(s).Some? {
      NoMarkNoMatch(s, HourMark);
      NoMarkNoMatch(s, MinuteMark);
    }
  }

  /** `divmod(secs, 3600)` then `divmod(remainder, 60)` (Python floors, and so
      do Dafny's `/` and `%` by a positive divisor): whole hours and the whole
      minutes left over. */
  function RemainingParts(secs: int): (r: (int, int))
    ensures 0 <= r.1 < 60
    ensures 3600 * r.0 + 60 * r.1 <= secs < 3600 * r.0 + 60 * r.1 + 60
  {
    (secs / 3600, secs % 3600 / 60)
  }

  /** The remaining-time text `<h>ч <m>мин`, or `<m>мин` when no full hour is left. */
  function FormatRemaining(secs: int): (text: string)
    ensures HourMark in text <==> secs >= 3600
  {
    var (hours, minutes) := RemainingParts(secs);
    if hours > 0 then
      var text := NatToString(hours) + "ч " + NatToString(minutes) + "мин";
      assert text[|NatToString(hours)|] == HourMark;
      text
    else
      var text := NatToString(minutes) + "мин";
      assert forall i :: 0 <= i < |text| ==> text[i] != HourMark by {
        forall i | 0 <= i < |text| ensures text[i] != HourMark {
          if i < |NatToString(minutes)| {
            assert IsDigit(text[i]);
          }
        }
      }
      text
  }

  /** The numbers the remaining-time text shows are those of `RemainingParts`:
      it ends with the leftover minutes and `мин`, and starts with the whole
      hours and `ч ` when at least one full hour is left. */
  lemma FormatRemainingShows(secs: int)
    ensures var text := FormatRemaining(secs);
      var tail := NatToString(RemainingParts(secs).1) + "мин";
      && |tail| <= |text| && text[|text| - |tail|..] == tail
      && (secs >= 3600 ==> text == NatToString(secs / 3600) + "ч " + tail)
      && (secs < 3600 ==> text == tail)
  {
  }

  /** In `"<h>ч <m>мин"` the hours search finds `h`. */
  lemma HoursTextHours(h: nat, m: nat)
    ensures FirstMarked(NatToString(h) + "ч " + NatToString(m) + "мин", HourMark) == Some(h)
  {
    var rest := " " + NatToString(m) + "мин";
    assert NatToString(h) + "ч " + NatToString(m) + "мин" == NatToString(h) + [HourMark] + rest;
    MarkedNumber(h, HourMark, rest);
  }

  /** A leading non-digit is passed over by the search. */
  lemma SkipNonDigit(c: char, t: string, mark: char)
    requires !IsDigit(c)
    ensures FirstMarked([c] + t, mark) == FirstMarked(t, mark)
  {
    assert ([c] + t)[1..] == t;
  }

  /** In `"<h>ч <m>мин"` the minutes search passes over `<h>ч ` and finds `m`. */
  lemma HoursTextMinutes(h: nat, m: nat)
    ensures FirstMarked(NatToString(h) + "ч " + NatToString(m) + "мин", MinuteMark) == Some(m)
  {
    var tail := NatToString(m) + [MinuteMark] + "ин";
    var rest := [' '] + tail;
    assert NatToString(h) + "ч " + NatToString(m) + "мин" == NatToString(h) + [HourMark] + rest;
    SkipMarkedNumber(h, HourMark, MinuteMark, rest);
    SkipNonDigit(' ', tail, MinuteMark);
    MarkedNumber(m, MinuteMark, "ин");
  }

  /** `"<h>ч <m>мин"` read back by the duration grammar: `h` hours and `m`
      minutes, since the `м` of `мин` marks the minutes. */
  lemma ReparseHoursText(h: nat, m: nat)
    requires h > 0
    ensures ParseDuration(NatToString(h) + "ч " + NatToString(m) + "мин").minutes == Min(60 * h + m, MaxMinutes)
  {
    HoursTextHours(h, m);
    HoursTextMinutes(h, m);
    ParseDurationBoth(NatToString(h) + "ч " + NatToString(m) + "мин", h, m);
  }

  /** `"<m>мин"` read back by the duration grammar: `m` minutes. */
  lemma ReparseMinutesText(m: nat)
    requires m > 0
    ensures ParseDuration(NatToString(m) + "мин").minutes == Min(m, MaxMinutes)
  {
    var text := NatToString(m) + [MinuteMark] + "ин";
    assert text == NatToString(m) + "мин";
    MarkedNumber(m, MinuteMark, "ин");
    SkipMarkedNumber(m, MinuteMark, HourMark, "ин");
    assert FirstMarked("ин", HourMark) == None;
    ParseDurationTokens(text, None, Some(m));
  }

  /** The remaining-time text read back by the duration grammar gives the
      whole minutes left, capped like any duration, once at least a minute
      is left. */
  lemma FormatRemainingReparses(secs: int)
    requires secs >= 60
    ensures ParseDuration(FormatRemaining(secs)).minutes == Min(secs / 60, MaxMinutes)
  {
    var (h, m) := RemainingParts(secs);
    FormatRemainingShows(secs);
    assert secs / 60 == 60 * h + m;
    if h > 0 {
      assert FormatRemaining(secs) == NatToString(h) + "ч " + NatToString(m) + "мин";
      ReparseHoursText(h, m);
    } else {
      ReparseMinutesText(m);
    }
  }
}
