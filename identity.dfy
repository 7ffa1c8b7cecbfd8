/** How the bot finds the end user behind a message in the staff chat: the
    relayed copy carries a `tg://user?id=<digits>` token, and the admin's
    reply is routed to the id read back from it (bot/handlers.py). */
module Identity {
  import opened Wrappers
  import opened Digits

  /** The profile-link prefix that precedes the user id. */
  const Token: string := "tg://user?id="

  /** The replied-to message as `extract_user_id` sees it; an absent text or
      caption is the empty string, which Python treats alike (both falsy). */
  datatype Message = Message(text: string, caption: string)

  /** The parts of a chat profile that `get_name` reads; an absent part is "". */
  datatype Chat = Chat(firstName: string, lastName: string)

  /** `tg://user\?id=(\d+)` matches at the start of `t`. */
  predicate TokenAt(t: string) {
    |t| > |Token| && t[..|Token|] == Token && IsDigit(t[|Token|])
  }

  /** `re.search(r'tg://user\?id=(\d+)', s)` then `int(group(1))`: the digit
      group of the leftmost match. An occurrence of the prefix that is not
      followed by a digit is passed over and the search goes on. */
  function FirstId(s: string): Option<nat>
    decreases |s|
  {
    if s == [] then None
    else if TokenAt(s) then Some(DigitsValue(LeadingDigits(s[|Token|..])))
    else FirstId(s[1..])
  }

  /** The text searched by `extract_user_id`: the text, or the caption when
      there is no text. */
  function SearchedText(m: Message): string {
    if m.text != "" then m.text else m.caption
  }

  /** `extract_user_id`: the id of the leftmost token in the searched text;
      `None` where the source raises "cannot extract id". */
  function ExtractUserId(m: Message): Option<nat> {
    var s := SearchedText(m);
    if s != "" then FirstId(s) else None
  }

  /** `get_name`: empty without a first name, the first name alone without a
      last name, otherwise both joined by one space. */
  function GetName(c: Chat): (name: string)
    ensures c.firstName == "" <==> name == ""
    ensures c.firstName != "" ==> c.firstName <= name
    ensures c.firstName != "" && c.lastName != "" ==> name[|c.firstName|..] == " " + c.lastName
    ensures c.lastName == "" ==> name == c.firstName
  {
    if c.firstName == "" then ""
    else if c.lastName == "" then c.firstName
    else c.firstName + " " + c.lastName
  }

  /** The search succeeds exactly when some position starts a token. */
  lemma {:induction false} FirstIdNone(s: string)
    ensures FirstId(s).None? <==> forall i :: 0 <= i < |s| ==> !TokenAt(s[i..])
    decreases |s|
  {
    if s != [] {
      assert s[0..] == s;
      FirstIdNone(s[1..]);
      forall j | 0 <= j < |s| - 1 ensures s[1..][j..] == s[j + 1..] {
      }
      forall i | 1 <= i < |s| ensures s[i..] == s[1..][i - 1..] {
      }
    }
  }

  /** The search reads the digits of the leftmost token. */
  lemma {:induction false} FirstIdLeftmost(s: string, i: nat)
    requires i < |s| && TokenAt(s[i..])
    requires forall k :: 0 <= k < i ==> !TokenAt(s[k..])
    ensures FirstId(s) == Some(DigitsValue(LeadingDigits(s[i..][|Token|..])))
    decreases i
  {
    assert s[0..] == s;
    if i > 0 {
      forall k | 0 <= k < i - 1 ensures !TokenAt(s[1..][k..]) {
        assert s[1..][k..] == s[k + 1..];
      }
      assert s[1..][i - 1..] == s[i..];
      FirstIdLeftmost(s[1..], i - 1);
    }
  }

  /** `extract_user_id` fails exactly when the searched text holds no token;
      the caption is searched only when the text is empty. */
  lemma ExtractUserIdFails(m: Message)
    ensures ExtractUserId(m).None? <==>
            forall i :: 0 <= i < |SearchedText(m)| ==> !TokenAt(SearchedText(m)[i..])
    ensures m.text != "" ==> forall c :: ExtractUserId(m) == ExtractUserId(Message(m.text, c))
  {
    FirstIdNone(SearchedText(m));
  }

  /** No position of `a` starts a token. */
  predicate TokenFree(a: string) {
    forall i :: 0 <= i < |a| ==> !TokenAt(a[i..])
  }

  /** Text without a `t` cannot start a token, so the search goes past it. */
  lemma {:induction false} SkipWithoutT(a: string, b: string)
    requires 't' !in a
    ensures FirstId(a + b) == FirstId(b)
  {
    if a != [] {
      assert (a + b)[0] == a[0];
      assert !TokenAt(a + b) by {
        if |a + b| > |Token| { assert (a + b)[..|Token|][0] == a[0]; }
      }
      assert (a + b)[1..] == a[1..] + b;
      SkipWithoutT(a[1..], b);
    } else {
      assert a + b == b;
    }
  }

  /** A token cannot begin in a token-free `a` and run on into `b` when `b`
      starts with a line break, which is neither in the prefix nor a digit. */
  lemma {:induction false} SkipTokenFree(a: string, b: string)
    requires TokenFree(a)
    requires b != [] && b[0] == '\n'
    ensures FirstId(a + b) == FirstId(b)
  {
    if a != [] {
      var s := a + b;
      assert a[0..] == a;
      if |a| > |Token| {
        assert s[..|Token|] == a[..|Token|] && s[|Token|] == a[|Token|];
      } else {
        assert s[|a|] == '\n';
        assert forall k :: 0 <= k < |Token| ==> Token[k] != '\n';
        if |a| < |Token| < |s| {
          assert s[..|Token|][|a|] == s[|a|];
        }
      }
      assert !TokenAt(s);
      forall i | 0 <= i < |a| - 1 ensures !TokenAt(a[1..][i..]) {
        assert a[1..][i..] == a[i + 1..];
      }
      assert s[1..] == a[1..] + b;
      SkipTokenFree(a[1..], b);
    } else {
      assert a + b == b;
    }
  }

  /** A token followed by the digits of `id` and then a non-digit is read as `id`. */
  lemma TokenThenId(id: nat, rest: string)
    requires rest == [] || !IsDigit(rest[0])
    ensures FirstId(Token + NatToString(id) + rest) == Some(id)
  {
    var s := Token + NatToString(id) + rest;
    assert s[..|Token|] == Token;
    assert s[|Token|..] == NatToString(id) + rest;
    LeadingDigitsOfPrefix(NatToString(id), rest);
    NatToStringRoundTrip(id);
  }

  /** A string on which the search finds nothing is token-free. */
  lemma NoIdTokenFree(a: string)
    requires FirstId(a) == None
    ensures TokenFree(a)
  {
    FirstIdNone(a);
  }

  /** The staff-chat text built for a user's text message: name line, profile
      line with the id token, blank line, the user's text. */
  function ProfileText(fullName: string, id: nat, text: string): string {
    "Имя: " + fullName + "\nПрофиль: " + Token + NatToString(id) + "\n\n" + text
  }

  /** The staff-chat caption built for a user's media message: the user's
      caption, then a blank line, the name line and the id token. */
  function MediaCaption(caption: string, fullName: string, id: nat): string {
    caption + "\n\nИмя: " + fullName + "\n" + Token + NatToString(id)
  }

  /** The text layout regrouped around the sender's name. */
  lemma ProfileTextShape(fullName: string, id: nat, text: string)
    ensures ProfileText(fullName, id, text)
         == "Имя: " + (fullName + ("\nПрофиль: " + (Token + NatToString(id) + ("\n\n" + text))))
  {
  }

  /** A reply to a relayed text message reaches its sender, provided the
      sender's full name does not itself contain a token. */
  lemma ProfileTextRoundTrip(fullName: string, id: nat, text: string)
    requires FirstId(fullName) == None
    ensures ExtractUserId(Message(ProfileText(fullName, id, text), "")) == Some(id)
  {
    var tail := Token + NatToString(id) + ("\n\n" + text);
    var t3 := "\nПрофиль: " + tail;
    var t2 := fullName + t3;
    ProfileTextShape(fullName, id, text);
    TokenThenId(id, "\n\n" + text);
    SkipWithoutT("\nПрофиль: ", tail);
    NoIdTokenFree(fullName);
    SkipTokenFree(fullName, t3);
    SkipWithoutT("Имя: ", t2);
  }

  /** A reply to a relayed media message reaches its sender, provided neither
      the caption nor the full name contains a token. */
  lemma MediaCaptionRoundTrip(caption: string, fullName: string, id: nat)
    requires FirstId(caption) == None && FirstId(fullName) == None
    ensures ExtractUserId(Message("", MediaCaption(caption, fullName, id))) == Some(id)
  {
    var tail := Token + NatToString(id);
    var s := MediaCaption(caption, fullName, id);
    assert s == caption + ("\n\nИмя: " + (fullName + ("\n" + tail)));
    TokenThenId(id, []);
    assert tail == Token + NatToString(id) + [];
    assert "\n" + tail == [] + ("\n" + tail);
    SkipTokenFree([], "\n" + tail);
    NoIdTokenFree(fullName);
    SkipTokenFree(fullName, "\n" + tail);
    SkipWithoutT("\n\nИмя: ", fullName + ("\n" + tail));
    NoIdTokenFree(caption);
    SkipTokenFree(caption, "\n\nИмя: " + (fullName + ("\n" + tail)));
  }

  /** As written, a token in the user's own caption comes first: a media
      message from user 2 captioned `tg://user?id=1` sends the admin's reply
      to user 1. */
  lemma MediaCaptionHijack()
    ensures ExtractUserId(Message("", MediaCaption(Token + "1", "", 2))) == Some(1)
  {
    var rest := "\n\nИмя: " + "" + "\n" + Token + NatToString(2);
    assert NatToString(1) == "1";
    assert MediaCaption(Token + "1", "", 2) == Token + NatToString(1) + rest;
    TokenThenId(1, rest);
  }

  /** As written, a token in the sender's full name comes first: user 2 named
      `tg://user?id=1` has the admin's reply sent to user 1. */
  lemma ProfileTextHijack()
    ensures ExtractUserId(Message(ProfileText(Token + "1", 2, ""), "")) == Some(1)
  {
    var rest := "\nПрофиль: " + Token + NatToString(2) + "\n\n" + "";
    var t := Token + NatToString(1) + rest;
    assert NatToString(1) == "1";
    assert ProfileText(Token + "1", 2, "") == "Имя: " + t;
    TokenThenId(1, rest);
    SkipWithoutT("Имя: ", t);
  }

  /** Corrected media caption: the id token comes before anything the user
      chose, so a reply reaches the sender whatever the caption and the name say. */
  function MediaCaptionIdFirst(caption: string, fullName: string, id: nat): (c: string)
    ensures ExtractUserId(Message("", c)) == Some(id)
  {
    var rest := "\nИмя: " + fullName + "\n\n" + caption;
    TokenThenId(id, rest);
    Token + NatToString(id) + rest
  }

  /** Corrected text layout: the profile line with the id token comes before
      the name, so a reply reaches the sender whatever the name and the text say. */
  function ProfileTextIdFirst(fullName: string, id: nat, text: string): (t: string)
    ensures ExtractUserId(Message(t, "")) == Some(id)
  {
    var rest := "\nИмя: " + fullName + "\n\n" + text;
    TokenThenId(id, rest);
    SkipWithoutT("Профиль: ", Token + NatToString(id) + rest);
    "Профиль: " + (Token + NatToString(id) + rest)
  }
}
