/** The moderation registry of the support bot as values: who is muted until
    when and why, who is banned and why, and what each admin command, each
    status query, each relay check and one expiry sweep do to that state
    (bot/handlers.py). Time is a whole number of seconds supplied by the
    caller as `now`. */
module Moderation {
  import opened Wrappers
  import opened DurationParser
  import opened Identity

  /** A chat-platform user id, as read from the digits of a profile token. */
  type UserId = nat

  /** One entry of `muted_users`: when the mute ends and why it was given. */
  datatype MuteRecord = MuteRecord(unmuteAt: int, reason: string)

  /** `muted_users` and `banned_users`. */
  datatype State = State(muted: map<UserId, MuteRecord>, banned: map<UserId, string>)

  const DefaultBanReason: string := "Заблокирован администратором"
  const DefaultMuteReason: string := "Нарушение правил"

  /** Longest user text and longest media caption relayed to the staff chat. */
  const MaxTextLength: int := 4000
  const MaxCaptionLength: int := 1000

  /** A result together with the registry state it leaves behind. */
  datatype Step<R> = Step(state: State, result: R)

  /** `is_user_banned`. */
  predicate Banned(s: State, u: UserId) {
    u in s.banned
  }

  /** What `is_user_muted` answers: a mute record whose end lies in the future. */
  predicate Muted(s: State, u: UserId, now: int) {
    u in s.muted && now < s.muted[u].unmuteAt
  }

  /** The side effect of `is_user_muted`: an expired record for `u` is dropped. */
  function EvictIfExpired(s: State, u: UserId, now: int): (t: State)
    ensures t.banned == s.banned
    ensures forall v :: v in t.muted <==> v in s.muted && (v != u || Muted(s, u, now))
    ensures forall v :: v in t.muted ==> t.muted[v] == s.muted[v]
  {
    if u in s.muted && now >= s.muted[u].unmuteAt then s.(muted := s.muted - {u}) else s
  }

  // ----- admin commands -----

  /** An admin command after the command word has been split off: `/ban`
      with the rest of the line as its reason, `/mute` with its first
      argument word as the duration and the rest as the reason. */
  datatype Command =
    | Ban(reason: Option<string>)
    | Mute(duration: Option<string>, reason: Option<string>)
    | Unmute
    | Unban
    | Unknown

  /** The reply to the admin (and, for the `...Done` replies, the notice
      sent to the target user). */
  datatype Reply =
    | CannotExtract
    | BanDone(banReason: string)
    | MuteRefused
    | MuteDone(display: string, unmuteAt: int, muteReason: string)
    | UnmuteDone
    | NotMuted
    | UnbanDone
    | NotBanned
    | Help

  /** The effect of one admin command on the target user `u`. */
  function Execute(s: State, u: UserId, cmd: Command, now: int): Step<Reply> {
    match cmd
    case Ban(r) =>
      var reason := if r.Some? then r.value else DefaultBanReason;
      Step(State(s.muted - {u}, s.banned[u := reason]), BanDone(reason))
    case Mute(d, r) =>
      if u in s.banned then Step(s, MuteRefused)
      else
        var reason := if r.Some? then r.value else DefaultMuteReason;
        var duration := MuteDuration(d);
        var unmuteAt := now + duration.minutes * 60;
        Step(s.(muted := s.muted[u := MuteRecord(unmuteAt, reason)]), MuteDone(duration.display, unmuteAt, reason))
    case Unmute =>
      if u in s.muted then Step(s.(muted := s.muted - {u}), UnmuteDone) else Step(s, NotMuted)
    case Unban =>
      if u in s.banned then Step(s.(banned := s.banned - {u}), UnbanDone) else Step(s, NotBanned)
    case Unknown =>
      Step(s, Help)
  }

  /** `handle_admin_commands`: the target is read from the replied-to message;
      when that fails nothing changes. */
  function AdminCommand(s: State, repliedTo: Message, cmd: Command, now: int): Step<Reply> {
    match ExtractUserId(repliedTo)
    case None => Step(s, CannotExtract)
    case Some(u) => Execute(s, u, cmd, now)
  }

  /** `/ban` records the reason (or the default), clears any mute of the user,
      and touches no other user. */
  lemma BanClearsMute(s: State, u: UserId, r: Option<string>, now: int)
    ensures var t := Execute(s, u, Ban(r), now).state;
      && u in t.banned && t.banned[u] == (if r.Some? then r.value else DefaultBanReason)
      && u !in t.muted
      && (forall later :: !Muted(t, u, later))
      && (forall v :: v != u ==> (v in t.muted <==> v in s.muted) && (v in t.banned <==> v in s.banned))
      && (forall v :: v != u && v in t.muted ==> t.muted[v] == s.muted[v])
      && (forall v :: v != u && v in t.banned ==> t.banned[v] == s.banned[v])
  {
  }

  /** `/mute` on a banned user is refused and leaves both maps as they were. */
  lemma MuteBannedRefused(s: State, u: UserId, d: Option<string>, r: Option<string>, now: int)
    requires u in s.banned
    ensures Execute(s, u, Mute(d, r), now) == Step(s, MuteRefused)
  {
  }

  /** `/mute` on a user who is not banned stores a record ending between one
      minute and 24 hours from now, so the user is muted now and no longer
      muted a day later; the ban map and every other user are untouched. */
  lemma MuteWindow(s: State, u: UserId, d: Option<string>, r: Option<string>, now: int)
    requires u !in s.banned
    ensures var step := Execute(s, u, Mute(d, r), now);
      && step.result.MuteDone?
      && u in step.state.muted
      && now + 60 <= step.state.muted[u].unmuteAt <= now + MaxMinutes * 60
      && step.state.muted[u].unmuteAt == step.result.unmuteAt
      && step.state.muted[u].unmuteAt == now + 60 * MuteDuration(d).minutes
      && step.result.display == MuteDuration(d).display
      && step.state.muted[u].reason == (if r.Some? then r.value else DefaultMuteReason)
      && Muted(step.state, u, now)
      && !Muted(step.state, u, now + MaxMinutes * 60)
      && step.state.banned == s.banned
      && (forall v :: v != u ==> (v in step.state.muted <==> v in s.muted))
      && (forall v :: v != u && v in s.muted ==> step.state.muted[v] == s.muted[v])
  {
  }

  /** `/mute 30м` on a user who is not banned stores a mute ending 1800
      seconds from now and echoes `30м`. */
  lemma MuteThirtyMinutesStored(s: State, u: UserId, r: Option<string>, now: int)
    requires u !in s.banned
    ensures var step := Execute(s, u, Mute(Some("30м"), r), now);
      && u in step.state.muted
      && step.state.muted[u].unmuteAt == now + 1800
      && step.result == MuteDone("30м", now + 1800, if r.Some? then r.value else DefaultMuteReason)
  {
    MuteThirtyMinutes();
  }

  /** `/mute` overwrites: the new record does not depend on any earlier mute
      of the same user, so remaining time is never carried over. */
  lemma MuteOverwrites(s: State, u: UserId, d: Option<string>, r: Option<string>, now: int)
    requires u !in s.banned
    ensures Execute(s, u, Mute(d, r), now).state
         == Execute(s.(muted := s.muted - {u}), u, Mute(d, r), now).state
  {
  }

  /** `/unmute` removes only the user's own mute record and takes the
      "removed" branch exactly when there was one; otherwise nothing changes. */
  lemma UnmuteRemovesOnly(s: State, u: UserId, now: int)
    ensures var step := Execute(s, u, Unmute, now);
      && (step.result == UnmuteDone <==> u in s.muted)
      && (step.result == NotMuted <==> u !in s.muted)
      && step.state.muted == s.muted - {u}
      && step.state.banned == s.banned
      && (u !in s.muted ==> step.state == s)
  {
  }

  /** `/unban` removes only the user's own ban record and takes the "removed"
      branch exactly when there was one; otherwise nothing changes. */
  lemma UnbanRemovesOnly(s: State, u: UserId, now: int)
    ensures var step := Execute(s, u, Unban, now);
      && (step.result == UnbanDone <==> u in s.banned)
      && (step.result == NotBanned <==> u !in s.banned)
      && step.state.banned == s.banned - {u}
      && step.state.muted == s.muted
      && (u !in s.banned ==> step.state == s)
  {
  }

  /** A command whose target cannot be extracted, and an unknown command,
      change nothing. */
  lemma AdminCommandNoEffect(s: State, repliedTo: Message, cmd: Command, now: int)
    requires ExtractUserId(repliedTo).None? || cmd.Unknown?
    ensures AdminCommand(s, repliedTo, cmd, now).state == s
    ensures ExtractUserId(repliedTo).None? ==> AdminCommand(s, repliedTo, cmd, now).result == CannotExtract
  {
  }

  /** The relayed-text layout misdirects admin commands: `/ban` in reply to
      a text from user 2 whose name is `tg://user?id=1` bans user 1 and
      leaves user 2 free. */
  lemma BanHijack(s: State, now: int)
    requires 1 !in s.banned && 2 !in s.banned
    ensures var t := AdminCommand(s, Message(ProfileText(Token + "1", 2, ""), ""), Ban(None), now).state;
      1 in t.banned && 2 !in t.banned
  {
    ProfileTextHijack();
  }

  /** With the corrected layout every admin command acts on the sender of the
      relayed text, whatever the sender's name and text say. */
  lemma CommandReachesSender(s: State, name: string, id: UserId, text: string, cmd: Command, now: int)
    ensures AdminCommand(s, Message(ProfileTextIdFirst(name, id, text), ""), cmd, now) == Execute(s, id, cmd, now)
  {
  }

  // ----- /info -----

  /** The status line of `/info`. */
  datatype UserStatus =
    | Unrestricted
    | BannedStatus(banReason: string)
    | MutedStatus(unmuteAt: int, remaining: string)

  /** What `/info` answers: no target, no such user, or a status. */
  datatype InfoReply = InfoCannotExtract | InfoUserNotFound | InfoStatus(status: UserStatus)

  /** The status logic of `get_user_info`: a ban is reported first and leaves
      the mute map alone; otherwise a live mute is reported with its remaining
      time and an expired one is deleted. */
  function Status(s: State, u: UserId, now: int): Step<UserStatus> {
    if u in s.banned then Step(s, BannedStatus(s.banned[u]))
    else if u in s.muted then
      var rec := s.muted[u];
      if now < rec.unmuteAt then Step(s, MutedStatus(rec.unmuteAt, FormatRemaining(rec.unmuteAt - now)))
      else Step(s.(muted := s.muted - {u}), Unrestricted)
    else Step(s, Unrestricted)
  }

  /** `get_user_info`: the target is read from the replied-to message, then
      looked up on the platform (`found` is that lookup's outcome); the status
      logic runs only when both succeed. */
  function UserInfo(s: State, repliedTo: Message, found: bool, now: int): Step<InfoReply> {
    match ExtractUserId(repliedTo)
    case None => Step(s, InfoCannotExtract)
    case Some(u) =>
      if !found then Step(s, InfoUserNotFound)
      else
        var step := Status(s, u, now);
        Step(step.state, InfoStatus(step.result))
  }

  /** A ban outranks a mute; a mute is shown exactly when `is_user_muted`
      would say so, with the remaining time counted from `now`; the state
      left behind is that of the lazy expiry check, except for a banned user. */
  lemma StatusPrecedence(s: State, u: UserId, now: int)
    ensures var step := Status(s, u, now);
      && (step.result.BannedStatus? <==> Banned(s, u))
      && (step.result.MutedStatus? <==> !Banned(s, u) && Muted(s, u, now))
      && (step.result == Unrestricted <==> !Banned(s, u) && !Muted(s, u, now))
      && (step.result.MutedStatus? ==> step.result.unmuteAt - now > 0)
      && (Banned(s, u) ==> step.result == BannedStatus(s.banned[u]))
      && (!Banned(s, u) && Muted(s, u, now) ==>
            step.result == MutedStatus(s.muted[u].unmuteAt, FormatRemaining(s.muted[u].unmuteAt - now)))
      && step.state == (if Banned(s, u) then s else EvictIfExpired(s, u, now))
  {
  }

  // ----- relay gate -----

  /** A private message from an end user: `/start`, a text, or a supported
      media message with its caption ("" when it has none). */
  datatype Inbound = Start | Text(text: string) | Media(caption: string)

  /** What the bot does with it. */
  datatype Decision =
    | Greet
    | Forward
    | RefusedBanned(banReason: string)
    | RefusedMuted(muteReason: string, remaining: string)
    | TooLong

  /** `command_start`, `send_message_to_group` and `supported_media`: a ban is
      checked first, then a mute (with the lazy expiry check), then the size
      limit of the message kind. */
  function Relay(s: State, u: UserId, m: Inbound, now: int): Step<Decision> {
    if u in s.banned then Step(s, RefusedBanned(s.banned[u]))
    else
      var t := EvictIfExpired(s, u, now);
      if Muted(s, u, now) then
        Step(t, RefusedMuted(s.muted[u].reason, FormatRemaining(s.muted[u].unmuteAt - now)))
      else
        match m
        case Start => Step(t, Greet)
        case Text(x) => Step(t, if |x| > MaxTextLength then TooLong else Forward)
        case Media(c) => Step(t, if |c| > MaxCaptionLength then TooLong else Forward)
  }

  /** Within its size limit. */
  predicate WithinLimit(m: Inbound) {
    match m
    case Start => true
    case Text(x) => |x| <= MaxTextLength
    case Media(c) => |c| <= MaxCaptionLength
  }

  /** A message reaches the staff chat exactly when its sender is neither
      banned nor muted and it is within its size limit; a banned sender's
      message changes nothing, any other runs the lazy expiry check. */
  lemma RelayForwardsExactly(s: State, u: UserId, m: Inbound, now: int)
    ensures var step := Relay(s, u, m, now);
      && (step.result == Forward <==> !m.Start? && !Banned(s, u) && !Muted(s, u, now) && WithinLimit(m))
      && (step.result == TooLong <==> !Banned(s, u) && !Muted(s, u, now) && !WithinLimit(m))
      && (step.result.RefusedBanned? <==> Banned(s, u))
      && (step.result.RefusedMuted? <==> !Banned(s, u) && Muted(s, u, now))
      && (Banned(s, u) ==> step.result == RefusedBanned(s.banned[u]))
      && (!Banned(s, u) && Muted(s, u, now) ==>
            step.result == RefusedMuted(s.muted[u].reason, FormatRemaining(s.muted[u].unmuteAt - now)))
      && step.state == (if Banned(s, u) then s else EvictIfExpired(s, u, now))
  {
  }

  // ----- expiry sweep -----

  /** One pass of `check_mute_expirations`: every record with `now >= unmuteAt`
      is removed and every other record kept as it was. */
  function Sweep(s: State, now: int): (t: State)
    ensures t.banned == s.banned
    ensures forall u :: u in t.muted <==> Muted(s, u, now)
    ensures forall u :: u in t.muted ==> u in s.muted && t.muted[u] == s.muted[u]
  {
    s.(muted := map u | u in s.muted && now < s.muted[u].unmuteAt :: s.muted[u])
  }

  /** The users one pass releases (and notifies). */
  function Expired(s: State, now: int): (users: set<UserId>)
    ensures forall u :: u in users <==> u in s.muted && !Muted(s, u, now)
  {
    set u | u in s.muted && now >= s.muted[u].unmuteAt
  }

  /** After a pass every remaining record is live, and who counts as muted
      at `now` is exactly as before. */
  lemma SweepKeepsLive(s: State, now: int)
    ensures forall u :: u in Sweep(s, now).muted ==> now < Sweep(s, now).muted[u].unmuteAt
    ensures forall u :: Muted(Sweep(s, now), u, now) <==> Muted(s, u, now)
  {
  }

  /** A pass removes exactly the expired records: the records kept and the
      users released split the old mute map. */
  lemma SweepPartition(s: State, now: int)
    ensures Sweep(s, now).muted.Keys + Expired(s, now) == s.muted.Keys
    ensures Sweep(s, now).muted.Keys !! Expired(s, now)
    ensures |Sweep(s, now).muted| + |Expired(s, now)| == |s.muted|
  {
  }

  /** The lazy expiry check and the sweep agree: evicting before a pass
      changes nothing about its outcome, and after a pass there is nothing
      left for the lazy check to evict. */
  lemma SweepAbsorbsEviction(s: State, u: UserId, now: int)
    ensures Sweep(EvictIfExpired(s, u, now), now) == Sweep(s, now)
    ensures EvictIfExpired(Sweep(s, now), u, now) == Sweep(s, now)
  {
  }

  /** A later pass subsumes an earlier one; in particular a second pass at the
      same time changes nothing. */
  lemma SweepLater(s: State, t1: int, t2: int)
    requires t1 <= t2
    ensures Sweep(Sweep(s, t1), t2) == Sweep(s, t2)
  {
  }

  /** A mute given at `now` is live until its end and is removed by the lazy
      check and by a sweep at any time from its end on. */
  lemma MuteThenExpire(s: State, u: UserId, d: Option<string>, r: Option<string>, now: int, later: int)
    requires u !in s.banned
    requires later >= now + MuteDuration(d).minutes * 60
    ensures var t := Execute(s, u, Mute(d, r), now).state;
      && Muted(t, u, now)
      && !Muted(t, u, later)
      && u !in EvictIfExpired(t, u, later).muted
      && u !in Sweep(t, later).muted
  {
  }

  // ----- the invariant the handlers keep -----

  /** No user is both muted and banned: `/ban` deletes the mute and `/mute`
      refuses a banned user. The empty registry the bot starts with has it. */
  predicate Consistent(s: State) {
    s.muted.Keys !! s.banned.Keys
  }

  /** Every command, query, relay check and sweep keeps the registry consistent. */
  lemma ConsistentPreserved(s: State, u: UserId, cmd: Command, repliedTo: Message, found: bool, m: Inbound, now: int)
    requires Consistent(s)
    ensures Consistent(Execute(s, u, cmd, now).state)
    ensures Consistent(AdminCommand(s, repliedTo, cmd, now).state)
    ensures Consistent(EvictIfExpired(s, u, now))
    ensures Consistent(Status(s, u, now).state)
    ensures Consistent(UserInfo(s, repliedTo, found, now).state)
    ensures Consistent(Relay(s, u, m, now).state)
    ensures Consistent(Sweep(s, now))
  {
  }

  /** In a consistent registry a banned user has no mute record, so the
      precedence of a ban over a mute in `/info` and in the relay gate never
      has a mute to outrank. */
  lemma ConsistentBanExcludesMute(s: State, u: UserId, now: int)
    requires Consistent(s)
    ensures Banned(s, u) ==> u !in s.muted && !Muted(s, u, now)
    ensures Banned(s, u) ==> Status(s, u, now).state == EvictIfExpired(s, u, now)
  {
  }
}

