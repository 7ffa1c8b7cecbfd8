/** The bot's module-level registry as an object: `muted_users` and
    `banned_users` are fields that the handlers assign into and delete from.
    Every method is proved to leave exactly the state that the matching
    function of module Moderation describes (bot/handlers.py). */
module Handlers {
  import opened Wrappers
  import opened DurationParser
  import opened Identity
  import opened Moderation

  class Registry {
    var muted: map<UserId, MuteRecord>
    var banned: map<UserId, string>

    /** The registry as a value. */
    function Snapshot(): State
      reads this
    {
      State(muted, banned)
    }

    /** Both maps start empty. */
    constructor ()
      ensures Snapshot() == State(map[], map[])
    {
      muted := map[];
      banned := map[];
    }

    /** `is_user_muted`: true while a mute record for `u` has not yet ended;
        an ended record is deleted on the way. */
    method IsUserMuted(u: UserId, now: int) returns (b: bool)
      modifies this
      ensures b == Muted(old(Snapshot()), u, now)
      ensures Snapshot() == EvictIfExpired(old(Snapshot()), u, now)
    {
      if u in muted {
        var rec := muted[u];
        if now < rec.unmuteAt {
          return true;
        } else {
          muted := muted - {u};
          return false;
        }
      }
      return false;
    }

    /** `is_user_banned`. */
    function IsUserBanned(u: UserId): (b: bool)
      reads this
      ensures b <==> Banned(Snapshot(), u)
    {
      u in banned
    }

    /** The map updates of `handle_admin_commands`. */
    method HandleAdminCommand(repliedTo: Message, cmd: Command, now: int) returns (reply: Reply)
      modifies this
      ensures Step(Snapshot(), reply) == AdminCommand(old(Snapshot()), repliedTo, cmd, now)
    {
      var target := ExtractUserId(repliedTo);
      if target.None? {
        return CannotExtract;
      }
      var u := target.value;
      match cmd {
        case Ban(r) =>
          var reason := if r.Some? then r.value else DefaultBanReason;
          banned := banned[u := reason];
          if u in muted {
            muted := muted - {u};
          }
          reply := BanDone(reason);
        case Mute(d, r) =>
          if u in banned {
            return MuteRefused;
          }
          var reason := if r.Some? then r.value else DefaultMuteReason;
          var duration := MuteDuration(d);
          var unmuteAt := now + duration.minutes * 60;
          muted := muted[u := MuteRecord(unmuteAt, reason)];
          reply := MuteDone(duration.display, unmuteAt, reason);
        case Unmute =>
          if u in muted {
            muted := muted - {u};
            reply := UnmuteDone;
          } else {
            reply := NotMuted;
          }
        case Unban =>
          if u in banned {
            banned := banned - {u};
            reply := UnbanDone;
          } else {
            reply := NotBanned;
          }
        case Unknown =>
          reply := Help;
      }
    }

    /** `get_user_info`: ban first, then a live mute with its remaining time;
        an expired mute is deleted. */
    method UserInfo(repliedTo: Message, found: bool, now: int) returns (reply: InfoReply)
      modifies this
      ensures Step(Snapshot(), reply) == Moderation.UserInfo(old(Snapshot()), repliedTo, found, now)
    {
      var target := ExtractUserId(repliedTo);
      if target.None? {
        return InfoCannotExtract;
      }
      if !found {
        return InfoUserNotFound;
      }
      var u := target.value;
      var status := Unrestricted;
      if u in banned {
        status := BannedStatus(banned[u]);
      } else if u in muted {
        var rec := muted[u];
        if now < rec.unmuteAt {
          status := MutedStatus(rec.unmuteAt, FormatRemaining(rec.unmuteAt - now));
        } else {
          muted := muted - {u};
        }
      }
      reply := InfoStatus(status);
    }

    /** The gate in front of `command_start`, `send_message_to_group` and
        `supported_media`. */
    method Relay(u: UserId, m: Inbound, now: int) returns (d: Decision)
      modifies this
      ensures Step(Snapshot(), d) == Moderation.Relay(old(Snapshot()), u, m, now)
    {
      if IsUserBanned(u) {
        return RefusedBanned(banned[u]);
      }
      var rec := if u in muted then muted[u] else MuteRecord(0, "");
      var isMuted := IsUserMuted(u, now);
      if isMuted {
        return RefusedMuted(rec.reason, FormatRemaining(rec.unmuteAt - now));
      }
      match m {
        case Start => d := Greet;
        case Text(x) => d := if |x| > MaxTextLength then TooLong else Forward;
        case Media(c) => d := if |c| > MaxCaptionLength then TooLong else Forward;
      }
    }

    /** One pass of `check_mute_expirations`: collect every user whose mute
        has ended, then delete each of them. The users returned are the ones
        the bot then notifies. */
    method Sweep(now: int) returns (released: seq<UserId>)
      modifies this
      ensures Snapshot() == Moderation.Sweep(old(Snapshot()), now)
      ensures forall u :: u in released <==> u in Expired(old(Snapshot()), now)
      ensures forall i, j :: 0 <= i < j < |released| ==> released[i] != released[j]
    {
      released := CollectExpired(muted, now);
      var i := 0;
      while i < |released|
        invariant 0 <= i <= |released|
        invariant banned == old(banned)
        invariant forall u :: u in muted <==> u in old(muted) && u !in released[..i]
        invariant forall u :: u in muted ==> muted[u] == old(muted)[u]
      {
        assert released[i] in muted by {
          assert released[i] !in released[..i];
        }
        muted := muted - {released[i]};
        assert released[..i + 1] == released[..i] + [released[i]];
        i := i + 1;
      }
      assert released[..i] == released;
      assert muted == Moderation.Sweep(old(Snapshot()), now).muted;
    }
  }

  /** The first loop of `check_mute_expirations`: the users whose mute has
      ended at `now`, each listed once. */
  method CollectExpired(muted: map<UserId, MuteRecord>, now: int) returns (expired: seq<UserId>)
    ensures forall u :: u in expired <==> u in muted && now >= muted[u].unmuteAt
    ensures forall i, j :: 0 <= i < j < |expired| ==> expired[i] != expired[j]
  {
    expired := [];
    var rest := muted.Keys;
    while rest != {}
      invariant rest <= muted.Keys
      invariant forall u :: u in expired <==> u in muted && u !in rest && now >= muted[u].unmuteAt
      invariant forall i, j :: 0 <= i < j < |expired| ==> expired[i] != expired[j]
      decreases rest
    {
      var u :| u in rest;
      if now >= muted[u].unmuteAt {
        expired := expired + [u];
      }
      rest := rest - {u};
    }
  }
}
