# Support-bot moderation core, modelled in Dafny

The bot relays private messages between end users and a staff group chat.
Staff moderate users by replying to a relayed message with `/ban`, `/mute`,
`/unmute`, `/unban` or `/info`. All of that logic lives in `bot/handlers.py`.
This project models the part of that file that does not depend on the chat
platform:

- the mute-duration grammar of `/mute` (`parse_duration`, with strings like
  `2ч30м`) and the remaining-time text shown to muted users;
- `extract_user_id` and `get_name`. The first finds the user behind a relayed
  message through the `tg://user?id=<digits>` token embedded in the message;
- the moderation registry: the `muted_users` and `banned_users` maps, the lazy
  expiry in `is_user_muted`, the map updates of the admin commands, the status
  logic of `/info`, and the ban/mute/size gate applied before a user message is
  relayed;
- one pass of the background expiry sweeper `check_mute_expirations`.

Files:

- `wrappers.dfy`: `Option`.
- `digits.dfy` (module `Digits`): ASCII digits, Python's `int()` and `str()` on
  them, and the greedy `\d+`.
- `duration.dfy` (module `DurationParser`): `parse_duration`, the `/mute`
  duration rule and the remaining-time text.
- `identity.dfy` (module `Identity`): `extract_user_id`, `get_name`, and the
  staff-chat texts that carry the id token.
- `moderation.dfy` (module `Moderation`): the registry as a value (`State`).
  Each command, query, relay check and sweep is a function of that state, with
  lemmas about it.
- `registry.dfy` (module `Handlers`): class `Registry`, whose two map fields
  the methods assign into and delete from as the handlers do. Each method is
  proved to leave the state that the matching `Moderation` function gives.
  `CollectExpired` is the sweeper's collection loop.

Modelling conventions:

- Time is a whole number of seconds, passed in as `now`. A mute of `m` minutes
  given at `now` ends at `now + 60*m`.
- An absent message text, caption, first name or last name is the empty
  string. Python treats `None` and `""` alike in every place these are read.
- Digits are ASCII `0`-`9`. `int()` on a whole string accepts ASCII digits with
  an optional leading `-`.
- Python's `divmod` by a positive number floors. Dafny's `/` and `%` by a
  positive number agree with it, negative operands included.

Behaviour of the code worth noting:

- `parse_duration` itself may return a non-positive total: a bare integer
  `0` or `-5` is read as that many hours. Only the `/mute` handler replaces
  such a total by one hour (`MuteDuration`).
- `/ban` deletes the user's mute record. It does not merely outrank it.
- The empty-duration default is shown as `1 час`. Every other default is shown
  as `1ч`.
- `extract_user_id` does not stop at the first `tg://user?id=`. The regular
  expression passes over an occurrence not followed by a digit and keeps
  searching, and `Identity.FirstId` does the same.
- Tokens that add up to zero, such as `0ч`, fall through to the one-hour
  default while keeping their text: `parse_duration("0ч")` is `(60, "0ч 1ч")`.

## Model

| member | source | states |
|---|---|---|
| `Digits.NatToString` | bot/handlers.py:100 | `str(n)` of a natural number is a non-empty run of digits with no leading zero |
| `Digits.IntToString` | bot/handlers.py:114 | `str(n)` is all digits exactly when `n` is not negative |
| `Digits.NatToStringRoundTrip` | bot/handlers.py:72 | `int()` of the digits `str(n)` writes gives `n` back |
| `Digits.LeadingDigits` | bot/handlers.py:96 | the greedy `\d+` takes the longest digit prefix: a prefix of the input, all digits, and followed by a non-digit or by nothing |
| `Digits.ParseInt` | bot/handlers.py:111-112 | `int()` succeeds exactly on a non-empty digit string, or on one `-` followed by a non-empty digit string; the value is the digits' number, negated after the `-` |
| `Digits.ParseIntLeadingZeros` | bot/handlers.py:111-112 | `int()` also accepts strings `str` never writes: leading zeros (`"007"` is 7) and a minus sign before zero (`"-0"` is 0) |
| `Digits.IntToStringRoundTrip` | bot/handlers.py:111-114 | `int(str(n)) == n` for every integer, negative ones included |
| `DurationParser.FirstMarked` | bot/handlers.py:96-105 | `re.search(r'(\d+)ч')` / `(\d+)м` and `int(group(1))`; its meaning is fixed by `FirstMarkedNone` and `FirstMarkedLeftmost` |
| `DurationParser.FirstMarkedNone` | bot/handlers.py:96-97 | the `(\d+)ч` / `(\d+)м` search finds nothing exactly when no position starts a digit run that the marker follows |
| `DurationParser.FirstMarkedLeftmost` | bot/handlers.py:96-98 | the search returns the value of the digit run at the leftmost matching position, matching Python's leftmost-match `re.search` |
| `DurationParser.ParseDuration` | bot/handlers.py:83-122 | the parsed total never exceeds 1440 minutes |
| `DurationParser.ParseDurationEmpty` | bot/handlers.py:89-90 | the empty string gives `(60, "1 час")` |
| `DurationParser.ParseDurationTokens` | bot/handlers.py:95-122 | whenever an hours or a minutes token is found: a positive sum gives `min(sum, 1440)` echoed by the found tokens, hours first; a zero sum gives 60 minutes echoed by the tokens followed by `1ч` |
| `DurationParser.ParseDurationBoth` | bot/handlers.py:95-122 | when both tokens are found and are not both zero, the result is `min(60h+m, 1440)` shown as `"<h>ч <m>м"` |
| `DurationParser.ParseDurationHoursOnly` | bot/handlers.py:95-122 | `"<h>ч"` gives `min(60h, 1440)` shown as `"<h>ч"`; `"0ч"` gives 60 minutes shown as `"0ч 1ч"` |
| `DurationParser.ParseDurationMinutesOnly` | bot/handlers.py:95-122 | `"<m>м"` gives `min(m, 1440)` shown as `"<m>м"`; `"0м"` gives 60 minutes shown as `"0м 1ч"` |
| `DurationParser.ParseDurationHoursMinutes` | bot/handlers.py:95-122 | when `h` and `m` are not both zero, `"<h>ч<m>м"` parses to `min(60h+m, 1440)` shown as `"<h>ч <m>м"` |
| `DurationParser.ParseDurationMinutesHours` | bot/handlers.py:95-122 | when `h` and `m` are not both zero, `"<m>м<h>ч"` parses to the same total and the same text, hours first |
| `DurationParser.ParseDurationBareHours` | bot/handlers.py:109-120 | a bare integer `n` counts hours: `min(60n, 1440)` shown as `"<n>ч"`, zero and negative `n` included |
| `DurationParser.ParseDurationBareDigits` | bot/handlers.py:109-120 | any bare digit string, leading zeros included, counts hours, and the echo is the number as `str` writes it: `"007"` gives 420 minutes shown as `"7ч"` |
| `DurationParser.ParseDurationNoToken` | bot/handlers.py:115-117 | a non-empty string with no marked digit run and no integer form gives `(60, "1ч")` |
| `DurationParser.ParseDurationNonPositive` | bot/handlers.py:109-120 | the total is not positive exactly when the whole string is a bare integer that is not positive |
| `DurationParser.MuteDuration` | bot/handlers.py:321-334 | the `/mute` duration always lies in 1..1440 minutes; without an argument it is one hour shown as `1ч`; otherwise a positive parse of the argument is kept as it is and a parse that is not positive becomes one hour shown as `1ч` |
| `DurationParser.MuteThirtyMinutes` | bot/handlers.py:321-334 | `/mute 30м` gives thirty minutes shown as `30м` |
| `DurationParser.MuteCappedAtDay` | bot/handlers.py:321-334 | `/mute 3000м` is capped at 1440 minutes and still shown as `3000м` |
| `DurationParser.MuteNonPositiveHours` | bot/handlers.py:330-334 | `/mute 0` and `/mute -5` parse to hours that are not positive and become one hour shown as `1ч` |
| `DurationParser.RemainingParts` | bot/handlers.py:157-158 | `divmod` gives whole hours `h` and leftover minutes `m < 60` with `3600h + 60m <= secs < 3600h + 60m + 60` |
| `DurationParser.FormatRemaining` | bot/handlers.py:157-159 | the text contains `ч` exactly when at least one full hour is left |
| `DurationParser.FormatRemainingShows` | bot/handlers.py:157-159 | the text ends with the leftover minutes of `RemainingParts` followed by `мин`, and is the whole hours followed by `ч ` and that ending when at least one full hour is left, or the ending alone otherwise |
| `DurationParser.FormatRemainingReparses` | bot/handlers.py:157-159 | read back by the duration grammar, the remaining-time text gives the whole minutes left, capped at 1440, once at least a minute is left |
| `Identity.GetName` | bot/handlers.py:75-81 | empty exactly without a first name; otherwise the first name, followed by a space and the last name when there is one |
| `Identity.FirstId` | bot/handlers.py:70-72 | `re.search(r'tg://user\?id=(\d+)')` and `int(group(1))`; its meaning is fixed by `FirstIdNone` and `FirstIdLeftmost` |
| `Identity.ExtractUserId` | bot/handlers.py:61-73 | the text is searched, or the caption when there is no text; its failure cases are stated by `ExtractUserIdFails` |
| `Identity.FirstIdNone` | bot/handlers.py:69-73 | the id search fails exactly when no position starts `tg://user?id=` followed by a digit |
| `Identity.FirstIdLeftmost` | bot/handlers.py:70-72 | the id search reads the digits after the leftmost such token |
| `Identity.ExtractUserIdFails` | bot/handlers.py:61-73 | extraction fails exactly when the searched text has no token; the caption is searched only when the text is empty |
| `Identity.ProfileText` | bot/handlers.py:208-212 | the staff-chat text of a relayed message as composed: name line, profile token line, blank line, the user's text; read back by `ProfileTextRoundTrip` |
| `Identity.MediaCaption` | bot/handlers.py:425-426 | the staff-chat caption of a relayed media message as composed: the user's caption, a blank line, the name line, the token; read back by `MediaCaptionRoundTrip` |
| `Identity.ProfileTextRoundTrip` | bot/handlers.py:206-214 | a relayed text message yields its sender's id again, provided the sender's name holds no token |
| `Identity.MediaCaptionRoundTrip` | bot/handlers.py:422-428 | a relayed media caption yields its sender's id again, provided neither the caption nor the name holds a token |
| `Identity.ProfileTextHijack` | bot/handlers.py:209-210 | as written, a token in the sender's name wins: user 2 named `tg://user?id=1` is read as user 1 |
| `Identity.MediaCaptionHijack` | bot/handlers.py:425-426 | as written, a token in the caption wins: a caption `tg://user?id=1` from user 2 is read as user 1 |
| `Identity.ProfileTextIdFirst` | bot/handlers.py:208-211 | with the profile line first, a reply reaches the sender for every name and text |
| `Identity.MediaCaptionIdFirst` | bot/handlers.py:425-426 | with the id token first, a reply reaches the sender for every caption and name |
| `Moderation.EvictIfExpired` | bot/handlers.py:124-134 | the lazy expiry check removes the user's record only if it has ended, and keeps every other record and the ban map |
| `Moderation.Execute` | bot/handlers.py:289-388 | the map update and reply of each admin command on an extracted target; stated by the command lemmas below |
| `Moderation.AdminCommand` | bot/handlers.py:277-288 | the target is extracted from the replied-to message before any command runs; stated by `AdminCommandNoEffect` |
| `Moderation.BanHijack` | bot/handlers.py:206-214 | with the text layout as written, `/ban` in reply to a text from user 2 named `tg://user?id=1` bans user 1 and not user 2 |
| `Moderation.CommandReachesSender` | bot/handlers.py:277-288 | with the corrected layout, every admin command in reply to a relayed text acts on its sender, whatever the name and text |
| `Moderation.BanClearsMute` | bot/handlers.py:289-301 | `/ban` stores the given reason, or the default one, and deletes the user's mute, so the user is not muted at any time; other users are untouched |
| `Moderation.MuteBannedRefused` | bot/handlers.py:313-316 | `/mute` on a banned user is refused and changes neither map |
| `Moderation.MuteWindow` | bot/handlers.py:318-338 | `/mute` on a user who is not banned stores a record ending `MuteDuration` minutes from now, so between 1 and 1440 minutes, with the given or default reason, and echoes `MuteDuration`'s text; the user is muted now, and other users and the ban map are untouched |
| `Moderation.MuteThirtyMinutesStored` | bot/handlers.py:318-338 | `/mute 30м` stores a mute ending 1800 seconds from now and echoes `30м` |
| `Moderation.MuteOverwrites` | bot/handlers.py:336-338 | a new mute replaces any earlier one; no remaining time is carried over |
| `Moderation.UnmuteRemovesOnly` | bot/handlers.py:353-366 | `/unmute` deletes only the user's mute and reports "removed" exactly when there was one; otherwise nothing changes |
| `Moderation.UnbanRemovesOnly` | bot/handlers.py:368-381 | `/unban` deletes only the user's ban and reports "removed" exactly when there was one; otherwise nothing changes |
| `Moderation.AdminCommandNoEffect` | bot/handlers.py:279-283 | a command whose target cannot be extracted, or an unknown command, changes nothing |
| `Moderation.Status` | bot/handlers.py:239-252 | the status logic of `/info`; stated by `StatusPrecedence` |
| `Moderation.UserInfo` | bot/handlers.py:220-252 | `/info` extracts the target, then looks it up, then runs the status logic; stated through `Status` |
| `Moderation.StatusPrecedence` | bot/handlers.py:239-252 | `/info` reports a ban before a mute, and a mute exactly when `is_user_muted` would; a ban shows its stored reason, a mute shows its record's end and `FormatRemaining` of the seconds left; an expired mute is deleted unless the user is banned |
| `Moderation.Relay` | bot/handlers.py:141-420 | the ban check, the mute check with its lazy expiry, and the size limit applied to `/start` (141-172), a text (174-204) and a media message (390-420); stated by `RelayForwardsExactly` |
| `Moderation.RelayForwardsExactly` | bot/handlers.py:141-420 | a message is forwarded exactly when its sender is neither banned nor muted and it is within 4000 text / 1000 caption characters; a refusal for a ban shows the stored ban reason, one for a mute shows the stored mute reason and `FormatRemaining` of the seconds left |
| `Moderation.Sweep` | bot/handlers.py:39-46 | one pass keeps exactly the records that have not ended and leaves them and the ban map unchanged |
| `Moderation.Expired` | bot/handlers.py:39-42 | the released users are exactly those with a record that has ended |
| `Moderation.SweepKeepsLive` | bot/handlers.py:39-46 | after a pass every record is live, and who is muted at `now` is unchanged |
| `Moderation.SweepPartition` | bot/handlers.py:39-46 | the kept records and the released users split the old mute map |
| `Moderation.SweepAbsorbsEviction` | bot/handlers.py:126-133 | the lazy check before a pass does not change the pass's result, and after a pass it has nothing left to evict |
| `Moderation.SweepLater` | bot/handlers.py:34-56 | a later pass subsumes an earlier one, so a repeated pass changes nothing |
| `Moderation.MuteThenExpire` | bot/handlers.py:337-338 | a fresh mute is live at `now` and is gone, both by the lazy check and by a sweep, from its end on |
| `Moderation.ConsistentPreserved` | bot/handlers.py:292-316 | no user is both muted and banned, and every command, query, relay check and sweep keeps it so |
| `Moderation.ConsistentBanExcludesMute` | bot/handlers.py:239-243 | in a consistent registry a banned user has no mute record, so the ban-over-mute precedence never has a mute to outrank |
| `Handlers.Registry.constructor` | bot/handlers.py:25-29 | both maps start empty |
| `Handlers.Registry.IsUserMuted` | bot/handlers.py:124-134 | answers whether the user has a live mute, and leaves the state the lazy expiry check gives |
| `Handlers.Registry.IsUserBanned` | bot/handlers.py:136-138 | true exactly when the user has a ban record |
| `Handlers.Registry.HandleAdminCommand` | bot/handlers.py:277-388 | the map updates and the reply of every admin command are those of `Moderation.AdminCommand` |
| `Handlers.Registry.UserInfo` | bot/handlers.py:220-252 | the `/info` reply and its expiry side effect are those of `Moderation.UserInfo` |
| `Handlers.Registry.Relay` | bot/handlers.py:141-420 | the relay decision and its expiry side effect for `/start` (141-172), a text (174-204) and a media message (390-420) are those of `Moderation.Relay` |
| `Handlers.Registry.Sweep` | bot/handlers.py:36-46 | deletes every ended mute and nothing else, and returns each released user once |
| `Handlers.CollectExpired` | bot/handlers.py:37-42 | lists each user whose mute has ended at `now` exactly once |

## Findings

| source | as written | input that shows it | evidently intended | confidence | as-written member | corrected member |
|---|---|---|---|---|---|---|
| bot/handlers.py:425-426 | the user's caption comes before the `tg://user?id=` token, and `extract_user_id` takes the leftmost token | a media message from user 2 captioned `tg://user?id=1`: the admin's reply goes to user 1 | the reply goes to the sender of the relayed message | medium; not executed | `Identity.MediaCaptionHijack` | `Identity.MediaCaptionIdFirst` |
| bot/handlers.py:209-210 | the sender's full name comes before the token | a text from user 2 whose name is `tg://user?id=1`: the admin's reply goes to user 1 | the reply goes to the sender of the relayed message | medium; not executed | `Identity.ProfileTextHijack` | `Identity.ProfileTextIdFirst` |

The misrouting reaches every admin command and `/info`. Each of them reads
its target out of the replied-to message with the same `extract_user_id`
(bot/handlers.py:223 and 280), and the model does the same in
`Moderation.AdminCommand` and `Moderation.UserInfo`. So `/ban`, `/mute`,
`/unmute`, `/unban` and `/info` in reply to a hijacked text all act on the
user the name or caption names. `Moderation.BanHijack` shows it for `/ban`:
replying to a text from user 2 whose name is `tg://user?id=1` bans user 1
and leaves user 2 free. With the corrected layout,
`Moderation.CommandReachesSender` shows that every command acts on the
sender. The round trips for the layouts as written
(`ProfileTextRoundTrip`, `MediaCaptionRoundTrip`) hold only under the
no-token preconditions that the findings show are needed.

Both texts are sent with `parse_mode='HTML'` (bot/handlers.py:213 and 427),
which widens both findings: the staff chat shows the rendered text, so a name
or caption holding an HTML-escaped token such as `&#116;g://user?id=1` meets
the no-token preconditions of the round trips as composed and still shows
the chat platform a token ahead of the real one.

## Left out

- HTML rendering of the relayed texts (`parse_mode='HTML'`). The model
  assumes the staff chat holds the composed text verbatim. It does not model
  entity decoding, tag removal, or a send that fails on a stray `<`.

- The chat-platform transport: sending, copying and forwarding messages, the
  `get_chat` lookup, and the handling of `TelegramAPIError`. The `/info` lookup
  is a `found` parameter. A failed notification changes only the reply wording.
  The map update has already happened by then, so the registry effect is the
  same.
- Notifications to the target user are not modelled as events. The `...Done`
  replies stand for the commands that notify, and `Registry.Sweep` returns the
  released users that the sweeper notifies.
- The sweeper's endless loop, its 60-second sleep, its exception handling, and
  any interleaving with the handlers (concurrency). One synchronous pass is
  modelled. `SweepAbsorbsEviction` shows that a lazy check and a whole pass
  commute; interleavings inside a pass are not modelled. In the code each
  notification inside the deletion loop (bot/handlers.py:45-54) lets the
  handlers run. A `/mute` of a user already collected as expired is then
  deleted by the loop's `del`, and that user is told the mute was lifted. A
  lazy check or `/unmute` that removes the record first makes the `del` raise
  `KeyError`, and the rest of the pass is abandoned until the next minute
  (bot/handlers.py:57).
- `datetime.now()`, `timedelta`, `total_seconds()` and `strftime`. The clock
  is the `now` parameter in whole seconds. The end time is returned as that
  integer, not as formatted text.
- Command tokenisation: `strip()`, `split(maxsplit=1)` and `lower()` of the
  admin's text. `Command` is the result of that split. The reason of `/ban` is
  the rest of the line. `/mute` gets its first argument word as the duration
  and the rest as the reason. A reason is only read after a duration word,
  so `Mute(None, Some(r))` does not arise from the handler. The model
  accepts it and stores `r`.
- The routing by aiogram filters (bot/handlers.py:174, 217-219, 260,
  272-276, 390): the private-chat and group-chat conditions, the
  `F.reply_to_message` requirement, and the handler order that sends `/info`
  to `get_user_info` before `handle_admin_commands`. Each modelled operation
  starts where its handler has been selected.
- The answer to an admin's plain reply (`send_message_answer`). It uses only
  `extract_user_id` and the transport.
- Reply wording, logging, and the `GROUP_ID` / `GROUP_TYPE` / `dotenv`
  configuration.
- `SupportedMediaFilter`, which decides what counts as media. Its module
  `filter_media` is not part of this model.
- Python's `int()` and `re` on non-ASCII digits, whitespace, underscores and a
  leading `+`. The `/mute` argument is a single word, so it has no whitespace.
