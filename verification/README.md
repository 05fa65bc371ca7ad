# Steam ban checker — a Dafny model

This project models the core of a Discord bot that watches Steam accounts for
game and VAC bans. Users paste Steam profile links (community vanity URLs,
`/profiles/` URLs, csgostats.gg player URLs) into a monitored channel. A
light extraction mode for bare identifiers exists, but nothing calls it.
The bot extracts the identifiers, resolves each one through the Steam Web API and records the account and its last ban date in a small
relational store. Once an hour it re-checks a slice of the tracked accounts.
When an account's ban date moves to a later calendar day, it stores the new
date and fetches the notification channel of every guild that tracks the
account. The notice itself is never sent, because building it calls a
method the `User` model does not define (see "Left out").

The model covers three source files:

- `steambot/search.py`: the five regular expressions and
  `find_user_ids_in_string`.
- `steambot/models.py`: the `guild`, `user` and `user_guild` tables and
  `days_since_last_ban`.
- `steambot/checker.py`: the decision logic of `BanChecker`. This is
  identifier classification, the ban-date computation, `ban_status_changed`,
  `check_ban`, `process_user_id(s)`, the hourly batch of `check_bans_task`,
  `on_message`, `get_user_ids_from_message`, `find_missed_user_ids`,
  `on_guild_join`, `dispatch_command` and `send_stats`.

Modules, in dependency order:

| module | file | contents |
|---|---|---|
| `Outcomes` | outcomes.dfy | `Option`, `Result` and the `Fault`s the handlers can end in |
| `Clock` | clock.dfy | timestamps as whole seconds, calendar day, hour of day, midnight |
| `Text` | text.dfy | character classes, maximal runs, literals, decimal numerals |
| `Regex` | regex.dfy | the five patterns, one match at a position, the `findall` scan and its characterisation |
| `Search` | search.dfy | `find_user_ids_in_string` in full and light mode |
| `Models` | models.dfy | guild, user, membership rows, the store, `days_since_last_ban` |
| `Gateway` | gateway.dfy | `_get_steam_user`: numeric or vanity lookup, ban date from the day count |
| `Detector` | detector.dfy | `ban_status_changed` and the decision `check_ban` takes |
| `Checker` | checker.dfy | `check_ban`, `process_user_id(s)`, `on_guild_join` |
| `Scheduler` | scheduler.dfy | the hourly LIMIT/OFFSET batch and `check_bans_task` |
| `Ingest` | ingest.dfy | `get_user_ids_from_message`, `on_message`, `find_missed_user_ids`, `send_stats` |

The model abstracts the outside world as follows:

- The database is an immutable `Store`: a map of users, a map of guilds and a
  sequence of membership rows. A handler returns the store it commits.
- The Steam Web API is a function parameter `Lookup` from a query to an
  optional profile. `None` stands for `UserNotFoundError`.
- The clock is a `now` parameter in whole seconds since the epoch.
- Discord side effects are returned as data, not performed:
  - the reaction added to a message;
  - the channel ids `check_ban` fetches to notify;
  - the statistics reply with its target channel.

Python's regular expressions are modelled exactly for the five patterns:
leftmost match, continue after its end, and the empty `(?:|s)` alternative
tried before `s`. The scan is proved to be the unique sequence of matches
with Python's `findall` semantics (`Regex.ScanIsFindAll`,
`Regex.FindAllUnique`).

## Behaviour of the code that the model keeps

Some of what the code does is easy to miss on a first reading. The model
keeps it as written:

- Light mode is a plain `findall` of the bare-number pattern, then of the
  handle pattern, over the whole string. A string with no match yields an
  empty list rather than a "not found" error. A mixed token such as `a1`
  yields both `1` and `a1` (`Search.LightModeMixedToken`).
- `process_user_id` always overwrites `date_banned` with the freshly computed,
  not midnight-truncated, ban date. It never refreshes the stored name.
- The model's store treats `servers.extend(guilds)` as a plain append of
  join-table rows. In that store, registering the same account twice for
  the same guild adds the row twice (`Checker.RegistrationRepeatsRows`). The
  ORM's own collection bookkeeping is not modelled (see "Left out").
- `check_ban` fetches the channel of every target guild, including guilds
  whose channel is null.
- `find_missed_user_ids` fails when a guild's row has no configured channel
  or its channel cannot be resolved (`ChannelUnavailable`). It does not skip
  that guild. Every guild starts without a channel (`on_guild_join`), and
  nothing in the code sets one, so the whole gather fails as soon as such a
  guild exists (`Ingest.UnconfiguredGuildFailsGather`).
- A reaction from the bot is the only record that a message was scanned.
  `find_missed_user_ids` reacts to every history message it does not skip,
  so once those reactions are in place a second pass over the same history
  finds nothing (`Ingest.MarkedHistoryFindsNothing`).
- `on_message` fails on a direct message, which has no guild (`NoGuild`).
- The character class of the handle pattern, `[a-zA-Z[0-9]`, also contains
  `[` (`Text.IsHandleChar`).

## Model

| member | source | states |
|---|---|---|
| Clock.Midnight | steambot/checker.py:251 | the truncated date lies on the same calendar day, at or before the input and less than a day before it, on a day boundary |
| Clock.HourOfDay | steambot/checker.py:280 | the hour is in 0..23 and the timestamp falls inside that hour of its day |
| Clock.MidnightIdempotent | steambot/checker.py:251 | truncating to midnight twice is the same as once |
| Clock.MidnightSameDay | steambot/checker.py:225 | two timestamps have the same midnight exactly when they fall on the same `date()` |
| Clock.DayShift | steambot/checker.py:192-194 | subtracting k whole days moves the calendar day back by exactly k |
| Text.RunEnd | steambot/search.py:5-9 | a greedy character-class repetition stops at the first character outside the class: the run is all in the class and the next character is not |
| Text.RunEndUnique | steambot/search.py:5-9 | a run with those two properties is the one the greedy repetition finds |
| Text.LiteralAtMeans | steambot/search.py:7-9 | matching a literal character by character is the same as the slice equalling the literal |
| Text.DecimalIsCanonical | steambot/checker.py:186-187 | the decimal rendering of a positive id matches `[1-9][0-9]*` in full |
| Text.ParseDecimalOfDecimal | steambot/checker.py:186-187 | `int()` of the rendering of a positive id gives the id back |
| Text.CanonicalNumeralPositive | steambot/search.py:4 | a string matching `[1-9][0-9]*` in full denotes an id of at least 1 |
| Text.DecimalOfParseDecimal | steambot/checker.py:186-187 | a string matching `[1-9][0-9]*` in full is the rendering of its own `int()` |
| Regex.MatchAt | steambot/search.py:4-9 | a pattern matches at a position exactly when its declarative shape applies there, and the match returned has that shape |
| Regex.MatchAtComplete | steambot/search.py:4-9 | every match of the declarative shape starting at a position is the one found there |
| Regex.UrlHeadUnique | steambot/search.py:7-9 | `http(?:\|s)://host` can match at a position in at most one way |
| Regex.Scan | steambot/search.py:21 | every match the scan reports lies inside the string, at or after the start position |
| Regex.ScanIsFindAll | steambot/search.py:21 | the scan's matches have the pattern's shape, ascend without overlapping, and no match starts anywhere between them (findall semantics) |
| Regex.FindAllUnique | steambot/search.py:21 | any sequence of matches with findall semantics is the scan's sequence |
| Regex.HitsAscend | steambot/search.py:21 | in a sequence of non-overlapping matches a later match starts at or after the end of an earlier one |
| Regex.ScanAllShaped | steambot/search.py:21 | every match the scan reports has its pattern's shape at its position |
| Regex.ScanExhaustive | steambot/search.py:21 | the pattern applies at no position the scan's matches leave uncovered |
| Regex.ShapeUnique | steambot/search.py:4-9 | at a given position a pattern matches in at most one way |
| Regex.FindAllListsEqual | steambot/search.py:21 | two match sequences with findall semantics from the same position are equal |
| Search.FindAll | steambot/search.py:21 | the captures returned are those of a match sequence that starts from the beginning, is ordered, has every match in its pattern's shape and misses no place where the pattern applies |
| Search.FindUserIds | steambot/search.py:12-22 | full mode concatenates the community-URL, profile-URL and csgostats captures in that order; light mode concatenates the bare-number and handle captures |
| Search.FindAllCaptureForm | steambot/search.py:4-9 | each captured group has its pattern's form: a canonical numeral, a handle run, or a community name without `/` |
| Search.FullModeGrouped | steambot/search.py:12-22 | full mode lists every community-URL capture, then every profile-URL id, then every csgostats id; the lengths add up; the last two groups are canonical numerals |
| Search.LightModeGrouped | steambot/search.py:12-22 | light mode lists every bare-number match, then every handle match |
| Search.NothingApplies | steambot/search.py:21 | a pattern that applies nowhere contributes nothing |
| Search.UrlNeedsScheme | steambot/search.py:7-9 | a URL pattern only applies where `http://` or `https://` begins |
| Search.NoSchemeNoMatch | steambot/search.py:12-22 | full mode finds nothing in text containing neither `http://` nor `https://` |
| Search.NoSchemeNoUrl | steambot/search.py:7-9 | a URL pattern finds nothing in text containing neither `http://` nor `https://` |
| Search.CommunityCaptureRunsToSlash | steambot/search.py:7 | the community name captured runs from after `/id/` up to the next `/` or the end of the text |
| Search.HandleHitStops | steambot/search.py:5 | a handle match is non-empty, begins with a handle character and is not followed by one |
| Search.HandleHitMaximal | steambot/search.py:5 | a handle match in a findall sequence is neither preceded nor followed by a handle character |
| Search.HandleMatchesAreMaximalRuns | steambot/search.py:5 | handle matches are maximal runs of letters, digits and `[` |
| Search.NumbersInMixedToken | steambot/search.py:4 | the bare-number pattern finds `1` in `a1` |
| Search.HandlesInMixedToken | steambot/search.py:5 | the handle pattern finds the whole token `a1` |
| Search.LightModeMixedToken | steambot/search.py:12-22 | light mode on `a1` yields `1` and then `a1` |
| Search.LightModeNoMatch | steambot/search.py:12-22 | light mode on `!` yields the empty list |
| Models.NewGuild | steambot/models.py:18-25 | a new guild row has command `!` and no channel |
| Models.NewUser | steambot/models.py:28-36 | a new user row is stamped with the current time and has no ban date |
| Models.DaysSinceLastBan | steambot/models.py:38-42 | no ban date gives None; otherwise the whole days elapsed, floored as `timedelta.days` floors |
| Models.DaysSinceLastBanNonNegative | steambot/models.py:38-42 | a ban date not in the future gives a non-negative count |
| Models.DaysSinceMidnightBan | steambot/models.py:38-42 | for a ban date at midnight the count is the difference of calendar days |
| Models.ServersOf | steambot/models.py:10-15 | `user.servers` holds exactly the guilds of the user's membership rows that exist |
| Models.ServersOfAppend | steambot/models.py:10-15 | appending rows appends their guilds to `user.servers`, in order |
| Models.BannedIds | steambot/checker.py:292-296 | the ids counted as banned are exactly the users with a ban date |
| Gateway.Classify | steambot/checker.py:186-189 | an int or a string matching `[1-9][0-9]*` in full is looked up by id, and the id renders back to the string; anything else is looked up as a vanity URL |
| Gateway.ClassifyRendered | steambot/checker.py:186-187 | the rendering of an id is looked up by that id |
| Gateway.BanDateOf | steambot/checker.py:190-194 | no ban date unless game- or VAC-banned; otherwise exactly the reported number of days before now |
| Gateway.GetSteamUser | steambot/checker.py:182-198 | an unknown account is UserNotFound; otherwise the profile's id and name and the ban date above |
| Gateway.BanDateRoundTrip | steambot/checker.py:190-194 | `days_since_last_ban` of the computed ban date, raw or truncated to midnight, is the count the API reported |
| Detector.BanStatusChanged | steambot/checker.py:219-225 | no comparison date is never news; a comparison with no source is news; otherwise news iff the comparison's day is strictly later |
| Detector.Decide | steambot/checker.py:233-251 | not banned iff nothing was fetched; escalate iff the status changed, storing the fetched date at midnight |
| Detector.EscalateMovesForward | steambot/checker.py:237-251 | an escalation stores a midnight strictly later in days than the stored date |
| Detector.SameDayIsNotNews | steambot/checker.py:225 | a date fetched on the day already stored is not news |
| Detector.NewsIsStrictOrder | steambot/checker.py:225 | "is news" is irreflexive, asymmetric and transitive |
| Checker.KeepListed | steambot/checker.py:265 | filtering by guild ids keeps exactly the listed guilds, with multiplicity, in order |
| Checker.NotifyTargets | steambot/checker.py:264-265 | without a filter every server is a target; with one, exactly the listed servers are |
| Checker.ChannelsOf | steambot/checker.py:261-267 | one channel fetch per target guild, in target order, each of that guild's configured channel |
| Checker.CheckBan | steambot/checker.py:227-276 | an unknown user or account fails; otherwise only the user's ban date can change, and it changes to the fetched date at midnight exactly when that is news, in which case the target guilds' channels are fetched |
| Checker.CheckBanNeverMovesBack | steambot/checker.py:237-251 | a stored ban date is never cleared nor moved to an earlier day |
| Checker.CheckRunMonotone | steambot/checker.py:227-276 | over any run of checks a stored ban date stays set and its day never decreases |
| Checker.SecondCheckSameDayIsSilent | steambot/checker.py:237-243 | after an escalation, a check fetching a date on the same day reports no change and fetches no channel |
| Checker.FirstBanFetchesEveryServer | steambot/checker.py:233-266 | a first ban reported k days ago is stored as the midnight k days back, reads back as k days, and fetches one channel per server |
| Checker.RequestedGuilds | steambot/checker.py:211 | `Guild.id.in_(guild_ids)` yields each requested guild that exists, once |
| Checker.ProcessUserId | steambot/checker.py:200-217 | fails iff the lookup fails; otherwise the account is created or kept with its name and date added, its ban date is overwritten with the fetched one, the requested guilds' rows are appended, and a check of the same guild ids follows |
| Checker.RegistrationAppendsServers | steambot/checker.py:211-212 | after registration the user's servers are the old ones followed by the requested existing guilds |
| Checker.RegistrationRepeatsRows | steambot/checker.py:212 | in the model's store, where `extend` appends rows, registering the same account for the same guild twice adds the row twice |
| Checker.RegisterThenCheckIsSilent | steambot/checker.py:209-217 | the check spawned after registration, on the same day, never escalates and fetches no channel |
| Checker.ProcessUserIds | steambot/checker.py:169-179 | every request either registers or counts as one error; guilds, existing users and existing rows are kept; well-formedness is preserved |
| Checker.ProcessUserIdsErrors | steambot/checker.py:170-174 | the errors counted are exactly the requests whose identifier cannot be resolved |
| Checker.AcceptedAppend | steambot/checker.py:170-172 | the requests that resolve grow by the last request exactly when it resolves, and their accounts grow by its account |
| Checker.ProcessUserIdsStepRegistered | steambot/checker.py:170-172 | one more request appends its registration iff it resolves, for the resolved account with the request's guild ids |
| Checker.ProcessUserIdsCount | steambot/checker.py:169-179 | there is one registration per request that resolves |
| Checker.ProcessUserIdsRegistersAccepted | steambot/checker.py:169-179 | the i-th registration is for the account of the i-th resolving request and carries that request's guild ids |
| Checker.ProcessUserIdsLastRegistration | steambot/checker.py:170-172 | the store of the last registration is the final store |
| Checker.ProcessUserIdsLast | steambot/checker.py:170-172 | the final store is that of the last registration, or the previous store when the last request fails |
| Checker.ProcessUserIdsUsers | steambot/checker.py:169-179 | afterwards the users are the old ones plus the accounts of the resolving requests, and no other user changes |
| Checker.LastDatesAppend | steambot/checker.py:209 | each account keeps the ban date of its last registration when one more registration is added |
| Checker.ProcessUserIdsDates | steambot/checker.py:201-209 | each resolved account ends with the ban date fetched by its last resolving request |
| Checker.ProcessUserIdsStepRows | steambot/checker.py:211-212 | one more request adds its requested existing guilds' rows iff it resolves |
| Checker.ProcessUserIdsRows | steambot/checker.py:169-179 | the join table becomes the old one followed by the rows of the resolving requests, in request order |
| Checker.JoinGuild | steambot/checker.py:84-89 | joining adds a default guild row and nothing else; a guild already present fails |
| Scheduler.BatchSize | steambot/checker.py:283 | the batch size is the ceiling of total/24 |
| Scheduler.Batch | steambot/checker.py:284-286 | the hour's batch holds at most one batch size of ids, taken from offset batch size times hour |
| Scheduler.SlicesMeet | steambot/checker.py:284-286 | each hour's slice ends where the next hour's begins |
| Scheduler.BatchesFromIsSuffix | steambot/checker.py:284-286 | the batches from an hour to the end of the day cover the table from that hour's offset on |
| Scheduler.DayCoversTableOnce | steambot/checker.py:278-287 | the 24 hourly batches together are the whole table, in order, each row once; an empty table gives empty batches |
| Scheduler.DivBand | steambot/checker.py:283-286 | with a positive batch size b, a row index i lies in [b*h, b*h+b) iff h is i divided by b |
| Scheduler.RowInExactlyOneSlice | steambot/checker.py:283-286 | row i falls in hour h's slice iff h is i divided by the batch size |
| Scheduler.EachUserInOneBatch | steambot/checker.py:283-286 | each tracked user is checked in exactly one hour of the day |
| Scheduler.CheckAll | steambot/checker.py:287 | checking a batch changes no guild, row or user outside the batch and never moves a ban date back; the checks that fail before any write are exactly those of users that are gone or unresolvable |
| Scheduler.NotifiedChannelsFrame | steambot/checker.py:261-267 | the channels fetched for a batch depend only on the batch users' rows, the guilds and the join table |
| Scheduler.CheckAllStores | steambot/checker.py:227-287 | for distinct users, each batch user ends with the date `check_ban` decides for it against the store before the tick, and every other user is untouched |
| Scheduler.CheckAllFetches | steambot/checker.py:261-287 | for distinct users, the channels fetched are those of the escalating users' servers, in batch order |
| Scheduler.CheckBansTask | steambot/checker.py:278-287 | the hourly task only touches users of the current hour's batch; an empty table does nothing |
| Scheduler.BatchDistinct | steambot/checker.py:284-286 | a batch of distinct ids is distinct |
| Scheduler.TickChecksItsBatch | steambot/checker.py:278-287 | over distinct ids, the users of the current hour's batch end with the date `check_ban` decides, all other users are untouched, and the escalating users' channels are fetched |
| Ingest.GetUserIdsFromMessage | steambot/checker.py:150-167 | missing, own, empty, command and already-reacted messages give nothing and no reaction; others are scanned in full mode and get thumbs-up iff something was found |
| Ingest.ReactedMessageIsSkipped | steambot/checker.py:162-166 | once the bot has reacted, scanning the message again finds nothing |
| Ingest.RequestsFor | steambot/checker.py:109 | each distinct id found is requested for exactly the message's guild |
| Ingest.OnMessage | steambot/checker.py:91-113 | a direct message fails; an unknown guild fails; another channel than the monitored one is ignored; a prefixed message is a command, which is statistics iff `stats` follows the first character; anything else is scanned and registered for this guild |
| Ingest.OwnMessagesRegisterNothing | steambot/checker.py:155-156 | the bot's own messages register nothing |
| Ingest.Flatten | steambot/checker.py:146 | flattening the per-message lists keeps exactly the ids some list holds |
| Ingest.HistoryIds | steambot/checker.py:140-147 | an id is found in a history exactly when some message's extraction lists it |
| Ingest.HistoryReactions | steambot/checker.py:140-145 | each history message gets a reaction exactly when the scan does not skip it, thumbs-up exactly when something was found in it |
| Ingest.SkippedHistoryFindsNothing | steambot/checker.py:150-164 | a history whose every message is skipped yields no ids |
| Ingest.MarkedHistoryFindsNothing | steambot/checker.py:140-145 | once a history's messages carry the reactions of one scan, scanning it again finds no id and adds no reaction |
| Ingest.MissedInGuild | steambot/checker.py:128-148 | a guild without a row yields nothing; a row without a channel, or a channel that cannot be resolved, fails; otherwise each id found in the history maps to this guild and every message gets the reaction its scan adds |
| Ingest.UnconfiguredGuildFailsGather | steambot/checker.py:119-137 | one guild with a row but no channel makes the whole gather fail |
| Ingest.MergeInto | steambot/checker.py:124-126 | merging keeps every key of both maps and concatenates their guild lists |
| Ingest.MergeMissed | steambot/checker.py:119-127 | an id is in the merged result iff some guild's result mentions it |
| Ingest.MergeMissedAt | steambot/checker.py:119-127 | an id's merged guild list is the guilds mentioning it, in guild order |
| Ingest.MergeMissedCollectsGuilds | steambot/checker.py:119-127 | the merged result holds exactly the mentioned ids, each with the guilds that mention it |
| Ingest.FindMissedUserIds | steambot/checker.py:119-127 | one failing guild fails the whole gather; otherwise the result is the merge of the per-guild results |
| Ingest.SendStats | steambot/checker.py:289-303 | an unknown guild fails; no users gives the fixed "no players" text; otherwise banned and total counts with banned at most total, sent to the guild's channel |

## Left out

- Discord, SQLAlchemy sessions, the Steam Web API client and the clock are
  not modelled as code. They are parameters or returned data, as described
  above.
- `steambot/aioutils.py`, `steambot/log.py`, `steambot/main.py`, `main.py`
  and `steambot.py` are not part of this model. They cover event-loop
  instrumentation, logging setup and start-up.
- `on_ready` and the scheduler registration in `run` are not modelled. They
  only wire `find_missed_user_ids`, `process_user_ids` and the 3600-second
  trigger together.
- Concurrency is not modelled. This covers `asyncio.gather`,
  `asyncio.create_task` and `run_in_thread`.
  - Checker.ProcessUserIds: each registration does its store work without
    suspending, so any completion order is one order of the request list.
    The model uses list order and does not prove order independence.
  - Scheduler.CheckAll: modelled as a sequential fold over the batch.
  - The follow-up check after registration is returned as data
    (`followUp`), not run.
- Microseconds are not modelled. Timestamps are whole seconds, so
  `Clock.Midnight` also drops the sub-second part.
- Scheduler.Batch: assumes the rows come back in one fixed order from hour to
  hour. The query has no ORDER BY, so the database does not promise this.
- Checker.RequestedGuilds: returns guilds in the order they were first
  requested. The database returns an `IN` query in an unspecified order.
- The float ceiling in `ceil(total_users / 24)` is modelled as an exact
  integer ceiling. Floating-point rounding is not modelled.
- Ingest.SendStats: the percentage text `{banned/total:.2%}` is not
  formatted. The reply carries the two counts.
- The notification embed is not built, and no notice is sent. The embed's
  title calls `user.time_since_last_ban()` (checker.py line 269), which the
  `User` model does not define. So every escalating `check_ban` raises after
  it has committed the new date and fetched the channels, and the send at
  line 276 never runs. The model returns the committed store and the fetched
  channels and does not mark the escalation as a failure. In
  `check_bans_task` the gather at line 287 does not collect exceptions, so
  the first failing `check_ban` ends the tick with that error while the
  remaining checks keep running as detached tasks. A user that Steam cannot
  resolve (`UserNotFoundError`, re-raised at line 198) ends the tick the same
  way. The model runs every check of the batch to completion and lists the
  users whose check failed.
- `fetch_channel` of a null channel is not modelled. The model returns the
  null channel id among the fetches, and what Discord then does is outside
  the model.
- Models.NewGuild: the `String(length=1)` limit on `command` is stated as
  `ValidGuild`. SQLite does not enforce it, and the model does not rely on
  it.
- A crash on a direct message or on a message from a guild without a row
  (`on_message`) is modelled as the `NoGuild` or `UnknownGuild` error. A `check_ban` of a user deleted in the
  meantime is modelled as `UnknownUser`.
- Checker.RegistrationRepeatsRows: the duplicate row is a property of the
  model's store, which appends a row for every guild passed to
  `servers.extend`. SQLAlchemy inserts join rows only for objects added to
  the collection as loaded, and loads a collection without duplicates, so
  the running program probably adds no second row. The ORM's collection
  history is not modelled.
- Scheduler.DayCoversTableOnce: assumes one fixed table for all 24 ticks of
  a day. `total_users` is re-read at every tick (checker.py line 282). If the
  table grows during the day, the batch size and offsets change and some rows
  can go unchecked that day. For example, with 24 users for hours 0 to 11 and
  25 from hour 12, hour 12 has batch size 2 at offset 24, so rows 12 to 23
  are not checked. The same holds for `Scheduler.EachUserInOneBatch`.
