/** The store-changing steps of the bot: `check_ban` (decide, write, fetch
    the notification channels), `process_user_id` (look up and upsert), and
    `on_guild_join`. The channels `check_ban` fetches are returned as a list;
    database sessions become a store passed in and returned. */
module Checker {
  import opened Outcomes
  import opened Clock
  import opened Models
  import opened Gateway
  import opened Detector

  // ---------------------------------------------------------------------
  // Notification targets

  /** `a` keeps the order of `b` and is obtained by dropping elements. */
  ghost predicate Subsequence<T>(a: seq<T>, b: seq<T>)
    decreases |b|
  {
    if |a| == 0 then true
    else if |b| == 0 then false
    else (a[0] == b[0] && Subsequence(a[1..], b[1..])) || Subsequence(a, b[1..])
  }

  /** The guilds of `gs` whose id is listed in `ids`, in the order of `gs`. */
  function KeepListed(gs: seq<Guild>, ids: seq<GuildId>): (r: seq<Guild>)
    ensures forall g :: multiset(r)[g] == if g.id in ids then multiset(gs)[g] else 0
    ensures Subsequence(r, gs)
  {
    if |gs| == 0 then []
    else
      var rest := KeepListed(gs[1..], ids);
      assert gs == [gs[0]] + gs[1..];
      if gs[0].id in ids then [gs[0]] + rest else rest
  }

  /** `not guild_ids`: no filter given, or an empty one. */
  predicate Unfiltered(guildIds: Option<seq<GuildId>>)
  {
    guildIds.None? || |guildIds.value| == 0
  }

  /** The guilds `check_ban` notifies: all of the user's servers when no
      (or an empty) filter is given, else those whose id is listed. Guilds
      without a configured channel are not skipped. */
  function NotifyTargets(servers: seq<Guild>, guildIds: Option<seq<GuildId>>): (r: seq<Guild>)
    ensures Unfiltered(guildIds) ==> r == servers
    ensures !Unfiltered(guildIds) ==>
              && Subsequence(r, servers)
              && forall g :: multiset(r)[g] == if g.id in guildIds.value then multiset(servers)[g] else 0
  {
    if Unfiltered(guildIds) then servers else KeepListed(servers, guildIds.value)
  }

  /** `fetch_channel(g.channel)` for every target, in order. */
  function ChannelsOf(gs: seq<Guild>): (cs: seq<Option<ChannelId>>)
    ensures |cs| == |gs|
    ensures forall k :: 0 <= k < |gs| ==> cs[k] == gs[k].channel
  {
    seq(|gs|, k requires 0 <= k < |gs| => gs[k].channel)
  }

  // ---------------------------------------------------------------------
  // check_ban

  /** The store after the step, the detector's decision, and the channels
      fetched for a notification. */
  datatype CheckOutcome = CheckOutcome(store: Store, decision: Decision, fetches: seq<Option<ChannelId>>)

  /** Only the ban date of user `uid` may differ between the two stores. */
  ghost predicate OnlyBanDateOf(st: Store, st': Store, uid: UserId)
  {
    && st'.guilds == st.guilds
    && st'.membership == st.membership
    && st'.users.Keys == st.users.Keys
    && (forall u :: u in st.users && u != uid ==> st'.users[u] == st.users[u])
    && (uid in st.users ==> st'.users[uid] == st.users[uid].(dateBanned := st'.users[uid].dateBanned))
  }

  /** `check_ban(user_id, guild_ids)`: look the stored user up again, and
      when the fetched ban date is news, store it at midnight and fetch the
      notification channel of each target guild. */
  function CheckBan(st: Store, uid: UserId, lookup: Lookup, now: Timestamp, guildIds: Option<seq<GuildId>>): (r: Result<CheckOutcome, Fault>)
    ensures uid !in st.users ==> r == Err(UnknownUser)
    ensures uid in st.users ==> (r.Err? <==> lookup(ById(uid)).None?)
    ensures r.Err? ==> r.error == UnknownUser || r.error == UserNotFound
    ensures r.Ok? ==> OnlyBanDateOf(st, r.value.store, uid)
    ensures r.Ok? ==>
              var fetched := BanDateOf(lookup(ById(uid)).value, now);
              var before := st.users[uid].dateBanned;
              var after := r.value.store.users[uid].dateBanned;
              && r.value.decision == Decide(before, fetched)
              && (r.value.decision.Escalate? ==>
                    && after == Some(Midnight(fetched.value))
                    && (before.Some? ==> Day(before.value) < Day(after.value))
                    && r.value.fetches == ChannelsOf(NotifyTargets(UserServers(st, uid), guildIds)))
              && (!r.value.decision.Escalate? ==> r.value.store == st && r.value.fetches == [])
    ensures r.Ok? && Wf(st) ==> Wf(r.value.store)
  {
    if uid !in st.users then Err(UnknownUser)
    else
      match GetSteamUser(Numeric(uid), lookup, now)
      case Err(e) => Err(e)
      case Ok(res) =>
        var user := st.users[uid];
        var decision := Decide(user.dateBanned, res.banDate);
        if decision.Escalate? then
          var st' := st.(users := st.users[uid := user.(dateBanned := Some(decision.date))]);
          Ok(CheckOutcome(st', decision, ChannelsOf(NotifyTargets(UserServers(st', uid), guildIds))))
        else
          Ok(CheckOutcome(st, decision, []))
  }

  /** `check_ban` alone never moves a stored ban date to an earlier day, and
      never clears it. */
  lemma CheckBanNeverMovesBack(st: Store, uid: UserId, lookup: Lookup, now: Timestamp, guildIds: Option<seq<GuildId>>)
    requires uid in st.users && st.users[uid].dateBanned.Some?
    requires CheckBan(st, uid, lookup, now, guildIds).Ok?
    ensures var after := CheckBan(st, uid, lookup, now, guildIds).value.store.users[uid].dateBanned;
            after.Some? && Day(st.users[uid].dateBanned.value) <= Day(after.value)
  {
  }

  /** One step of a run of checks on one user: a failed check changes nothing. */
  function CheckStep(st: Store, uid: UserId, lookup: Lookup, now: Timestamp): Store
  {
    match CheckBan(st, uid, lookup, now, None)
    case Ok(o) => o.store
    case Err(_) => st
  }

  /** Any run of checks on one user, each with its own lookup result and time. */
  function CheckRun(st: Store, uid: UserId, steps: seq<(Lookup, Timestamp)>): Store
    decreases |steps|
  {
    if |steps| == 0 then st
    else CheckRun(CheckStep(st, uid, steps[0].0, steps[0].1), uid, steps[1..])
  }

  /** Over any run of checks, once a user's ban date is set it stays set and
      its day never decreases. */
  lemma {:induction false} CheckRunMonotone(st: Store, uid: UserId, steps: seq<(Lookup, Timestamp)>)
    requires uid in st.users && st.users[uid].dateBanned.Some?
    ensures var st' := CheckRun(st, uid, steps);
            && uid in st'.users && st'.users[uid].dateBanned.Some?
            && Day(st.users[uid].dateBanned.value) <= Day(st'.users[uid].dateBanned.value)
    decreases |steps|
  {
    if |steps| > 0 {
      var mid := CheckStep(st, uid, steps[0].0, steps[0].1);
      if CheckBan(st, uid, steps[0].0, steps[0].1, None).Ok? {
        CheckBanNeverMovesBack(st, uid, steps[0].0, steps[0].1, None);
      }
      CheckRunMonotone(mid, uid, steps[1..]);
    }
  }

  /** After a check that stored a date, a second check whose fetched date
      falls on the same day reports no change and fetches no channel. */
  lemma SecondCheckSameDayIsSilent(st: Store, uid: UserId, lookup1: Lookup, now1: Timestamp,
                                   lookup2: Lookup, now2: Timestamp, guildIds: Option<seq<GuildId>>)
    requires CheckBan(st, uid, lookup1, now1, None).Ok?
    requires CheckBan(st, uid, lookup1, now1, None).value.decision.Escalate?
    requires lookup2(ById(uid)).Some? && BanDateOf(lookup2(ById(uid)).value, now2).Some?
    requires Day(BanDateOf(lookup2(ById(uid)).value, now2).value) == Day(BanDateOf(lookup1(ById(uid)).value, now1).value)
    ensures var st1 := CheckBan(st, uid, lookup1, now1, None).value.store;
            var o := CheckBan(st1, uid, lookup2, now2, guildIds);
            o.Ok? && o.value.decision == Unchanged && o.value.store == st1 && o.value.fetches == []
  {
    var st1 := CheckBan(st, uid, lookup1, now1, None).value.store;
    SameDayIsNotNews(BanDateOf(lookup1(ById(uid)).value, now1).value, BanDateOf(lookup2(ById(uid)).value, now2).value);
  }

  /** A user with no stored ban whom the lookup reports banned `k` days ago
      is escalated: the stored date is the midnight `k` days back, the
      model's `days_since_last_ban` reads `k` again, and one channel is
      fetched per server of the user, whether or not it has a channel. */
  lemma FirstBanFetchesEveryServer(st: Store, uid: UserId, lookup: Lookup, now: Timestamp)
    requires uid in st.users && st.users[uid].dateBanned.None?
    requires lookup(ById(uid)).Some?
    requires var p := lookup(ById(uid)).value; p.gameBanned || p.vacBanned
    ensures var p := lookup(ById(uid)).value;
            var o := CheckBan(st, uid, lookup, now, None);
            && o.Ok? && o.value.decision.Escalate?
            && o.value.store.users[uid].dateBanned == Some(Midnight(now - p.daysSinceLastBan * SecondsPerDay))
            && DaysSinceLastBan(o.value.store.users[uid], now) == Some(p.daysSinceLastBan)
            && |o.value.fetches| == |UserServers(st, uid)|
  {
    var p := lookup(ById(uid)).value;
    var o := CheckBan(st, uid, lookup, now, None);
    BanDateRoundTrip(p, o.value.store.users[uid], now);
  }

  // ---------------------------------------------------------------------
  // process_user_id

  /** `Guild.id.in_(guild_ids)`: the requested guilds that exist, each once,
      in the order first requested. */
  function RequestedGuilds(guilds: map<GuildId, Guild>, ids: seq<GuildId>): (r: seq<GuildId>)
    ensures forall g :: g in r <==> g in ids && g in guilds
    ensures forall i, j :: 0 <= i < j < |r| ==> r[i] != r[j]
  {
    if |ids| == 0 then []
    else
      var rest := RequestedGuilds(guilds, ids[..|ids| - 1]);
      var g := ids[|ids| - 1];
      assert ids == ids[..|ids| - 1] + [g];
      if g in rest || g !in guilds then rest else rest + [g]
  }

  /** The join-table rows that `servers.extend(guilds)` inserts. */
  function JoinRows(gids: seq<GuildId>, uid: UserId): (rows: seq<Membership>)
    ensures |rows| == |gids|
    ensures forall k :: 0 <= k < |gids| ==> rows[k] == Membership(gids[k], uid)
  {
    seq(|gids|, k requires 0 <= k < |gids| => Membership(gids[k], uid))
  }

  /** The upserted store, the resolved account id, and the `check_ban`
      task spawned for it (with the caller's guild ids). */
  datatype Registered = Registered(store: Store, userId: UserId, followUp: Option<seq<GuildId>>)

  /** `process_user_id(user_id, guild_ids)`: look the identifier up; create
      the user when absent (with the fetched name), otherwise keep the stored
      name; overwrite the ban date with the fetched one in either case; add
      a membership row per requested existing guild; spawn `check_ban`. */
  function ProcessUserId(st: Store, ident: string, guildIds: seq<GuildId>, lookup: Lookup, now: Timestamp): (r: Result<Registered, Fault>)
    ensures r.Err? <==> lookup(Classify(Named(ident))).None?
    ensures r.Err? ==> r.error == UserNotFound
    ensures r.Ok? ==>
              var p := lookup(Classify(Named(ident))).value;
              var st' := r.value.store;
              && r.value.userId == p.steamId
              && r.value.followUp == Some(guildIds)
              && st'.guilds == st.guilds
              && st'.users.Keys == st.users.Keys + {p.steamId}
              && (forall u :: u in st.users && u != p.steamId ==> st'.users[u] == st.users[u])
              && st'.users[p.steamId].dateBanned == BanDateOf(p, now)
              && (p.steamId in st.users ==>
                    && st'.users[p.steamId].name == st.users[p.steamId].name
                    && st'.users[p.steamId].dateAdded == st.users[p.steamId].dateAdded)
              && (p.steamId !in st.users ==>
                    st'.users[p.steamId] == NewUser(p.steamId, p.name, now).(dateBanned := BanDateOf(p, now)))
              && st'.membership == st.membership + JoinRows(RequestedGuilds(st.guilds, guildIds), p.steamId)
    ensures r.Ok? && Wf(st) ==> Wf(r.value.store)
  {
    match GetSteamUser(Named(ident), lookup, now)
    case Err(e) => Err(e)
    case Ok(res) =>
      var base := if res.id in st.users then st.users[res.id] else NewUser(res.id, res.name, now);
      var user := base.(dateBanned := res.banDate);
      var rows := JoinRows(RequestedGuilds(st.guilds, guildIds), res.id);
      Ok(Registered(Store(st.users[res.id := user], st.guilds, st.membership + rows), res.id, Some(guildIds)))
  }

  /** After registration the user's servers are the old ones followed by the
      requested existing guilds, in request order. */
  lemma RegistrationAppendsServers(st: Store, ident: string, guildIds: seq<GuildId>, lookup: Lookup, now: Timestamp)
    requires ProcessUserId(st, ident, guildIds, lookup, now).Ok?
    ensures var reg := ProcessUserId(st, ident, guildIds, lookup, now).value;
            var gids := RequestedGuilds(st.guilds, guildIds);
            UserServers(reg.store, reg.userId)
              == UserServers(st, reg.userId) + seq(|gids|, k requires 0 <= k < |gids| => st.guilds[gids[k]])
  {
    var reg := ProcessUserId(st, ident, guildIds, lookup, now).value;
    var gids := RequestedGuilds(st.guilds, guildIds);
    var rows := JoinRows(gids, reg.userId);
    ServersOfAppend(st.guilds, st.membership, rows, reg.userId);
    JoinRowsServers(st.guilds, gids, reg.userId);
  }

  lemma {:induction false} JoinRowsServers(guilds: map<GuildId, Guild>, gids: seq<GuildId>, uid: UserId)
    requires forall k :: 0 <= k < |gids| ==> gids[k] in guilds
    ensures ServersOf(guilds, JoinRows(gids, uid), uid) == seq(|gids|, k requires 0 <= k < |gids| => guilds[gids[k]])
    decreases |gids|
  {
    if |gids| > 0 {
      var n := |gids| - 1;
      var front := gids[..n];
      var row := Membership(gids[n], uid);
      assert JoinRows(gids, uid) == JoinRows(front, uid) + [row];
      JoinRowsServers(guilds, front, uid);
      ServersOfAppend(guilds, JoinRows(front, uid), [row], uid);
      assert ServersOf(guilds, [row], uid) == [guilds[gids[n]]];
      assert seq(|gids|, k requires 0 <= k < |gids| => guilds[gids[k]])
          == seq(n, k requires 0 <= k < n => guilds[front[k]]) + [guilds[gids[n]]];
    }
  }

  /** Registration is not idempotent: registering the same account for the
      same existing guild twice leaves two more copies of the row. */
  lemma RegistrationRepeatsRows(st: Store, ident: string, gid: GuildId, lookup: Lookup, now: Timestamp, later: Timestamp)
    requires gid in st.guilds
    requires ProcessUserId(st, ident, [gid], lookup, now).Ok?
    ensures var reg1 := ProcessUserId(st, ident, [gid], lookup, now).value;
            var reg2 := ProcessUserId(reg1.store, ident, [gid], lookup, later).value;
            multiset(reg2.store.membership)[Membership(gid, reg1.userId)]
              == multiset(st.membership)[Membership(gid, reg1.userId)] + 2
  {
    var reg1 := ProcessUserId(st, ident, [gid], lookup, now).value;
    assert RequestedGuilds(st.guilds, [gid]) == [gid];
    assert JoinRows([gid], reg1.userId) == [Membership(gid, reg1.userId)];
  }

  /** The `check_ban` spawned right after registering a banned account finds
      the date just stored and, when its own lookup falls on the same day,
      reports no change and fetches no channel. */
  lemma RegisterThenCheckIsSilent(st: Store, ident: string, guildIds: seq<GuildId>, lookup: Lookup, now: Timestamp, now2: Timestamp)
    requires ProcessUserId(st, ident, guildIds, lookup, now).Ok?
    requires var p := lookup(Classify(Named(ident))).value;
             lookup(ById(p.steamId)) == Some(p) && Day(now2) == Day(now)
    ensures var reg := ProcessUserId(st, ident, guildIds, lookup, now).value;
            var o := CheckBan(reg.store, reg.userId, lookup, now2, reg.followUp);
            o.Ok? && !o.value.decision.Escalate? && o.value.fetches == []
  {
    var p := lookup(Classify(Named(ident))).value;
    if BanDateOf(p, now).Some? {
      DayShift(now, p.daysSinceLastBan);
      DayShift(now2, p.daysSinceLastBan);
    }
  }

  /** The outcome of `process_user_ids`: the store, the registrations that
      succeeded in request order, and how many requests failed. */
  datatype Registrations = Registrations(store: Store, registered: seq<Registered>, errors: nat)

  /** `process_user_ids(user_ids)`: one `process_user_id` per request, with
      exceptions collected rather than raised. Each registration runs its
      store work without suspending, so any completion order is one order of
      the request list; it is modelled in list order. */
  function ProcessUserIds(st: Store, requests: seq<(string, seq<GuildId>)>, lookup: Lookup, now: Timestamp): (r: Registrations)
    ensures |r.registered| + r.errors == |requests|
    ensures r.store.guilds == st.guilds
    ensures st.users.Keys <= r.store.users.Keys
    ensures |st.membership| <= |r.store.membership| && r.store.membership[..|st.membership|] == st.membership
    ensures Wf(st) ==> Wf(r.store)
    decreases |requests|
  {
    if |requests| == 0 then Registrations(st, [], 0)
    else
      var n := |requests| - 1;
      var front := ProcessUserIds(st, requests[..n], lookup, now);
      match ProcessUserId(front.store, requests[n].0, requests[n].1, lookup, now)
      case Err(_) => Registrations(front.store, front.registered, front.errors + 1)
      case Ok(reg) => Registrations(reg.store, front.registered + [reg], front.errors)
  }

  /** The errors `process_user_ids` counts are exactly the requests whose
      identifier cannot be resolved. */
  lemma {:induction false} ProcessUserIdsErrors(st: Store, requests: seq<(string, seq<GuildId>)>, lookup: Lookup, now: Timestamp)
    ensures ProcessUserIds(st, requests, lookup, now).errors
              == |set k | 0 <= k < |requests| && lookup(Classify(Named(requests[k].0))).None?|
    decreases |requests|
  {
    if |requests| > 0 {
      ProcessUserIdsErrors(st, requests[..|requests| - 1], lookup, now);
      FailedIndicesSplit(requests, lookup);
    }
  }

  lemma FailedIndicesSplit(requests: seq<(string, seq<GuildId>)>, lookup: Lookup)
    requires |requests| > 0
    ensures var n := |requests| - 1;
            var all := set k | 0 <= k < |requests| && lookup(Classify(Named(requests[k].0))).None?;
            var front := set k | 0 <= k < n && lookup(Classify(Named(requests[..n][k].0))).None?;
            all == front + (if lookup(Classify(Named(requests[n].0))).None? then {n} else {})
            && n !in front
  {
  }

  /** A request that resolves: what `_get_steam_user` reports for it and
      the guild ids it carries. */
  datatype Accepted = Accepted(account: Resolved, guildIds: seq<GuildId>)

  /** The requests that resolve, in request order, computed from the lookup
      alone, without any store. */
  function AcceptedOf(requests: seq<(string, seq<GuildId>)>, lookup: Lookup, now: Timestamp): seq<Accepted>
    decreases |requests|
  {
    if |requests| == 0 then []
    else
      var n := |requests| - 1;
      AcceptedOf(requests[..n], lookup, now)
        + match GetSteamUser(Named(requests[n].0), lookup, now)
          case Err(_) => []
          case Ok(res) => [Accepted(res, requests[n].1)]
  }

  /** The join rows the accepted requests add, in order. */
  function AddedRows(guilds: map<GuildId, Guild>, acc: seq<Accepted>): seq<Membership>
    decreases |acc|
  {
    if |acc| == 0 then []
    else
      var a := acc[|acc| - 1];
      AddedRows(guilds, acc[..|acc| - 1]) + JoinRows(RequestedGuilds(guilds, a.guildIds), a.account.id)
  }

  /** The accounts the accepted requests resolve to. */
  ghost function AcceptedIds(acc: seq<Accepted>): set<UserId>
  {
    set i | 0 <= i < |acc| :: acc[i].account.id
  }

  /** `acc[i]` is the last accepted request for its account. */
  ghost predicate LastFor(acc: seq<Accepted>, i: nat)
  {
    i < |acc| && forall j :: i < j < |acc| ==> acc[j].account.id != acc[i].account.id
  }

  /** `process_user_ids` makes one registration per request that resolves. */
  lemma {:induction false} ProcessUserIdsCount(st: Store, requests: seq<(string, seq<GuildId>)>, lookup: Lookup, now: Timestamp)
    ensures |ProcessUserIds(st, requests, lookup, now).registered| == |AcceptedOf(requests, lookup, now)|
    decreases |requests|
  {
    if |requests| > 0 {
      ProcessUserIdsCount(st, requests[..|requests| - 1], lookup, now);
      ProcessUserIdsStepRegistered(st, requests, lookup, now);
      AcceptedAppend(requests, lookup, now);
    }
  }

  /** `process_user_ids` registers exactly the requests that resolve, in
      order: the i-th registration is for the account of the i-th resolving
      request and carries its guild ids. */
  lemma {:induction false} ProcessUserIdsRegistersAccepted(st: Store, requests: seq<(string, seq<GuildId>)>, lookup: Lookup, now: Timestamp)
    ensures var r := ProcessUserIds(st, requests, lookup, now);
            var acc := AcceptedOf(requests, lookup, now);
            && |r.registered| == |acc|
            && forall i :: 0 <= i < |acc| ==>
                 r.registered[i].userId == acc[i].account.id && r.registered[i].followUp == Some(acc[i].guildIds)
    decreases |requests|
  {
    ProcessUserIdsCount(st, requests, lookup, now);
    if |requests| > 0 {
      var n := |requests| - 1;
      ProcessUserIdsRegistersAccepted(st, requests[..n], lookup, now);
      ProcessUserIdsStepRegistered(st, requests, lookup, now);
      AcceptedAppend(requests, lookup, now);
    }
  }

  /** The store of the last registration is the final store. */
  lemma ProcessUserIdsLastRegistration(st: Store, requests: seq<(string, seq<GuildId>)>, lookup: Lookup, now: Timestamp)
    ensures var r := ProcessUserIds(st, requests, lookup, now);
            |r.registered| > 0 ==> r.registered[|r.registered| - 1].store == r.store
    decreases |requests|
  {
    if |requests| > 0 {
      var n := |requests| - 1;
      ProcessUserIdsLastRegistration(st, requests[..n], lookup, now);
      ProcessUserIdsStepRegistered(st, requests, lookup, now);
    }
  }

  /** One more request appends its registration, if it resolves; the
      registration is for the resolved account, with the request's guild ids. */
  lemma ProcessUserIdsStepRegistered(st: Store, requests: seq<(string, seq<GuildId>)>, lookup: Lookup, now: Timestamp)
    requires |requests| > 0
    ensures var n := |requests| - 1;
            var g := GetSteamUser(Named(requests[n].0), lookup, now);
            var front := ProcessUserIds(st, requests[..n], lookup, now);
            var r := ProcessUserIds(st, requests, lookup, now);
            && (g.Err? ==> r.registered == front.registered && r.store == front.store)
            && (g.Ok? ==>
                  && |r.registered| == |front.registered| + 1
                  && r.registered[..|front.registered|] == front.registered
                  && r.registered[|front.registered|].userId == g.value.id
                  && r.registered[|front.registered|].followUp == Some(requests[n].1)
                  && r.registered[|front.registered|].store == r.store)
  {
  }

  /** The store after `process_user_ids` is the store after its last
      registration, or the store before the last request when that fails. */
  lemma ProcessUserIdsLast(st: Store, requests: seq<(string, seq<GuildId>)>, lookup: Lookup, now: Timestamp)
    requires |requests| > 0
    ensures var n := |requests| - 1;
            var front := ProcessUserIds(st, requests[..n], lookup, now).store;
            var c := ProcessUserId(front, requests[n].0, requests[n].1, lookup, now);
            ProcessUserIds(st, requests, lookup, now).store == if c.Ok? then c.value.store else front
  {
  }

  /** After `process_user_ids` the accounts of the accepted requests are
      present and no other user has changed. */
  lemma {:induction false} ProcessUserIdsUsers(st: Store, requests: seq<(string, seq<GuildId>)>, lookup: Lookup, now: Timestamp)
    ensures var r := ProcessUserIds(st, requests, lookup, now);
            var acc := AcceptedOf(requests, lookup, now);
            && r.store.users.Keys == st.users.Keys + AcceptedIds(acc)
            && (forall u :: u in st.users && u !in AcceptedIds(acc) ==> r.store.users[u] == st.users[u])
    decreases |requests|
  {
    if |requests| > 0 {
      var n := |requests| - 1;
      ProcessUserIdsUsers(st, requests[..n], lookup, now);
      ProcessUserIdsLast(st, requests, lookup, now);
      AcceptedAppend(requests, lookup, now);
    }
  }

  /** After `process_user_ids` each accepted account carries the ban date
      its last accepted request fetched. */
  lemma {:induction false} ProcessUserIdsDates(st: Store, requests: seq<(string, seq<GuildId>)>, lookup: Lookup, now: Timestamp)
    ensures var r := ProcessUserIds(st, requests, lookup, now);
            var acc := AcceptedOf(requests, lookup, now);
            forall i: nat :: LastFor(acc, i) ==>
              acc[i].account.id in r.store.users && r.store.users[acc[i].account.id].dateBanned == acc[i].account.banDate
    decreases |requests|
  {
    if |requests| > 0 {
      var n := |requests| - 1;
      var accF := AcceptedOf(requests[..n], lookup, now);
      ProcessUserIdsDates(st, requests[..n], lookup, now);
      ProcessUserIdsLast(st, requests, lookup, now);
      AcceptedAppend(requests, lookup, now);
      var front := ProcessUserIds(st, requests[..n], lookup, now).store;
      var c := ProcessUserId(front, requests[n].0, requests[n].1, lookup, now);
      if c.Ok? {
        var res := GetSteamUser(Named(requests[n].0), lookup, now).value;
        LastDatesAppend(front.users, accF, Accepted(res, requests[n].1), c.value.store.users);
      }
    }
  }

  /** Carrying each account's last date over one more accepted request. */
  lemma LastDatesAppend(before: map<UserId, User>, accF: seq<Accepted>, a: Accepted, after: map<UserId, User>)
    requires forall i: nat :: LastFor(accF, i) ==>
               accF[i].account.id in before && before[accF[i].account.id].dateBanned == accF[i].account.banDate
    requires a.account.id in after && after[a.account.id].dateBanned == a.account.banDate
    requires forall u :: u in before && u != a.account.id ==> u in after && after[u] == before[u]
    ensures forall i: nat :: LastFor(accF + [a], i) ==>
              (accF + [a])[i].account.id in after && after[(accF + [a])[i].account.id].dateBanned == (accF + [a])[i].account.banDate
  {
    var acc := accF + [a];
    forall i: nat | LastFor(acc, i)
      ensures acc[i].account.id in after && after[acc[i].account.id].dateBanned == acc[i].account.banDate
    {
      if i < |accF| {
        assert acc[|accF|] == a;
        assert forall j :: 0 <= j < |accF| ==> acc[j] == accF[j];
        assert accF[i].account.id != a.account.id;
        assert LastFor(accF, i);
      }
    }
  }

  /** The accepted list grows by the last request exactly when it resolves. */
  lemma AcceptedAppend(requests: seq<(string, seq<GuildId>)>, lookup: Lookup, now: Timestamp)
    requires |requests| > 0
    ensures var n := |requests| - 1;
            var accF := AcceptedOf(requests[..n], lookup, now);
            var acc := AcceptedOf(requests, lookup, now);
            var g := GetSteamUser(Named(requests[n].0), lookup, now);
            && (g.Err? ==> acc == accF)
            && (g.Ok? ==> acc == accF + [Accepted(g.value, requests[n].1)]
                          && AcceptedIds(acc) == AcceptedIds(accF) + {g.value.id})
  {
    var n := |requests| - 1;
    var accF := AcceptedOf(requests[..n], lookup, now);
    var acc := AcceptedOf(requests, lookup, now);
    var g := GetSteamUser(Named(requests[n].0), lookup, now);
    if g.Ok? {
      assert acc[|accF|] == Accepted(g.value, requests[n].1);
      assert forall i :: 0 <= i < |accF| ==> acc[i] == accF[i];
    }
  }

  /** One more request adds the rows of its registration, if it resolves. */
  lemma ProcessUserIdsStepRows(st: Store, requests: seq<(string, seq<GuildId>)>, lookup: Lookup, now: Timestamp)
    requires |requests| > 0
    ensures var n := |requests| - 1;
            var g := GetSteamUser(Named(requests[n].0), lookup, now);
            ProcessUserIds(st, requests, lookup, now).store.membership
              == ProcessUserIds(st, requests[..n], lookup, now).store.membership
                 + (if g.Ok? then JoinRows(RequestedGuilds(st.guilds, requests[n].1), g.value.id) else [])
  {
  }

  /** The join table after `process_user_ids` is the old one followed by
      the rows of the accepted requests, in order. */
  lemma {:induction false} ProcessUserIdsRows(st: Store, requests: seq<(string, seq<GuildId>)>, lookup: Lookup, now: Timestamp)
    ensures ProcessUserIds(st, requests, lookup, now).store.membership
              == st.membership + AddedRows(st.guilds, AcceptedOf(requests, lookup, now))
    decreases |requests|
  {
    if |requests| > 0 {
      var n := |requests| - 1;
      ProcessUserIdsRows(st, requests[..n], lookup, now);
      ProcessUserIdsStepRows(st, requests, lookup, now);
      AcceptedAppend(requests, lookup, now);
      var g := GetSteamUser(Named(requests[n].0), lookup, now);
      if g.Ok? {
        var accF := AcceptedOf(requests[..n], lookup, now);
        var acc := accF + [Accepted(g.value, requests[n].1)];
        assert acc[..|acc| - 1] == accF;
        assert AddedRows(st.guilds, acc) == AddedRows(st.guilds, accF)
          + JoinRows(RequestedGuilds(st.guilds, requests[n].1), g.value.id);
      }
    }
  }

  // ---------------------------------------------------------------------
  // on_guild_join

  /** `on_guild_join`: insert a guild row with the column defaults; a guild
      already present violates the primary key. */
  function JoinGuild(st: Store, gid: GuildId): (r: Result<Store, Fault>)
    ensures gid in st.guilds <==> r.Err?
    ensures r.Err? ==> r.error == DuplicateGuild
    ensures r.Ok? ==>
              && r.value.guilds.Keys == st.guilds.Keys + {gid}
              && r.value.guilds[gid] == NewGuild(gid)
              && (forall g :: g in st.guilds ==> r.value.guilds[g] == st.guilds[g])
              && r.value.users == st.users && r.value.membership == st.membership
    ensures r.Ok? && Wf(st) ==> Wf(r.value)
  {
    if gid in st.guilds then Err(DuplicateGuild)
    else Ok(st.(guilds := st.guilds[gid := NewGuild(gid)]))
  }
}
