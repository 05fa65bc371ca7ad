/** `check_bans_task`: every tick re-checks one slice of the user table,
    chosen by the hour of the day, so that the 24 slices of a day cover the
    table once. The query has no ORDER BY; the table's rows are modelled as
    a fixed sequence of user ids. */
module Scheduler {
  import opened Outcomes
  import opened Clock
  import opened Models
  import opened Gateway
  import opened Detector
  import opened Checker

  /** `CHECK_INTERVAL`: checks per day. */
  const CheckInterval: nat := 24

  /** `ceil(total_users / CHECK_INTERVAL)`: the least batch size whose 24
      batches reach the whole table. */
  function BatchSize(total: nat): (b: nat)
    ensures b * CheckInterval >= total
    ensures b > 0 ==> (b - 1) * CheckInterval < total
    ensures b == 0 <==> total == 0
  {
    (total + CheckInterval - 1) / CheckInterval
  }

  function Min(a: int, b: int): int { if a <= b then a else b }

  /** Where the `OFFSET batch_size * hour` row window starts and ends,
      clipped to the table. */
  function SliceStart(total: nat, hour: nat): (k: nat)
    ensures k <= total
  {
    Min(BatchSize(total) * hour, total)
  }

  function SliceEnd(total: nat, hour: nat): (k: nat)
    ensures SliceStart(total, hour) <= k <= total
    ensures k - SliceStart(total, hour) <= BatchSize(total)
  {
    Min(BatchSize(total) * hour + BatchSize(total), total)
  }

  /** `LIMIT batch_size OFFSET batch_size * hour` over the rows `ids`. */
  function Batch(ids: seq<UserId>, hour: nat): (r: seq<UserId>)
    ensures |r| <= BatchSize(|ids|)
    ensures r == ids[SliceStart(|ids|, hour)..SliceEnd(|ids|, hour)]
  {
    var b := BatchSize(|ids|);
    var offset := Min(b * hour, |ids|);
    ids[offset..Min(offset + b, |ids|)]
  }

  /** The batches of hours `hour` to 23, in order. */
  function BatchesFrom(ids: seq<UserId>, hour: nat): seq<UserId>
    decreases CheckInterval - hour
  {
    if hour >= CheckInterval then [] else Batch(ids, hour) + BatchesFrom(ids, hour + 1)
  }

  /** Consecutive slices meet: each hour's window starts where the previous
      one ended. */
  lemma SlicesMeet(total: nat, hour: nat)
    ensures SliceEnd(total, hour) == SliceStart(total, hour + 1)
  {
    var b := BatchSize(total);
    assert b * hour + b == b * (hour + 1);
  }

  /** The window of the hour after the last lies past the end of the table. */
  lemma DayEndsPastTable(total: nat)
    ensures SliceStart(total, CheckInterval) == total
  {
    assert BatchSize(total) * CheckInterval >= total;
  }

  lemma {:induction false} BatchesFromIsSuffix(ids: seq<UserId>, hour: nat)
    requires hour <= CheckInterval
    ensures BatchesFrom(ids, hour) == ids[SliceStart(|ids|, hour)..]
    decreases CheckInterval - hour
  {
    var n := |ids|;
    if hour == CheckInterval {
      DayEndsPastTable(n);
    } else {
      BatchesFromIsSuffix(ids, hour + 1);
      SlicesMeet(n, hour);
      var a, m := SliceStart(n, hour), SliceEnd(n, hour);
      assert ids[a..] == ids[a..m] + ids[m..];
    }
  }

  /** The 24 batches of a day, concatenated in hour order, are the table
      exactly: together they cover every row once and overlap nowhere. An
      empty table gives 24 empty batches. */
  lemma DayCoversTableOnce(ids: seq<UserId>)
    ensures BatchesFrom(ids, 0) == ids
    ensures |ids| == 0 ==> forall h :: 0 <= h < CheckInterval ==> Batch(ids, h) == []
  {
    BatchesFromIsSuffix(ids, 0);
  }

  lemma MulMonotone(b: nat, x: int, y: int)
    requires x <= y
    ensures b * x <= b * y
  {
    assert b * y - b * x == b * (y - x);
  }

  /** `i` lies in the `h`-th band of width `b` exactly when `h` is `i / b`. */
  lemma DivBand(b: nat, h: nat, i: nat)
    requires b > 0
    ensures b * h <= i < b * h + b <==> h == i / b
  {
    var q, r := i / b, i % b;
    assert i == b * q + r && 0 <= r < b;
    if h < q {
      MulMonotone(b, h + 1, q);
      assert b * (h + 1) == b * h + b;
    } else if q < h {
      MulMonotone(b, q + 1, h);
      assert b * (q + 1) == b * q + b;
    }
  }

  /** Row `i` falls in the window of exactly one hour: hour `i / batch_size`. */
  lemma RowInExactlyOneSlice(total: nat, i: nat, hour: nat)
    requires i < total && hour < CheckInterval
    ensures SliceStart(total, hour) <= i < SliceEnd(total, hour) <==> hour == i / BatchSize(total)
  {
    DivBand(BatchSize(total), hour, i);
  }

  /** No id occurs twice: the rows of a primary-key column. */
  predicate Distinct(ids: seq<UserId>)
  {
    forall a, b :: 0 <= a < b < |ids| ==> ids[a] != ids[b]
  }

  /** With distinct user ids, each tracked user is in the batch of exactly
      one hour of the day. */
  lemma EachUserInOneBatch(ids: seq<UserId>, i: nat, hour: nat)
    requires i < |ids| && hour < CheckInterval
    requires Distinct(ids)
    ensures ids[i] in Batch(ids, hour) <==> hour == i / BatchSize(|ids|)
  {
    var n := |ids|;
    RowInExactlyOneSlice(n, i, hour);
    var a, m := SliceStart(n, hour), SliceEnd(n, hour);
    if ids[i] in Batch(ids, hour) {
      var k :| 0 <= k < m - a && ids[a..m][k] == ids[i];
      assert ids[a + k] == ids[i];
    }
  }

  // ---------------------------------------------------------------------
  // The tick

  /** The store after the tick, the channels fetched for notifications, and
      the users whose check failed. */
  datatype TickOutcome = TickOutcome(store: Store, fetches: seq<Option<ChannelId>>, failed: seq<UserId>)

  /** `check_ban(u)` (no guild filter) for every user of a batch. The checks
      touch distinct users and read only their own row and its memberships,
      so running them one after another gives the outcome of any
      interleaving; a failed check does not stop the others. */
  function CheckAll(st: Store, batch: seq<UserId>, lookup: Lookup, now: Timestamp): (r: TickOutcome)
    ensures r.store.guilds == st.guilds && r.store.membership == st.membership
    ensures r.store.users.Keys == st.users.Keys
    ensures forall u :: u in st.users && u !in batch ==> r.store.users[u] == st.users[u]
    ensures forall u :: u in st.users && st.users[u].dateBanned.Some? ==>
              r.store.users[u].dateBanned.Some? && Day(st.users[u].dateBanned.value) <= Day(r.store.users[u].dateBanned.value)
    ensures forall u :: u in r.failed <==> u in batch && (u !in st.users || lookup(ById(u)).None?)
    decreases |batch|
  {
    if |batch| == 0 then TickOutcome(st, [], [])
    else
      var uid := batch[0];
      match CheckBan(st, uid, lookup, now, None)
      case Err(_) =>
        var rest := CheckAll(st, batch[1..], lookup, now);
        TickOutcome(rest.store, rest.fetches, [uid] + rest.failed)
      case Ok(o) =>
        var rest := CheckAll(o.store, batch[1..], lookup, now);
        TickOutcome(rest.store, o.fetches + rest.fetches, rest.failed)
  }

  /** The ban date `check_ban(u)` leaves when it runs against `st`: the
      fetched date at midnight when that is news, the stored one otherwise
      (including when the account cannot be resolved). */
  function DecidedDate(st: Store, u: UserId, lookup: Lookup, now: Timestamp): Option<Timestamp>
    requires u in st.users
  {
    var before := st.users[u].dateBanned;
    match lookup(ById(u))
    case None => before
    case Some(p) =>
      match Decide(before, BanDateOf(p, now))
      case Escalate(d) => Some(d)
      case _ => before
  }

  /** `check_ban(u)` against `st` reaches the notification step. */
  predicate Escalates(st: Store, u: UserId, lookup: Lookup, now: Timestamp)
  {
    && u in st.users
    && lookup(ById(u)).Some?
    && Decide(st.users[u].dateBanned, BanDateOf(lookup(ById(u)).value, now)).Escalate?
  }

  /** The channels fetched for the users of `batch` that escalate, each
      user judged against `st` alone: a user's servers in order, users in
      batch order. */
  function NotifiedChannels(st: Store, batch: seq<UserId>, lookup: Lookup, now: Timestamp): seq<Option<ChannelId>>
    decreases |batch|
  {
    if |batch| == 0 then []
    else
      (if Escalates(st, batch[0], lookup, now) then ChannelsOf(NotifyTargets(UserServers(st, batch[0]), None)) else [])
      + NotifiedChannels(st, batch[1..], lookup, now)
  }

  /** The reference view of a tick depends only on the batch users' own rows,
      the guilds and the join table. */
  lemma {:induction false} NotifiedChannelsFrame(st: Store, st': Store, batch: seq<UserId>, lookup: Lookup, now: Timestamp)
    requires st'.guilds == st.guilds && st'.membership == st.membership
    requires forall u :: u in batch ==> (u in st.users <==> u in st'.users) && (u in st.users ==> st'.users[u] == st.users[u])
    ensures NotifiedChannels(st', batch, lookup, now) == NotifiedChannels(st, batch, lookup, now)
    decreases |batch|
  {
    if |batch| > 0 {
      assert batch[0] in batch;
      assert forall u :: u in batch[1..] ==> u in batch;
      NotifiedChannelsFrame(st, st', batch[1..], lookup, now);
    }
  }

  /** The user rows after checking a batch of distinct users one after
      another: each user in the batch ends with the date `check_ban`
      decides for it against the store before the tick, and every other
      user is untouched. */
  lemma {:induction false} CheckAllStores(st: Store, batch: seq<UserId>, lookup: Lookup, now: Timestamp)
    requires Distinct(batch)
    ensures var r := CheckAll(st, batch, lookup, now);
            forall u :: u in st.users ==>
              r.store.users[u] == st.users[u].(dateBanned := if u in batch then DecidedDate(st, u, lookup, now) else st.users[u].dateBanned)
    decreases |batch|
  {
    if |batch| > 0 {
      var u, tail := batch[0], batch[1..];
      assert batch == [u] + tail;
      assert u !in tail;
      assert Distinct(tail);
      var c := CheckBan(st, u, lookup, now, None);
      if c.Err? {
        CheckAllStores(st, tail, lookup, now);
      } else {
        var o := c.value;
        assert OnlyBanDateOf(st, o.store, u);
        CheckAllStores(o.store, tail, lookup, now);
        var r := CheckAll(o.store, tail, lookup, now);
        assert CheckAll(st, batch, lookup, now).store == r.store;
        forall v | v in tail && v in st.users
          ensures DecidedDate(o.store, v, lookup, now) == DecidedDate(st, v, lookup, now)
        {
          assert o.store.users[v] == st.users[v];
        }
      }
    }
  }

  /** The channels fetched while checking a batch of distinct users are
      those of the escalating users, in batch order. */
  lemma {:induction false} CheckAllFetches(st: Store, batch: seq<UserId>, lookup: Lookup, now: Timestamp)
    requires Distinct(batch)
    ensures CheckAll(st, batch, lookup, now).fetches == NotifiedChannels(st, batch, lookup, now)
    decreases |batch|
  {
    if |batch| > 0 {
      var u, tail := batch[0], batch[1..];
      assert u !in tail;
      assert Distinct(tail);
      var c := CheckBan(st, u, lookup, now, None);
      if c.Err? {
        CheckAllFetches(st, tail, lookup, now);
      } else {
        var o := c.value;
        assert OnlyBanDateOf(st, o.store, u);
        CheckAllFetches(o.store, tail, lookup, now);
        NotifiedChannelsFrame(st, o.store, tail, lookup, now);
      }
    }
  }

  /** `check_bans_task` at time `now` over the table rows `ids`. */
  function CheckBansTask(st: Store, ids: seq<UserId>, lookup: Lookup, now: Timestamp): (r: TickOutcome)
    ensures r.store.guilds == st.guilds && r.store.membership == st.membership
    ensures r.store.users.Keys == st.users.Keys
    ensures forall u :: u in st.users && u !in Batch(ids, HourOfDay(now)) ==> r.store.users[u] == st.users[u]
    ensures |ids| == 0 ==> r == TickOutcome(st, [], [])
  {
    CheckAll(st, Batch(ids, HourOfDay(now)), lookup, now)
  }

  /** A slice of distinct ids is distinct. */
  lemma BatchDistinct(ids: seq<UserId>, hour: nat)
    requires Distinct(ids)
    ensures Distinct(Batch(ids, hour))
  {
    var a := SliceStart(|ids|, hour);
    var b := Batch(ids, hour);
    forall x, y | 0 <= x < y < |b|
      ensures b[x] != b[y]
    {
      assert b[x] == ids[a + x] && b[y] == ids[a + y];
    }
  }

  /** The hourly task over a table of distinct ids: the users of the current
      hour's batch end with the date `check_ban` decides for them, all other
      users are untouched, and the channels of the escalating users are
      fetched. */
  lemma TickChecksItsBatch(st: Store, ids: seq<UserId>, lookup: Lookup, now: Timestamp)
    requires Distinct(ids)
    ensures var b := Batch(ids, HourOfDay(now));
            var r := CheckBansTask(st, ids, lookup, now);
            && (forall u :: u in st.users ==>
                  r.store.users[u] == st.users[u].(dateBanned := if u in b then DecidedDate(st, u, lookup, now) else st.users[u].dateBanned))
            && r.fetches == NotifiedChannels(st, b, lookup, now)
  {
    BatchDistinct(ids, HourOfDay(now));
    CheckAllStores(st, Batch(ids, HourOfDay(now)), lookup, now);
    CheckAllFetches(st, Batch(ids, HourOfDay(now)), lookup, now);
  }
}
