/** The persisted records: guilds (chat servers), tracked users, and the
    bare `user_guild` join table between them, held in an abstract store. */
module Models {
  import opened Outcomes
  import opened Clock

  type UserId = int
  type GuildId = int
  type ChannelId = int

  /** A chat server. `command` is declared `String(length=1)` with default
      `"!"`; `channel` is nullable. */
  datatype Guild = Guild(id: GuildId, command: string, channel: Option<ChannelId>)

  /** A tracked player. `date_added` is set at creation; `date_banned` is nullable. */
  datatype User = User(id: UserId, name: string, dateAdded: Timestamp, dateBanned: Option<Timestamp>)

  /** One row of the join table. It has no key and no uniqueness constraint,
      so the same pair may occur more than once. */
  datatype Membership = Membership(guildId: GuildId, userId: UserId)

  /** The database: users and guilds keyed by their primary keys, and the
      join table as its rows in storage order. */
  datatype Store = Store(users: map<UserId, User>, guilds: map<GuildId, Guild>, membership: seq<Membership>)

  const DefaultCommand: string := "!"

  /** The declared width of the `command` column. */
  predicate ValidGuild(g: Guild)
  {
    |g.command| <= 1
  }

  /** Primary keys are the records' own ids, and every guild fits its schema. */
  ghost predicate Wf(st: Store)
  {
    && (forall u :: u in st.users ==> st.users[u].id == u)
    && (forall g :: g in st.guilds ==> st.guilds[g].id == g && ValidGuild(st.guilds[g]))
  }

  /** `Guild(id=...)` with the column defaults. */
  function NewGuild(id: GuildId): (g: Guild)
    ensures g.id == id && g.command == DefaultCommand && g.channel == None
    ensures ValidGuild(g)
  {
    Guild(id, DefaultCommand, None)
  }

  /** `User(id=..., name=...)`: `date_added` defaults to the creation time,
      `date_banned` to null. */
  function NewUser(id: UserId, name: string, now: Timestamp): (u: User)
    ensures u.id == id && u.name == name && u.dateAdded == now && u.dateBanned == None
  {
    User(id, name, now, None)
  }

  /** `User.days_since_last_ban`: whole days from the ban date to `now`,
      rounded down (`timedelta.days`). */
  function DaysSinceLastBan(u: User, now: Timestamp): (r: Option<int>)
    ensures r.None? <==> u.dateBanned.None?
    ensures r.Some? ==> r.value * SecondsPerDay <= now - u.dateBanned.value < (r.value + 1) * SecondsPerDay
  {
    match u.dateBanned
    case None => None
    case Some(d) => Some((now - d) / SecondsPerDay)
  }

  /** A ban date in the past gives a non-negative day count. */
  lemma DaysSinceLastBanNonNegative(u: User, now: Timestamp)
    requires u.dateBanned.Some? && u.dateBanned.value <= now
    ensures DaysSinceLastBan(u, now).Some? && DaysSinceLastBan(u, now).value >= 0
  {
  }

  /** For a ban date stored at midnight, the day count is the difference of
      calendar days, whatever the time of day of `now`. */
  lemma DaysSinceMidnightBan(u: User, now: Timestamp)
    requires u.dateBanned.Some? && u.dateBanned.value == Midnight(u.dateBanned.value)
    ensures DaysSinceLastBan(u, now) == Some(Day(now) - Day(u.dateBanned.value))
  {
    var d := u.dateBanned.value;
    var k := DaysSinceLastBan(u, now).value;
    assert d == Day(d) * SecondsPerDay;
    assert now == Day(now) * SecondsPerDay + now % SecondsPerDay;
    assert (Day(now) - Day(d)) * SecondsPerDay <= now - d < (Day(now) - Day(d) + 1) * SecondsPerDay;
    UniqueFloor(now - d, k, Day(now) - Day(d));
  }

  lemma UniqueFloor(x: int, a: int, b: int)
    requires a * SecondsPerDay <= x < (a + 1) * SecondsPerDay
    requires b * SecondsPerDay <= x < (b + 1) * SecondsPerDay
    ensures a == b
  {
  }

  // ---------------------------------------------------------------------
  // Relationship and aggregate views

  /** `user.servers`: the guild of every join-table row of the user, in row
      order, duplicates included. */
  function UserServers(st: Store, uid: UserId): seq<Guild>
  {
    ServersOf(st.guilds, st.membership, uid)
  }

  function ServersOf(guilds: map<GuildId, Guild>, rows: seq<Membership>, uid: UserId): (r: seq<Guild>)
    ensures |r| <= |rows|
    ensures forall k :: 0 <= k < |rows| && rows[k].userId == uid && rows[k].guildId in guilds ==>
              guilds[rows[k].guildId] in r
    ensures forall g :: g in r ==>
              exists k :: 0 <= k < |rows| && rows[k].userId == uid && rows[k].guildId in guilds && guilds[rows[k].guildId] == g
  {
    if |rows| == 0 then []
    else
      var rest := ServersOf(guilds, rows[..|rows| - 1], uid);
      var last := rows[|rows| - 1];
      if last.userId == uid && last.guildId in guilds then rest + [guilds[last.guildId]] else rest
  }

  /** Appending join-table rows appends their guilds to the user's servers. */
  lemma {:induction false} ServersOfAppend(guilds: map<GuildId, Guild>, a: seq<Membership>, b: seq<Membership>, uid: UserId)
    ensures ServersOf(guilds, a + b, uid) == ServersOf(guilds, a, uid) + ServersOf(guilds, b, uid)
    decreases |b|
  {
    if |b| > 0 {
      var b' := b[..|b| - 1];
      assert (a + b)[..|a + b| - 1] == a + b';
      ServersOfAppend(guilds, a, b', uid);
    } else {
      assert a + b == a;
    }
  }

  /** `COUNT(user.id) WHERE date_banned IS NOT NULL`. */
  function BannedIds(st: Store): (ids: set<UserId>)
    ensures ids <= st.users.Keys
    ensures forall u :: u in ids <==> u in st.users && st.users[u].dateBanned.Some?
  {
    set u | u in st.users && st.users[u].dateBanned.Some?
  }
}
