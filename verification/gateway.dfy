/** The pure part of `_get_steam_user`: deciding whether an identifier is a
    numeric account id or a vanity name, and turning the lookup service's
    "days since last ban" into a ban date. The lookup service itself is a
    parameter: a function from query to profile, `None` for an unknown account. */
module Gateway {
  import opened Outcomes
  import opened Clock
  import opened Text
  import opened Models

  /** What is handed to `_get_steam_user`: an `int` (a stored user id) or a
      `str` (an extracted identifier). */
  datatype Identifier = Numeric(n: int) | Named(s: string)

  /** `SteamUser(userid=...)` or `SteamUser(userurl=...)`. */
  datatype Query = ById(steamId: int) | ByVanity(url: string)

  /** The fields of a looked-up account the bot reads. */
  datatype SteamProfile = SteamProfile(
    steamId: UserId,
    name: string,
    gameBanned: bool,
    vacBanned: bool,
    daysSinceLastBan: int)

  /** `(steamid, name, ban_date)`. */
  datatype Resolved = Resolved(id: UserId, name: string, banDate: Option<Timestamp>)

  type Lookup = Query -> Option<SteamProfile>

  /** An `int`, or a string that fully matches `[1-9][0-9]*`, is looked up by
      id (`int(user_id)`); anything else is looked up as a vanity name. */
  function Classify(ident: Identifier): (q: Query)
    ensures ident.Numeric? ==> q == ById(ident.n)
    ensures ident.Named? ==> (q.ById? <==> IsCanonicalNumeral(ident.s))
    ensures ident.Named? && q.ById? ==> q.steamId >= 1 && Decimal(q.steamId) == ident.s
    ensures ident.Named? && q.ByVanity? ==> q.url == ident.s
  {
    match ident
    case Numeric(n) => ById(n)
    case Named(s) =>
      if IsCanonicalNumeral(s) then
        DecimalOfParseDecimal(s);
        ById(ParseDecimal(s))
      else ByVanity(s)
  }

  /** A stored user id, rendered as text, is classified back to the same id. */
  lemma ClassifyRendered(n: nat)
    requires n >= 1
    ensures Classify(Named(Decimal(n))) == ById(n)
  {
    DecimalIsCanonical(n);
    ParseDecimalOfDecimal(n);
  }

  /** A ban date exists only for a game or VAC ban, and lies the reported
      number of whole days before `now`. */
  function BanDateOf(p: SteamProfile, now: Timestamp): (r: Option<Timestamp>)
    ensures r.None? <==> !(p.gameBanned || p.vacBanned)
    ensures r.Some? ==> now - r.value == p.daysSinceLastBan * SecondsPerDay
    ensures r.Some? ==> Day(r.value) == Day(now) - p.daysSinceLastBan
  {
    if p.gameBanned || p.vacBanned then
      DayShift(now, p.daysSinceLastBan);
      Some(now - p.daysSinceLastBan * SecondsPerDay)
    else None
  }

  /** `_get_steam_user`: look the identifier up and report the account's id,
      name and ban date; an unknown account is `UserNotFoundError`. */
  function GetSteamUser(ident: Identifier, lookup: Lookup, now: Timestamp): (r: Result<Resolved, Fault>)
    ensures lookup(Classify(ident)).None? <==> r == Err(UserNotFound)
    ensures r.Ok? ==>
              var p := lookup(Classify(ident)).value;
              r.value.id == p.steamId && r.value.name == p.name && r.value.banDate == BanDateOf(p, now)
  {
    match lookup(Classify(ident))
    case None => Err(UserNotFound)
    case Some(p) => Ok(Resolved(p.steamId, p.name, BanDateOf(p, now)))
  }

  /** The model's `days_since_last_ban` reads back the count the lookup
      reported, both for the raw ban date and for the same date moved to
      midnight. */
  lemma BanDateRoundTrip(p: SteamProfile, u: User, now: Timestamp)
    requires BanDateOf(p, now).Some?
    requires u.dateBanned == BanDateOf(p, now) || u.dateBanned == Some(Midnight(BanDateOf(p, now).value))
    ensures DaysSinceLastBan(u, now) == Some(p.daysSinceLastBan)
  {
    var d := BanDateOf(p, now).value;
    if u.dateBanned == Some(d) {
      assert (now - d) / SecondsPerDay == p.daysSinceLastBan;
    } else {
      MidnightIdempotent(d);
      DaysSinceMidnightBan(u, now);
    }
  }
}
