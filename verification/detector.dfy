/** The ban-transition detector: `ban_status_changed` and the decision at the
    head of `check_ban` (steps before any write). */
module Detector {
  import opened Outcomes
  import opened Clock

  /** `ban_status_changed(source, comparison)`: a fetched date counts as news
      only when it falls on a later calendar day than the stored one, or
      when nothing was stored. */
  function BanStatusChanged(source: Option<Timestamp>, comparison: Option<Timestamp>): (r: bool)
    ensures comparison.None? ==> !r
    ensures source.None? && comparison.Some? ==> r
    ensures source.Some? && comparison.Some? ==> (r <==> Day(source.value) < Day(comparison.value))
  {
    if comparison.None? then false
    else if source.None? then true
    else Day(comparison.value) > Day(source.value)
  }

  /** What `check_ban` does with a fetched ban date. */
  datatype Decision =
    | NotBanned           // nothing fetched: return before any write
    | Unchanged           // not news: return before any write
    | Escalate(date: Timestamp)  // store `date` (midnight) and fetch the channels to notify

  function Decide(stored: Option<Timestamp>, fetched: Option<Timestamp>): (d: Decision)
    ensures d == NotBanned <==> fetched.None?
    ensures d.Escalate? <==> BanStatusChanged(stored, fetched)
    ensures d.Escalate? ==> d.date == Midnight(fetched.value)
  {
    if fetched.None? then NotBanned
    else if !BanStatusChanged(stored, fetched) then Unchanged
    else Escalate(Midnight(fetched.value))
  }

  /** An escalation always moves the stored day strictly forward, and the
      stored value is a midnight. */
  lemma EscalateMovesForward(stored: Option<Timestamp>, fetched: Option<Timestamp>)
    requires Decide(stored, fetched).Escalate?
    ensures var d := Decide(stored, fetched).date;
            && Midnight(d) == d
            && (stored.Some? ==> Day(stored.value) < Day(d))
  {
    MidnightIdempotent(fetched.value);
  }

  /** Once a date is stored at midnight, any fetched date on that same day
      is not news: repeated checks during a day never fire twice. */
  lemma SameDayIsNotNews(fetchedEarlier: Timestamp, fetchedLater: Timestamp)
    requires Day(fetchedEarlier) == Day(fetchedLater)
    ensures !BanStatusChanged(Some(Midnight(fetchedEarlier)), Some(fetchedLater))
    ensures Decide(Some(Midnight(fetchedEarlier)), Some(fetchedLater)) == Unchanged
  {
  }

  /** The news relation is a strict order on days: never reflexive, never
      both ways, and transitive. */
  lemma NewsIsStrictOrder(a: Timestamp, b: Timestamp, c: Timestamp)
    ensures !BanStatusChanged(Some(a), Some(a))
    ensures BanStatusChanged(Some(a), Some(b)) ==> !BanStatusChanged(Some(b), Some(a))
    ensures BanStatusChanged(Some(a), Some(b)) && BanStatusChanged(Some(b), Some(c)) ==> BanStatusChanged(Some(a), Some(c))
  {
  }
}
