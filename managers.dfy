/** The "is this time taken?" query over the sessions table. */
module Managers {
  import opened CinemaModels

  /** Session `s` runs in `hall` on `sessionDate` and its time span contains
      `t`, both ends included. */
  predicate Covers(s: Session, t: Time, sessionDate: Date, hall: HallId)
  {
    s.hall == hall && s.sessionDate == sessionDate && s.timeStart <= t <= s.timeEnd
  }

  /** Whether some stored session in `hall` on `sessionDate` contains the
      instant `t`.  No session is left out of the search. */
  function ExistsSessionByTime(sessions: seq<Session>, t: Time, sessionDate: Date, hall: HallId): (r: bool)
    ensures r <==> exists i :: 0 <= i < |sessions| && Covers(sessions[i], t, sessionDate, hall)
  {
    if sessions == [] then false
    else Covers(sessions[0], t, sessionDate, hall) || ExistsSessionByTime(sessions[1..], t, sessionDate, hall)
  }

  /** Adding sessions to the store can only turn a miss into a hit. */
  lemma QueryMonotone(fewer: seq<Session>, more: seq<Session>, t: Time, sessionDate: Date, hall: HallId)
    requires forall s | s in fewer :: s in more
    ensures ExistsSessionByTime(fewer, t, sessionDate, hall) ==> ExistsSessionByTime(more, t, sessionDate, hall)
  {
    if ExistsSessionByTime(fewer, t, sessionDate, hall) {
      var i :| 0 <= i < |fewer| && Covers(fewer[i], t, sessionDate, hall);
      assert fewer[i] in more;
      var j :| 0 <= j < |more| && more[j] == fewer[i];
      assert Covers(more[j], t, sessionDate, hall);
    }
  }

  /** Two stores that hold the same sessions for this hall and date give the
      same answer: sessions of other halls or other dates never matter. */
  lemma QueryOnlySeesHallAndDate(a: seq<Session>, b: seq<Session>, t: Time, sessionDate: Date, hall: HallId)
    requires forall s: Session | s.hall == hall && s.sessionDate == sessionDate :: s in a <==> s in b
    ensures ExistsSessionByTime(a, t, sessionDate, hall) == ExistsSessionByTime(b, t, sessionDate, hall)
  {
    forall s | s in a && Covers(s, t, sessionDate, hall) ensures s in b { }
    forall s | s in b && Covers(s, t, sessionDate, hall) ensures s in a { }
    if ExistsSessionByTime(a, t, sessionDate, hall) {
      var i :| 0 <= i < |a| && Covers(a[i], t, sessionDate, hall);
      var j :| 0 <= j < |b| && b[j] == a[i];
      assert Covers(b[j], t, sessionDate, hall);
    }
    if ExistsSessionByTime(b, t, sessionDate, hall) {
      var i :| 0 <= i < |b| && Covers(b[i], t, sessionDate, hall);
      var j :| 0 <= j < |a| && a[j] == b[i];
      assert Covers(a[j], t, sessionDate, hall);
    }
  }

  /** Both ends of a stored session count as taken. */
  lemma QueryBoundsInclusive(sessions: seq<Session>, k: nat)
    requires k < |sessions| && sessions[k].timeStart <= sessions[k].timeEnd
    ensures ExistsSessionByTime(sessions, sessions[k].timeStart, sessions[k].sessionDate, sessions[k].hall)
    ensures ExistsSessionByTime(sessions, sessions[k].timeEnd, sessions[k].sessionDate, sessions[k].hall)
  {
    assert Covers(sessions[k], sessions[k].timeStart, sessions[k].sessionDate, sessions[k].hall);
    assert Covers(sessions[k], sessions[k].timeEnd, sessions[k].sessionDate, sessions[k].hall);
  }
}
