/** Validation done by the server-rendered hall and session creation forms. */
module Forms {
  import opened CinemaModels
  import Managers
  import Signals

  /** The validation errors of the forms and the serializers, identified by
      their message text (the serializers' hall validators raise the message
      alone, without a code of their own). */
  datatype ErrorCode = InvalidCount | NameExists | InvalidPrice | InvalidDate | InvalidSession | InvalidTime

  /** The user-facing message of each error code. */
  function Message(code: ErrorCode): string
  {
    match code
    case InvalidCount => "Count should be bigger than 0"
    case NameExists => "Hall with that name already exists"
    case InvalidPrice => "price should be bigger than 0"
    case InvalidDate => "session date should be between start date and end date"
    case InvalidSession => "session on this time in that hall already exists"
    case InvalidTime => "invalid format time"
  }

  /** Every error code has its own message, so a message identifies the error. */
  lemma MessagesDistinct(a: ErrorCode, b: ErrorCode)
    ensures Message(a) == Message(b) <==> a == b
  {
    // The lengths already differ, except between the count and the price
    // messages, which differ in their first letter.
    assert |Message(InvalidCount)| == 29 && Message(InvalidCount)[0] == 'C';
    assert |Message(InvalidPrice)| == 29 && Message(InvalidPrice)[0] == 'p';
    assert |Message(NameExists)| == 34;
    assert |Message(InvalidDate)| == 54;
    assert |Message(InvalidSession)| == 48;
    assert |Message(InvalidTime)| == 19;
  }

  /** A field validator either returns the cleaned value or raises a validation error. */
  datatype Result<T> = Ok(value: T) | Err(code: ErrorCode)

  /** A whole-form check: it passes, raises a validation error, or lets an
      exception that is not a validation error escape. */
  datatype Outcome = Pass | Fail(code: ErrorCode) | Unhandled

  /** `clean_rows` and `clean_seats_per_row`: a count must be positive and is returned unchanged. */
  function CleanCount(count: int): (r: Result<int>)
    ensures r.Ok? <==> count > 0
    ensures r.Ok? ==> r.value == count
    ensures r.Err? ==> r.code == InvalidCount
  {
    if count <= 0 then Err(InvalidCount) else Ok(count)
  }

  /** A hall whose two counts pass the form has a non-empty seat grid of
      exactly rows * seatsPerRow seats. */
  lemma ValidatedHallGridSize(hall: MovieHall)
    requires CleanCount(hall.rows).Ok? && CleanCount(hall.seatsPerRow).Ok?
    ensures |Signals.SeatGrid(hall.id, hall.rows, hall.seatsPerRow)| == hall.rows * hall.seatsPerRow > 0
  {
    Signals.GridSize(hall.id, hall.rows, hall.seatsPerRow);
  }

  /** ASCII lower-casing, the case folding of a case-insensitive lookup. */
  function Lower(c: char): char
  {
    if 'A' <= c <= 'Z' then (c as int + 32) as char else c
  }

  /** Two names that are equal ignoring case. */
  predicate SameIgnoringCase(a: string, b: string)
  {
    |a| == |b| && forall i | 0 <= i < |a| :: Lower(a[i]) == Lower(b[i])
  }

  /** Equality ignoring case is an equivalence. */
  lemma SameIgnoringCaseIsEquivalence(a: string, b: string, c: string)
    ensures SameIgnoringCase(a, a)
    ensures SameIgnoringCase(a, b) ==> SameIgnoringCase(b, a)
    ensures SameIgnoringCase(a, b) && SameIgnoringCase(b, c) ==> SameIgnoringCase(a, c)
  {
  }

  /** Hall `h` is not the excluded one and carries `name` up to case. */
  predicate Clashes(h: MovieHall, name: string, exclude: Option<HallId>)
  {
    (exclude.None? || h.id != exclude.value) && SameIgnoringCase(h.name, name)
  }

  /** The existence query `name__iexact=name`, optionally with `.exclude(pk=…)`. */
  function NameTaken(halls: seq<MovieHall>, name: string, exclude: Option<HallId>): (r: bool)
    ensures r <==> exists i :: 0 <= i < |halls| && Clashes(halls[i], name, exclude)
  {
    if halls == [] then false
    else
      var hit := (exclude.None? || halls[0].id != exclude.value) && SameIgnoringCase(halls[0].name, name);
      hit || NameTaken(halls[1..], name, exclude)
  }

  /** `clean_name`: a name equal, ignoring case, to any stored hall's name is
      refused; otherwise it is returned unchanged. */
  function CleanName(halls: seq<MovieHall>, name: string): (r: Result<string>)
    ensures r.Err? <==> exists i :: 0 <= i < |halls| && SameIgnoringCase(halls[i].name, name)
    ensures r.Ok? ==> r.value == name
    ensures r.Err? ==> r.code == NameExists
  {
    if NameTaken(halls, name, None) then Err(NameExists) else Ok(name)
  }

  /** The form refuses to re-submit the name of any stored hall, in any casing. */
  lemma CleanNameRefusesStoredName(halls: seq<MovieHall>, k: nat, name: string)
    requires k < |halls| && SameIgnoringCase(name, halls[k].name)
    ensures CleanName(halls, name) == Err(NameExists)
  {
    SameIgnoringCaseIsEquivalence(name, halls[k].name, name);
  }

  /** Stored halls have pairwise distinct keys and names that differ ignoring case. */
  ghost predicate UniqueHalls(halls: seq<MovieHall>)
  {
    forall i, j | 0 <= i < j < |halls| :: halls[i].id != halls[j].id && !SameIgnoringCase(halls[i].name, halls[j].name)
  }

  /** Adding a hall with a fresh key whose name passed `clean_name` keeps the
      names of the stored halls unique ignoring case. */
  lemma CleanNameKeepsHallsUnique(halls: seq<MovieHall>, hall: MovieHall)
    requires UniqueHalls(halls)
    requires CleanName(halls, hall.name).Ok?
    requires forall i | 0 <= i < |halls| :: halls[i].id != hall.id
    ensures UniqueHalls(halls + [hall])
  {
    var all := halls + [hall];
    forall i, j | 0 <= i < j < |all| ensures all[i].id != all[j].id && !SameIgnoringCase(all[i].name, all[j].name) {
      if j == |halls| {
        assert all[i] == halls[i] && all[j] == hall;
      } else {
        assert all[i] == halls[i] && all[j] == halls[j];
      }
    }
  }

  /** `clean_price`: a non-positive price is refused; on success the validator
      returns nothing, not the price. */
  function CleanPrice(price: Money): (r: Result<Option<Money>>)
    ensures r.Err? <==> price <= 0
    ensures r.Err? ==> r.code == InvalidPrice
    ensures r.Ok? ==> r.value == None
  {
    if price <= 0 then Err(InvalidPrice) else Ok(None)
  }

  /** The cleaned fields a session form or serializer sees; `None` stands for a
      missing value or one that is not a date (or not a time, or no hall). */
  datatype SessionInput = SessionInput(
    sessionDate: Option<Date>,
    dateStart: Option<Date>,
    dateEnd: Option<Date>,
    timeStart: Option<Time>,
    timeEnd: Option<Time>,
    hall: Option<HallId>)

  predicate DatesPresent(d: SessionInput)
  {
    d.sessionDate.Some? && d.dateStart.Some? && d.dateEnd.Some?
  }

  /** The session date lies inside the validity window, both ends included. */
  predicate InWindow(d: SessionInput)
    requires DatesPresent(d)
  {
    d.dateStart.value <= d.sessionDate.value <= d.dateEnd.value
  }

  /** Some stored session of the hall on the session date contains the new
      start or the new end: the point-in-interval conflict rule. */
  predicate Conflicts(sessions: seq<Session>, start: Time, end: Time, sessionDate: Date, hall: HallId)
  {
    exists i :: 0 <= i < |sessions| &&
      (Managers.Covers(sessions[i], end, sessionDate, hall) || Managers.Covers(sessions[i], start, sessionDate, hall))
  }

  /** `SessionCreationForm.clean`.  Nothing is checked unless all three dates
      are present; then a session date outside the window is refused before any
      time check; a missing time makes the ORM raise (a `None` lookup value);
      otherwise the form is refused exactly when the new end or start falls
      inside a stored session of the same hall on the same date. */
  function CleanSession(d: SessionInput, sessions: seq<Session>): (r: Outcome)
    ensures !DatesPresent(d) ==> r == Pass
    ensures DatesPresent(d) && !InWindow(d) ==> r == Fail(InvalidDate)
    ensures DatesPresent(d) && InWindow(d) && (d.timeStart.None? || d.timeEnd.None?) ==> r == Unhandled
    ensures DatesPresent(d) && InWindow(d) && d.timeStart.Some? && d.timeEnd.Some? ==>
      (r == Pass || r == Fail(InvalidSession)) &&
      (r == Fail(InvalidSession) <==>
        d.hall.Some? && Conflicts(sessions, d.timeStart.value, d.timeEnd.value, d.sessionDate.value, d.hall.value))
  {
    if !DatesPresent(d) then Pass
    else if !(d.dateStart.value <= d.sessionDate.value <= d.dateEnd.value) then Fail(InvalidDate)
    else if d.timeEnd.None? || d.timeStart.None? then Unhandled
    else
      var byEnd := d.hall.Some? && Managers.ExistsSessionByTime(sessions, d.timeEnd.value, d.sessionDate.value, d.hall.value);
      var byStart := d.hall.Some? && Managers.ExistsSessionByTime(sessions, d.timeStart.value, d.sessionDate.value, d.hall.value);
      if byEnd || byStart then Fail(InvalidSession) else Pass
  }

  /** A refused conflict is a genuine overlap of the two time spans. */
  lemma ConflictIsOverlap(sessions: seq<Session>, start: Time, end: Time, sessionDate: Date, hall: HallId)
    requires start <= end
    requires Conflicts(sessions, start, end, sessionDate, hall)
    ensures exists i :: (0 <= i < |sessions| && sessions[i].hall == hall && sessions[i].sessionDate == sessionDate &&
                         sessions[i].timeStart <= end && start <= sessions[i].timeEnd)
  {
    var i :| 0 <= i < |sessions| &&
      (Managers.Covers(sessions[i], end, sessionDate, hall) || Managers.Covers(sessions[i], start, sessionDate, hall));
    assert sessions[i].timeStart <= end && start <= sessions[i].timeEnd;
  }

  /** The rule is not an overlap test: a new session that strictly encloses
      every stored session of its hall and date is accepted. */
  lemma EnclosingSessionAccepted(d: SessionInput, sessions: seq<Session>)
    requires DatesPresent(d) && InWindow(d) && d.timeStart.Some? && d.timeEnd.Some? && d.hall.Some?
    requires forall i | 0 <= i < |sessions| && sessions[i].hall == d.hall.value && sessions[i].sessionDate == d.sessionDate.value ::
      d.timeStart.value < sessions[i].timeStart && sessions[i].timeEnd < d.timeEnd.value
    ensures CleanSession(d, sessions) == Pass
  {
    if Conflicts(sessions, d.timeStart.value, d.timeEnd.value, d.sessionDate.value, d.hall.value) {
      var i :| 0 <= i < |sessions| &&
        (Managers.Covers(sessions[i], d.timeEnd.value, d.sessionDate.value, d.hall.value) ||
         Managers.Covers(sessions[i], d.timeStart.value, d.sessionDate.value, d.hall.value));
      assert false;
    }
  }

  /** A stored 18:20-19:20 screening in hall 1 on day 0, priced 6.00. */
  function EveningSession(): Session
  {
    Session(1, 1, 66000, 69600, 0, 5, 0, 600, 1)
  }

  /** 19:00-20:00 against 18:20-19:20 in the same hall and date is refused:
      its start falls inside the stored screening. */
  lemma OverlappingExampleRefused()
    ensures CleanSession(SessionInput(Some(0), Some(0), Some(5), Some(68400), Some(72000), Some(1)), [EveningSession()])
      == Fail(InvalidSession)
  {
    assert Managers.Covers(EveningSession(), 68400, 0, 1);
  }

  /** 20:00-21:00 against 18:20-19:20 is accepted. */
  lemma LaterExampleAccepted()
    ensures CleanSession(SessionInput(Some(0), Some(0), Some(5), Some(72000), Some(75600), Some(1)), [EveningSession()])
      == Pass
  {
  }

  /** A session date four days before the window opens is refused as a date error. */
  lemma EarlyDateExampleRefused()
    ensures CleanSession(SessionInput(Some(-4), Some(0), Some(5), Some(72000), Some(75600), Some(1)), [EveningSession()])
      == Fail(InvalidDate)
  {
  }
}
