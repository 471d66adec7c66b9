/** Validation done by the REST serializers of halls and sessions. */
module Api {
  import opened CinemaModels
  import opened Forms
  import Managers

  /** The viewset action the serializer runs under; an update carries the key
      of the record being updated. */
  datatype Action = Create | Update(instancePk: nat) | OtherAction

  /** `validate_rows` and `validate_seats_per_row`: the same rule as the form,
      a positive count is returned unchanged. */
  function ValidateCount(count: int): (r: Result<int>)
    ensures r.Ok? <==> count > 0
    ensures r.Ok? ==> r.value == count
    ensures r.Err? ==> r.code == InvalidCount
  {
    CleanCount(count)
  }

  /** `validate_name`.  On create any hall counts; on update the hall being
      updated is excluded; under any other action the name is not checked. */
  function ValidateName(halls: seq<MovieHall>, name: string, action: Action): (r: Result<string>)
    ensures action.Create? ==> (r.Err? <==> exists i :: 0 <= i < |halls| && SameIgnoringCase(halls[i].name, name))
    ensures action.Update? ==>
      (r.Err? <==> exists i :: 0 <= i < |halls| && halls[i].id != action.instancePk && SameIgnoringCase(halls[i].name, name))
    ensures action.OtherAction? ==> r == Ok(name)
    ensures r.Ok? ==> r.value == name
    ensures r.Err? ==> r.code == NameExists
  {
    match action
    case Create => if NameTaken(halls, name, None) then Err(NameExists) else Ok(name)
    case Update(pk) => if NameTaken(halls, name, Some(pk)) then Err(NameExists) else Ok(name)
    case OtherAction => Ok(name)
  }

  /** With names unique ignoring case, an update may keep or re-case the
      hall's own name. */
  lemma UpdateMayKeepOwnName(halls: seq<MovieHall>, k: nat, name: string)
    requires UniqueHalls(halls)
    requires k < |halls| && SameIgnoringCase(name, halls[k].name)
    ensures ValidateName(halls, name, Update(halls[k].id)) == Ok(name)
  {
    forall i | 0 <= i < |halls| && halls[i].id != halls[k].id
      ensures !SameIgnoringCase(halls[i].name, name)
    {
      SameIgnoringCaseIsEquivalence(halls[i].name, name, halls[k].name);
      SameIgnoringCaseIsEquivalence(halls[k].name, halls[i].name, name);
      SameIgnoringCaseIsEquivalence(name, halls[k].name, name);
    }
  }

  /** `validate_price`: a positive price is returned unchanged. */
  function ValidatePrice(price: Money): (r: Result<Money>)
    ensures r.Err? <==> price <= 0
    ensures r.Err? ==> r.code == InvalidPrice
    ensures r.Ok? ==> r.value == price
  {
    if price <= 0 then Err(InvalidPrice) else Ok(price)
  }

  /** The serializer and the form refuse exactly the same prices, with the
      same error; only the serializer hands the price back. */
  lemma PriceValidatorsAgree(price: Money)
    ensures ValidatePrice(price).Err? <==> CleanPrice(price).Err?
    ensures ValidatePrice(price).Err? ==> ValidatePrice(price).code == CleanPrice(price).code
    ensures ValidatePrice(price).Ok? ==> ValidatePrice(price).value == price && CleanPrice(price).value == None
  {
  }

  /** `is_session_date_between`: true when all three dates are present and in
      range, a validation error when they are present and out of range, and
      false (nothing returned) when any of them is missing. */
  function IsSessionDateBetween(sessionDate: Option<Date>, dateStart: Option<Date>, dateEnd: Option<Date>): (r: Result<bool>)
    ensures sessionDate.None? || dateStart.None? || dateEnd.None? ==> r == Ok(false)
    ensures sessionDate.Some? && dateStart.Some? && dateEnd.Some? ==>
      r == (if dateStart.value <= sessionDate.value <= dateEnd.value then Ok(true) else Err(InvalidDate))
  {
    if sessionDate.Some? && dateStart.Some? && dateEnd.Some? then
      if !(dateStart.value <= sessionDate.value <= dateEnd.value) then Err(InvalidDate) else Ok(true)
    else Ok(false)
  }

  /** `validate_time`: when both times are present, refused exactly when a
      stored session of the hall on that date contains the new end or start;
      when a time is missing, nothing is checked. */
  function ValidateTime(timeStart: Option<Time>, timeEnd: Option<Time>, sessionDate: Date, hall: HallId,
                        sessions: seq<Session>): (r: Outcome)
    ensures r == Pass || r == Fail(InvalidSession)
    ensures r == Fail(InvalidSession) <==>
      timeStart.Some? && timeEnd.Some? && Conflicts(sessions, timeStart.value, timeEnd.value, sessionDate, hall)
  {
    if timeStart.Some? && timeEnd.Some? then
      if Managers.ExistsSessionByTime(sessions, timeEnd.value, sessionDate, hall)
         || Managers.ExistsSessionByTime(sessions, timeStart.value, sessionDate, hall)
      then Fail(InvalidSession)
      else Pass
    else Pass
  }

  /** What `SessionSerializer.validate` does with the data: returns it,
      raises a validation error, or raises the `KeyError` of a lookup of the
      hall in data that has none. */
  datatype Validation = Accepted(data: SessionInput) | Refused(code: ErrorCode) | MissingHall

  /** `SessionSerializer.validate`: data without a hall makes the lookup of the
      hall raise before anything is checked; otherwise the input comes back
      unchanged unless a date, a time or a conflict error is raised. */
  function Validate(d: SessionInput, action: Action, sessions: seq<Session>): (r: Validation)
    ensures r == MissingHall <==> d.hall.None?
    ensures r.Accepted? ==> r.data == d
    ensures r.Refused? ==> r.code == InvalidDate || r.code == InvalidTime || r.code == InvalidSession
    ensures d.hall.Some? && !DatesPresent(d) ==> r == Accepted(d)
    ensures r == Refused(InvalidDate) <==> d.hall.Some? && DatesPresent(d) && !InWindow(d)
    ensures r == Refused(InvalidTime) <==>
      d.hall.Some? && action.Update? && DatesPresent(d) && InWindow(d) && (d.timeStart.None? || d.timeEnd.None?)
    ensures r == Refused(InvalidSession) <==>
      d.hall.Some? && !action.OtherAction? && DatesPresent(d) && InWindow(d) && d.timeStart.Some? && d.timeEnd.Some? &&
      Conflicts(sessions, d.timeStart.value, d.timeEnd.value, d.sessionDate.value, d.hall.value)
  {
    if d.hall.None? then MissingHall
    else
      match IsSessionDateBetween(d.sessionDate, d.dateStart, d.dateEnd)
      case Err(code) => Refused(code)
      case Ok(between) =>
        if !between then Accepted(d)
        else
          match action
          case Create =>
            if ValidateTime(d.timeStart, d.timeEnd, d.sessionDate.value, d.hall.value, sessions).Fail?
            then Refused(InvalidSession) else Accepted(d)
          case Update(_) =>
            if d.timeStart.Some? && d.timeEnd.Some? then
              if ValidateTime(d.timeStart, d.timeEnd, d.sessionDate.value, d.hall.value, sessions).Fail?
              then Refused(InvalidSession) else Accepted(d)
            else Refused(InvalidTime)
          case OtherAction => Accepted(d)
  }

  /** On create, with both times and a hall present, the serializer accepts
      exactly what the form accepts. */
  lemma SerializerAgreesWithForm(d: SessionInput, sessions: seq<Session>)
    requires d.hall.Some? && d.timeStart.Some? && d.timeEnd.Some?
    ensures Validate(d, Create, sessions).Accepted? <==> CleanSession(d, sessions) == Pass
  {
  }

  /** The serializer searches every stored session, so an update that keeps a
      session's own slot conflicts with that session's stored row. */
  lemma UpdateKeepingOwnSlotRefused(d: SessionInput, sessions: seq<Session>, k: nat, pk: SessionId)
    requires d.hall.Some? && DatesPresent(d) && InWindow(d)
    requires k < |sessions|
    requires d.timeStart == Some(sessions[k].timeStart) && d.timeEnd == Some(sessions[k].timeEnd)
    requires sessions[k].timeStart <= sessions[k].timeEnd
    requires d.hall.value == sessions[k].hall && d.sessionDate.value == sessions[k].sessionDate
    ensures Validate(d, Update(pk), sessions) == Refused(InvalidSession)
  {
    assert Managers.Covers(sessions[k], d.timeEnd.value, d.sessionDate.value, d.hall.value);
  }
}
