/**
 * The submit handler: validate the form, compute the trip distance, build the
 * record with its free text upper-cased, and append it to the loaded table.
 */
module Intake {
  import opened Wrappers
  import opened Text
  import opened Timestamp
  import opened Log

  /**
   * What the form hands over on submit. The odometer inputs have
   * `min_value=0`, so they are naturals; the timestamp is the clock reading
   * already formatted as 'YYYY-MM-DD HH:MM'; `photo` is the base64 text of
   * the captured picture, or empty when none was taken.
   */
  datatype Submission = Submission(
    timestamp: string,
    vehicle: string,
    driver: string,
    purpose: string,
    startKm: nat,
    endKm: nat,
    fuelLtrs: real,
    authBy: string,
    location: string,
    items: string,
    photo: string)

  /** The two error messages of the handler. */
  datatype Rejection = EndBeforeStart | MissingAuthOrLocation

  /**
   * `end_km - start_km if end_km > 0 else 0`. An end reading of 0 means "not
   * entered" and gives 0; the distance is negative exactly when the end reading
   * was entered and is below the start, which is the case validation rejects.
   */
  function TripDistance(startKm: nat, endKm: nat): (d: int)
    ensures endKm == 0 ==> d == 0
    ensures endKm > 0 ==> startKm + d == endKm
    ensures d >= 0 <==> !(endKm < startKm && endKm != 0)
    ensures d <= endKm
  {
    if endKm > 0 then endKm - startKm else 0
  }

  /**
   * The two checks of the handler, in order: the odometer first, then the
   * presence of the authoriser and the location (an empty text field is falsy).
   * A submission passes exactly when its distance is non-negative and both
   * fields are filled in.
   */
  function Validate(sub: Submission): (err: Option<Rejection>)
    ensures err.None? <==>
      TripDistance(sub.startKm, sub.endKm) >= 0 && sub.authBy != [] && sub.location != []
    ensures err == Some(EndBeforeStart) ==> TripDistance(sub.startKm, sub.endKm) < 0
    ensures err == Some(MissingAuthOrLocation) ==> sub.authBy == [] || sub.location == []
  {
    if sub.endKm < sub.startKm && sub.endKm != 0 then Some(EndBeforeStart)
    else if sub.authBy == [] || sub.location == [] then Some(MissingAuthOrLocation)
    else None
  }

  /** A backwards odometer is reported even when the text fields are blank too. */
  lemma OdometerCheckedFirst(sub: Submission)
    requires sub.endKm < sub.startKm && sub.endKm != 0
    ensures Validate(sub) == Some(EndBeforeStart)
  {
  }

  /** With a sound odometer, a blank authoriser or location is the reason given. */
  lemma BlankFieldRejected(sub: Submission)
    requires !(sub.endKm < sub.startKm && sub.endKm != 0)
    requires sub.authBy == [] || sub.location == []
    ensures Validate(sub) == Some(MissingAuthOrLocation)
  {
  }

  /** The row built from a submission: three text fields upper-cased, the rest copied. */
  function MakeRecord(sub: Submission): (rec: Record)
    ensures rec.timestamp == sub.timestamp && rec.vehicle == sub.vehicle
    ensures rec.driver == sub.driver && rec.purpose == sub.purpose
    ensures rec.startKm == sub.startKm && rec.endKm == sub.endKm
    ensures rec.fuelLtrs == sub.fuelLtrs && rec.photo == Encoded(sub.photo)
    ensures rec.distance == TripDistance(sub.startKm, sub.endKm)
    ensures IsUpperCase(rec.authorizedBy) && IsUpperCase(rec.location) && IsUpperCase(rec.items)
    ensures |rec.authorizedBy| == |sub.authBy| && |rec.location| == |sub.location|
    ensures |rec.items| == |sub.items|
  {
    UpperIsUpperCase(sub.authBy);
    UpperIsUpperCase(sub.location);
    UpperIsUpperCase(sub.items);
    Record(
      sub.timestamp, sub.vehicle, sub.driver, Upper(sub.authBy),
      sub.startKm, sub.endKm, TripDistance(sub.startKm, sub.endKm), sub.fuelLtrs,
      sub.purpose, Upper(sub.location), Upper(sub.items), Encoded(sub.photo))
  }

  /**
   * The handler on the loaded table: a rejected submission creates no record;
   * an accepted one yields the table with the new record appended last.
   */
  function Submit(t: Table, sub: Submission): (r: Result<Table, Rejection>)
    ensures r.Failure? <==> Validate(sub).Some?
    ensures r.Failure? ==> Validate(sub) == Some(r.error)
    ensures r.Success? ==>
      |r.value| == |t| + 1 && r.value[..|t|] == t && r.value[|t|] == MakeRecord(sub)
  {
    match Validate(sub)
    case Some(e) => Failure(e)
    case None => Success(Append(t, MakeRecord(sub)))
  }

  /**
   * What the log promises of every row it creates: a timestamp in the clock's
   * format, a non-negative distance that agrees with the odometer readings, an
   * authoriser and a location that are filled in, and upper-case free text.
   */
  predicate SoundRow(r: Record)
  {
    && IsTimestamp(r.timestamp)
    && r.distance >= 0
    && r.distance == TripDistance(r.startKm, r.endKm)
    && r.authorizedBy != [] && r.location != []
    && IsUpperCase(r.authorizedBy) && IsUpperCase(r.location) && IsUpperCase(r.items)
  }

  predicate SoundLog(t: Table)
  {
    forall i :: 0 <= i < |t| ==> SoundRow(t[i])
  }

  /**
   * The central invariant: the record of an accepted submission has a
   * non-negative distance and filled-in, upper-case text. It rests on the
   * odometer check running before the distance is computed. The clock
   * reading is taken to be formatted as 'YYYY-MM-DD HH:MM'.
   */
  lemma AcceptedRecordIsSound(t: Table, sub: Submission)
    requires IsTimestamp(sub.timestamp)
    requires Submit(t, sub).Success?
    ensures SoundRow(Submit(t, sub).value[|t|])
    ensures Submit(t, sub).value[|t|].distance >= 0
  {
  }

  /** The table loaded when no file exists is sound. */
  lemma EmptyLogIsSound()
    ensures SoundLog(Load(None))
  {
  }

  /** Every accepted submission keeps a sound log sound. */
  lemma SubmitPreservesSoundLog(t: Table, sub: Submission)
    requires IsTimestamp(sub.timestamp)
    requires SoundLog(t)
    ensures Submit(t, sub).Success? ==> SoundLog(Submit(t, sub).value)
  {
    if Submit(t, sub).Success? {
      var u := Submit(t, sub).value;
      forall i | 0 <= i < |u|
        ensures SoundRow(u[i])
      {
        if i < |t| {
          assert u[i] == u[..|t|][i];
        } else {
          AcceptedRecordIsSound(t, sub);
        }
      }
    }
  }

  /** The stored text fields are exactly the upper-cased inputs, and upper-casing them again changes nothing. */
  lemma StoredTextIsUpperCased(sub: Submission)
    ensures MakeRecord(sub).authorizedBy == Upper(sub.authBy)
    ensures MakeRecord(sub).location == Upper(sub.location)
    ensures MakeRecord(sub).items == Upper(sub.items)
    ensures Upper(MakeRecord(sub).authorizedBy) == MakeRecord(sub).authorizedBy
    ensures Upper(MakeRecord(sub).location) == MakeRecord(sub).location
    ensures Upper(MakeRecord(sub).items) == MakeRecord(sub).items
  {
    UpperIdempotent(sub.authBy);
    UpperIdempotent(sub.location);
    UpperIdempotent(sub.items);
  }

  /** A submission with no end reading is accepted (fields filled) and logs distance 0. */
  lemma NoEndReadingGivesZero(t: Table, sub: Submission)
    requires sub.endKm == 0 && sub.authBy != [] && sub.location != []
    ensures Submit(t, sub).Success?
    ensures Submit(t, sub).value[|t|].distance == 0
  {
  }

  /** End 5 after start 10 is rejected for the odometer. */
  lemma BackwardsOdometerExample(t: Table, sub: Submission)
    requires sub.startKm == 10 && sub.endKm == 5
    ensures Submit(t, sub) == Failure(EndBeforeStart)
  {
  }

  /** Location "unit 2" is stored as "UNIT 2". */
  lemma UpperCaseLocationExample(sub: Submission)
    requires sub.location == "unit 2"
    ensures MakeRecord(sub).location == "UNIT 2"
  {
    assert Upper(sub.location) == "UNIT 2";
  }

  /** Without a picture the new row is never flagged as having a photo. */
  lemma NoPictureNotFlagged(sub: Submission)
    requires sub.photo == ""
    ensures !HasPhoto(MakeRecord(sub).photo)
  {
  }
}
