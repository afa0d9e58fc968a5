/** ForecastService: the write path (plant check, validation, upsert, change
    event) and the read path (plant check, range check, read). The database
    is a parameter and the call returns the database it leaves; the clock is
    the parameter `now`; the event handed to the publisher is returned. */
module ForecastService {
  import opened Time
  import opened Errors
  import opened Results
  import opened Models
  import opened Storage
  import opened Validation
  import opened ForecastWrite
  import opened ForecastRead

  datatype CreateOrUpdateForecastResponse = CreateOrUpdateForecastResponse(
    plantId: PlantId,
    insertedCount: int,
    updatedCount: int,
    unchangedCount: int,
    totalProcessed: int,
    hasChanges: bool)

  datatype GetForecastResponse = GetForecastResponse(
    plantId: PlantId,
    fromUtc: DateTime,
    toUtc: DateTime,
    forecasts: seq<ForecastData>)

  predicate AllValid(points: seq<ForecastPoint>) {
    forall i :: 0 <= i < |points| ==> ValidateForecastPoint(points[i]).IsSuccess()
  }

  /** The validation loop: the first failing point's error, or success. */
  function ValidatePoints(points: seq<ForecastPoint>): (r: Result<()>)
    ensures r.IsSuccess() <==> AllValid(points)
    ensures r.IsFailure() ==> exists i :: 0 <= i < |points| && r == ValidateForecastPoint(points[i])
                                            && AllValid(points[..i])
    decreases |points|
  {
    if |points| == 0 then Success(())
    else if ValidateForecastPoint(points[0]).IsFailure() then
      assert AllValid(points[..0]);
      ValidateForecastPoint(points[0])
    else
      var r := ValidatePoints(points[1..]);
      assert forall i :: 0 < i < |points| ==> points[i] == points[1..][i - 1];
      assert forall i :: 0 <= i < |points| - 1 ==> points[..i + 1] == [points[0]] + points[1..][..i];
      r
  }

  /** The earliest submitted hour (the first element after OrderBy). */
  function Earliest(points: seq<ForecastPoint>): (d: DateTime)
    requires |points| > 0
    ensures exists i :: 0 <= i < |points| && points[i].hourUtc == d
    ensures forall i :: 0 <= i < |points| ==> d.ticks <= points[i].hourUtc.ticks
    decreases |points|
  {
    if |points| == 1 then points[0].hourUtc
    else
      var rest := Earliest(points[1..]);
      assert forall i :: 0 < i < |points| ==> points[i] == points[1..][i - 1];
      if points[0].hourUtc.ticks <= rest.ticks then points[0].hourUtc else rest
  }

  /** The latest submitted hour (the last element after OrderBy). */
  function Latest(points: seq<ForecastPoint>): (d: DateTime)
    requires |points| > 0
    ensures exists i :: 0 <= i < |points| && points[i].hourUtc == d
    ensures forall i :: 0 <= i < |points| ==> points[i].hourUtc.ticks <= d.ticks
    decreases |points|
  {
    if |points| == 1 then points[0].hourUtc
    else
      var rest := Latest(points[1..]);
      assert forall i :: 0 < i < |points| ==> points[i] == points[1..][i - 1];
      if points[0].hourUtc.ticks <= rest.ticks then rest else points[0].hourUtc
  }

  /** What a submission leaves behind: the reply, the database, and the
      event handed to the publisher, if any. */
  datatype Submission = Submission(
    reply: Reply<CreateOrUpdateForecastResponse>,
    db: Db,
    published: Option<PositionChangedEvent>)

  /** The submission went through and the statement ran. */
  predicate Accepted(db: Db, plantId: PlantId, points: seq<ForecastPoint>) {
    IsActivePlant(db, plantId) && |points| > 0 && AllValid(points)
  }

  /** CreateOrUpdateForecastAsync(plantId, request, correlationId) at time now. */
  function CreateOrUpdateForecast(db: Db, plantId: PlantId, points: seq<ForecastPoint>,
                                  correlationId: Option<string>, now: DateTime): (s: Submission)
    ensures s.reply.Returned? ==> s.reply.result.Valid()
    ensures s.db.plants == db.plants && s.db.companies == db.companies
    // the checks, in order
    ensures !IsActivePlant(db, plantId) ==>
              s == Submission(Returned(Failure(ForecastPlantNotFound(plantId))), db, None)
    ensures IsActivePlant(db, plantId) && |points| == 0 ==>
              s == Submission(Returned(Failure(ForecastNoDataPoints)), db, None)
    ensures IsActivePlant(db, plantId) && |points| > 0 && !AllValid(points) ==>
              && s.db == db && s.published == None
              && s.reply.Returned?
              && exists i :: 0 <= i < |points| && s.reply.result == Failure(ValidateForecastPoint(points[i]).Err())
                               && AllValid(points[..i])
    // a statement PostgreSQL refuses escapes as an exception and writes nothing
    ensures s.reply.Raised? <==> Accepted(db, plantId, points) && !Executable(db.forecasts, plantId, points)
    ensures s.reply.Raised? ==> s.db == db && s.published == None
    // success
    ensures s.reply.Returned? && s.reply.result.IsSuccess() <==> Accepted(db, plantId, points) && Executable(db.forecasts, plantId, points)
    ensures s.reply.Returned? && s.reply.result.IsSuccess() ==>
              var resp := s.reply.result.value;
              && resp.plantId == plantId
              && resp.insertedCount == Tally(db.forecasts, plantId, points, Inserted)
              && resp.updatedCount == Tally(db.forecasts, plantId, points, Updated)
              && resp.unchangedCount == Tally(db.forecasts, plantId, points, Unchanged)
              && resp.totalProcessed == |points|
              && (resp.hasChanges <==> resp.insertedCount + resp.updatedCount > 0)
              && s.db.forecasts == Upsert(db.forecasts, plantId, points, now).table
    // the change event
    ensures s.published.Some? <==> s.reply.Returned? && s.reply.result.IsSuccess() && s.reply.result.value.hasChanges
    ensures s.published.Some? ==>
              s.published.value == PositionChangedEvent(
                db.plants[plantId].companyId, plantId, Earliest(points), Latest(points),
                correlationId.GetOr(""),
                s.reply.result.value.insertedCount, s.reply.result.value.updatedCount)
  {
    if !IsActivePlant(db, plantId) then
      Submission(Returned(Failure(ForecastPlantNotFound(plantId))), db, None)
    else if |points| == 0 then
      Submission(Returned(Failure(ForecastNoDataPoints)), db, None)
    else if ValidatePoints(points).IsFailure() then
      Submission(Returned(Failure(ValidatePoints(points).error)), db, None)
    else
      match Upsert(db.forecasts, plantId, points, now)
      case StatementFailed => Submission(Raised, db, None)
      case Applied(table, result) =>
        var response := CreateOrUpdateForecastResponse(
          plantId, result.insertedCount, result.updatedCount, result.unchangedCount,
          result.TotalProcessed(), result.HasChanges());
        var event :=
          if result.HasChanges() then
            Some(PositionChangedEvent(
              db.plants[plantId].companyId, plantId, Earliest(points), Latest(points),
              correlationId.GetOr(""), result.insertedCount, result.updatedCount))
          else None;
        Submission(Returned(Success(response)), db.(forecasts := table), event)
  }

  /** GetForecastAsync(plantId, from, to). */
  function GetForecast(db: Db, plantId: PlantId, from: DateTime, to: DateTime): (r: Result<GetForecastResponse>)
    ensures r.Valid()
    ensures r.IsSuccess() <==> PlantExists(db, plantId) && AcceptableRange(from, to)
    ensures !PlantExists(db, plantId) ==> r == Failure(ForecastPlantNotFound(plantId))
    ensures PlantExists(db, plantId) && !AcceptableRange(from, to) ==>
              r == Failure(ValidateTimeRange(from, to, ForecastRangeErrors).Err())
    ensures r.IsSuccess() ==>
              && r.value.plantId == plantId && r.value.fromUtc == from && r.value.toUtc == to
              && r.value.forecasts == GetForecasts(db.forecasts, plantId, from, to)
  {
    RangeResultsAreValid(from, to);
    if !PlantExists(db, plantId) then Failure(ForecastPlantNotFound(plantId))
    else
      var check := ValidateTimeRange(from, to, ForecastRangeErrors);
      if check.IsFailure() then Failure(check.error)
      else Success(GetForecastResponse(plantId, from, to, GetForecasts(db.forecasts, plantId, from, to)))
  }

  /** Resubmitting an accepted batch succeeds, reports every point unchanged,
      leaves the database as it was and publishes no event, provided the
      batch does not give one hour two amounts. */
  lemma ResubmissionIsSilent(db: Db, plantId: PlantId, points: seq<ForecastPoint>,
                             correlationId: Option<string>, now: DateTime, later: DateTime)
    requires CreateOrUpdateForecast(db, plantId, points, correlationId, now).reply.Returned?
    requires CreateOrUpdateForecast(db, plantId, points, correlationId, now).reply.result.IsSuccess()
    requires OneAmountPerHour(points)
    ensures var first := CreateOrUpdateForecast(db, plantId, points, correlationId, now);
            var second := CreateOrUpdateForecast(first.db, plantId, points, correlationId, later);
            && second.reply == Returned(Success(CreateOrUpdateForecastResponse(plantId, 0, 0, |points|, |points|, false)))
            && second.db == first.db
            && second.published == None
  {
    UpsertIsIdempotent(db.forecasts, plantId, points, now, later);
  }

  /** Every stored forecast is on the hour and not negative. */
  predicate StoredRowsValid(t: Table) {
    forall k :: k in t ==> OnHour(HourOf(k)) && t[k].mwh >= 0
  }

  /** Submissions keep the stored forecasts valid, whatever they are sent. */
  lemma SubmissionKeepsRowsValid(db: Db, plantId: PlantId, points: seq<ForecastPoint>,
                                 correlationId: Option<string>, now: DateTime)
    requires StoredRowsValid(db.forecasts)
    ensures StoredRowsValid(CreateOrUpdateForecast(db, plantId, points, correlationId, now).db.forecasts)
  {
    var s := CreateOrUpdateForecast(db, plantId, points, correlationId, now);
    if s.db != db {
      var t := db.forecasts;
      var u := s.db.forecasts;
      forall k | k in u ensures OnHour(HourOf(k)) && u[k].mwh >= 0 {
        if k in BatchKeys(plantId, points) {
          var p :| p in points && KeyOf(plantId, p) == k;
          var i :| 0 <= i < |points| && points[i] == p;
          UpsertStoresLastAmount(t, plantId, points, now, i);
          var j :| i <= j < |points| && points[j].hourUtc.ticks == points[i].hourUtc.ticks
                   && u[k].mwh == points[j].mwh;
          assert ValidateForecastPoint(points[i]).IsSuccess();
          assert ValidateForecastPoint(points[j]).IsSuccess();
        }
      }
    }
  }

  /** Reading back after an accepted submission returns, for every submitted
      hour inside an acceptable window, the amount of the last point
      submitted for that hour. */
  lemma ReadAfterWrite(db: Db, plantId: PlantId, points: seq<ForecastPoint>, correlationId: Option<string>,
                       now: DateTime, i: int, from: DateTime, to: DateTime)
    requires Accepted(db, plantId, points) && Executable(db.forecasts, plantId, points)
    requires 0 <= i < |points| && LastOfHour(points, i)
    requires from.ticks <= points[i].hourUtc.ticks < to.ticks
    requires AcceptableRange(from, to)
    ensures var r := GetForecast(CreateOrUpdateForecast(db, plantId, points, correlationId, now).db, plantId, from, to);
            && r.IsSuccess()
            && exists j :: 0 <= j < |r.value.forecasts|
                 && r.value.forecasts[j].hourUtc.ticks == points[i].hourUtc.ticks
                 && r.value.forecasts[j].mwh == points[i].mwh
  {
    var after := CreateOrUpdateForecast(db, plantId, points, correlationId, now).db;
    var k := KeyOf(plantId, points[i]);
    assert k in after.forecasts && after.forecasts[k].mwh == points[i].mwh;
    var rows := GetForecasts(after.forecasts, plantId, from, to);
    assert k.hour in HoursOf(rows);
    var d :| d in rows && d.hourUtc.ticks == k.hour;
    var j :| 0 <= j < |rows| && rows[j] == d;
  }
}
