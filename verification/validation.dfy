/** The validators of the forecast and position services: pure, total checks
    whose order of tests decides which error is reported. */
module Validation {
  import opened Time
  import opened Errors
  import opened Results
  import opened Models

  /** MaxQueryRangeDays, the same constant in both services. */
  const MaxQueryRangeDays: nat := 7

  /** The 7-day ceiling in ticks. `TotalDays > 7` on an exact tick count is
      the integer comparison `ticks > 7 * TicksPerDay`. */
  const MaxRangeTicks: nat := MaxQueryRangeDays * TicksPerDay

  /** Closed form of the alignment test, used to state the contracts
      independently of the minute/second/millisecond fields. */
  predicate OnHour(d: DateTime) {
    d.ticks % TicksPerHour < TicksPerMillisecond
  }

  /** ValidateForecastPoint: timezone, then alignment, then sign. */
  function ValidateForecastPoint(p: ForecastPoint): (r: Result<()>)
    ensures r.Valid()
    ensures r.IsSuccess() <==> p.hourUtc.kind == Utc && OnHour(p.hourUtc) && p.mwh >= 0
    ensures p.hourUtc.kind != Utc ==> r == Failure(ForecastInvalidTimezone)
    ensures p.hourUtc.kind == Utc && !OnHour(p.hourUtc) ==> r == Failure(ForecastInvalidHourAlignment)
    ensures p.hourUtc.kind == Utc && OnHour(p.hourUtc) && p.mwh < 0 ==> r == Failure(ForecastNegativeMwh)
  {
    HourAlignedIffWithinMillisecond(p.hourUtc);
    if p.hourUtc.kind != Utc then Failure(ForecastInvalidTimezone)
    else if Minute(p.hourUtc) != 0 || Second(p.hourUtc) != 0 || Millisecond(p.hourUtc) != 0 then
      Failure(ForecastInvalidHourAlignment)
    else if p.mwh < 0 then Failure(ForecastNegativeMwh)
    else Success(())
  }

  /** The four errors a range check reports; each service has its own family. */
  datatype RangeErrors = RangeErrors(timezone: Error, alignment: Error, order: Error, tooLarge: Error) {
    function All(): set<Error> {
      {timezone, alignment, order, tooLarge}
    }
  }

  /** DomainErrors.Forecast, as ForecastService.ValidateTimeRange uses it. */
  const ForecastRangeErrors: RangeErrors :=
    RangeErrors(ForecastInvalidTimezone, ForecastInvalidHourAlignment, ForecastInvalidTimeRange,
                ForecastTimeRangeTooLarge(MaxQueryRangeDays))

  /** DomainErrors.Position, as PositionService.ValidateTimeRange uses it. */
  const PositionRangeErrors: RangeErrors :=
    RangeErrors(PositionInvalidTimezone, PositionInvalidHourAlignment, PositionInvalidTimeRange,
                PositionTimeRangeTooLarge(MaxQueryRangeDays))

  /** A range passes every check. */
  predicate AcceptableRange(from: DateTime, to: DateTime) {
    && from.kind == Utc && to.kind == Utc
    && OnHour(from) && OnHour(to)
    && from.ticks < to.ticks
    && to.ticks - from.ticks <= MaxRangeTicks
  }

  /** ValidateTimeRange: timezone of both bounds, then alignment of both,
      then from < to, then the 7-day ceiling. */
  function ValidateTimeRange(from: DateTime, to: DateTime, errs: RangeErrors): (r: Result<()>)
    ensures r.IsSuccess() <==> AcceptableRange(from, to)
    ensures r.IsFailure() ==> r.Err() in errs.All()
    ensures from.kind != Utc || to.kind != Utc ==> r == Failure(errs.timezone)
    ensures from.kind == Utc && to.kind == Utc && (!OnHour(from) || !OnHour(to)) ==>
              r == Failure(errs.alignment)
    ensures from.kind == Utc && to.kind == Utc && OnHour(from) && OnHour(to) && from.ticks >= to.ticks ==>
              r == Failure(errs.order)
    ensures AcceptableRange(from, to) ==> r == Success(())
    ensures from.kind == Utc && to.kind == Utc && OnHour(from) && OnHour(to) && from.ticks < to.ticks ==>
              (r == Failure(errs.tooLarge) <==> to.ticks - from.ticks > MaxRangeTicks)
  {
    HourAlignedIffWithinMillisecond(from);
    HourAlignedIffWithinMillisecond(to);
    if from.kind != Utc || to.kind != Utc then Failure(errs.timezone)
    else if Minute(from) != 0 || Second(from) != 0 || Millisecond(from) != 0 ||
            Minute(to) != 0 || Second(to) != 0 || Millisecond(to) != 0 then
      Failure(errs.alignment)
    else if from.ticks >= to.ticks then Failure(errs.order)
    else if to.ticks - from.ticks > MaxRangeTicks then Failure(errs.tooLarge)
    else Success(())
  }

  /** The ceiling is inclusive: a window of exactly seven days passes and one
      an hour longer is too large. */
  lemma SevenDayCeilingIsInclusive(from: DateTime, errs: RangeErrors)
    requires from.kind == Utc && OnHour(from)
    ensures ValidateTimeRange(from, DateTime(Utc, from.ticks + MaxRangeTicks), errs).IsSuccess()
    ensures ValidateTimeRange(from, DateTime(Utc, from.ticks + MaxRangeTicks + TicksPerHour), errs)
              == Failure(errs.tooLarge)
  {
    assert (from.ticks + MaxRangeTicks) % TicksPerHour == from.ticks % TicksPerHour;
    assert (from.ticks + MaxRangeTicks + TicksPerHour) % TicksPerHour == from.ticks % TicksPerHour;
  }

  /** The two services' copies of ValidateTimeRange accept the same ranges and
      fail at the same step, each reporting its own family's error. */
  lemma RangeValidatorsAgree(from: DateTime, to: DateTime)
    ensures var f := ValidateTimeRange(from, to, ForecastRangeErrors);
            var p := ValidateTimeRange(from, to, PositionRangeErrors);
            && (f.IsSuccess() <==> p.IsSuccess())
            && (f == Failure(ForecastInvalidTimezone) <==> p == Failure(PositionInvalidTimezone))
            && (f == Failure(ForecastInvalidHourAlignment) <==> p == Failure(PositionInvalidHourAlignment))
            && (f == Failure(ForecastInvalidTimeRange) <==> p == Failure(PositionInvalidTimeRange))
            && (f == Failure(ForecastRangeErrors.tooLarge) <==> p == Failure(PositionRangeErrors.tooLarge))
            && (f.IsFailure() ==> f.Err() in ForecastErrors(0, MaxQueryRangeDays))
            && (p.IsFailure() ==> p.Err() in PositionErrors(0, MaxQueryRangeDays))
  {
  }

  /** The range checks of both services produce valid results. */
  lemma RangeResultsAreValid(from: DateTime, to: DateTime)
    ensures ValidateTimeRange(from, to, ForecastRangeErrors).Valid()
    ensures ValidateTimeRange(from, to, PositionRangeErrors).Valid()
  {
    DomainErrorsAreNotNone(0, MaxQueryRangeDays);
  }
}
