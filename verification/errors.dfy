/** The error record and the service's error-code taxonomy. An error is
    identified by its code; the human-readable message is not modelled. */
module Errors {

  /** Error: a code such as "Forecast.PlantNotFound". */
  datatype Error = Error(code: string)

  /** Error.None, the error carried by every successful result. */
  const NoError: Error := Error("")

  // DomainErrors.Forecast. The id and day-count arguments only shape the
  // message, so they do not change the code.

  function ForecastPlantNotFound(plantId: nat): Error {
    Error("Forecast.PlantNotFound")
  }

  const ForecastInvalidTimeRange: Error := Error("Forecast.InvalidTimeRange")

  function ForecastTimeRangeTooLarge(maxDays: int): Error {
    Error("Forecast.TimeRangeTooLarge")
  }

  const ForecastInvalidHourAlignment: Error := Error("Forecast.InvalidHourAlignment")
  const ForecastInvalidTimezone: Error := Error("Forecast.InvalidTimezone")
  const ForecastNegativeMwh: Error := Error("Forecast.NegativeMwh")
  const ForecastNoDataPoints: Error := Error("Forecast.NoDataPoints")

  // DomainErrors.Position

  function PositionCompanyNotFound(companyId: nat): Error {
    Error("Position.CompanyNotFound")
  }

  const PositionInvalidTimeRange: Error := Error("Position.InvalidTimeRange")

  function PositionTimeRangeTooLarge(maxDays: int): Error {
    Error("Position.TimeRangeTooLarge")
  }

  const PositionInvalidHourAlignment: Error := Error("Position.InvalidHourAlignment")
  const PositionInvalidTimezone: Error := Error("Position.InvalidTimezone")

  // DomainErrors.PowerPlant

  function PowerPlantNotFound(plantId: nat): Error {
    Error("PowerPlant.NotFound")
  }

  /** `p` occurs in `s` starting at index `i` (checked from `p[j]` on). */
  predicate MatchesAt(s: string, p: string, i: nat, j: nat)
    decreases |p| - j
  {
    j >= |p| || (i + j < |s| && s[i + j] == p[j] && MatchesAt(s, p, i, j + 1))
  }

  /** String.Contains */
  predicate Contains(s: string, p: string) {
    exists i: nat :: i <= |s| && MatchesAt(s, p, i, 0)
  }

  /** String.StartsWith */
  predicate StartsWith(s: string, prefix: string) {
    MatchesAt(s, prefix, 0, 0)
  }

  /** `p` occurs in `s` starting at index `i`, stated by slicing. */
  predicate OccursAt(s: string, p: string, i: nat) {
    i + |p| <= |s| && s[i..i + |p|] == p
  }

  /** The character-by-character match from `p[j]` on is the slice
      comparison. */
  lemma {:induction false} MatchesAtIffSlice(s: string, p: string, i: nat, j: nat)
    requires j < |p|
    ensures MatchesAt(s, p, i, j) <==> i + |p| <= |s| && s[i + j..i + |p|] == p[j..]
    decreases |p| - j
  {
    if j + 1 < |p| {
      MatchesAtIffSlice(s, p, i, j + 1);
      if i + |p| <= |s| {
        assert s[i + j..i + |p|] == [s[i + j]] + s[i + j + 1..i + |p|];
        assert p[j..] == [p[j]] + p[j + 1..];
      }
    } else {
      assert MatchesAt(s, p, i, j + 1);
      if i + |p| <= |s| {
        assert s[i + j..i + |p|] == [s[i + j]];
        assert p[j..] == [p[j]];
      }
    }
  }

  /** The controllers' mapping of a failed result to an HTTP status: a code
      containing "NotFound" gives 404, any other code 400. */
  function HttpStatus(e: Error): (status: int)
    ensures status == 404 || status == 400
    ensures status == 404 <==> exists i: nat :: OccursAt(e.code, "NotFound", i)
  {
    forall i: nat ensures MatchesAt(e.code, "NotFound", i, 0) <==> OccursAt(e.code, "NotFound", i) {
      MatchesAtIffSlice(e.code, "NotFound", i, 0);
    }
    if Contains(e.code, "NotFound") then 404 else 400
  }

  /** The codes the forecast path can fail with. */
  function ForecastErrors(id: nat, maxDays: int): set<Error> {
    {ForecastPlantNotFound(id), ForecastInvalidTimeRange, ForecastTimeRangeTooLarge(maxDays),
     ForecastInvalidHourAlignment, ForecastInvalidTimezone, ForecastNegativeMwh, ForecastNoDataPoints}
  }

  /** The codes the position path can fail with. */
  function PositionErrors(id: nat, maxDays: int): set<Error> {
    {PositionCompanyNotFound(id), PositionInvalidTimeRange, PositionTimeRangeTooLarge(maxDays),
     PositionInvalidHourAlignment, PositionInvalidTimezone}
  }

  /** Missing entities are reported as 404. */
  lemma NotFoundErrorsMapTo404(id: nat)
    ensures HttpStatus(ForecastPlantNotFound(id)) == 404
    ensures HttpStatus(PositionCompanyNotFound(id)) == 404
    ensures HttpStatus(PowerPlantNotFound(id)) == 404
  {
    MatchesInfix("Forecast.Plant", "NotFound", "", 0);
    assert "Forecast.Plant" + "NotFound" + "" == ForecastPlantNotFound(id).code;
    MatchesInfix("Position.Company", "NotFound", "", 0);
    assert "Position.Company" + "NotFound" + "" == PositionCompanyNotFound(id).code;
    MatchesInfix("PowerPlant.", "NotFound", "", 0);
    assert "PowerPlant." + "NotFound" + "" == PowerPlantNotFound(id).code;
  }

  /** Forecast range-order and range-size failures are reported as 400. */
  lemma ForecastRangeErrorsMapTo400(maxDays: int)
    ensures HttpStatus(ForecastInvalidTimeRange) == 400
    ensures HttpStatus(ForecastTimeRangeTooLarge(maxDays)) == 400
  {
    LacksNotFound(ForecastInvalidTimeRange.code, 'u');
    LacksNotFound(ForecastTimeRangeTooLarge(maxDays).code, 'u');
  }

  /** Forecast timestamp failures are reported as 400. */
  lemma ForecastTimestampErrorsMapTo400()
    ensures HttpStatus(ForecastInvalidHourAlignment) == 400
    ensures HttpStatus(ForecastInvalidTimezone) == 400
  {
    LacksNotFound(ForecastInvalidHourAlignment.code, 'N');
    LacksNotFound(ForecastInvalidTimezone.code, 'u');
  }

  /** Forecast value and empty-batch failures are reported as 400. */
  lemma ForecastBatchErrorsMapTo400()
    ensures HttpStatus(ForecastNegativeMwh) == 400
    ensures HttpStatus(ForecastNoDataPoints) == 400
  {
    LacksNotFound(ForecastNegativeMwh.code, 'u');
    LacksNotFound(ForecastNoDataPoints.code, 'u');
  }

  /** Position range-order and range-size failures are reported as 400. */
  lemma PositionRangeErrorsMapTo400(maxDays: int)
    ensures HttpStatus(PositionInvalidTimeRange) == 400
    ensures HttpStatus(PositionTimeRangeTooLarge(maxDays)) == 400
  {
    LacksNotFound(PositionInvalidTimeRange.code, 'u');
    LacksNotFound(PositionTimeRangeTooLarge(maxDays).code, 'u');
  }

  /** Position timestamp failures are reported as 400. */
  lemma PositionTimestampErrorsMapTo400()
    ensures HttpStatus(PositionInvalidHourAlignment) == 400
    ensures HttpStatus(PositionInvalidTimezone) == 400
  {
    LacksNotFound(PositionInvalidHourAlignment.code, 'N');
    LacksNotFound(PositionInvalidTimezone.code, 'u');
  }

  /** A string lacking one of the characters of "NotFound" cannot contain it. */
  lemma LacksNotFound(s: string, c: char)
    requires c in "NotFound"
    requires forall i :: 0 <= i < |s| ==> s[i] != c
    ensures !Contains(s, "NotFound")
  {
    if Contains(s, "NotFound") {
      ContainsNeedsChar(s, "NotFound", c);
    }
  }

  lemma MatchesAtChars(s: string, p: string, i: nat, j: nat, k: nat)
    requires MatchesAt(s, p, i, j) && j <= k < |p|
    ensures i + k < |s| && s[i + k] == p[k]
    decreases k - j
  {
    if j < k {
      MatchesAtChars(s, p, i, j + 1, k);
    }
  }

  /** Every character of an occurring pattern occurs in the string. */
  lemma ContainsNeedsChar(s: string, p: string, c: char)
    requires Contains(s, p) && c in p
    ensures c in s
  {
    var i: nat :| i <= |s| && MatchesAt(s, p, i, 0);
    var k :| 0 <= k < |p| && p[k] == c;
    MatchesAtChars(s, p, i, 0, k);
  }

  lemma MatchesInfix(a: string, p: string, b: string, j: nat)
    requires j <= |p|
    ensures MatchesAt(a + p + b, p, |a|, j)
    decreases |p| - j
  {
    if j < |p| {
      MatchesInfix(a, p, b, j + 1);
    }
  }

  /** Every domain error has a non-empty code, so none of them is Error.None
      and each may legally be carried by a failed result. */
  lemma DomainErrorsAreNotNone(id: nat, maxDays: int)
    ensures forall e :: e in ForecastErrors(id, maxDays) ==> e != NoError && |e.code| > 0
    ensures forall e :: e in PositionErrors(id, maxDays) ==> e != NoError && |e.code| > 0
    ensures PowerPlantNotFound(id) != NoError
  {
  }

  /** Forecast-path codes carry the "Forecast." prefix. */
  lemma ForecastErrorsArePrefixed(id: nat, maxDays: int)
    ensures forall e :: e in ForecastErrors(id, maxDays) ==> StartsWith(e.code, "Forecast.")
  {
    forall e | e in ForecastErrors(id, maxDays)
      ensures StartsWith(e.code, "Forecast.")
    {
      MatchesInfix("", "Forecast.", e.code[9..], 0);
      assert "" + "Forecast." + e.code[9..] == e.code;
    }
  }

  /** Position-path codes carry the "Position." prefix, so the two families
      never share a code. */
  lemma PositionErrorsArePrefixed(id: nat, maxDays: int)
    ensures forall e :: e in PositionErrors(id, maxDays) ==> StartsWith(e.code, "Position.")
    ensures ForecastErrors(id, maxDays) !! PositionErrors(id, maxDays)
  {
    forall e | e in PositionErrors(id, maxDays)
      ensures StartsWith(e.code, "Position.")
    {
      MatchesInfix("", "Position.", e.code[9..], 0);
      assert "" + "Position." + e.code[9..] == e.code;
    }
  }
}
