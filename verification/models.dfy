/** The contract records of the forecast service: forecast points, stored
    forecast data, upsert counts, company positions and the change event. */
module Models {
  import opened Time

  type PlantId = nat
  type CompanyId = nat

  /** An exact MWh amount in units of 0.0001 MWh: the forecasts.mwh column is
      numeric(18,4), so every stored amount is a whole number of these units. */
  type Mwh = int

  /** One MWh, in Mwh units. */
  const OneMwh: Mwh := 10_000

  /** ForecastPoint: the submitted value for one hour. */
  datatype ForecastPoint = ForecastPoint(hourUtc: DateTime, mwh: Mwh)

  /** ForecastData: a stored forecast as read back. */
  datatype ForecastData = ForecastData(
    plantId: PlantId,
    hourUtc: DateTime,
    mwh: Mwh,
    createdAt: DateTime,
    updatedAt: DateTime)

  /** UpsertResult with its derived counts. */
  datatype UpsertResult = UpsertResult(insertedCount: int, updatedCount: int, unchangedCount: int) {

    function TotalChanged(): int {
      insertedCount + updatedCount
    }

    predicate HasChanges() {
      TotalChanged() > 0
    }

    function TotalProcessed(): int {
      insertedCount + updatedCount + unchangedCount
    }
  }

  /** For counts that cannot be negative, a result reports changes exactly
      when something was inserted or updated, whatever the unchanged count. */
  lemma HasChangesIffInsertedOrUpdated(r: UpsertResult)
    requires r.insertedCount >= 0 && r.updatedCount >= 0
    ensures !r.HasChanges() <==> r.insertedCount == 0 && r.updatedCount == 0
    ensures r.TotalProcessed() == r.TotalChanged() + r.unchangedCount
  {
  }

  /** The rows of the HasChanges theory: (5,0,0), (0,3,0), (2,2,1) report
      changes and (0,0,10) does not; (5,3,2) changed 8 and processed 10. */
  lemma UpsertResultExamples()
    ensures UpsertResult(5, 0, 0).HasChanges()
    ensures UpsertResult(0, 3, 0).HasChanges()
    ensures UpsertResult(2, 2, 1).HasChanges()
    ensures !UpsertResult(0, 0, 10).HasChanges()
    ensures UpsertResult(5, 3, 2).TotalChanged() == 8
    ensures UpsertResult(5, 3, 2).TotalProcessed() == 10
  {
  }

  /** HourlyPosition: the company total for one hour. */
  datatype HourlyPosition = HourlyPosition(hourUtc: DateTime, totalMwh: Mwh, plantCount: int)

  /** CompanyPosition: hourly positions of one company. */
  datatype CompanyPosition = CompanyPosition(
    companyId: CompanyId,
    companyName: string,
    positions: seq<HourlyPosition>)
  {
    /** TotalMwh: the sum over all hourly positions. */
    function TotalMwh(): Mwh {
      SumTotals(positions)
    }
  }

  function SumTotals(ps: seq<HourlyPosition>): Mwh {
    if |ps| == 0 then 0 else ps[0].totalMwh + SumTotals(ps[1..])
  }

  /** The total is additive: splitting the hours anywhere splits the total. */
  lemma {:induction false} SumTotalsAppend(a: seq<HourlyPosition>, b: seq<HourlyPosition>)
    ensures SumTotals(a + b) == SumTotals(a) + SumTotals(b)
    decreases |a|
  {
    if |a| == 0 {
      assert a + b == b;
    } else {
      assert (a + b)[1..] == a[1..] + b;
      SumTotalsAppend(a[1..], b);
    }
  }

  /** Every hour contributes exactly its own total: the company total is the
      total of all hours but one plus that hour. */
  lemma SumTotalsSplitAt(ps: seq<HourlyPosition>, i: int)
    requires 0 <= i < |ps|
    ensures SumTotals(ps) == SumTotals(ps[..i]) + ps[i].totalMwh + SumTotals(ps[i + 1..])
  {
    assert ps == ps[..i] + ([ps[i]] + ps[i + 1..]);
    SumTotalsAppend(ps[..i], [ps[i]] + ps[i + 1..]);
    SumTotalsAppend([ps[i]], ps[i + 1..]);
  }

  /** new CompanyPosition(): empty id, name and positions. */
  const DefaultCompanyPosition: CompanyPosition := CompanyPosition(0, "", [])

  /** The default position and any position without hours total zero. */
  lemma EmptyPositionTotalsZero(p: CompanyPosition)
    requires |p.positions| == 0
    ensures p.TotalMwh() == 0
    ensures DefaultCompanyPosition.companyName == "" && DefaultCompanyPosition.TotalMwh() == 0
  {
  }

  /** Decimal sums are exact: 100.5 + 150.3 + 200.2 is 451.0 with no rounding. */
  lemma TotalMwhIsExact(companyId: CompanyId, h0: DateTime, h1: DateTime, h2: DateTime)
    ensures CompanyPosition(companyId, "Test Company",
              [HourlyPosition(h0, 1_005_000, 2), HourlyPosition(h1, 1_503_000, 3),
               HourlyPosition(h2, 2_002_000, 2)]).TotalMwh() == 451 * OneMwh
  {
    var ps := [HourlyPosition(h0, 1_005_000, 2), HourlyPosition(h1, 1_503_000, 3),
               HourlyPosition(h2, 2_002_000, 2)];
    assert SumTotals(ps[2..]) == 2_002_000 by {
      assert ps[2..][1..] == [];
    }
    assert ps[1..][1..] == ps[2..];
    assert SumTotals(ps[1..]) == 1_503_000 + 2_002_000;
    assert SumTotals(ps) == 1_005_000 + 1_503_000 + 2_002_000;
  }

  /** PositionChangedEvent. The event id and the occurrence time are fresh
      values (Guid.NewGuid, DateTime.UtcNow) and are not modelled. */
  datatype PositionChangedEvent = PositionChangedEvent(
    companyId: CompanyId,
    plantId: PlantId,
    fromHourUtc: DateTime,
    toHourUtc: DateTime,
    correlationId: string,
    insertedCount: int,
    updatedCount: int)
}
