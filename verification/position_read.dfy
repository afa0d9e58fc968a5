/** PositionReadRepository: a company's hourly position, the sum of the
    forecasts of its active plants grouped by hour, and the company existence
    check. */
module PositionRead {
  import opened Time
  import opened Models
  import opened Storage
  import opened FiniteSets
  import opened Results

  /** CompanyExistsAsync: some stored company has that id and is active. */
  predicate CompanyExists(db: Db, companyId: CompanyId): (b: bool)
    ensures b <==> exists c :: c in db.companies && c == companyId && db.companies[c].isActive
  {
    IsActiveCompany(db, companyId)
  }

  /** A stored forecast counts towards the position: its plant belongs to the
      company and is active, and its hour lies in [from, to). */
  predicate Contributes(db: Db, companyId: CompanyId, from: DateTime, to: DateTime, k: Key) {
    && k.plant in db.plants
    && db.plants[k.plant].companyId == companyId
    && db.plants[k.plant].isActive
    && from.ticks <= k.hour < to.ticks
  }

  function ContributingKeys(db: Db, companyId: CompanyId, from: DateTime, to: DateTime): set<Key> {
    set k | k in db.forecasts && Contributes(db, companyId, from, to, k)
  }

  /** The GROUP BY keys: hours with at least one contributing forecast. */
  function ContributingHours(db: Db, companyId: CompanyId, from: DateTime, to: DateTime): set<nat> {
    set k | k in ContributingKeys(db, companyId, from, to) :: k.hour
  }

  /** The distinct plants of one group. A plant has at most one row per hour,
      so the group's rows and its plants correspond one to one. */
  function PlantsAt(db: Db, companyId: CompanyId, from: DateTime, to: DateTime, h: nat): set<PlantId> {
    set k | k in ContributingKeys(db, companyId, from, to) && k.hour == h :: k.plant
  }

  /** The company's active plants. */
  function ActivePlantsOf(db: Db, companyId: CompanyId): set<PlantId> {
    set p | p in db.plants && db.plants[p].companyId == companyId && db.plants[p].isActive
  }

  /** A plant's stored amount at hour h. */
  function MwhAt(t: Table, h: nat): nat -> int {
    (p: nat) => if Key(p, h) in t then t[Key(p, h)].mwh else 0
  }

  /** One group: Sum(f => f.Mwh) and Select(f => f.PlantId).Distinct().Count(). */
  function HourlyAt(db: Db, companyId: CompanyId, from: DateTime, to: DateTime, h: nat): HourlyPosition {
    var plants := PlantsAt(db, companyId, from, to, h);
    HourlyPosition(DateTime(Utc, h), SumBy(plants, MwhAt(db.forecasts, h)), |plants|)
  }

  /** The hours a list of positions covers. */
  function HoursOfPositions(ps: seq<HourlyPosition>): set<nat> {
    set p | p in ps :: p.hourUtc.ticks
  }

  lemma InContributingHours(db: Db, companyId: CompanyId, from: DateTime, to: DateTime, h: nat)
    ensures h in ContributingHours(db, companyId, from, to) <==> PlantsAt(db, companyId, from, to, h) != {}
  {
    if h in ContributingHours(db, companyId, from, to) {
      var k :| k in ContributingKeys(db, companyId, from, to) && k.hour == h;
      assert k.plant in PlantsAt(db, companyId, from, to, h);
    }
    if PlantsAt(db, companyId, from, to, h) != {} {
      var p :| p in PlantsAt(db, companyId, from, to, h);
      var k :| k in ContributingKeys(db, companyId, from, to) && k.hour == h && k.plant == p;
      assert k.hour in ContributingHours(db, companyId, from, to);
    }
  }

  /** Every group counts at least one plant and at most all the company's
      active plants. */
  lemma PlantCountBounds(db: Db, companyId: CompanyId, from: DateTime, to: DateTime, h: nat)
    requires h in ContributingHours(db, companyId, from, to)
    ensures 1 <= |PlantsAt(db, companyId, from, to, h)| <= |ActivePlantsOf(db, companyId)|
  {
    InContributingHours(db, companyId, from, to, h);
    SubsetCardinality(PlantsAt(db, companyId, from, to, h), ActivePlantsOf(db, companyId));
  }

  /** The groups at the given hours, in the given order. */
  function Groups(db: Db, companyId: CompanyId, from: DateTime, to: DateTime, hours: seq<nat>): (r: seq<HourlyPosition>)
    ensures |r| == |hours|
    ensures forall i :: 0 <= i < |r| ==> r[i] == HourlyAt(db, companyId, from, to, hours[i])
  {
    seq(|hours|, i requires 0 <= i < |hours| => HourlyAt(db, companyId, from, to, hours[i]))
  }

  lemma GroupsCoverHours(db: Db, companyId: CompanyId, from: DateTime, to: DateTime, hours: seq<nat>)
    ensures forall h :: h in HoursOfPositions(Groups(db, companyId, from, to, hours)) <==> h in hours
  {
    var r := Groups(db, companyId, from, to, hours);
    forall h ensures h in HoursOfPositions(r) <==> h in hours {
      if h in hours {
        var i :| 0 <= i < |hours| && hours[i] == h;
        assert r[i] in r;
      }
    }
  }

  /** One group as the query computes it, with the plant count's bounds. */
  predicate IsGroup(db: Db, companyId: CompanyId, from: DateTime, to: DateTime, p: HourlyPosition) {
    && p.hourUtc.kind == Utc
    && p.totalMwh == SumBy(PlantsAt(db, companyId, from, to, p.hourUtc.ticks), MwhAt(db.forecasts, p.hourUtc.ticks))
    && p.plantCount == |PlantsAt(db, companyId, from, to, p.hourUtc.ticks)|
    && 1 <= p.plantCount <= |ActivePlantsOf(db, companyId)|
  }

  lemma GroupsAreGroups(db: Db, companyId: CompanyId, from: DateTime, to: DateTime, hours: seq<nat>)
    requires forall i :: 0 <= i < |hours| ==> hours[i] in ContributingHours(db, companyId, from, to)
    ensures forall i :: 0 <= i < |hours| ==> IsGroup(db, companyId, from, to, Groups(db, companyId, from, to, hours)[i])
  {
    var ps := Groups(db, companyId, from, to, hours);
    forall i | 0 <= i < |hours| ensures IsGroup(db, companyId, from, to, ps[i]) {
      PlantCountBounds(db, companyId, from, to, hours[i]);
    }
  }

  /** GetCompanyPositionAsync(companyId, from, to); None is the null the
      repository returns for a missing or inactive company. */
  function GetCompanyPosition(db: Db, companyId: CompanyId, from: DateTime, to: DateTime): (r: Option<CompanyPosition>)
    ensures r.Some? <==> IsActiveCompany(db, companyId)
    ensures r.Some? ==> r.value.companyId == companyId && r.value.companyName == db.companies[companyId].name
    ensures r.Some? ==> forall h: nat :: h in HoursOfPositions(r.value.positions) <==> h in ContributingHours(db, companyId, from, to)
    ensures r.Some? ==> forall i, j :: 0 <= i < j < |r.value.positions| ==>
              r.value.positions[i].hourUtc.ticks < r.value.positions[j].hourUtc.ticks
    ensures r.Some? ==> forall i :: 0 <= i < |r.value.positions| ==> IsGroup(db, companyId, from, to, r.value.positions[i])
  {
    if !IsActiveCompany(db, companyId) then None
    else
      var hours := Ascending(ContributingHours(db, companyId, from, to));
      GroupsCoverHours(db, companyId, from, to, hours);
      GroupsAreGroups(db, companyId, from, to, hours);
      Some(CompanyPosition(companyId, db.companies[companyId].name, Groups(db, companyId, from, to, hours)))
  }

  /** A window with no contributing forecast yields a position without
      hours, hence a zero total. */
  lemma NoDataGivesEmptyPosition(db: Db, companyId: CompanyId, from: DateTime, to: DateTime)
    requires IsActiveCompany(db, companyId)
    requires ContributingKeys(db, companyId, from, to) == {}
    ensures GetCompanyPosition(db, companyId, from, to).value.positions == []
    ensures GetCompanyPosition(db, companyId, from, to).value.TotalMwh() == 0
  {
    assert ContributingHours(db, companyId, from, to) == {};
  }

  /** Writing one forecast row changes the contributing keys by that key at
      most, and only when it contributes. */
  lemma ContributingAfterWrite(db: Db, companyId: CompanyId, from: DateTime, to: DateTime, k: Key, row: Row)
    ensures var after := db.(forecasts := db.forecasts[k := row]);
      ContributingKeys(after, companyId, from, to)
        == ContributingKeys(db, companyId, from, to) + (if Contributes(db, companyId, from, to, k) then {k} else {})
  {
  }

  /** Sums agree for functions that agree on the set. */
  lemma {:induction false} SumByAgree(s: set<nat>, f: nat -> int, g: nat -> int)
    requires forall x :: x in s ==> f(x) == g(x)
    ensures SumBy(s, f) == SumBy(s, g)
    decreases |s|
  {
    if s != {} {
      SumByAgree(s - {Min(s)}, f, g);
    }
  }

  /** The amounts of a group's plants are read from the rows that contribute. */
  lemma GroupAmountsUnchanged(db: Db, companyId: CompanyId, from: DateTime, to: DateTime, h: nat, k: Key, row: Row)
    requires k !in ContributingKeys(db, companyId, from, to)
    ensures var after := db.(forecasts := db.forecasts[k := row]);
      SumBy(PlantsAt(db, companyId, from, to, h), MwhAt(after.forecasts, h))
        == SumBy(PlantsAt(db, companyId, from, to, h), MwhAt(db.forecasts, h))
  {
    var after := db.(forecasts := db.forecasts[k := row]);
    var plants := PlantsAt(db, companyId, from, to, h);
    forall p | p in plants ensures MwhAt(after.forecasts, h)(p) == MwhAt(db.forecasts, h)(p) {
      var q :| q in ContributingKeys(db, companyId, from, to) && q.hour == h && q.plant == p;
      assert q == Key(p, h);
    }
    SumByAgree(plants, MwhAt(after.forecasts, h), MwhAt(db.forecasts, h));
  }

  /** A new contributing forecast adds its plant to its hour's group. */
  lemma NewForecastJoinsGroup(db: Db, companyId: CompanyId, from: DateTime, to: DateTime, k: Key, row: Row)
    requires k !in db.forecasts && Contributes(db, companyId, from, to, k)
    ensures var after := db.(forecasts := db.forecasts[k := row]);
      && k.plant !in PlantsAt(db, companyId, from, to, k.hour)
      && PlantsAt(after, companyId, from, to, k.hour) == PlantsAt(db, companyId, from, to, k.hour) + {k.plant}
  {
    ContributingAfterWrite(db, companyId, from, to, k, row);
  }

  /** A new contributing forecast adds its amount to its hour's total and one
      to its plant count. */
  lemma NewForecastAddsToItsHour(db: Db, companyId: CompanyId, from: DateTime, to: DateTime, k: Key, row: Row)
    requires k !in db.forecasts && Contributes(db, companyId, from, to, k)
    ensures var after := db.(forecasts := db.forecasts[k := row]);
      && HourlyAt(after, companyId, from, to, k.hour).totalMwh
           == HourlyAt(db, companyId, from, to, k.hour).totalMwh + row.mwh
      && HourlyAt(after, companyId, from, to, k.hour).plantCount
           == HourlyAt(db, companyId, from, to, k.hour).plantCount + 1
  {
    var after := db.(forecasts := db.forecasts[k := row]);
    var h := k.hour;
    var before := PlantsAt(db, companyId, from, to, h);
    var now := PlantsAt(after, companyId, from, to, h);
    NewForecastJoinsGroup(db, companyId, from, to, k, row);
    assert now - {k.plant} == before;
    SumByRemove(now, MwhAt(after.forecasts, h), k.plant);
    assert MwhAt(after.forecasts, h)(k.plant) == row.mwh;
    GroupAmountsUnchanged(db, companyId, from, to, h, k, row);
  }

  /** Forecasts of plants that do not count towards the company (another
      company's, an inactive plant's, or outside the window) do not change
      its position. */
  lemma OtherForecastsDoNotCount(db: Db, companyId: CompanyId, from: DateTime, to: DateTime, k: Key, row: Row)
    requires !Contributes(db, companyId, from, to, k)
    ensures GetCompanyPosition(db.(forecasts := db.forecasts[k := row]), companyId, from, to)
              == GetCompanyPosition(db, companyId, from, to)
  {
    var after := db.(forecasts := db.forecasts[k := row]);
    ContributingAfterWrite(db, companyId, from, to, k, row);
    assert ContributingKeys(after, companyId, from, to) == ContributingKeys(db, companyId, from, to);
    if IsActiveCompany(db, companyId) {
      var hours := Ascending(ContributingHours(db, companyId, from, to));
      forall i | 0 <= i < |hours|
        ensures HourlyAt(after, companyId, from, to, hours[i]) == HourlyAt(db, companyId, from, to, hours[i])
      {
        GroupAmountsUnchanged(db, companyId, from, to, hours[i], k, row);
      }
      assert Groups(after, companyId, from, to, hours) == Groups(db, companyId, from, to, hours);
    }
  }
}
