/** ForecastReadRepository: the stored forecasts of one plant in a half-open
    window, in hour order, and the plant existence check. */
module ForecastRead {
  import opened Time
  import opened Models
  import opened Storage
  import opened FiniteSets

  /** PlantExistsAsync: some stored plant has that id and is active. */
  predicate PlantExists(db: Db, plantId: PlantId): (b: bool)
    ensures b <==> exists p :: p in db.plants && p == plantId && db.plants[p].isActive
  {
    IsActivePlant(db, plantId)
  }

  /** The stored hours of the plant with from <= hour < to. */
  function HoursInWindow(t: Table, plantId: PlantId, from: DateTime, to: DateTime): set<nat> {
    set k | k in t && k.plant == plantId && from.ticks <= k.hour < to.ticks :: k.hour
  }

  /** The projection of one stored row into ForecastData. */
  function ToData(t: Table, k: Key): ForecastData
    requires k in t
  {
    ForecastData(k.plant, HourOf(k), t[k].mwh, t[k].createdAt, t[k].updatedAt)
  }

  /** The hours a list of forecasts covers. */
  function HoursOf(r: seq<ForecastData>): set<nat> {
    set d | d in r :: d.hourUtc.ticks
  }

  lemma InWindow(t: Table, plantId: PlantId, from: DateTime, to: DateTime, h: nat)
    ensures h in HoursInWindow(t, plantId, from, to) <==> Key(plantId, h) in t && from.ticks <= h < to.ticks
  {
    if Key(plantId, h) in t && from.ticks <= h < to.ticks {
      assert Key(plantId, h).hour == h;
    }
  }

  /** The rows at the given hours, in the given order. */
  function Project(t: Table, plantId: PlantId, hours: seq<nat>): (r: seq<ForecastData>)
    requires forall i :: 0 <= i < |hours| ==> Key(plantId, hours[i]) in t
    ensures |r| == |hours|
    ensures forall i :: 0 <= i < |r| ==> r[i] == ToData(t, Key(plantId, hours[i]))
  {
    seq(|hours|, i requires 0 <= i < |hours| => ToData(t, Key(plantId, hours[i])))
  }

  lemma ProjectCoversHours(t: Table, plantId: PlantId, hours: seq<nat>)
    requires forall i :: 0 <= i < |hours| ==> Key(plantId, hours[i]) in t
    ensures forall h :: h in HoursOf(Project(t, plantId, hours)) <==> h in hours
  {
    var r := Project(t, plantId, hours);
    forall h ensures h in HoursOf(r) <==> h in hours {
      if h in hours {
        var i :| 0 <= i < |hours| && hours[i] == h;
        assert r[i] in r;
      }
    }
  }

  /** GetForecastsAsync(plantId, from, to). */
  function GetForecasts(t: Table, plantId: PlantId, from: DateTime, to: DateTime): (r: seq<ForecastData>)
    ensures forall h: nat :: h in HoursOf(r) <==> Key(plantId, h) in t && from.ticks <= h < to.ticks
    ensures forall i, j :: 0 <= i < j < |r| ==> r[i].hourUtc.ticks < r[j].hourUtc.ticks
    ensures forall i :: 0 <= i < |r| ==>
      var k := Key(plantId, r[i].hourUtc.ticks);
      && k in t
      && r[i].plantId == plantId
      && r[i].hourUtc.kind == Utc
      && r[i].mwh == t[k].mwh
      && r[i].createdAt == t[k].createdAt
      && r[i].updatedAt == t[k].updatedAt
  {
    var window := HoursInWindow(t, plantId, from, to);
    var hours := Ascending(window);
    assert forall i :: 0 <= i < |hours| ==> Key(plantId, hours[i]) in t by {
      forall i | 0 <= i < |hours| ensures Key(plantId, hours[i]) in t {
        assert hours[i] in window;
        InWindow(t, plantId, from, to, hours[i]);
      }
    }
    ProjectCoversHours(t, plantId, hours);
    assert forall h: nat :: h in hours <==> Key(plantId, h) in t && from.ticks <= h < to.ticks by {
      forall h: nat ensures h in hours <==> Key(plantId, h) in t && from.ticks <= h < to.ticks {
        InWindow(t, plantId, from, to, h);
      }
    }
    Project(t, plantId, hours)
  }

  /** The window is half-open: a forecast stored at exactly `to` is never
      returned, and one stored at exactly `from` is, whenever the window is
      not empty. */
  lemma WindowIsHalfOpen(t: Table, plantId: PlantId, from: DateTime, to: DateTime)
    ensures to.ticks !in HoursOf(GetForecasts(t, plantId, from, to))
    ensures Key(plantId, from.ticks) in t && from.ticks < to.ticks ==>
              from.ticks in HoursOf(GetForecasts(t, plantId, from, to))
  {
  }

  /** Only the requested plant's rows are read: adding or changing another
      plant's rows does not change the answer. */
  lemma ReadIgnoresOtherPlants(t: Table, plantId: PlantId, from: DateTime, to: DateTime, k: Key, row: Row)
    requires k.plant != plantId
    ensures GetForecasts(t[k := row], plantId, from, to) == GetForecasts(t, plantId, from, to)
  {
    assert HoursInWindow(t[k := row], plantId, from, to) == HoursInWindow(t, plantId, from, to);
  }
}
