/** ForecastWriteRepository.UpsertForecastsAsync: one INSERT ... ON CONFLICT
    (plant_id, hour_utc) DO UPDATE ... WHERE forecasts.mwh IS DISTINCT FROM
    EXCLUDED.mwh statement, whose RETURNING rows are counted.

    The statement handles the proposed rows one at a time: a new key is
    inserted, a key holding a different amount is updated, and a key holding
    the same amount is left alone and returns no row. A proposal whose key
    names a row the statement has already inserted or updated aborts the
    whole statement (PostgreSQL's "ON CONFLICT DO UPDATE command cannot
    affect row a second time"). So the statement runs exactly when every
    proposal but the last for its hour is a no-op, and then every proposal is
    decided as the table stood before the statement (its snapshot), which is
    how the contracts state it. */
module ForecastWrite {
  import opened Time
  import opened Models
  import opened Storage
  import opened Results

  /** What the statement does with one proposed row. */
  datatype Action = Inserted | Updated | Unchanged

  /** numeric(18,4) holds amounts below 10^14 MWh in magnitude, that is below
      10^18 units of 0.0001 MWh; a larger amount makes the statement fail. */
  const ColumnLimit: int := 1_000_000_000_000_000_000

  predicate FitsColumn(m: Mwh) {
    -ColumnLimit < m < ColumnLimit
  }

  predicate AllFit(points: seq<ForecastPoint>) {
    forall i :: 0 <= i < |points| ==> FitsColumn(points[i].mwh)
  }

  function KeyOf(plantId: PlantId, p: ForecastPoint): Key {
    Key(plantId, p.hourUtc.ticks)
  }

  /** No two points of the batch name the same hour. */
  predicate DistinctHours(points: seq<ForecastPoint>) {
    forall i, j :: 0 <= i < j < |points| ==> points[i].hourUtc.ticks != points[j].hourUtc.ticks
  }

  /** Point i is the batch's last point for its hour. */
  predicate LastOfHour(points: seq<ForecastPoint>, i: int)
    requires 0 <= i < |points|
  {
    forall j :: i < j < |points| ==> points[j].hourUtc.ticks != points[i].hourUtc.ticks
  }

  /** The keys a batch writes. */
  function BatchKeys(plantId: PlantId, points: seq<ForecastPoint>): set<Key> {
    set p | p in points :: KeyOf(plantId, p)
  }

  /** The ON CONFLICT decision for one proposed row against table t. */
  function Classify(t: Table, plantId: PlantId, p: ForecastPoint): Action {
    var k := KeyOf(plantId, p);
    if k !in t then Inserted
    else if t[k].mwh != p.mwh then Updated
    else Unchanged
  }

  /** Every proposal followed by another for the same hour is a no-op
      against t. */
  predicate RepeatsAreNoOps(t: Table, plantId: PlantId, points: seq<ForecastPoint>) {
    forall i, j :: 0 <= i < j < |points| && points[i].hourUtc.ticks == points[j].hourUtc.ticks ==>
      Classify(t, plantId, points[i]) == Unchanged
  }

  /** The statement runs to completion against table t: every amount fits the
      column and no proposal meets a row the statement already changed. */
  predicate Executable(t: Table, plantId: PlantId, points: seq<ForecastPoint>) {
    AllFit(points) && RepeatsAreNoOps(t, plantId, points)
  }

  /** The effect of one proposed row: the INSERT branch writes both
      timestamps, the DO UPDATE branch writes the amount and updated_at only,
      and a row whose WHERE is false is untouched. */
  function Step(t: Table, plantId: PlantId, p: ForecastPoint, now: DateTime): Table {
    var k := KeyOf(plantId, p);
    match Classify(t, plantId, p)
    case Inserted => t[k := Row(p.mwh, now, now)]
    case Updated => t[k := t[k].(mwh := p.mwh, updatedAt := now)]
    case Unchanged => t
  }

  /** The statement from table t on, where touched holds the keys it has
      inserted or updated so far: the table it leaves and the RETURNING rows,
      one per inserted or updated proposal, or None when a proposal meets a
      touched key. */
  function Execute(t: Table, touched: set<Key>, plantId: PlantId, points: seq<ForecastPoint>, now: DateTime)
    : Option<(Table, seq<Action>)>
    decreases |points|
  {
    if |points| == 0 then Some((t, []))
    else
      var k := KeyOf(plantId, points[0]);
      var a := Classify(t, plantId, points[0]);
      if k in touched then None
      else
        match Execute(Step(t, plantId, points[0], now), if a == Unchanged then touched else touched + {k},
                      plantId, points[1..], now)
        case None => None
        case Some((u, rows)) => Some((u, (if a == Unchanged then [] else [a]) + rows))
  }

  /** No proposal names a touched key, and repeats are no-ops against t. */
  predicate Clean(t: Table, touched: set<Key>, plantId: PlantId, points: seq<ForecastPoint>) {
    && (forall i :: 0 <= i < |points| ==> KeyOf(plantId, points[i]) !in touched)
    && RepeatsAreNoOps(t, plantId, points)
  }

  /** How many points of the batch the snapshot t classifies as a. */
  function Tally(t: Table, plantId: PlantId, points: seq<ForecastPoint>, a: Action): nat
    decreases |points|
  {
    if |points| == 0 then 0
    else (if Classify(t, plantId, points[0]) == a then 1 else 0) + Tally(t, plantId, points[1..], a)
  }

  /** COUNT(*) FILTER (WHERE ...) over the returned rows. */
  function Count(rows: seq<Action>, a: Action): nat
    decreases |rows|
  {
    if |rows| == 0 then 0 else (if rows[0] == a then 1 else 0) + Count(rows[1..], a)
  }

  lemma {:induction false} CountAppend(x: seq<Action>, y: seq<Action>, a: Action)
    ensures Count(x + y, a) == Count(x, a) + Count(y, a)
    decreases |x|
  {
    if |x| > 0 {
      assert (x + y)[1..] == x[1..] + y;
      CountAppend(x[1..], y, a);
    } else {
      assert x + y == y;
    }
  }

  /** Each point is classified exactly one way, so the three tallies
      partition the batch. */
  lemma {:induction false} TallyPartition(t: Table, plantId: PlantId, points: seq<ForecastPoint>)
    ensures Tally(t, plantId, points, Inserted) + Tally(t, plantId, points, Updated)
              + Tally(t, plantId, points, Unchanged) == |points|
    decreases |points|
  {
    if |points| > 0 {
      TallyPartition(t, plantId, points[1..]);
    }
  }

  /** Tallies depend only on how the table classifies the batch's points. */
  lemma {:induction false} TallyFrame(t: Table, u: Table, plantId: PlantId, points: seq<ForecastPoint>, a: Action)
    requires forall i :: 0 <= i < |points| ==> Classify(t, plantId, points[i]) == Classify(u, plantId, points[i])
    ensures Tally(t, plantId, points, a) == Tally(u, plantId, points, a)
    decreases |points|
  {
    if |points| > 0 {
      assert Classify(t, plantId, points[0]) == Classify(u, plantId, points[0]);
      TallyFrame(t, u, plantId, points[1..], a);
    }
  }

  /** A batch every point of which the table classifies as a tallies in full
      for a and not at all for anything else. */
  lemma {:induction false} TallyUniform(t: Table, plantId: PlantId, points: seq<ForecastPoint>, a: Action, b: Action)
    requires forall i :: 0 <= i < |points| ==> Classify(t, plantId, points[i]) == a
    ensures Tally(t, plantId, points, b) == if a == b then |points| else 0
    decreases |points|
  {
    if |points| > 0 {
      assert Classify(t, plantId, points[0]) == a;
      TallyUniform(t, plantId, points[1..], a, b);
    }
  }

  lemma BatchKeysCons(plantId: PlantId, points: seq<ForecastPoint>)
    requires |points| > 0
    ensures BatchKeys(plantId, points) == {KeyOf(plantId, points[0])} + BatchKeys(plantId, points[1..])
  {
    assert forall q :: q in points <==> q == points[0] || q in points[1..];
  }

  /** One step writes only its own key. */
  lemma StepFrame(t: Table, plantId: PlantId, p: ForecastPoint, now: DateTime, q: ForecastPoint)
    requires KeyOf(plantId, q) != KeyOf(plantId, p)
    ensures Classify(Step(t, plantId, p, now), plantId, q) == Classify(t, plantId, q)
  {
  }

  /** When repeats are no-ops, the first step does not change how the rest
      of the batch is classified. */
  lemma StepKeepsTail(t: Table, plantId: PlantId, points: seq<ForecastPoint>, now: DateTime)
    requires |points| > 0 && RepeatsAreNoOps(t, plantId, points)
    ensures forall i :: 0 <= i < |points| - 1 ==>
              Classify(Step(t, plantId, points[0], now), plantId, points[1..][i]) == Classify(t, plantId, points[1..][i])
  {
    var tail := points[1..];
    forall i | 0 <= i < |tail|
      ensures Classify(Step(t, plantId, points[0], now), plantId, tail[i]) == Classify(t, plantId, tail[i])
    {
      assert tail[i] == points[i + 1];
      if KeyOf(plantId, tail[i]) != KeyOf(plantId, points[0]) {
        StepFrame(t, plantId, points[0], now, tail[i]);
      }
    }
  }

  /** One step of the statement preserves cleanliness, and a clean batch
      needs a clean first step. */
  lemma CleanStep(t: Table, touched: set<Key>, plantId: PlantId, points: seq<ForecastPoint>, now: DateTime)
    requires |points| > 0
    ensures var k := KeyOf(plantId, points[0]);
            var a := Classify(t, plantId, points[0]);
            Clean(t, touched, plantId, points) <==>
              && k !in touched
              && Clean(Step(t, plantId, points[0], now), if a == Unchanged then touched else touched + {k},
                       plantId, points[1..])
  {
    var p := points[0];
    var k := KeyOf(plantId, p);
    var a := Classify(t, plantId, p);
    var t1 := Step(t, plantId, p, now);
    var touched1 := if a == Unchanged then touched else touched + {k};
    var tail := points[1..];
    assert forall i :: 0 <= i < |tail| ==> tail[i] == points[i + 1];
    forall i | 0 <= i < |tail| && KeyOf(plantId, tail[i]) != k
      ensures Classify(t1, plantId, tail[i]) == Classify(t, plantId, tail[i])
    {
      StepFrame(t, plantId, p, now, tail[i]);
    }
    if Clean(t, touched, plantId, points) {
      forall i | 0 <= i < |tail| ensures KeyOf(plantId, tail[i]) !in touched1 {
        assert KeyOf(plantId, points[i + 1]) !in touched;
        if KeyOf(plantId, tail[i]) == k {
          assert points[0].hourUtc.ticks == points[i + 1].hourUtc.ticks;
        }
      }
      forall i, j | 0 <= i < j < |tail| && tail[i].hourUtc.ticks == tail[j].hourUtc.ticks
        ensures Classify(t1, plantId, tail[i]) == Unchanged
      {
        assert Classify(t, plantId, points[i + 1]) == Unchanged;
        if KeyOf(plantId, tail[i]) == k {
          assert points[0].hourUtc.ticks == points[i + 1].hourUtc.ticks;
        }
      }
    }
    if k !in touched && Clean(t1, touched1, plantId, tail) {
      forall i | 0 <= i < |points| ensures KeyOf(plantId, points[i]) !in touched {
        if i > 0 {
          assert KeyOf(plantId, tail[i - 1]) !in touched1;
        }
      }
      forall i, j | 0 <= i < j < |points| && points[i].hourUtc.ticks == points[j].hourUtc.ticks
        ensures Classify(t, plantId, points[i]) == Unchanged
      {
        assert KeyOf(plantId, tail[j - 1]) !in touched1;
        if i > 0 {
          assert Classify(t1, plantId, tail[i - 1]) == Unchanged;
        }
      }
    }
  }

  /** The statement runs to completion exactly when the batch is clean. */
  lemma {:induction false} ExecuteSucceedsIff(t: Table, touched: set<Key>, plantId: PlantId,
                                              points: seq<ForecastPoint>, now: DateTime)
    ensures Execute(t, touched, plantId, points, now).Some? <==> Clean(t, touched, plantId, points)
    decreases |points|
  {
    if |points| > 0 {
      var k := KeyOf(plantId, points[0]);
      var a := Classify(t, plantId, points[0]);
      CleanStep(t, touched, plantId, points, now);
      ExecuteSucceedsIff(Step(t, plantId, points[0], now), if a == Unchanged then touched else touched + {k},
                         plantId, points[1..], now);
    }
  }

  /** The returned rows, counted, are the snapshot's tallies of inserts and
      updates; a proposal left alone returns nothing. */
  lemma {:induction false} ExecuteReturnsChangedRows(t: Table, touched: set<Key>, plantId: PlantId,
                                                     points: seq<ForecastPoint>, now: DateTime)
    requires Clean(t, touched, plantId, points)
    ensures Execute(t, touched, plantId, points, now).Some?
    ensures var rows := Execute(t, touched, plantId, points, now).value.1;
      && Count(rows, Inserted) == Tally(t, plantId, points, Inserted)
      && Count(rows, Updated) == Tally(t, plantId, points, Updated)
      && |rows| == Tally(t, plantId, points, Inserted) + Tally(t, plantId, points, Updated)
    decreases |points|
  {
    ExecuteSucceedsIff(t, touched, plantId, points, now);
    if |points| > 0 {
      var p := points[0];
      var k := KeyOf(plantId, p);
      var a := Classify(t, plantId, p);
      var t1 := Step(t, plantId, p, now);
      var touched1 := if a == Unchanged then touched else touched + {k};
      var tail := points[1..];
      CleanStep(t, touched, plantId, points, now);
      ExecuteReturnsChangedRows(t1, touched1, plantId, tail, now);
      var rest := Execute(t1, touched1, plantId, tail, now).value.1;
      var head: seq<Action> := if a == Unchanged then [] else [a];
      assert Execute(t, touched, plantId, points, now).value.1 == head + rest;
      StepKeepsTail(t, plantId, points, now);
      TallyFrame(t1, t, plantId, tail, Inserted);
      TallyFrame(t1, t, plantId, tail, Updated);
      CountAppend(head, rest, Inserted);
      CountAppend(head, rest, Updated);
    }
  }

  /** The keys the statement leaves: the snapshot's and the batch's, with
      every key outside the batch kept as it was. */
  lemma {:induction false} ExecuteKeepsOthers(t: Table, touched: set<Key>, plantId: PlantId,
                                              points: seq<ForecastPoint>, now: DateTime)
    requires Clean(t, touched, plantId, points)
    ensures Execute(t, touched, plantId, points, now).Some?
    ensures var u := Execute(t, touched, plantId, points, now).value.0;
      && u.Keys == t.Keys + BatchKeys(plantId, points)
      && (forall k :: k in t && k !in BatchKeys(plantId, points) ==> u[k] == t[k])
    decreases |points|
  {
    ExecuteSucceedsIff(t, touched, plantId, points, now);
    if |points| > 0 {
      var k := KeyOf(plantId, points[0]);
      var a := Classify(t, plantId, points[0]);
      var t1 := Step(t, plantId, points[0], now);
      var touched1 := if a == Unchanged then touched else touched + {k};
      CleanStep(t, touched, plantId, points, now);
      ExecuteKeepsOthers(t1, touched1, plantId, points[1..], now);
      assert Execute(t, touched, plantId, points, now).value.0
               == Execute(t1, touched1, plantId, points[1..], now).value.0;
      BatchKeysCons(plantId, points);
    } else {
      assert BatchKeys(plantId, points) == {};
    }
  }

  /** The last proposal for each hour decides its row, as one step would
      against the snapshot t. */
  lemma {:induction false} ExecuteWritesBatch(t: Table, touched: set<Key>, plantId: PlantId,
                                              points: seq<ForecastPoint>, now: DateTime)
    requires Clean(t, touched, plantId, points)
    ensures Execute(t, touched, plantId, points, now).Some?
    ensures var u := Execute(t, touched, plantId, points, now).value.0;
      forall i :: 0 <= i < |points| && LastOfHour(points, i) ==>
        && KeyOf(plantId, points[i]) in u
        && u[KeyOf(plantId, points[i])] == Step(t, plantId, points[i], now)[KeyOf(plantId, points[i])]
    decreases |points|
  {
    ExecuteSucceedsIff(t, touched, plantId, points, now);
    if |points| > 0 {
      var p := points[0];
      var k := KeyOf(plantId, p);
      var a := Classify(t, plantId, p);
      var t1 := Step(t, plantId, p, now);
      var touched1 := if a == Unchanged then touched else touched + {k};
      var tail := points[1..];
      CleanStep(t, touched, plantId, points, now);
      ExecuteWritesBatch(t1, touched1, plantId, tail, now);
      ExecuteKeepsOthers(t1, touched1, plantId, tail, now);
      var u := Execute(t1, touched1, plantId, tail, now).value.0;
      assert Execute(t, touched, plantId, points, now).value.0 == u;
      assert forall i :: 0 <= i < |tail| ==> tail[i] == points[i + 1];
      if LastOfHour(points, 0) {
        assert forall j :: 0 <= j < |tail| ==> KeyOf(plantId, tail[j]) != k;
        assert forall q :: q in tail ==> KeyOf(plantId, q) != k;
        assert k !in BatchKeys(plantId, tail);
      }
      forall i | 0 < i < |points| && LastOfHour(points, i)
        ensures KeyOf(plantId, points[i]) in u
        ensures u[KeyOf(plantId, points[i])] == Step(t, plantId, points[i], now)[KeyOf(plantId, points[i])]
      {
        assert LastOfHour(tail, i - 1);
        if KeyOf(plantId, points[i]) == k {
          assert Classify(t, plantId, points[0]) == Unchanged;
        } else {
          StepFrame(t, plantId, p, now, points[i]);
        }
      }
    }
  }

  /** Every point has a last point for its hour at or after it. */
  lemma {:induction false} LastOfHourExists(points: seq<ForecastPoint>, i: int)
    requires 0 <= i < |points|
    ensures exists j :: i <= j < |points| && points[j].hourUtc.ticks == points[i].hourUtc.ticks
                        && LastOfHour(points, j)
    decreases |points| - i
  {
    if !LastOfHour(points, i) {
      var j :| i < j < |points| && points[j].hourUtc.ticks == points[i].hourUtc.ticks;
      LastOfHourExists(points, j);
    }
  }

  /** The outcome of UpsertForecastsAsync: the counts and the table the
      statement leaves, or a statement PostgreSQL rejects (an exception the
      caller does not catch). */
  datatype UpsertOutcome = Applied(table: Table, result: UpsertResult) | StatementFailed

  /** UpsertForecastsAsync(plantId, points) at time now. */
  function Upsert(t: Table, plantId: PlantId, points: seq<ForecastPoint>, now: DateTime): (r: UpsertOutcome)
    ensures |points| == 0 ==> r == Applied(t, UpsertResult(0, 0, 0))
    ensures r.StatementFailed? <==> |points| > 0 && !Executable(t, plantId, points)
    ensures r.Applied? ==>
      && r.result.insertedCount == Tally(t, plantId, points, Inserted)
      && r.result.updatedCount == Tally(t, plantId, points, Updated)
      && r.result.unchangedCount == Tally(t, plantId, points, Unchanged)
      && r.result.TotalProcessed() == |points|
      && r.table.Keys == t.Keys + BatchKeys(plantId, points)
      && (forall k :: k in t && k !in BatchKeys(plantId, points) ==> r.table[k] == t[k])
      && (forall i :: 0 <= i < |points| && LastOfHour(points, i) && KeyOf(plantId, points[i]) !in t ==>
            r.table[KeyOf(plantId, points[i])] == Row(points[i].mwh, now, now))
      && (forall i :: 0 <= i < |points| && LastOfHour(points, i) && KeyOf(plantId, points[i]) in t
                      && t[KeyOf(plantId, points[i])].mwh != points[i].mwh ==>
            r.table[KeyOf(plantId, points[i])]
              == Row(points[i].mwh, t[KeyOf(plantId, points[i])].createdAt, now))
      && (forall i :: 0 <= i < |points| && LastOfHour(points, i) && KeyOf(plantId, points[i]) in t
                      && t[KeyOf(plantId, points[i])].mwh == points[i].mwh ==>
            r.table[KeyOf(plantId, points[i])] == t[KeyOf(plantId, points[i])])
  {
    if |points| == 0 then Applied(t, UpsertResult(0, 0, 0))
    else if !AllFit(points) then StatementFailed
    else
      ExecuteSucceedsIff(t, {}, plantId, points, now);
      match Execute(t, {}, plantId, points, now)
      case None => StatementFailed
      case Some((u, rows)) =>
        ExecuteReturnsChangedRows(t, {}, plantId, points, now);
        ExecuteKeepsOthers(t, {}, plantId, points, now);
        ExecuteWritesBatch(t, {}, plantId, points, now);
        TallyPartition(t, plantId, points);
        Applied(u, UpsertResult(Count(rows, Inserted), Count(rows, Updated), |points| - |rows|))
  }

  /** Every row a successful statement writes carries the amount of the last
      point for its hour. */
  lemma UpsertStoresLastAmount(t: Table, plantId: PlantId, points: seq<ForecastPoint>, now: DateTime, i: int)
    requires Upsert(t, plantId, points, now).Applied?
    requires 0 <= i < |points|
    ensures exists j :: i <= j < |points| && points[j].hourUtc.ticks == points[i].hourUtc.ticks
                        && KeyOf(plantId, points[i]) in Upsert(t, plantId, points, now).table
                        && Upsert(t, plantId, points, now).table[KeyOf(plantId, points[i])].mwh == points[j].mwh
  {
    LastOfHourExists(points, i);
    var j :| i <= j < |points| && points[j].hourUtc.ticks == points[i].hourUtc.ticks && LastOfHour(points, j);
    assert KeyOf(plantId, points[j]) == KeyOf(plantId, points[i]);
    assert points[j] in points;
  }

  /** Rows of other plants are never touched. */
  lemma UpsertLeavesOtherPlants(t: Table, plantId: PlantId, points: seq<ForecastPoint>, now: DateTime, k: Key)
    requires Executable(t, plantId, points)
    requires k in t && k.plant != plantId
    ensures Upsert(t, plantId, points, now).Applied?
    ensures k in Upsert(t, plantId, points, now).table
    ensures Upsert(t, plantId, points, now).table[k] == t[k]
  {
    assert k !in BatchKeys(plantId, points);
  }

  /** All points of the batch for one hour carry one amount. */
  predicate OneAmountPerHour(points: seq<ForecastPoint>) {
    forall i, j :: 0 <= i < j < |points| && points[i].hourUtc.ticks == points[j].hourUtc.ticks ==>
      points[i].mwh == points[j].mwh
  }

  /** Resubmitting the same batch, at any later time, changes nothing: all
      points come back unchanged and the table, timestamps included, is the
      one the first submission left. A batch that repeats an hour with two
      amounts is the exception; see ConflictingRepeatFailsOnResubmission. */
  lemma UpsertIsIdempotent(t: Table, plantId: PlantId, points: seq<ForecastPoint>, now: DateTime, later: DateTime)
    requires Upsert(t, plantId, points, now).Applied?
    requires OneAmountPerHour(points)
    ensures var first := Upsert(t, plantId, points, now);
            Upsert(first.table, plantId, points, later) == Applied(first.table, UpsertResult(0, 0, |points|))
  {
    var first := Upsert(t, plantId, points, now);
    var u := first.table;
    if |points| > 0 {
      forall i | 0 <= i < |points| ensures Classify(u, plantId, points[i]) == Unchanged {
        UpsertStoresLastAmount(t, plantId, points, now, i);
        var j :| i <= j < |points| && points[j].hourUtc.ticks == points[i].hourUtc.ticks
                 && KeyOf(plantId, points[i]) in u && u[KeyOf(plantId, points[i])].mwh == points[j].mwh;
        assert i < j ==> points[i].mwh == points[j].mwh;
      }
      TallyUniform(u, plantId, points, Unchanged, Inserted);
      TallyUniform(u, plantId, points, Unchanged, Updated);
      TallyUniform(u, plantId, points, Unchanged, Unchanged);
      var second := Upsert(u, plantId, points, later);
      assert second.Applied?;
      assert BatchKeys(plantId, points) <= u.Keys;
      forall k | k in u ensures second.table[k] == u[k] {
        if k in BatchKeys(plantId, points) {
          var p :| p in points && KeyOf(plantId, p) == k;
          var i :| 0 <= i < |points| && points[i] == p;
          LastOfHourExists(points, i);
          var j :| i <= j < |points| && points[j].hourUtc.ticks == points[i].hourUtc.ticks && LastOfHour(points, j);
          assert KeyOf(plantId, points[j]) == k;
        }
      }
      assert second.table == u;
    }
  }

  /** A batch none of whose hours is stored yet runs exactly when its hours
      are distinct, and then inserts every point. */
  lemma FreshBatchInsertsAll(t: Table, plantId: PlantId, points: seq<ForecastPoint>, now: DateTime)
    requires AllFit(points)
    requires forall i :: 0 <= i < |points| ==> KeyOf(plantId, points[i]) !in t
    ensures Upsert(t, plantId, points, now).Applied? <==> DistinctHours(points)
    ensures DistinctHours(points) ==> Upsert(t, plantId, points, now).result == UpsertResult(|points|, 0, 0)
  {
    forall i | 0 <= i < |points| ensures Classify(t, plantId, points[i]) == Inserted {
    }
    TallyUniform(t, plantId, points, Inserted, Inserted);
    TallyUniform(t, plantId, points, Inserted, Updated);
    TallyUniform(t, plantId, points, Inserted, Unchanged);
  }

  /** Resubmitting one stored hour with a different amount updates that row:
      the amount and updated_at change and created_at is kept. */
  lemma ChangedAmountUpdates(t: Table, plantId: PlantId, p: ForecastPoint, now: DateTime)
    requires KeyOf(plantId, p) in t && t[KeyOf(plantId, p)].mwh != p.mwh
    requires FitsColumn(p.mwh)
    ensures Upsert(t, plantId, [p], now)
              == Applied(t[KeyOf(plantId, p) := Row(p.mwh, t[KeyOf(plantId, p)].createdAt, now)],
                         UpsertResult(0, 1, 0))
  {
    var k := KeyOf(plantId, p);
    var r := Upsert(t, plantId, [p], now);
    assert [p][0] == p;
    assert BatchKeys(plantId, [p]) == {k};
    assert r.table == t[k := Row(p.mwh, t[k].createdAt, now)];
  }

  /** Two points for one hour fail the whole statement when the first
      inserts or updates the row: the second then meets a row the statement
      already changed. Nothing is written. */
  lemma RepeatedHourFails(t: Table, plantId: PlantId, p: ForecastPoint, q: ForecastPoint, now: DateTime)
    requires p.hourUtc.ticks == q.hourUtc.ticks
    requires KeyOf(plantId, p) !in t || t[KeyOf(plantId, p)].mwh != p.mwh
    ensures Upsert(t, plantId, [p, q], now) == StatementFailed
  {
    assert [p, q][0] == p && [p, q][1] == q;
  }

  /** Two points for one hour go through when the first leaves the stored
      row alone: the second is then decided against that row. */
  lemma RepeatAfterNoOpApplies(t: Table, plantId: PlantId, p: ForecastPoint, q: ForecastPoint, now: DateTime)
    requires p.hourUtc.ticks == q.hourUtc.ticks
    requires KeyOf(plantId, p) in t && t[KeyOf(plantId, p)].mwh == p.mwh
    requires FitsColumn(p.mwh) && FitsColumn(q.mwh)
    ensures Upsert(t, plantId, [p, q], now)
              == if q.mwh == p.mwh then Applied(t, UpsertResult(0, 0, 2))
                 else Applied(t[KeyOf(plantId, p) := Row(q.mwh, t[KeyOf(plantId, p)].createdAt, now)],
                              UpsertResult(0, 1, 1))
  {
    var k := KeyOf(plantId, p);
    var pts := [p, q];
    assert pts[0] == p && pts[1] == q && pts[1..] == [q];
    assert KeyOf(plantId, q) == k;
    assert BatchKeys(plantId, pts) == {k} by {
      assert forall x :: x in pts <==> x == p || x == q;
    }
    assert LastOfHour(pts, 1);
    var r := Upsert(t, plantId, pts, now);
    assert r.Applied?;
    if q.mwh == p.mwh {
      forall i | 0 <= i < |pts| ensures Classify(t, plantId, pts[i]) == Unchanged {
      }
      TallyUniform(t, plantId, pts, Unchanged, Inserted);
      TallyUniform(t, plantId, pts, Unchanged, Updated);
      TallyUniform(t, plantId, pts, Unchanged, Unchanged);
      assert r.table == t;
    } else {
      assert Classify(t, plantId, p) == Unchanged && Classify(t, plantId, q) == Updated;
      assert Tally(t, plantId, [q], Updated) == 1 && Tally(t, plantId, [q], Inserted) == 0;
      assert Tally(t, plantId, pts, Updated) == 1 && Tally(t, plantId, pts, Inserted) == 0;
      TallyPartition(t, plantId, pts);
      assert r.table == t[k := Row(q.mwh, t[k].createdAt, now)];
    }
  }

  /** A batch that repeats a stored hour, first with its stored amount and
      then with another, is applied once and fails when resubmitted: the
      first point now updates the row back and the second meets it. */
  lemma ConflictingRepeatFailsOnResubmission(t: Table, plantId: PlantId, p: ForecastPoint, q: ForecastPoint,
                                             now: DateTime, later: DateTime)
    requires p.hourUtc.ticks == q.hourUtc.ticks
    requires KeyOf(plantId, p) in t && t[KeyOf(plantId, p)].mwh == p.mwh && q.mwh != p.mwh
    requires FitsColumn(p.mwh) && FitsColumn(q.mwh)
    ensures Upsert(t, plantId, [p, q], now).Applied?
    ensures Upsert(Upsert(t, plantId, [p, q], now).table, plantId, [p, q], later) == StatementFailed
  {
    RepeatAfterNoOpApplies(t, plantId, p, q, now);
    RepeatedHourFails(Upsert(t, plantId, [p, q], now).table, plantId, p, q, later);
  }
}
