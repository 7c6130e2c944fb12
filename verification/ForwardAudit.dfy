/** Scheduling, folds and statistics of the forward audit (core/research_validation.py,
    `validate_observations` and `_stats`). */
module ForwardAudit {
  import opened Numbers
  import opened Sorting
  import opened ShadowOutcomes
  import opened ResearchSimulation

  /** Account, configuration and strategy version: positions overlap only within one of these. */
  type Group(==, !new)

  /** One unique observation of a watch. */
  datatype Item = Item(group: Group, observed: int, watch: Watch)

  function ByObserved(item: Item): Rank { (item.observed, 0) }

  /** No outcome means that the observation was skipped because a position was open. */
  datatype Row = Row(observed: int, outcome: Option<Outcome>)

  datatype Ledger = Ledger(rows: seq<Row>, busyUntil: Option<int>)

  const EMPTY := Ledger([], None)

  /** What is fixed for one audit. */
  datatype Setup = Setup(frame: seq<Bar>, costs: Costs, minutes: nat) {
    function Simulated(item: Item): Outcome { Simulation(item.watch, item.observed, frame, costs, minutes) }
  }

  // ---------------------------------------------------------------------------------------
  // One hypothetical position at a time
  // ---------------------------------------------------------------------------------------

  function Record(ledger: Ledger, item: Item, s: Setup): Ledger {
    if ledger.busyUntil.Some? && CeilMinute(item.observed) < ledger.busyUntil.value then
      ledger.(rows := ledger.rows + [Row(item.observed, None)])
    else
      var outcome := s.Simulated(item);
      Ledger(
        ledger.rows + [Row(item.observed, Some(outcome))],
        if outcome.Opened? then Some(outcome.exitTime) else ledger.busyUntil)
  }

  /** The ledger of one group. */
  function LedgerOf(items: seq<Item>, g: Group, s: Setup): Ledger {
    if items == [] then EMPTY
    else
      var n := |items| - 1;
      var before := LedgerOf(items[..n], g, s);
      if items[n].group == g then Record(before, items[n], s) else before
  }

  method Schedule(items: seq<Item>, s: Setup) returns (ledgers: map<Group, Ledger>)
    ensures forall g :: LedgerOf(SortBy(items, ByObserved), g, s) == if g in ledgers then ledgers[g] else EMPTY
    ensures forall g | g in ledgers :: ledgers[g].rows != []
  {
    var sorted := SortBy(items, ByObserved);
    ledgers := map[];
    for i := 0 to |sorted|
      invariant forall g :: LedgerOf(sorted[..i], g, s) == if g in ledgers then ledgers[g] else EMPTY
      invariant forall g | g in ledgers :: ledgers[g].rows != []
    {
      assert sorted[..i + 1][..i] == sorted[..i];
      var item := sorted[i];
      var ledger := if item.group in ledgers then ledgers[item.group] else EMPTY;
      ledger := RecordItem(ledger, item, s);
      ledgers := ledgers[item.group := ledger];
    }
    assert sorted[..|sorted|] == sorted;
  }

  method RecordItem(ledger: Ledger, item: Item, s: Setup) returns (next: Ledger)
    ensures next == Record(ledger, item, s) && next.rows != []
  {
    var start := CeilMinute(item.observed);
    if ledger.busyUntil.Some? && start < ledger.busyUntil.value {
      return ledger.(rows := ledger.rows + [Row(item.observed, None)]);
    }
    var outcome := Simulate(item.watch, item.observed, s.frame, s.costs, s.minutes);
    next := ledger.(rows := ledger.rows + [Row(item.observed, Some(outcome))]);
    if outcome.Opened? {
      next := next.(busyUntil := Some(outcome.exitTime));
    }
  }

  predicate Opens(row: Row) { row.outcome.Some? && row.outcome.value.Opened? }

  function Of(items: seq<Item>, g: Group): seq<Item> {
    if items == [] then []
    else
      var n := |items| - 1;
      if items[n].group == g then Of(items[..n], g) + [items[n]] else Of(items[..n], g)
  }

  /** Every observation of a group gives exactly one row, in order, which is its own simulation unless it was
      skipped; and every position opens on its minute and closes within the horizon. */
  lemma {:induction false} OneRowPerObservation(items: seq<Item>, g: Group, s: Setup)
    requires s.minutes >= 1
    ensures
      var rows := LedgerOf(items, g, s).rows;
      && |rows| == |Of(items, g)|
      && (forall i | 0 <= i < |rows| :: rows[i].observed == Of(items, g)[i].observed)
      && (forall i | 0 <= i < |rows| && rows[i].outcome.Some? :: rows[i].outcome.value == s.Simulated(Of(items, g)[i]))
      && (forall row | row in rows && Opens(row) ::
            var o := row.outcome.value;
            o.entryTime == CeilMinute(row.observed) < o.exitTime <= o.entryTime + s.minutes * MINUTE)
  {
    hide Simulation;
    if items != [] {
      var n := |items| - 1;
      OneRowPerObservation(items[..n], g, s);
      SimulationTiming(items[n].watch, items[n].observed, s.frame, s.costs, s.minutes);
    }
  }

  /** Within a group, the [entry, exit) intervals of hypothetical positions never overlap. */
  lemma {:induction false} PositionsAreDisjoint(items: seq<Item>, g: Group, s: Setup)
    requires s.minutes >= 1
    ensures
      var ledger := LedgerOf(items, g, s);
      && (forall i, j | 0 <= i < j < |ledger.rows| && Opens(ledger.rows[i]) && Opens(ledger.rows[j]) ::
            ledger.rows[i].outcome.value.exitTime <= ledger.rows[j].outcome.value.entryTime)
      && (forall row | row in ledger.rows && Opens(row) ::
            ledger.busyUntil.Some? && row.outcome.value.exitTime <= ledger.busyUntil.value)
  {
    hide Simulation;
    if items != [] {
      var n := |items| - 1;
      PositionsAreDisjoint(items[..n], g, s);
      SimulationTiming(items[n].watch, items[n].observed, s.frame, s.costs, s.minutes);
    }
  }

  predicate ClosesAt(row: Row, time: int) { Opens(row) && row.outcome.value.exitTime == time }

  /** The group has an earlier position that is still open when this row's minute begins. */
  ghost predicate StillOpen(rows: seq<Row>, before: nat, time: int)
    requires before <= |rows|
  {
    exists i :: 0 <= i < before && Opens(rows[i]) && time < rows[i].outcome.value.exitTime
  }

  /** An observation is skipped exactly while an earlier position of its group is open; any other is simulated. */
  lemma {:induction false} SkippedIffStillOpen(items: seq<Item>, g: Group, s: Setup)
    requires s.minutes >= 1
    ensures
      var ledger := LedgerOf(items, g, s);
      && (forall k | 0 <= k < |ledger.rows| ::
            ledger.rows[k].outcome.None? <==> StillOpen(ledger.rows, k, CeilMinute(ledger.rows[k].observed)))
      && (ledger.busyUntil.Some? ==>
            exists i :: 0 <= i < |ledger.rows| && ClosesAt(ledger.rows[i], ledger.busyUntil.value))
  {
    hide Simulation, CeilMinute;
    if items != [] {
      var n := |items| - 1;
      SkippedIffStillOpen(items[..n], g, s);
      PositionsAreDisjoint(items[..n], g, s);
      var before, after := LedgerOf(items[..n], g, s), LedgerOf(items, g, s);
      if items[n].group == g {
        var last := |before.rows|;
        assert forall k | 0 <= k < last :: after.rows[k] == before.rows[k];
        assert forall k: nat, time: int | k <= last ::
          StillOpen(after.rows, k, time) <==> StillOpen(before.rows, k, time);
        if before.busyUntil.Some? {
          var i :| 0 <= i < last && ClosesAt(before.rows[i], before.busyUntil.value);
          assert ClosesAt(after.rows[i], before.busyUntil.value);
        }
        if Opens(after.rows[last]) {
          assert ClosesAt(after.rows[last], after.busyUntil.value);
        }
        assert forall i | 0 <= i < last && Opens(before.rows[i]) :: before.rows[i] in before.rows;
      }
    }
  }

  // ---------------------------------------------------------------------------------------
  // Folds
  // ---------------------------------------------------------------------------------------

  /** Equal stretches between two times, and their edges. */
  datatype Folds = Folds(start: int, end: int, count: nat) {
    function Edge(i: int): int
      requires count > 0
    {
      start + (end - start) * i / count
    }
  }

  function FloorMinute(time: int): int { time / MINUTE * MINUTE }

  function FoldsOf(rows: seq<Row>, count: nat, minutes: nat): Folds
    requires rows != []
  {
    Folds(FloorMinute(rows[0].observed), CeilMinute(rows[|rows| - 1].observed) + minutes * MINUTE, count)
  }

  predicate Resolved(row: Row) { Opens(row) && row.outcome.value.result.Filled? }

  /** The first fold that holds a time, from a given fold on. */
  function Bucket(f: Folds, time: int, from: nat): Option<nat>
    requires f.count > 0
    decreases f.count - from
  {
    if from >= f.count then None
    else if f.Edge(from) <= time < f.Edge(from + 1) then Some(from)
    else Bucket(f, time, from + 1)
  }

  predicate Purges(f: Folds, row: Row)
    requires f.count > 0 && Opens(row)
  {
    var bucket := Bucket(f, row.outcome.value.entryTime, 0);
    bucket.None? || row.outcome.value.exitTime > f.Edge(bucket.value + 1)
  }

  predicate InFold(f: Folds, row: Row, i: nat)
    requires f.count > 0
  {
    Resolved(row) && !Purges(f, row) && Bucket(f, row.outcome.value.entryTime, 0) == Some(i)
  }

  function Sample(f: Folds, rows: seq<Row>, i: nat): seq<Row>
    requires f.count > 0
  {
    if rows == [] then []
    else
      var n := |rows| - 1;
      var before := Sample(f, rows[..n], i);
      if InFold(f, rows[n], i) then before + [rows[n]] else before
  }

  function PurgedCount(f: Folds, rows: seq<Row>): nat
    requires f.count > 0
  {
    if rows == [] then 0
    else
      var n := |rows| - 1;
      PurgedCount(f, rows[..n]) + if Resolved(rows[n]) && Purges(f, rows[n]) then 1 else 0
  }

  function ResolvedCount(rows: seq<Row>): nat {
    if rows == [] then 0
    else
      var n := |rows| - 1;
      ResolvedCount(rows[..n]) + if Resolved(rows[n]) then 1 else 0
  }

  method AssignFolds(f: Folds, rows: seq<Row>) returns (samples: seq<seq<Row>>, purged: nat)
    requires f.count > 0
    ensures |samples| == f.count && forall i | 0 <= i < f.count :: samples[i] == Sample(f, rows, i)
    ensures purged == PurgedCount(f, rows)
  {
    samples := seq(f.count, i => []);
    purged := 0;
    for n := 0 to |rows|
      invariant |samples| == f.count && forall i | 0 <= i < f.count :: samples[i] == Sample(f, rows[..n], i)
      invariant purged == PurgedCount(f, rows[..n])
    {
      assert rows[..n + 1][..n] == rows[..n];
      var row := rows[n];
      if Resolved(row) {
        var bucket := FindBucket(f, row.outcome.value.entryTime);
        if bucket.None? || row.outcome.value.exitTime > f.Edge(bucket.value + 1) {
          purged := purged + 1;
        } else {
          samples := samples[bucket.value := samples[bucket.value] + [row]];
        }
      }
    }
    assert rows[..|rows|] == rows;
  }

  method FindBucket(f: Folds, time: int) returns (bucket: Option<nat>)
    requires f.count > 0
    ensures bucket == Bucket(f, time, 0)
    ensures bucket.Some? ==> bucket.value < f.count
  {
    for i := 0 to f.count
      invariant Bucket(f, time, 0) == Bucket(f, time, i)
    {
      if f.Edge(i) <= time < f.Edge(i + 1) {
        return Some(i);
      }
    }
    return None;
  }

  lemma EdgesInOrder(f: Folds, i: nat, j: nat)
    requires f.count > 0 && f.start <= f.end && i <= j <= f.count
    ensures f.Edge(i) <= f.Edge(j)
    ensures f.Edge(0) == f.start && f.Edge(f.count) == f.end
  {
    var width := f.end - f.start;
    assert width * i <= width * j;
    DivideOrder(width * i, width * j, f.count);
    WholeWidth(width, f.count);
  }

  lemma WholeWidth(width: int, n: nat)
    requires n > 0
    ensures width * n / n == width && width * 0 / n == 0
  {
    DivModUnique(width * n, n, width, 0);
  }

  lemma {:induction false} BucketFound(f: Folds, time: int, from: nat)
    requires f.count > 0 && from < f.count && f.Edge(from) <= time < f.Edge(f.count)
    ensures var b := Bucket(f, time, from);
            b.Some? && from <= b.value < f.count && f.Edge(b.value) <= time < f.Edge(b.value + 1)
    decreases f.count - from
  {
    if time >= f.Edge(from + 1) { BucketFound(f, time, from + 1); }
  }

  predicate WithinFolds(f: Folds, row: Row) {
    Opens(row) ==> f.start <= row.outcome.value.entryTime < row.outcome.value.exitTime <= f.end
  }

  /** For trades inside the audited time, a fold is always found, and a trade is purged exactly when it is
      open across one of the inner edges; so the last fold purges nothing. */
  lemma PurgedIffCrossing(f: Folds, row: Row)
    requires f.count > 0 && f.start <= f.end && Opens(row) && WithinFolds(f, row)
    ensures
      var o := row.outcome.value;
      var bucket := Bucket(f, o.entryTime, 0);
      && bucket.Some? && bucket.value < f.count
      && f.Edge(bucket.value) <= o.entryTime < f.Edge(bucket.value + 1)
      && (Purges(f, row) <==> exists i: nat :: 0 < i < f.count && o.entryTime < f.Edge(i) < o.exitTime)
      && (bucket.value == f.count - 1 ==> !Purges(f, row))
  {
    var o := row.outcome.value;
    EdgesInOrder(f, 0, f.count);
    BucketFound(f, o.entryTime, 0);
    var b := Bucket(f, o.entryTime, 0).value;
    forall i: nat | i <= f.count ensures i <= b ==> f.Edge(i) <= o.entryTime
                              ensures i > b ==> f.Edge(b + 1) <= f.Edge(i) {
      if i <= b { EdgesInOrder(f, i, b); } else { EdgesInOrder(f, b + 1, i); }
    }
    if Purges(f, row) {
      assert b + 1 != f.count;
      assert 0 < b + 1 < f.count && o.entryTime < f.Edge(b + 1) < o.exitTime;
    }
  }

  function SampledCount(f: Folds, rows: seq<Row>, folds: nat): nat
    requires f.count > 0
  {
    if folds == 0 then 0 else SampledCount(f, rows, folds - 1) + |Sample(f, rows, folds - 1)|
  }

  lemma {:induction false} SampledStep(f: Folds, rows: seq<Row>, folds: nat)
    requires f.count > 0 && rows != []
    ensures
      var n := |rows| - 1;
      var i := if Resolved(rows[n]) && !Purges(f, rows[n]) then Bucket(f, rows[n].outcome.value.entryTime, 0) else None;
      SampledCount(f, rows, folds)
        == SampledCount(f, rows[..n], folds) + if i.Some? && i.value < folds then 1 else 0
  {
    hide Bucket, Purges;
    if folds > 0 { SampledStep(f, rows, folds - 1); }
  }

  lemma {:induction false} EmptySamples(f: Folds, folds: nat)
    requires f.count > 0
    ensures SampledCount(f, [], folds) == 0
  {
    if folds > 0 { EmptySamples(f, folds - 1); }
  }

  /** Every resolved row is either purged or counted in exactly one fold. */
  lemma {:induction false} ResolvedRowsAreAccountedFor(f: Folds, rows: seq<Row>)
    requires f.count > 0 && f.start <= f.end && forall row | row in rows :: WithinFolds(f, row)
    ensures ResolvedCount(rows) == PurgedCount(f, rows) + SampledCount(f, rows, f.count)
  {
    hide Bucket, Purges, Sample, WithinFolds;
    if rows == [] {
      EmptySamples(f, f.count);
    } else {
      var n := |rows| - 1;
      ResolvedRowsAreAccountedFor(f, rows[..n]);
      SampledStep(f, rows, f.count);
      if Resolved(rows[n]) { PurgedIffCrossing(f, rows[n]); }
    }
  }

  /** The folds drawn from a group's own ledger cover every one of its trades. */
  lemma LedgerFitsItsFolds(items: seq<Item>, g: Group, s: Setup, count: nat)
    requires s.minutes >= 1 && count > 0 && Sorted(items, ByObserved) && LedgerOf(items, g, s).rows != []
    ensures
      var rows := LedgerOf(items, g, s).rows;
      var f := FoldsOf(rows, count, s.minutes);
      f.start <= f.end && forall row | row in rows :: WithinFolds(f, row)
  {
    hide *;
    var rows := LedgerOf(items, g, s).rows;
    LedgerInOrder(items, g, s);
    OneRowPerObservation(items, g, s);
    forall row | row in rows ensures WithinFolds(FoldsOf(rows, count, s.minutes), row) {
      if Opens(row) {
        RowFits(rows, count, s.minutes, row);
      } else {
        UnopenedFits(FoldsOf(rows, count, s.minutes), row);
      }
    }
    FoldsOfWrittenOut(rows, count, s.minutes);
    NextMinuteIsLater(rows[|rows| - 1].observed, FoldsOf(rows, count, s.minutes).end - 60 * s.minutes);
  }

  lemma NextMinuteIsLater(time: int, minute: int)
    requires IsNextMinute(time, minute)
    ensures time <= minute
  {
  }

  lemma UnopenedFits(f: Folds, row: Row)
    requires !Opens(row)
    ensures WithinFolds(f, row)
  {
  }

  lemma RowFits(rows: seq<Row>, count: nat, minutes: nat, row: Row)
    requires rows != [] && Opens(row) && rows[0].observed <= row.observed <= rows[|rows| - 1].observed
    requires var o := row.outcome.value;
             o.entryTime == CeilMinute(row.observed) < o.exitTime <= o.entryTime + minutes * MINUTE
    ensures WithinFolds(FoldsOf(rows, count, minutes), row)
  {
    CeilMinuteInOrder(row.observed, rows[|rows| - 1].observed);
    CeilMinuteInOrder(rows[0].observed, row.observed);
  }

  lemma CeilMinuteInOrder(a: int, b: int)
    requires a <= b
    ensures FloorMinute(a) <= a <= CeilMinute(a) <= CeilMinute(b)
  {
    DivideOrder(a + MINUTE - 1, b + MINUTE - 1, MINUTE);
  }

  lemma LedgerInOrder(items: seq<Item>, g: Group, s: Setup)
    requires s.minutes >= 1 && Sorted(items, ByObserved) && LedgerOf(items, g, s).rows != []
    ensures
      var rows := LedgerOf(items, g, s).rows;
      forall row | row in rows :: rows[0].observed <= row.observed <= rows[|rows| - 1].observed
  {
    hide LedgerOf, Simulation, Of;
    OneRowPerObservation(items, g, s);
    OfSorted(items, g);
    var rows, own := LedgerOf(items, g, s).rows, Of(items, g);
    var last := |rows| - 1;
    forall i | 0 <= i < |rows| ensures rows[0].observed <= rows[i].observed <= rows[last].observed {
      if 0 < i { assert AtMost(ByObserved(own[0]), ByObserved(own[i])); }
      if i < last { assert AtMost(ByObserved(own[i]), ByObserved(own[last])); }
    }
  }

  lemma {:induction false} OfSorted(items: seq<Item>, g: Group)
    requires Sorted(items, ByObserved)
    ensures Sorted(Of(items, g), ByObserved)
    ensures forall item | item in Of(items, g) :: item in items
  {
    if items != [] {
      var n := |items| - 1;
      OfSorted(items[..n], g);
      forall item | item in items[..n] ensures AtMost(ByObserved(item), ByObserved(items[n])) {
        var i :| 0 <= i < n && items[i] == item;
      }
    }
  }

  // ---------------------------------------------------------------------------------------
  // Folds, written out
  // ---------------------------------------------------------------------------------------

  /** A time is in the given stretch out of `f.count` equal ones, compared without dividing. */
  predicate InStretch(f: Folds, time: int, i: nat) {
    (f.end - f.start) * i <= (time - f.start) * f.count < (f.end - f.start) * (i + 1)
  }

  predicate WholeMinutes(f: Folds) { f.start % 60 == 0 && f.end % 60 == 0 && 0 < f.count <= 60 }

  /** Edges are cut to whole seconds, but that makes no difference to a whole minute. */
  lemma EdgeIsExact(f: Folds, i: nat, time: int)
    requires WholeMinutes(f) && time % 60 == 0
    ensures f.Edge(i) <= time <==> (f.end - f.start) * i <= (time - f.start) * f.count
  {
    var width, n, at := f.end - f.start, f.count, time - f.start;
    MinutesApart(f.end, f.start);
    MinutesApart(time, f.start);
    EdgeAtMost(width, i, n, at);
    assert f.Edge(i) == f.start + width * i / n;
  }

  lemma MinutesApart(a: int, b: int)
    requires a % 60 == 0 && b % 60 == 0
    ensures (a - b) % 60 == 0
  {
  }

  lemma EdgeAtMost(width: int, i: nat, n: nat, at: int)
    requires width % 60 == 0 && at % 60 == 0 && 0 < n <= 60
    ensures width * i / n <= at <==> width * i <= at * n
  {
    MultipleOfMinute(width, i);
    MultipleOfMinute(at, n);
    FloorAtMost(width * i, n, at);
    ApartByMinutes(width * i, at * n, n);
  }

  lemma ApartByMinutes(a: int, b: int, n: nat)
    requires a % 60 == 0 && b % 60 == 0 && 0 < n <= 60
    ensures a < b + n <==> a <= b
  {
  }

  lemma MultipleOfMinute(a: int, b: int)
    requires a % 60 == 0
    ensures a * b % 60 == 0
  {
    assert a * b == a / 60 * b * 60 + 0;
    DivModUnique(a * b, 60, a / 60 * b, 0);
  }

  lemma FloorAtMost(w: int, n: nat, at: int)
    requires n > 0
    ensures w / n <= at <==> w < at * n + n
  {
    assert w == w / n * n + w % n;
    if w / n <= at {
      assert w / n * n <= at * n;
    } else {
      assert w / n >= at + 1;
      assert w / n * n >= (at + 1) * n;
    }
  }

  lemma {:induction false} BucketIsExact(f: Folds, time: int, from: nat, i: nat)
    requires WholeMinutes(f) && f.start <= f.end && time % 60 == 0
    ensures Bucket(f, time, from) == Some(i) <==> from <= i < f.count && InStretch(f, time, i)
    decreases f.count - from
  {
    if from < f.count {
      EdgeIsExact(f, from, time);
      EdgeIsExact(f, from + 1, time);
      BucketIsExact(f, time, from + 1, i);
      if InStretch(f, time, from) && InStretch(f, time, i) { StretchesAreDisjoint(f, time, from, i); }
      hide Bucket;
    }
  }

  lemma StretchesAreDisjoint(f: Folds, time: int, i: nat, j: nat)
    requires f.start <= f.end && InStretch(f, time, i) && InStretch(f, time, j)
    ensures i == j
  {
    var width := f.end - f.start;
    ProductsInOrder(width, i + 1, j);
    ProductsInOrder(width, j + 1, i);
  }

  lemma ProductsInOrder(width: nat, a: nat, b: nat)
    ensures a <= b ==> width * a <= width * b
  {
  }

  /** A row is counted in a fold exactly when its trade was filled, began within that one of the equal stretches
      of the audited time and ended no later than it. */
  lemma InFoldIff(f: Folds, row: Row, i: nat)
    requires WholeMinutes(f) && f.start <= f.end
    requires Opens(row) ==> row.outcome.value.entryTime % 60 == 0 && row.outcome.value.exitTime % 60 == 0
    ensures InFold(f, row, i) <==>
      && row.outcome.Some? && row.outcome.value.Opened? && row.outcome.value.result.Filled?
      && i < f.count && InStretch(f, row.outcome.value.entryTime, i)
      && (row.outcome.value.exitTime - f.start) * f.count <= (f.end - f.start) * (i + 1)
  {
    if Opens(row) {
      BucketIsExact(f, row.outcome.value.entryTime, 0, i);
      LateIffCrossing(f, row.outcome.value.exitTime, i + 1);
      hide Bucket, InStretch;
    }
  }

  lemma LateIffCrossing(f: Folds, time: int, i: nat)
    requires f.count > 0
    ensures time > f.Edge(i) <==> (time - f.start) * f.count > (f.end - f.start) * i
  {
    var at := time - f.start;
    FloorAtMost((f.end - f.start) * i, f.count, at - 1);
    assert (at - 1) * f.count + f.count == at * f.count;
  }

  /** A fold's sample is the rows counted in it, in their order. */
  lemma {:induction false} SampleWrittenOut(f: Folds, rows: seq<Row>, i: nat) returns (places: seq<nat>)
    requires f.count > 0
    ensures
      var sample := Sample(f, rows, i);
      && |places| == |sample| && (forall a, b | 0 <= a < b < |places| :: places[a] < places[b])
      && (forall a | 0 <= a < |places| :: places[a] < |rows| && sample[a] == rows[places[a]])
      && (forall m: nat :: m in places <==> m < |rows| && InFold(f, rows[m], i))
  {
    hide InFold;
    places := [];
    if rows != [] {
      var n := |rows| - 1;
      places := SampleWrittenOut(f, rows[..n], i);
      if InFold(f, rows[n], i) { places := places + [n]; }
    }
  }

  /** The folds of a group run from the minute of its first observation to a horizon after the minute that follows
      its last one, and all its trades begin and end on whole minutes. */
  lemma AuditWrittenOut(items: seq<Item>, g: Group, s: Setup, count: nat)
    requires LedgerOf(items, g, s).rows != []
    ensures
      var rows := LedgerOf(items, g, s).rows;
      var f := FoldsOf(rows, count, s.minutes);
      && f.count == count
      && f.start % 60 == 0 && f.start <= rows[0].observed < f.start + 60
      && IsNextMinute(rows[|rows| - 1].observed, f.end - 60 * s.minutes)
      && (forall row | row in rows && Opens(row) ::
            row.outcome.value.entryTime % 60 == 0 && row.outcome.value.exitTime % 60 == 0)
  {
    hide *;
    FoldsOfWrittenOut(LedgerOf(items, g, s).rows, count, s.minutes);
    TradesInMinutes(items, g, s);
  }

  lemma FoldsOfWrittenOut(rows: seq<Row>, count: nat, minutes: nat)
    requires rows != []
    ensures
      var f := FoldsOf(rows, count, minutes);
      && f.count == count
      && f.start % 60 == 0 && f.start <= rows[0].observed < f.start + 60
      && IsNextMinute(rows[|rows| - 1].observed, f.end - 60 * minutes)
  {
    NextMinute(rows[|rows| - 1].observed);
  }

  lemma {:induction false} TradesInMinutes(items: seq<Item>, g: Group, s: Setup)
    ensures forall row | row in LedgerOf(items, g, s).rows && Opens(row) ::
              row.outcome.value.entryTime % 60 == 0 && row.outcome.value.exitTime % 60 == 0
  {
    hide Simulation;
    if items != [] {
      var n := |items| - 1;
      TradesInMinutes(items[..n], g, s);
      TradeInMinutes(items[n].watch, items[n].observed, s);
    }
  }

  lemma TradeInMinutes(w: Watch, observed: int, s: Setup)
    ensures
      var o := Simulation(w, observed, s.frame, s.costs, s.minutes);
      o.Opened? ==> o.entryTime % 60 == 0 && o.exitTime % 60 == 0
  {
    var start, first, passed := SimulationWrittenOut(w, observed, s.frame, s.costs, s.minutes);
    hide Simulation, Settles, Passes, Nearby, Planned, Timely;
  }

  // ---------------------------------------------------------------------------------------
  // Statistics
  // ---------------------------------------------------------------------------------------

  function Sum(amounts: seq<real>): real { if amounts == [] then 0.0 else amounts[0] + Sum(amounts[1..]) }

  lemma {:induction false} SumAppend(amounts: seq<real>, amount: real)
    ensures Sum(amounts + [amount]) == Sum(amounts) + amount
  {
    if amounts == [] {
      assert [amount][1..] == [];
    } else {
      SumAppend(amounts[1..], amount);
      assert (amounts + [amount])[1..] == amounts[1..] + [amount];
    }
  }

  /** Cumulative result after some of the trades. */
  function Equity(values: seq<real>, count: nat): real
    requires count <= |values|
  {
    Sum(values[..count])
  }

  lemma EquityStep(values: seq<real>, count: nat)
    requires count < |values|
    ensures Equity(values, count + 1) == Equity(values, count) + values[count]
  {
    assert values[..count + 1] == values[..count] + [values[count]];
    SumAppend(values[..count], values[count]);
  }

  /** The largest fall of the equity between any two moments in order, the start included. */
  ghost predicate LargestFall(values: seq<real>, count: nat, fall: real)
    requires count <= |values|
  {
    && (exists from: nat, to: nat :: from <= to <= count && Equity(values, from) - Equity(values, to) == fall)
    && (forall from: nat, to: nat | from <= to <= count :: Equity(values, from) - Equity(values, to) <= fall)
  }

  datatype Stats = Stats(trades: nat, net: real, gain: real, loss: real, wins: nat, drawdown: real)

  /** What each trade adds to the gains and to the losses. */
  predicate Halves(values: seq<real>, gains: seq<real>, losses: seq<real>) {
    && |gains| == |losses| == |values|
    && forall i | 0 <= i < |values| ::
         if values[i] > 0.0 then (gains[i], losses[i]) == (values[i], 0.0)
         else (gains[i], losses[i]) == (0.0, -values[i])
  }

  function Winners(values: seq<real>, count: nat): set<nat>
    requires count <= |values|
  {
    set i: nat | i < count && values[i] > 0.0
  }

  lemma WinnersStep(values: seq<real>, count: nat)
    requires count < |values|
    ensures |Winners(values, count + 1)| == |Winners(values, count)| + if values[count] > 0.0 then 1 else 0
  {
    assert Winners(values, count + 1) == Winners(values, count) + if values[count] > 0.0 then {count} else {};
  }

  /** Net, gains and losses, wins and the largest fall of the equity, before any rounding. */
  method Summarize(values: seq<real>) returns (stats: Stats)
    ensures stats.trades == |values|
    ensures stats.net == Sum(values) == stats.gain - stats.loss
    ensures forall gains, losses | Halves(values, gains, losses) ::
              stats.gain == Sum(gains) && stats.loss == Sum(losses)
    ensures stats.gain >= 0.0 && (stats.gain == 0.0 <==> forall i | 0 <= i < |values| :: values[i] <= 0.0)
    ensures stats.loss >= 0.0 && (stats.loss == 0.0 <==> forall i | 0 <= i < |values| :: values[i] >= 0.0)
    ensures stats.wins == |Winners(values, |values|)|
    ensures LargestFall(values, |values|, stats.drawdown)
  {
    var gain, loss := GainAndLoss(values);
    var wins := 0;
    for i := 0 to |values|
      invariant wins == |Winners(values, i)|
    {
      WinnersStep(values, i);
      hide Winners;
      wins := if values[i] > 0.0 then wins + 1 else wins;
    }
    var drawdown := MaxDrawdown(values);
    return Stats(|values|, gain - loss, gain, loss, wins, drawdown);
  }

  method GainAndLoss(values: seq<real>) returns (gain: real, loss: real)
    ensures Sum(values) == gain - loss
    ensures forall gains, losses | Halves(values, gains, losses) :: gain == Sum(gains) && loss == Sum(losses)
    ensures gain >= 0.0 && (gain == 0.0 <==> forall i | 0 <= i < |values| :: values[i] <= 0.0)
    ensures loss >= 0.0 && (loss == 0.0 <==> forall i | 0 <= i < |values| :: values[i] >= 0.0)
  {
    gain, loss := 0.0, 0.0;
    ghost var gains: seq<real>, losses: seq<real> := [], [];
    for i := 0 to |values|
      invariant Equity(values, i) == gain - loss && gain == Sum(gains) && loss == Sum(losses)
      invariant Halves(values[..i], gains, losses)
      invariant gain >= 0.0 && (gain == 0.0 <==> forall k | 0 <= k < i :: values[k] <= 0.0)
      invariant loss >= 0.0 && (loss == 0.0 <==> forall k | 0 <= k < i :: values[k] >= 0.0)
    {
      EquityStep(values, i);
      SumAppend(gains, Max(0.0, values[i]));
      SumAppend(losses, -Min(0.0, values[i]));
      hide Equity, Sum;
      gains, losses := gains + [Max(0.0, values[i])], losses + [-Min(0.0, values[i])];
      gain, loss := gain + Max(0.0, values[i]), loss - Min(0.0, values[i]);
    }
    assert values[..|values|] == values;
    forall g, l | Halves(values, g, l) ensures g == gains && l == losses {
    }
  }

  method MaxDrawdown(values: seq<real>) returns (drawdown: real)
    ensures LargestFall(values, |values|, drawdown)
  {
    NothingYet(values);
    hide Equity, LargestFall;
    var equity, peak := 0.0, 0.0;
    drawdown := 0.0;
    ghost var top := 0;
    for i := 0 to |values|
      invariant equity == Equity(values, i)
      invariant 0 <= top <= i && Equity(values, top) == peak
      invariant forall k: nat | k <= i :: Equity(values, k) <= peak
      invariant LargestFall(values, i, drawdown)
    {
      EquityStep(values, i);
      equity := equity + values[i];
      if equity > peak {
        peak, top := equity, i + 1;
      }
      FallsFurther(values, i, drawdown, peak, top);
      drawdown := Max(drawdown, peak - equity);
    }
  }

  lemma NothingYet(values: seq<real>)
    ensures Equity(values, 0) == 0.0 && LargestFall(values, 0, 0.0)
  {
    assert Equity(values, 0) - Equity(values, 0) == 0.0;
  }

  /** One more trade: only a fall from the highest point to the new end can be larger than before. */
  lemma FallsFurther(values: seq<real>, count: nat, fall: real, peak: real, top: nat)
    requires count < |values| && LargestFall(values, count, fall)
    requires top <= count + 1 && Equity(values, top) == peak
    requires forall k: nat | k <= count + 1 :: Equity(values, k) <= peak
    ensures LargestFall(values, count + 1, Max(fall, peak - Equity(values, count + 1)))
  {
    hide Equity;
    var from: nat, to: nat :| from <= to <= count && Equity(values, from) - Equity(values, to) == fall;
    if fall < peak - Equity(values, count + 1) {
      assert Equity(values, top) - Equity(values, count + 1) == peak - Equity(values, count + 1);
    }
  }
}
