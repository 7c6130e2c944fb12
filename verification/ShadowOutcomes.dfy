/** The counterfactual evaluator of rejected entry signals (core/shadow_outcomes.py).
    Times are whole seconds; reals stand for prices. */
module ShadowOutcomes {
  import opened Numbers
  import opened Sorting

  datatype Bar = Bar(time: int, open: real, high: real, low: real, close: real)

  function ByTime(bar: Bar): Rank { (bar.time, 0) }

  datatype Plan = Plan(side: Side, entry: real, stop: real, target: real) {
    function Risk(): real { Abs(entry - stop) }

    /** Stop and target on their own sides of the entry. */
    predicate Valid() {
      if side.Buy? then stop < entry < target else target < entry < stop
    }
  }

  datatype Status = TakeProfit | StopLoss | Ambiguous | TimeoutWin | TimeoutLoss | TimeoutFlat

  datatype Resolution = Resolution(status: Status, at: int, exit: real, outcome: Option<real>, mfe: real, mae: real)

  predicate HitsTarget(p: Plan, b: Bar) { if p.side.Buy? then b.high >= p.target else b.low <= p.target }

  predicate HitsStop(p: Plan, b: Bar) { if p.side.Buy? then b.low <= p.stop else b.high >= p.stop }

  predicate Touches(p: Plan, b: Bar) { HitsTarget(p, b) || HitsStop(p, b) }

  datatype Excursion = Favorable | Adverse

  /** How far a bar went for or against the plan, in units of its risk. */
  function Reach(p: Plan, which: Excursion, b: Bar): real
    requires p.Risk() > 0.0
  {
    (if which.Favorable? == p.side.Buy? then b.high - p.entry else p.entry - b.low) / p.Risk()
  }

  function SignedMove(p: Plan, price: real): real {
    if p.side.Buy? then price - p.entry else p.entry - price
  }

  const MINUTE: int := 60

  function Deadline(created: int, horizon: int): int {
    created + if horizon > MINUTE then horizon else MINUTE
  }

  predicate InWindow(row: Reading<Bar>, from: int, to: int) {
    row.Readable? && from <= row.value.time <= to
  }

  /** The readable bars of a window, in input order. */
  function Usable(rows: seq<Reading<Bar>>, from: int, to: int): (bars: seq<Bar>)
    ensures forall b :: b in bars <==> Readable(b) in rows && InWindow(Readable(b), from, to)
  {
    if rows == [] then []
    else
      var n := |rows| - 1;
      var front := Usable(rows[..n], from, to);
      assert forall r :: r in rows <==> r in rows[..n] || r == rows[n];
      if InWindow(rows[n], from, to) then front + [rows[n].value] else front
  }

  /** The window of a candidate, both ends included. */
  function Candidates(rows: seq<Reading<Bar>>, created: int, horizon: int): seq<Bar> {
    Usable(rows, created, Deadline(created, horizon))
  }

  function Resolve(p: Plan, b: Bar, mfe: real, mae: real): Resolution
    requires p.Risk() > 0.0 && Touches(p, b)
  {
    if HitsTarget(p, b) && HitsStop(p, b) then Resolution(Ambiguous, b.time, b.close, None, mfe, mae)
    else if HitsTarget(p, b) then
      Resolution(TakeProfit, b.time, p.target, Some(Abs(p.target - p.entry) / p.Risk()), mfe, mae)
    else Resolution(StopLoss, b.time, p.stop, Some(-1.0), mfe, mae)
  }

  function Expire(p: Plan, b: Bar, mfe: real, mae: real): Resolution
    requires p.Risk() > 0.0
  {
    var outcome := SignedMove(p, b.close) / p.Risk();
    var status := if outcome > 0.02 then TimeoutWin else if outcome < -0.02 then TimeoutLoss else TimeoutFlat;
    Resolution(status, b.time, b.close, Some(outcome), mfe, mae)
  }

  /** Walks bars in order with the excursions so far; `last` is the bar before, if any. */
  function Walk(p: Plan, bars: seq<Bar>, last: Option<Bar>, mfe: real, mae: real, expired: bool): Option<Resolution>
    requires p.Risk() > 0.0
    decreases |bars|
  {
    if bars == [] then
      if last.None? || !expired then None else Some(Expire(p, last.value, mfe, mae))
    else
      var b := bars[0];
      var mfe', mae' := Max(mfe, Reach(p, Favorable, b)), Max(mae, Reach(p, Adverse, b));
      if Touches(p, b) then Some(Resolve(p, b, mfe', mae'))
      else Walk(p, bars[1..], Some(b), mfe', mae', expired)
  }

  function Evaluation(p: Plan, rows: seq<Reading<Bar>>, created: int, horizon: int, now: int): Option<Resolution> {
    if p.Risk() <= 0.0 then None
    else
      Walk(p, SortBy(Candidates(rows, created, horizon), ByTime), None, 0.0, 0.0, now >= Deadline(created, horizon))
  }

  method CollectUsable(rows: seq<Reading<Bar>>, from: int, to: int) returns (bars: seq<Bar>)
    ensures bars == Usable(rows, from, to)
  {
    bars := [];
    for i := 0 to |rows|
      invariant bars == Usable(rows[..i], from, to)
    {
      assert rows[..i + 1][..i] == rows[..i];
      if InWindow(rows[i], from, to) {
        bars := bars + [rows[i].value];
      }
    }
    assert rows[..|rows|] == rows;
  }

  /** The bar loop, from given excursions. */
  method WalkBars(p: Plan, bars: seq<Bar>, favorable: real, adverse: real, expired: bool)
    returns (resolution: Option<Resolution>)
    requires p.Risk() > 0.0
    ensures resolution == Walk(p, bars, None, favorable, adverse, expired)
  {
    var mfe, mae := favorable, adverse;
    for i := 0 to |bars|
      invariant Walk(p, bars, None, favorable, adverse, expired)
             == Walk(p, bars[i..], if i == 0 then None else Some(bars[i - 1]), mfe, mae, expired)
    {
      var b := bars[i];
      mfe, mae := Max(mfe, Reach(p, Favorable, b)), Max(mae, Reach(p, Adverse, b));
      if HitsTarget(p, b) && HitsStop(p, b) {
        return Some(Resolution(Ambiguous, b.time, b.close, None, mfe, mae));
      }
      if HitsTarget(p, b) {
        return Some(Resolution(TakeProfit, b.time, p.target, Some(Abs(p.target - p.entry) / p.Risk()), mfe, mae));
      }
      if HitsStop(p, b) {
        return Some(Resolution(StopLoss, b.time, p.stop, Some(-1.0), mfe, mae));
      }
    }
    if !expired || bars == [] {
      return None;
    }
    return Some(Expire(p, bars[|bars| - 1], mfe, mae));
  }

  method EvaluateShadowCandidate(p: Plan, rows: seq<Reading<Bar>>, created: int, horizon: int, now: int)
    returns (resolution: Option<Resolution>)
    ensures resolution == Evaluation(p, rows, created, horizon, now)
  {
    if p.Risk() <= 0.0 {
      return None;
    }
    var usable := CollectUsable(rows, created, Deadline(created, horizon));
    usable := SortBy(usable, ByTime);
    resolution := WalkBars(p, usable, 0.0, 0.0, now >= Deadline(created, horizon));
  }

  // ---------------------------------------------------------------------------------------
  // Holding on after an exit
  // ---------------------------------------------------------------------------------------

  datatype Ending = TargetAfterExit | InitialStopAfterExit | AmbiguousAfterExit | AtHorizon

  function EndingOf(status: Status): Ending {
    match status
    case TakeProfit => TargetAfterExit
    case StopLoss => InitialStopAfterExit
    case Ambiguous => AmbiguousAfterExit
    case _ => AtHorizon
  }

  /** What would have happened after an actual exit, had the position been held: the resolution, the
      difference it would have made, and the excursions on both sides of the entry. */
  datatype Hindsight = Hindsight(
    ending: Ending, at: int, exit: real, outcome: Option<real>, delta: Option<real>, best: real, worst: real)

  /** Only bars that begin after the exit count, and the excursions start at the exit itself. */
  function Counterfactual(
    p: Plan, actualExit: real, realized: real, rows: seq<Reading<Bar>>, exited: int, horizon: int, now: int)
    : Option<Hindsight>
  {
    if p.Risk() <= 0.0 then None
    else
      var start := SignedMove(p, actualExit) / p.Risk();
      var bars := SortBy(Usable(rows, exited + 1, Deadline(exited, horizon)), ByTime);
      var walk := Walk(p, bars, None, start, -start, now >= Deadline(exited, horizon));
      if walk.None? then None
      else
        var r := walk.value;
        var delta := if r.outcome.Some? then Some(r.outcome.value - realized) else None;
        Some(Hindsight(EndingOf(r.status), r.at, r.exit, r.outcome, delta, r.mfe, -r.mae))
  }

  method EvaluateExitCounterfactual(
    p: Plan, actualExit: real, realized: real, rows: seq<Reading<Bar>>, exited: int, horizon: int, now: int)
    returns (hindsight: Option<Hindsight>)
    ensures hindsight == Counterfactual(p, actualExit, realized, rows, exited, horizon, now)
  {
    if p.Risk() <= 0.0 {
      return None;
    }
    var usable := CollectUsable(rows, exited + 1, Deadline(exited, horizon));
    usable := SortBy(usable, ByTime);
    var start := SignedMove(p, actualExit) / p.Risk();
    var walk := WalkBars(p, usable, start, -start, now >= Deadline(exited, horizon));
    if walk.None? {
      return None;
    }
    var r := walk.value;
    var delta := if r.outcome.Some? then Some(r.outcome.value - realized) else None;
    return Some(Hindsight(EndingOf(r.status), r.at, r.exit, r.outcome, delta, r.mfe, -r.mae));
  }

  // ---------------------------------------------------------------------------------------
  // First touch
  // ---------------------------------------------------------------------------------------

  ghost predicate DistinctTimes(bars: seq<Bar>) {
    forall a, b | a in bars && b in bars && a.time == b.time :: a == b
  }

  /** The earliest bar that touches a level. */
  ghost predicate FirstTouch(p: Plan, bars: seq<Bar>, b: Bar) {
    b in bars && Touches(p, b) && forall c | c in bars && Touches(p, c) :: b.time <= c.time
  }

  /** The latest bar of a window that nothing touched. */
  ghost predicate LastUntouched(p: Plan, bars: seq<Bar>, b: Bar) {
    b in bars && forall c | c in bars :: !Touches(p, c) && c.time <= b.time
  }

  /** `x` is the furthest excursion of the bars up to a time, and not below zero. */
  ghost predicate IsFurthest(x: real, p: Plan, which: Excursion, bars: seq<Bar>, until: int)
    requires p.Risk() > 0.0
  {
    && x >= 0.0
    && (forall c | c in bars && c.time <= until :: Reach(p, which, c) <= x)
    && (x == 0.0 || exists c :: c in bars && c.time <= until && Reach(p, which, c) == x)
  }

  lemma FurthestUnique(x: real, y: real, p: Plan, which: Excursion, a: seq<Bar>, b: seq<Bar>, until: int)
    requires p.Risk() > 0.0 && IsFurthest(x, p, which, a, until) && IsFurthest(y, p, which, b, until)
    requires forall c: Bar | c.time <= until :: c in a <==> c in b
    ensures x == y
  {
    hide Reach;
  }

  function Furthest(p: Plan, which: Excursion, bars: seq<Bar>): real
    requires p.Risk() > 0.0
  {
    if bars == [] then 0.0
    else
      var n := |bars| - 1;
      Max(Furthest(p, which, bars[..n]), Reach(p, which, bars[n]))
  }

  lemma FurthestMeaning(p: Plan, which: Excursion, bars: seq<Bar>, k: nat)
    requires p.Risk() > 0.0 && Sorted(bars, ByTime) && k < |bars| && DistinctTimes(bars)
    ensures IsFurthest(Furthest(p, which, bars[..k + 1]), p, which, bars, bars[k].time)
  {
    hide Reach;
    FurthestBounds(p, which, bars[..k + 1]);
    forall c | c in bars && c.time <= bars[k].time ensures c in bars[..k + 1] {
      var j :| 0 <= j < |bars| && bars[j] == c;
      if j > k { assert AtMost(ByTime(bars[k]), ByTime(bars[j])) && bars[k] in bars; }
    }
    forall c | c in bars[..k + 1] ensures c.time <= bars[k].time {
      var j :| 0 <= j < k + 1 && bars[j] == c;
      if j < k { assert AtMost(ByTime(bars[j]), ByTime(bars[k])); }
    }
  }

  lemma {:induction false} FurthestBounds(p: Plan, which: Excursion, bars: seq<Bar>)
    requires p.Risk() > 0.0
    ensures var x := Furthest(p, which, bars);
            && x >= 0.0 && (forall c | c in bars :: Reach(p, which, c) <= x)
            && (x == 0.0 || exists c :: c in bars && Reach(p, which, c) == x)
  {
    hide Reach;
    if bars != [] {
      var n := |bars| - 1;
      FurthestBounds(p, which, bars[..n]);
      assert bars == bars[..n] + [bars[n]];
    }
  }

  /** The walk stops at the first bar that touches, or runs to the end. */
  lemma {:induction false} WalkStops(p: Plan, bars: seq<Bar>, i: nat, k: nat, expired: bool)
    requires p.Risk() > 0.0 && i <= k <= |bars|
    requires forall j | i <= j < k :: !Touches(p, bars[j])
    requires k < |bars| ==> Touches(p, bars[k])
    ensures
      var walk := Walk(
        p, bars[i..], if i == 0 then None else Some(bars[i - 1]),
        Furthest(p, Favorable, bars[..i]), Furthest(p, Adverse, bars[..i]), expired);
      var end := if k < |bars| then k + 1 else k;
      var mfe, mae := Furthest(p, Favorable, bars[..end]), Furthest(p, Adverse, bars[..end]);
      walk == if k < |bars| then Some(Resolve(p, bars[k], mfe, mae))
              else if k == 0 || !expired then None
              else Some(Expire(p, bars[k - 1], mfe, mae))
    decreases k - i
  {
    hide Reach, Resolve, Expire;
    if i < |bars| {
      assert bars[..i + 1][..i] == bars[..i];
      assert bars[i..][1..] == bars[i + 1..];
      if i < k { WalkStops(p, bars, i + 1, k, expired); }
    }
  }

  /** The walk over a window in order of time stops at its earliest touch. */
  lemma FirstTouchInList(p: Plan, bars: seq<Bar>, b: Bar, expired: bool)
    requires p.Risk() > 0.0 && DistinctTimes(bars) && FirstTouch(p, bars, b)
    ensures
      var walk := Walk(p, SortBy(bars, ByTime), None, 0.0, 0.0, expired);
      && walk.Some? && walk.value == Resolve(p, b, walk.value.mfe, walk.value.mae)
      && IsFurthest(walk.value.mfe, p, Favorable, bars, b.time)
      && IsFurthest(walk.value.mae, p, Adverse, bars, b.time)
  {
    hide Reach, Touches, Walk, Sorted, DistinctTimes, IsFurthest, SortBy;
    var sorted := SortBy(bars, ByTime);
    SortBySorts(bars, ByTime);
    SameDistinct(bars, sorted);
    var k := FirstIndex(sorted, b);
    BeforeFirstTouch(p, bars, sorted, b, k);
    WalkFromStart(p, sorted, k, expired);
    FurthestSorted(p, Favorable, bars, sorted, k);
    FurthestSorted(p, Adverse, bars, sorted, k);
  }

  /** The answer is decided by the earliest bar of the window that touches a level, whatever the order in
      which the bars were supplied, with the excursions of exactly the bars up to it. */
  lemma FirstTouchDecides(p: Plan, rows: seq<Reading<Bar>>, created: int, horizon: int, now: int, b: Bar)
    requires p.Risk() > 0.0
    requires DistinctTimes(Candidates(rows, created, horizon)) && FirstTouch(p, Candidates(rows, created, horizon), b)
    ensures
      var bars := Candidates(rows, created, horizon);
      var r := Evaluation(p, rows, created, horizon, now);
      && r.Some? && r.value == Resolve(p, b, r.value.mfe, r.value.mae)
      && IsFurthest(r.value.mfe, p, Favorable, bars, b.time)
      && IsFurthest(r.value.mae, p, Adverse, bars, b.time)
  {
    FirstTouchInList(p, Candidates(rows, created, horizon), b, now >= Deadline(created, horizon));
  }

  lemma BeforeFirstTouch(p: Plan, bars: seq<Bar>, sorted: seq<Bar>, b: Bar, k: nat)
    requires FirstTouch(p, bars, b) && Sorted(sorted, ByTime) && SameMembers(sorted, bars) && DistinctTimes(sorted)
    requires k < |sorted| && sorted[k] == b && b !in sorted[..k]
    ensures forall j | 0 <= j < k :: !Touches(p, sorted[j])
  {
    hide Touches;
    forall j | 0 <= j < k ensures !Touches(p, sorted[j]) {
      assert AtMost(ByTime(sorted[j]), ByTime(sorted[k]));
      assert sorted[j] in bars && sorted[j] in sorted[..k];
    }
  }

  lemma WalkFromStart(p: Plan, bars: seq<Bar>, k: nat, expired: bool)
    requires p.Risk() > 0.0 && k <= |bars|
    requires forall j | 0 <= j < k :: !Touches(p, bars[j])
    requires k < |bars| ==> Touches(p, bars[k])
    ensures
      var end := if k < |bars| then k + 1 else k;
      var mfe, mae := Furthest(p, Favorable, bars[..end]), Furthest(p, Adverse, bars[..end]);
      Walk(p, bars, None, 0.0, 0.0, expired)
        == if k < |bars| then Some(Resolve(p, bars[k], mfe, mae))
           else if k == 0 || !expired then None
           else Some(Expire(p, bars[k - 1], mfe, mae))
  {
    hide Reach, Resolve, Expire, Walk, Touches;
    WalkStops(p, bars, 0, k, expired);
    assert bars[0..] == bars;
  }

  lemma SameDistinct(bars: seq<Bar>, sorted: seq<Bar>)
    requires DistinctTimes(bars) && SameMembers(sorted, bars)
    ensures DistinctTimes(sorted)
  {
  }

  lemma FurthestSorted(p: Plan, which: Excursion, bars: seq<Bar>, sorted: seq<Bar>, k: nat)
    requires p.Risk() > 0.0 && Sorted(sorted, ByTime) && k < |sorted|
    requires SameMembers(sorted, bars) && DistinctTimes(sorted)
    ensures IsFurthest(Furthest(p, which, sorted[..k + 1]), p, which, bars, sorted[k].time)
  {
    hide Reach, Furthest, Sorted, DistinctTimes;
    FurthestMeaning(p, which, sorted, k);
  }

  /** The first place of a bar in a list. */
  lemma FirstIndex(bars: seq<Bar>, b: Bar) returns (k: nat)
    requires b in bars
    ensures k < |bars| && bars[k] == b && b !in bars[..k]
  {
    k := 0;
    while bars[k] != b
      invariant k < |bars| && b !in bars[..k] && b in bars[k..]
      decreases |bars| - k
    {
      k := k + 1;
    }
  }

  /** When nothing in the window touches a level, the latest bar decides, once the deadline has passed. */
  lemma LatestBarDecides(p: Plan, rows: seq<Reading<Bar>>, created: int, horizon: int, now: int, b: Bar)
    requires p.Risk() > 0.0
    requires DistinctTimes(Candidates(rows, created, horizon))
    requires LastUntouched(p, Candidates(rows, created, horizon), b)
    ensures
      var bars := Candidates(rows, created, horizon);
      var r := Evaluation(p, rows, created, horizon, now);
      if now < Deadline(created, horizon) then r.None?
      else
        && r.Some? && r.value == Expire(p, b, r.value.mfe, r.value.mae)
        && IsFurthest(r.value.mfe, p, Favorable, bars, b.time)
        && IsFurthest(r.value.mae, p, Adverse, bars, b.time)
  {
    hide Reach, Touches, Candidates, Walk, IsFurthest, SortBy;
    var bars := Candidates(rows, created, horizon);
    var sorted := SortBy(bars, ByTime);
    SortBySorts(bars, ByTime);
    SameDistinct(bars, sorted);
    var k := FirstIndex(sorted, b);
    var n := |sorted| - 1;
    assert sorted[n] in bars;
    if k < n { assert AtMost(ByTime(sorted[k]), ByTime(sorted[n])); }
    assert sorted[n] == b;
    hide Sorted, DistinctTimes;
    assert forall j | 0 <= j < |sorted| :: sorted[j] in bars;
    WalkFromStart(p, sorted, |sorted|, now >= Deadline(created, horizon));
    assert sorted[..n + 1] == sorted;
    FurthestSorted(p, Favorable, bars, sorted, n);
    FurthestSorted(p, Adverse, bars, sorted, n);
  }

  /** Every window is empty, or has an earliest touch, or has a latest bar and no touch. */
  lemma {:induction false} WindowCases(p: Plan, bars: seq<Bar>)
    ensures bars == [] || (exists b :: FirstTouch(p, bars, b)) || (exists b :: LastUntouched(p, bars, b))
  {
    if bars != [] {
      hide Touches;
      var n := |bars| - 1;
      var last := bars[n];
      WindowCases(p, bars[..n]);
      assert bars == bars[..n] + [last];
      if n == 0 {
        assert if Touches(p, last) then FirstTouch(p, bars, last) else LastUntouched(p, bars, last);
      } else if b :| FirstTouch(p, bars[..n], b) {
        var first := if Touches(p, last) && last.time < b.time then last else b;
        assert FirstTouch(p, bars, first);
      } else {
        var b :| LastUntouched(p, bars[..n], b);
        assert if Touches(p, last) then FirstTouch(p, bars, last)
               else LastUntouched(p, bars, if last.time > b.time then last else b);
      }
    }
  }

  /** The evaluation depends only on which bars lie in the window, not on their order or repetition. */
  lemma OrderIsIrrelevant(
    p: Plan, rows: seq<Reading<Bar>>, others: seq<Reading<Bar>>, created: int, horizon: int, now: int)
    requires p.Risk() > 0.0
    requires DistinctTimes(Candidates(rows, created, horizon))
    requires SameMembers(Candidates(rows, created, horizon), Candidates(others, created, horizon))
    ensures Evaluation(p, rows, created, horizon, now) == Evaluation(p, others, created, horizon, now)
  {
    hide Evaluation, Candidates, IsFurthest;
    var a, b := Candidates(rows, created, horizon), Candidates(others, created, horizon);
    var x, y := Evaluation(p, rows, created, horizon, now), Evaluation(p, others, created, horizon, now);
    WindowCases(p, a);
    if a == [] {
      NoMembers(b);
      EmptyWindow(p, rows, created, horizon, now);
      EmptyWindow(p, others, created, horizon, now);
    } else if bar :| FirstTouch(p, a, bar) {
      FirstTouchDecides(p, rows, created, horizon, now, bar);
      FirstTouchDecides(p, others, created, horizon, now, bar);
      SameExcursions(p, a, b, bar.time, x, y);
    } else {
      var bar :| LastUntouched(p, a, bar);
      LatestBarDecides(p, rows, created, horizon, now, bar);
      LatestBarDecides(p, others, created, horizon, now, bar);
      if now >= Deadline(created, horizon) {
        SameExcursions(p, a, b, bar.time, x, y);
      }
    }
  }

  lemma NoMembers(bars: seq<Bar>)
    ensures bars == [] || exists b :: b in bars
  {
    if |bars| > 0 { assert bars[0] in bars; }
  }

  lemma SameExcursions(p: Plan, a: seq<Bar>, b: seq<Bar>, until: int, x: Option<Resolution>, y: Option<Resolution>)
    requires p.Risk() > 0.0 && x.Some? && y.Some?
    requires forall c: Bar | c.time <= until :: c in a <==> c in b
    requires IsFurthest(x.value.mfe, p, Favorable, a, until) && IsFurthest(x.value.mae, p, Adverse, a, until)
    requires IsFurthest(y.value.mfe, p, Favorable, b, until) && IsFurthest(y.value.mae, p, Adverse, b, until)
    ensures x.value.mfe == y.value.mfe && x.value.mae == y.value.mae
  {
    FurthestUnique(x.value.mfe, y.value.mfe, p, Favorable, a, b, until);
    FurthestUnique(x.value.mae, y.value.mae, p, Adverse, a, b, until);
  }

  lemma EmptyWindow(p: Plan, rows: seq<Reading<Bar>>, created: int, horizon: int, now: int)
    requires p.Risk() > 0.0 && Candidates(rows, created, horizon) == []
    ensures Evaluation(p, rows, created, horizon, now).None?
  {
  }

  /** Once a bar has resolved the candidate, bars from later on change nothing. */
  lemma LaterBarsAreIrrelevant(
    p: Plan, rows: seq<Reading<Bar>>, more: seq<Reading<Bar>>, created: int, horizon: int, now: int, later: int, b: Bar)
    requires p.Risk() > 0.0
    requires DistinctTimes(Candidates(more, created, horizon)) && FirstTouch(p, Candidates(rows, created, horizon), b)
    requires forall r | r in rows :: r in more
    requires forall r | r in more && r !in rows && r.Readable? :: r.value.time > b.time
    ensures Evaluation(p, more, created, horizon, now) == Evaluation(p, rows, created, horizon, later)
  {
    hide Evaluation, IsFurthest, Touches;
    var before, after := Candidates(rows, created, horizon), Candidates(more, created, horizon);
    FirstTouchDecides(p, rows, created, horizon, later, b);
    FirstTouchDecides(p, more, created, horizon, now, b);
    SameExcursions(
      p, after, before, b.time,
      Evaluation(p, more, created, horizon, now), Evaluation(p, rows, created, horizon, later));
  }

  /** What each status says about the excursions and the outcome, for a plan with stop and target on their
      own sides and bars whose close lies within their range. */
  lemma StatusMeaning(p: Plan, rows: seq<Reading<Bar>>, created: int, horizon: int, now: int)
    requires p.Valid() && p.Risk() > 0.0 && DistinctTimes(Candidates(rows, created, horizon))
    requires forall b | b in Candidates(rows, created, horizon) :: b.low <= b.close <= b.high
    requires Evaluation(p, rows, created, horizon, now).Some?
    ensures
      var r := Evaluation(p, rows, created, horizon, now).value;
      var reward := Abs(p.target - p.entry) / p.Risk();
      match r.status
      case TakeProfit => r.exit == p.target && r.outcome == Some(reward) && r.mae < 1.0 && r.mfe >= reward
      case StopLoss => r.exit == p.stop && r.outcome == Some(-1.0) && r.mae >= 1.0 && r.mfe < reward
      case Ambiguous => r.outcome.None? && r.mae >= 1.0 && r.mfe >= reward
      case _ =>
        && r.outcome.Some? && -1.0 < r.outcome.value < reward && r.mae < 1.0 && r.mfe < reward
        && (r.status.TimeoutWin? <==> r.outcome.value > 0.02)
        && (r.status.TimeoutLoss? <==> r.outcome.value < -0.02)
  {
    hide Evaluation, Candidates, IsFurthest, Reach;
    var bars := Candidates(rows, created, horizon);
    var r := Evaluation(p, rows, created, horizon, now).value;
    WindowCases(p, bars);
    if b :| FirstTouch(p, bars, b) {
      FirstTouchDecides(p, rows, created, horizon, now, b);
      assert forall c | c in bars && c.time <= b.time && c != b :: !Touches(p, c);
      ExcursionLimits(p, bars, b.time, b, r.mfe, r.mae);
    } else if bars == [] {
      EmptyWindow(p, rows, created, horizon, now);
    } else {
      var b :| LastUntouched(p, bars, b);
      LatestBarDecides(p, rows, created, horizon, now, b);
      ExcursionLimits(p, bars, b.time, b, r.mfe, r.mae);
      CloseLimits(p, b);
      assert !Touches(p, b);
    }
  }

  /** What one bar's range says about the levels. */
  lemma ReachLimits(p: Plan, b: Bar)
    requires p.Valid() && p.Risk() > 0.0
    ensures HitsStop(p, b) <==> Reach(p, Adverse, b) >= 1.0
    ensures HitsTarget(p, b) <==> Reach(p, Favorable, b) >= Abs(p.target - p.entry) / p.Risk()
    ensures Abs(p.target - p.entry) / p.Risk() > 0.0
  {
    var risk, reward := p.Risk(), Abs(p.target - p.entry);
    var adverse := if p.side.Buy? then p.entry - b.low else b.high - p.entry;
    var favorable := if p.side.Buy? then b.high - p.entry else p.entry - b.low;
    assert HitsStop(p, b) <==> adverse >= risk;
    assert HitsTarget(p, b) <==> favorable >= reward;
    assert Reach(p, Adverse, b) == adverse / risk && Reach(p, Favorable, b) == favorable / risk;
    hide HitsStop, HitsTarget, Reach;
    QuotientOrder(adverse, risk, risk);
    QuotientOrder(favorable, reward, risk);
    QuotientOrder(0.0, reward, risk);
  }

  lemma QuotientOrder(a: real, b: real, c: real)
    requires c > 0.0
    ensures a >= b <==> a / c >= b / c
    ensures c / c == 1.0
    ensures 0.0 / c == 0.0
  {
    assert a == a / c * c && b == b / c * c;
  }

  lemma ExcursionLimits(p: Plan, bars: seq<Bar>, until: int, b: Bar, mfe: real, mae: real)
    requires p.Valid() && p.Risk() > 0.0 && b in bars && b.time <= until
    requires forall c | c in bars && c.time <= until && c != b :: !Touches(p, c)
    requires IsFurthest(mfe, p, Favorable, bars, until) && IsFurthest(mae, p, Adverse, bars, until)
    ensures HitsStop(p, b) <==> mae >= 1.0
    ensures HitsTarget(p, b) <==> mfe >= Abs(p.target - p.entry) / p.Risk()
  {
    forall c: Bar
      ensures HitsStop(p, c) <==> Reach(p, Adverse, c) >= 1.0
      ensures HitsTarget(p, c) <==> Reach(p, Favorable, c) >= Abs(p.target - p.entry) / p.Risk()
    {
      ReachLimits(p, c);
    }
    ReachLimits(p, b);
    hide Reach;
  }

  lemma CloseLimits(p: Plan, b: Bar)
    requires p.Valid() && p.Risk() > 0.0 && b.low <= b.close <= b.high && !HitsStop(p, b) && !HitsTarget(p, b)
    ensures -1.0 < SignedMove(p, b.close) / p.Risk() < Abs(p.target - p.entry) / p.Risk()
  {
    var move := SignedMove(p, b.close);
    QuotientOrder(-p.Risk(), move, p.Risk());
    QuotientOrder(move, Abs(p.target - p.entry), p.Risk());
    assert -p.Risk() / p.Risk() == -1.0;
  }

  // ---------------------------------------------------------------------------------------
  // The counterfactual agrees with the evaluation
  // ---------------------------------------------------------------------------------------

  /** Starting excursions change nothing but the excursions. */
  lemma {:induction false} WalkIgnoresExcursions(
    p: Plan, bars: seq<Bar>, last: Option<Bar>, f: real, a: real, f': real, a': real, expired: bool)
    requires p.Risk() > 0.0
    ensures
      var x, y := Walk(p, bars, last, f, a, expired), Walk(p, bars, last, f', a', expired);
      && (x.None? <==> y.None?)
      && (x.Some? ==> y.value == x.value.(mfe := y.value.mfe, mae := y.value.mae))
    decreases |bars|
  {
    hide Reach;
    if bars != [] {
      var b := bars[0];
      WalkIgnoresExcursions(
        p, bars[1..], Some(b), Max(f, Reach(p, Favorable, b)), Max(a, Reach(p, Adverse, b)),
        Max(f', Reach(p, Favorable, b)), Max(a', Reach(p, Adverse, b)), expired);
    }
  }

  /** Had the position been held, it would have ended as the candidate's own evaluation says, whenever the
      candidate's first touch comes after the actual exit and within that exit's horizon, which may outlast the
      candidate's window. */
  lemma HoldingEndsAsEvaluated(
    p: Plan, actualExit: real, realized: real, rows: seq<Reading<Bar>>, created: int, horizon: int, now: int,
    exited: int, after: int, b: Bar)
    requires p.Risk() > 0.0
    requires DistinctTimes(Candidates(rows, created, horizon)) && FirstTouch(p, Candidates(rows, created, horizon), b)
    requires created <= exited < b.time <= Deadline(exited, after)
    requires DistinctTimes(Usable(rows, exited + 1, Deadline(exited, after)))
    ensures
      var e := Evaluation(p, rows, created, horizon, now);
      var h := Counterfactual(p, actualExit, realized, rows, exited, after, now);
      && e.Some? && h.Some?
      && h.value.ending == EndingOf(e.value.status) && h.value.at == e.value.at && h.value.exit == e.value.exit
      && h.value.outcome == e.value.outcome
      && (h.value.outcome.Some? ==> h.value.delta == Some(h.value.outcome.value - realized))
  {
    StillFirstTouch(p, rows, created, horizon, exited, after, b);
    hide Candidates, FirstTouch, DistinctTimes, Usable, Touches, Resolve;
    EvaluationResolves(p, rows, created, horizon, now, b);
    HindsightResolves(p, actualExit, realized, rows, exited, after, now, b);
    hide Evaluation, Counterfactual;
    SameResolution(p, b);
  }

  /** What a resolution says apart from its excursions. */
  predicate ResolvesAt(r: Resolution, p: Plan, b: Bar) {
    p.Risk() > 0.0 && Touches(p, b) && r == Resolve(p, b, r.mfe, r.mae)
  }

  lemma SameResolution(p: Plan, b: Bar)
    ensures forall x, y: Resolution | ResolvesAt(x, p, b) && ResolvesAt(y, p, b) ::
              x.status == y.status && x.at == y.at && x.exit == y.exit && x.outcome == y.outcome
  {
    hide Touches;
  }

  lemma EvaluationResolves(p: Plan, rows: seq<Reading<Bar>>, created: int, horizon: int, now: int, b: Bar)
    requires p.Risk() > 0.0
    requires DistinctTimes(Candidates(rows, created, horizon)) && FirstTouch(p, Candidates(rows, created, horizon), b)
    ensures var e := Evaluation(p, rows, created, horizon, now); e.Some? && ResolvesAt(e.value, p, b)
  {
    hide Candidates, DistinctTimes, IsFurthest, Evaluation, Touches, Resolve;
    FirstTouchDecides(p, rows, created, horizon, now, b);
  }

  lemma HindsightResolves(
    p: Plan, actualExit: real, realized: real, rows: seq<Reading<Bar>>, exited: int, after: int, now: int, b: Bar)
    requires p.Risk() > 0.0
    requires DistinctTimes(Usable(rows, exited + 1, Deadline(exited, after)))
    requires FirstTouch(p, Usable(rows, exited + 1, Deadline(exited, after)), b)
    ensures
      var h := Counterfactual(p, actualExit, realized, rows, exited, after, now);
      && h.Some?
      && (exists r: Resolution :: ResolvesAt(r, p, b) && Retells(h.value, r, realized))
  {
    hide DistinctTimes, Usable, Walk, FirstTouch, SignedMove, Resolve, ResolvesAt, SortBy, Deadline;
    var bars := Usable(rows, exited + 1, Deadline(exited, after));
    var start := SignedMove(p, actualExit) / p.Risk();
    WalkResolves(p, bars, start, -start, now >= Deadline(exited, after), b);
    var r := Walk(p, SortBy(bars, ByTime), None, start, -start, now >= Deadline(exited, after)).value;
    assert Retells(Counterfactual(p, actualExit, realized, rows, exited, after, now).value, r, realized);
  }

  /** A hindsight that tells a resolution, with the difference to what was realized. */
  predicate Retells(h: Hindsight, r: Resolution, realized: real) {
    && h.ending == EndingOf(r.status) && h.at == r.at && h.exit == r.exit && h.outcome == r.outcome
    && h.delta == (if r.outcome.Some? then Some(r.outcome.value - realized) else None)
  }

  lemma WalkResolves(p: Plan, bars: seq<Bar>, favorable: real, adverse: real, expired: bool, b: Bar)
    requires p.Risk() > 0.0 && DistinctTimes(bars) && FirstTouch(p, bars, b)
    ensures var walk := Walk(p, SortBy(bars, ByTime), None, favorable, adverse, expired);
            walk.Some? && ResolvesAt(walk.value, p, b)
  {
    assert Touches(p, b);
    hide DistinctTimes, IsFurthest, Touches, Walk, FirstTouch;
    FirstTouchInList(p, bars, b, expired);
    WalkIgnoresExcursions(p, SortBy(bars, ByTime), None, 0.0, 0.0, favorable, adverse, expired);
  }

  /** The bars of the exit's window are the candidate's later ones and bars beyond the candidate's deadline. */
  lemma StillFirstTouch(
    p: Plan, rows: seq<Reading<Bar>>, created: int, horizon: int, exited: int, after: int, b: Bar)
    requires FirstTouch(p, Candidates(rows, created, horizon), b)
    requires created <= exited < b.time <= Deadline(exited, after)
    ensures FirstTouch(p, Usable(rows, exited + 1, Deadline(exited, after)), b)
  {
    hide Touches;
    var bars := Candidates(rows, created, horizon);
    forall c | c in Usable(rows, exited + 1, Deadline(exited, after)) && Touches(p, c) ensures b.time <= c.time {
      if c.time <= Deadline(created, horizon) { assert c in bars; }
    }
  }

  // ---------------------------------------------------------------------------------------
  // Both evaluators written out
  // ---------------------------------------------------------------------------------------

  predicate MeetsTarget(p: Plan, b: Bar) { match p.side case Buy => p.target <= b.high case Sell => b.low <= p.target }

  predicate MeetsStop(p: Plan, b: Bar) { match p.side case Buy => b.low <= p.stop case Sell => p.stop <= b.high }

  lemma MeetsIff(p: Plan, b: Bar)
    ensures (HitsTarget(p, b) <==> MeetsTarget(p, b)) && (HitsStop(p, b) <==> MeetsStop(p, b))
  {
  }

  /** An amount of price counted in units of the plan's risk. */
  predicate InRisks(x: real, amount: real, p: Plan) {
    x * (if p.entry >= p.stop then p.entry - p.stop else p.stop - p.entry) == amount
  }

  /** Price gained by a move to this price. */
  function GainTo(p: Plan, price: real): real { match p.side case Buy => price - p.entry case Sell => p.entry - price }

  function Distance(a: real, b: real): real { if a < b then b - a else a - b }

  /** A bar that meets a level ends the plan: at its close and without an outcome if it meets both, since their
      order is not known, and otherwise at the level itself, for the reward or for one risk. */
  predicate EndsOn(status: Status, at: int, exit: real, outcome: Option<real>, p: Plan, b: Bar) {
    && at == b.time
    && if MeetsTarget(p, b) && MeetsStop(p, b) then status == Ambiguous && exit == b.close && outcome == None
       else if MeetsTarget(p, b) then
         status == TakeProfit && exit == p.target
         && outcome.Some? && InRisks(outcome.value, Distance(p.target, p.entry), p)
       else MeetsStop(p, b) && status == StopLoss && exit == p.stop && outcome == Some(-1.0)
  }

  /** A plan that ran out of time ends at the close of its last bar, for the move in its direction; it counts as
      won or lost beyond a fiftieth of the risk. */
  predicate RunsOut(status: Status, at: int, exit: real, outcome: Option<real>, p: Plan, b: Bar) {
    && at == b.time && exit == b.close && outcome.Some? && InRisks(outcome.value, GainTo(p, b.close), p)
    && status == (if outcome.value > 0.02 then TimeoutWin else if outcome.value < -0.02 then TimeoutLoss
                  else TimeoutFlat)
  }

  /** Price that a bar went in favor of the plan, or against it. */
  function Went(p: Plan, which: Excursion, b: Bar): real {
    match (p.side, which)
    case (Buy, Favorable) => b.high - p.entry
    case (Buy, Adverse) => p.entry - b.low
    case (Sell, Favorable) => p.entry - b.low
    case (Sell, Adverse) => b.high - p.entry
  }

  /** `x` is the furthest that the bars up to a time went, from a starting excursion on. */
  ghost predicate FurthestFrom(x: real, start: real, p: Plan, which: Excursion, bars: seq<Bar>, until: int) {
    && x >= start
    && (forall b, went | b in bars && b.time <= until && InRisks(went, Went(p, which, b), p) :: went <= x)
    && (x == start || exists b :: b in bars && b.time <= until && InRisks(x, Went(p, which, b), p))
  }

  lemma InRisksIff(x: real, amount: real, p: Plan)
    requires p.Risk() > 0.0
    ensures InRisks(x, amount, p) <==> x == amount / p.Risk()
  {
    assert amount / p.Risk() * p.Risk() == amount;
    if InRisks(x, amount, p) { assert x * p.Risk() / p.Risk() == x; }
  }

  lemma ReachWrittenOut(p: Plan, which: Excursion, b: Bar)
    requires p.Risk() > 0.0
    ensures forall x :: InRisks(x, Went(p, which, b), p) <==> x == Reach(p, which, b)
  {
    forall x ensures InRisks(x, Went(p, which, b), p) <==> x == Reach(p, which, b) {
      InRisksIff(x, Went(p, which, b), p);
    }
  }

  /** The largest reach of some bars, from a starting excursion on. */
  ghost predicate Largest(x: real, start: real, p: Plan, which: Excursion, bars: seq<Bar>)
    requires p.Risk() > 0.0
  {
    && x >= start && (forall b | b in bars :: Reach(p, which, b) <= x)
    && (x == start || exists b :: b in bars && Reach(p, which, b) == x)
  }

  lemma LargestStep(x: real, start: real, p: Plan, which: Excursion, bars: seq<Bar>)
    requires p.Risk() > 0.0 && bars != [] && Largest(x, Max(start, Reach(p, which, bars[0])), p, which, bars[1..])
    ensures Largest(x, start, p, which, bars)
  {
    hide Reach;
    assert bars == [bars[0]] + bars[1..];
  }

  /** How far a walk went: to its first touching bar, or through all bars. */
  lemma {:induction false} WalkExtent(p: Plan, bars: seq<Bar>, last: Option<Bar>, f: real, a: real, expired: bool)
    returns (n: nat)
    requires p.Risk() > 0.0 && bars != []
    ensures 1 <= n <= |bars| && (forall j | 0 <= j < n - 1 :: !Touches(p, bars[j]))
    ensures n < |bars| ==> Touches(p, bars[n - 1])
    ensures
      var walk := Walk(p, bars, last, f, a, expired);
      && (walk.Some? <==> Touches(p, bars[n - 1]) || expired)
      && (walk.Some? ==>
            && walk.value == (if Touches(p, bars[n - 1]) then Resolve(p, bars[n - 1], walk.value.mfe, walk.value.mae)
                              else Expire(p, bars[n - 1], walk.value.mfe, walk.value.mae))
            && Largest(walk.value.mfe, f, p, Favorable, bars[..n]) && Largest(walk.value.mae, a, p, Adverse, bars[..n]))
    decreases |bars|
  {
    hide Reach, Resolve, Expire, Touches, Largest;
    var b := bars[0];
    var f', a' := Max(f, Reach(p, Favorable, b)), Max(a, Reach(p, Adverse, b));
    var walk := Walk(p, bars, last, f, a, expired);
    if Touches(p, b) || |bars| == 1 {
      n := 1;
      ResolutionKeeps(p, b, f', a');
      if Touches(p, b) {
        assert walk == Some(Resolve(p, b, f', a'));
      } else {
        assert bars[1..] == [] && walk == Walk(p, [], Some(b), f', a', expired);
        assert walk == if expired then Some(Expire(p, b, f', a')) else None;
      }
      assert walk.Some? ==> walk.value.mfe == f' && walk.value.mae == a';
      assert bars[..1] == [b] && [b][1..] == [];
      NothingFurther(f', p, Favorable);
      NothingFurther(a', p, Adverse);
      if walk.Some? {
        LargestStep(walk.value.mfe, f, p, Favorable, bars[..1]);
        LargestStep(walk.value.mae, a, p, Adverse, bars[..1]);
      }
    } else {
      var m := WalkExtent(p, bars[1..], Some(b), f', a', expired);
      n := m + 1;
      assert bars[..n][1..] == bars[1..][..m] && bars[..n][0] == b && bars[n - 1] == bars[1..][m - 1];
      assert forall j | 1 <= j < n - 1 :: bars[j] == bars[1..][j - 1];
      if walk.Some? {
        LargestStep(walk.value.mfe, f, p, Favorable, bars[..n]);
        LargestStep(walk.value.mae, a, p, Adverse, bars[..n]);
      }
    }
  }

  lemma ResolutionKeeps(p: Plan, b: Bar, mfe: real, mae: real)
    requires p.Risk() > 0.0
    ensures var r := Expire(p, b, mfe, mae); r.mfe == mfe && r.mae == mae
    ensures Touches(p, b) ==> var r := Resolve(p, b, mfe, mae); r.mfe == mfe && r.mae == mae
  {
  }

  lemma NothingFurther(x: real, p: Plan, which: Excursion)
    requires p.Risk() > 0.0
    ensures Largest(x, x, p, which, [])
  {
  }

  /** A bar of a window at which an evaluation ends: the earliest that meets a level, or the latest if none does. */
  ghost predicate EndsAt(p: Plan, bars: seq<Bar>, b: Bar) {
    && b in bars
    && if MeetsTarget(p, b) || MeetsStop(p, b) then
         forall c | c in bars && (MeetsTarget(p, c) || MeetsStop(p, c)) :: b.time <= c.time
       else forall c | c in bars :: c.time <= b.time && !MeetsTarget(p, c) && !MeetsStop(p, c)
  }

  /** What a walk over a window reports that ends at this bar: its outcome, unless no level was met and the horizon
      has not passed, with the furthest excursions up to it. */
  ghost predicate Reported(
    walk: Option<Resolution>, p: Plan, bars: seq<Bar>, b: Bar, favorable: real, adverse: real, passed: bool)
  {
    match walk
    case None => !MeetsTarget(p, b) && !MeetsStop(p, b) && !passed
    case Some(r) =>
      && (if MeetsTarget(p, b) || MeetsStop(p, b) then EndsOn(r.status, r.at, r.exit, r.outcome, p, b)
          else passed && RunsOut(r.status, r.at, r.exit, r.outcome, p, b))
      && FurthestFrom(r.mfe, favorable, p, Favorable, bars, b.time)
      && FurthestFrom(r.mae, adverse, p, Adverse, bars, b.time)
  }

  /** The walk over a window in any order, from any starting excursions. */
  lemma WindowWalk(p: Plan, bars: seq<Bar>, f: real, a: real, expired: bool, b: Bar)
    requires p.Risk() > 0.0 && DistinctTimes(bars) && EndsAt(p, bars, b)
    ensures Reported(Walk(p, SortBy(bars, ByTime), None, f, a, expired), p, bars, b, f, a, expired)
  {
    var sorted := SortBy(bars, ByTime);
    SortBySorts(bars, ByTime);
    SameDistinct(bars, sorted);
    assert b in sorted;
    var n := WalkExtent(p, sorted, None, f, a, expired);
    var walk := Walk(p, sorted, None, f, a, expired);
    hide Walk, SortBy, Largest, FurthestFrom, EndsOn, RunsOut, Resolve, Expire;
    forall c: Bar ensures Touches(p, c) <==> MeetsTarget(p, c) || MeetsStop(p, c) {
      MeetsIff(p, c);
    }
    hide Touches, MeetsTarget, MeetsStop;
    EndsAtExtent(p, bars, sorted, n, b);
    if walk.Some? {
      ResolutionSpelled(p, b, walk.value.mfe, walk.value.mae);
      LargestUntil(walk.value.mfe, f, p, Favorable, bars, sorted, n);
      LargestUntil(walk.value.mae, a, p, Adverse, bars, sorted, n);
    }
  }

  lemma ResolutionSpelled(p: Plan, b: Bar, mfe: real, mae: real)
    requires p.Risk() > 0.0
    ensures Touches(p, b) ==>
              var r := Resolve(p, b, mfe, mae); EndsOn(r.status, r.at, r.exit, r.outcome, p, b)
    ensures var r := Expire(p, b, mfe, mae); RunsOut(r.status, r.at, r.exit, r.outcome, p, b)
  {
    MeetsIff(p, b);
    hide MeetsTarget, MeetsStop;
    InRisksIff(Abs(p.target - p.entry) / p.Risk(), Distance(p.target, p.entry), p);
    InRisksIff(SignedMove(p, b.close) / p.Risk(), GainTo(p, b.close), p);
    hide InRisks;
  }

  lemma EndsAtExtent(p: Plan, bars: seq<Bar>, sorted: seq<Bar>, n: nat, b: Bar)
    requires Sorted(sorted, ByTime) && SameMembers(sorted, bars) && DistinctTimes(bars)
    requires 1 <= n <= |sorted| && (forall j | 0 <= j < n - 1 :: !Touches(p, sorted[j]))
    requires n < |sorted| ==> Touches(p, sorted[n - 1])
    requires forall c: Bar :: Touches(p, c) <==> MeetsTarget(p, c) || MeetsStop(p, c)
    requires EndsAt(p, bars, b)
    ensures b == sorted[n - 1]
  {
    hide Touches, MeetsTarget, MeetsStop;
    var k := FirstIndex(sorted, b);
    var end := sorted[n - 1];
    assert end in bars;
    if k < n - 1 { assert AtMost(ByTime(sorted[k]), ByTime(end)); }
    if k > n - 1 { assert AtMost(ByTime(end), ByTime(sorted[k])); }
    if Touches(p, b) {
      assert k >= n - 1;
    } else {
      assert !Touches(p, end) && n == |sorted|;
    }
    assert b.time == end.time;
  }

  lemma LargestUntil(x: real, start: real, p: Plan, which: Excursion, bars: seq<Bar>, sorted: seq<Bar>, n: nat)
    requires p.Risk() > 0.0 && Sorted(sorted, ByTime) && SameMembers(sorted, bars) && DistinctTimes(bars)
    requires 1 <= n <= |sorted| && Largest(x, start, p, which, sorted[..n])
    ensures FurthestFrom(x, start, p, which, bars, sorted[n - 1].time)
  {
    forall b: Bar, went | InRisks(went, Went(p, which, b), p) ensures went == Reach(p, which, b) {
      ReachWrittenOut(p, which, b);
    }
    forall b: Bar ensures InRisks(Reach(p, which, b), Went(p, which, b), p) {
      ReachWrittenOut(p, which, b);
    }
    hide Reach, InRisks, Went;
    UpToTime(bars, sorted, n);
  }

  lemma UpToTime(bars: seq<Bar>, sorted: seq<Bar>, n: nat)
    requires Sorted(sorted, ByTime) && SameMembers(sorted, bars) && DistinctTimes(bars) && 1 <= n <= |sorted|
    ensures forall b :: b in sorted[..n] <==> b in bars && b.time <= sorted[n - 1].time
  {
    var end := sorted[n - 1];
    forall b | b in sorted[..n] ensures b in bars && b.time <= end.time {
      var j :| 0 <= j < n && sorted[j] == b;
      if j < n - 1 { assert AtMost(ByTime(sorted[j]), ByTime(end)); }
      assert b in sorted;
    }
    forall b | b in bars && b.time <= end.time ensures b in sorted[..n] {
      var j :| 0 <= j < |sorted| && sorted[j] == b;
      if j >= n {
        assert AtMost(ByTime(end), ByTime(sorted[j]));
        assert end in bars && b == end;
      }
    }
  }

  /** The bars that count: readable, not before the start, and not after the horizon, which is at least a minute. */
  ghost predicate IsWindow(bars: seq<Bar>, rows: seq<Reading<Bar>>, start: int, from: int, horizon: int) {
    forall b :: b in bars <==>
      Readable(b) in rows && start <= b.time <= from + if horizon > 60 then horizon else 60
  }

  lemma WindowsWrittenOut(rows: seq<Reading<Bar>>, from: int, horizon: int)
    ensures IsWindow(Candidates(rows, from, horizon), rows, from, from, horizon)
    ensures IsWindow(Usable(rows, from + 1, Deadline(from, horizon)), rows, from + 1, from, horizon)
  {
    hide Usable;
  }

  /** What the evaluation of a rejected signal reports, from the bars alone, whatever their order: nothing without
      risk or bars, and otherwise what the bar at which it ends decides. */
  lemma CandidateWrittenOut(p: Plan, rows: seq<Reading<Bar>>, created: int, horizon: int, now: int)
    returns (bars: seq<Bar>)
    ensures IsWindow(bars, rows, created, created, horizon)
    ensures
      var e := Evaluation(p, rows, created, horizon, now);
      var passed := now >= created + if horizon > 60 then horizon else 60;
      if p.entry == p.stop || bars == [] then e.None?
      else DistinctTimes(bars) ==> forall b | EndsAt(p, bars, b) :: Reported(e, p, bars, b, 0.0, 0.0, passed)
  {
    bars := Candidates(rows, created, horizon);
    WindowsWrittenOut(rows, created, horizon);
    if p.Risk() > 0.0 && bars != [] && DistinctTimes(bars) {
      hide Candidates, DistinctTimes, EndsAt, Reported, Walk, IsWindow, SortBy;
      var e, expired := Evaluation(p, rows, created, horizon, now), now >= Deadline(created, horizon);
      forall b | EndsAt(p, bars, b) ensures Reported(e, p, bars, b, 0.0, 0.0, expired) {
        WindowWalk(p, bars, 0.0, 0.0, expired, b);
      }
    }
  }

  /** A hindsight tells a walk: what was met after the exit, the difference to what was realized, and the
      excursions on both sides of the entry. */
  predicate Tells(h: Option<Hindsight>, walk: Option<Resolution>, realized: real) {
    match walk
    case None => h == None
    case Some(r) =>
      var ending :=
        if r.status == TakeProfit then TargetAfterExit
        else if r.status == StopLoss then InitialStopAfterExit
        else if r.status == Ambiguous then AmbiguousAfterExit
        else AtHorizon;
      var delta := match r.outcome case Some(outcome) => Some(outcome - realized) case None => None;
      h == Some(Hindsight(ending, r.at, r.exit, r.outcome, delta, r.mfe, -r.mae))
  }

  /** What holding on after an exit would have brought, from the bars alone: only bars that begin after the exit
      count, and the excursions start at the exit's own. */
  lemma ExitWrittenOut(
    p: Plan, actualExit: real, realized: real, rows: seq<Reading<Bar>>, exited: int, horizon: int, now: int)
    returns (bars: seq<Bar>, start: real, walk: Option<Resolution>)
    ensures IsWindow(bars, rows, exited + 1, exited, horizon)
    ensures p.entry != p.stop ==> InRisks(start, GainTo(p, actualExit), p)
    ensures Tells(Counterfactual(p, actualExit, realized, rows, exited, horizon, now), walk, realized)
    ensures
      var passed := now >= exited + if horizon > 60 then horizon else 60;
      if p.entry == p.stop || bars == [] then walk.None?
      else DistinctTimes(bars) ==> forall b | EndsAt(p, bars, b) :: Reported(walk, p, bars, b, start, -start, passed)
  {
    hide *;
    bars := Usable(rows, exited + 1, Deadline(exited, horizon));
    WindowsWrittenOut(rows, exited, horizon);
    RiskAndDeadline(p, exited, horizon);
    start, walk := 0.0, None;
    if p.Risk() > 0.0 {
      start := SignedMove(p, actualExit) / p.Risk();
      assert GainTo(p, actualExit) == SignedMove(p, actualExit) by { GainIsMove(p, actualExit); }
      InRisksIff(start, GainTo(p, actualExit), p);
      walk := WalkAfter(p, actualExit, realized, rows, exited, horizon, now);
      if DistinctTimes(bars) {
        forall b | EndsAt(p, bars, b)
          ensures Reported(walk, p, bars, b, start, -start, now >= Deadline(exited, horizon))
        {
          WindowWalk(p, bars, start, -start, now >= Deadline(exited, horizon), b);
        }
      }
    } else {
      NothingWithoutRisk(p, actualExit, realized, rows, exited, horizon, now);
    }
  }

  lemma RiskAndDeadline(p: Plan, from: int, horizon: int)
    ensures p.Risk() > 0.0 <==> p.entry != p.stop
    ensures Deadline(from, horizon) == from + if horizon > 60 then horizon else 60
  {
  }

  lemma GainIsMove(p: Plan, price: real)
    ensures GainTo(p, price) == SignedMove(p, price)
  {
  }

  lemma NothingWithoutRisk(
    p: Plan, actualExit: real, realized: real, rows: seq<Reading<Bar>>, exited: int, horizon: int, now: int)
    requires p.Risk() <= 0.0
    ensures Tells(Counterfactual(p, actualExit, realized, rows, exited, horizon, now), None, realized)
  {
  }

  lemma WalkAfter(
    p: Plan, actualExit: real, realized: real, rows: seq<Reading<Bar>>, exited: int, horizon: int, now: int)
    returns (walk: Option<Resolution>)
    requires p.Risk() > 0.0
    ensures
      var start := SignedMove(p, actualExit) / p.Risk();
      var bars := Usable(rows, exited + 1, Deadline(exited, horizon));
      && walk == Walk(p, SortBy(bars, ByTime), None, start, -start, now >= Deadline(exited, horizon))
      && (bars == [] ==> walk.None?)
      && Tells(Counterfactual(p, actualExit, realized, rows, exited, horizon, now), walk, realized)
  {
    var start := SignedMove(p, actualExit) / p.Risk();
    var bars := Usable(rows, exited + 1, Deadline(exited, horizon));
    walk := Walk(p, SortBy(bars, ByTime), None, start, -start, now >= Deadline(exited, horizon));
    if bars == [] { assert SortBy(bars, ByTime) == []; }
    hide Usable, SortBy, SignedMove;
  }
}
