/** The forward audit's bar-by-bar simulator (core/research_validation.py, `_simulate`), and its agreement
    with the shadow evaluator. Times are whole seconds. */
module ResearchSimulation {
  import opened Numbers
  import opened ShadowOutcomes

  /** Spread and slippage in price, commission in units of risk; none negative. */
  datatype Costs = Costs(spread: real, slippage: real, commission: real)

  const FREE := Costs(0.0, 0.0, 0.0)

  datatype Watch = Watch(signal: int, candle: int, side: Side, reference: real, stop: real, target: real, atr: real)

  datatype Fill = Target | Stop | StopFirst | Horizon

  /** `Invalid` stands for the raised errors; `Opened` for every result that carries an entry. */
  datatype Outcome =
    | Invalid
    | StaleSignal
    | IncompleteData
    | Unfillable
    | Opened(entryTime: int, entry: real, exitTime: int, result: Result)

  datatype Result = Gap | Unfinished | Filled(fill: Fill, exit: real, net: real)

  function CeilMinute(time: int): int { (time + MINUTE - 1) / MINUTE * MINUTE }

  /** Signed distance in the direction of the trade. */
  function Ahead(side: Side, from: real, to: real): real {
    if side.Buy? then to - from else from - to
  }

  /** A price made worse for the trade by some amount. */
  function Worse(side: Side, price: real, amount: real): real {
    if side.Buy? then price - amount else price + amount
  }

  /** First index whose bar is not before a time. */
  function Search(frame: seq<Bar>, time: int): (index: nat)
    ensures index <= |frame|
    ensures index < |frame| ==> frame[index].time >= time
    ensures forall i | 0 <= i < index :: frame[i].time < time
  {
    if frame == [] || frame[0].time >= time then 0 else 1 + Search(frame[1..], time)
  }

  /** Sells leave at the ask. */
  function ExitBar(w: Watch, costs: Costs, b: Bar): Bar {
    var spread := if w.side.Sell? then costs.spread else 0.0;
    Bar(b.time, b.open + spread, b.high + spread, b.low + spread, b.close + spread)
  }

  function StopHit(w: Watch, b: Bar): bool { if w.side.Buy? then b.low <= w.stop else b.high >= w.stop }

  function TargetHit(w: Watch, b: Bar): bool { if w.side.Buy? then b.high >= w.target else b.low <= w.target }

  /** A gap through the stop fills at the open. */
  function StopPrice(w: Watch, b: Bar): real {
    if w.side.Buy? then Min(w.stop, b.open) else Max(w.stop, b.open)
  }

  function Net(w: Watch, entry: real, exit: real, costs: Costs): real
    requires entry != w.stop
  {
    Ahead(w.side, entry, exit) / Abs(entry - w.stop) - costs.commission
  }

  /** What one bar does, if it ends the trade; `last` marks the bar that completes the horizon. */
  function BarFill(w: Watch, b: Bar, last: bool): Option<(Fill, real)> {
    if StopHit(w, b) then Some((if TargetHit(w, b) then StopFirst else Stop, StopPrice(w, b)))
    else if TargetHit(w, b) then Some((Target, w.target))
    else if last then Some((Horizon, b.close))
    else None
  }

  /** Walks minute bars from `expected` to the deadline. */
  function Play(w: Watch, entry: real, bars: seq<Bar>, expected: int, deadline: int, costs: Costs): (int, Result)
    requires entry != w.stop
  {
    if bars == [] then (deadline, Unfinished)
    else if bars[0].time != expected then (deadline, Gap)
    else
      var fill := BarFill(w, ExitBar(w, costs, bars[0]), expected + MINUTE == deadline);
      if fill.Some? then
        var exit := Worse(w.side, fill.value.1, costs.slippage);
        (expected + MINUTE, Filled(fill.value.0, exit, Net(w, entry, exit, costs)))
      else Play(w, entry, bars[1..], expected + MINUTE, deadline, costs)
  }

  predicate ValidWatch(w: Watch, observed: int) {
    && w.signal == w.candle + 5 * MINUTE && w.candle % (5 * MINUTE) == 0 && observed >= w.signal
  }

  predicate ValidPlan(w: Watch) {
    && w.reference > 0.0 && w.stop > 0.0 && w.target > 0.0 && w.atr > 0.0
    && Ahead(w.side, w.stop, w.reference) > 0.0 && Ahead(w.side, w.reference, w.target) > 0.0
  }

  function EntryPrice(w: Watch, open: real, costs: Costs): real {
    if w.side.Buy? then open + costs.spread + costs.slippage else open - costs.slippage
  }

  /** The entry lies between stop and target and has not drifted from the reference. */
  predicate Fillable(w: Watch, entry: real) {
    && Ahead(w.side, w.stop, entry) > 0.0 && Ahead(w.side, entry, w.target) > 0.0
    && Abs(entry - w.reference) <= 0.35 * w.atr
  }

  function Simulation(w: Watch, observed: int, frame: seq<Bar>, costs: Costs, minutes: nat): Outcome {
    if !ValidWatch(w, observed) then Invalid
    else if observed - w.signal > 2 * MINUTE then StaleSignal
    else if !ValidPlan(w) then Invalid
    else
      var start := CeilMinute(observed);
      var first := Search(frame, start);
      if first >= |frame| || frame[first].time != start then IncompleteData
      else
        var entry := EntryPrice(w, frame[first].open, costs);
        if !Fillable(w, entry) then Unfillable
        else
          var end := if first + minutes < |frame| then first + minutes else |frame|;
          var deadline := start + minutes * MINUTE;
          var (exitTime, result) := Play(w, entry, frame[first..end], start, deadline, costs);
          Opened(start, entry, exitTime, result)
  }

  method Simulate(w: Watch, observed: int, frame: seq<Bar>, costs: Costs, minutes: nat) returns (outcome: Outcome)
    ensures outcome == Simulation(w, observed, frame, costs, minutes)
  {
    if !ValidWatch(w, observed) {
      return Invalid;
    }
    if observed - w.signal > 2 * MINUTE {
      return StaleSignal;
    }
    if !ValidPlan(w) {
      return Invalid;
    }
    var start := CeilMinute(observed);
    var deadline := start + minutes * MINUTE;
    var first := Search(frame, start);
    if first >= |frame| || frame[first].time != start {
      return IncompleteData;
    }
    var entry := EntryPrice(w, frame[first].open, costs);
    if !Fillable(w, entry) {
      return Unfillable;
    }
    var end := if first + minutes < |frame| then first + minutes else |frame|;
    var exitTime, result := PlayOut(w, entry, frame[first..end], start, deadline, costs);
    return Opened(start, entry, exitTime, result);
  }

  /** The bar loop. */
  method PlayOut(w: Watch, entry: real, bars: seq<Bar>, start: int, deadline: int, costs: Costs)
    returns (exitTime: int, result: Result)
    requires entry != w.stop
    ensures (exitTime, result) == Play(w, entry, bars, start, deadline, costs)
  {
    hide BarFill, Net, Worse, ExitBar;
    var expected := start;
    for i := 0 to |bars|
      invariant Play(w, entry, bars, start, deadline, costs) == Play(w, entry, bars[i..], expected, deadline, costs)
    {
      if bars[i].time != expected {
        return deadline, Gap;
      }
      expected := expected + MINUTE;
      var fill := BarFill(w, ExitBar(w, costs, bars[i]), expected == deadline);
      if fill.Some? {
        var exit := Worse(w.side, fill.value.1, costs.slippage);
        return expected, Filled(fill.value.0, exit, Net(w, entry, exit, costs));
      }
    }
    return deadline, Unfinished;
  }

  // ---------------------------------------------------------------------------------------
  // Timing of simulated trades
  // ---------------------------------------------------------------------------------------

  lemma {:induction false} PlayTiming(w: Watch, entry: real, bars: seq<Bar>, expected: int, deadline: int, costs: Costs)
    requires entry != w.stop && expected + |bars| * MINUTE <= deadline
    ensures var (exitTime, result) := Play(w, entry, bars, expected, deadline, costs);
            exitTime <= deadline && if result.Filled? then expected < exitTime else exitTime == deadline
  {
    if bars != [] { PlayTiming(w, entry, bars[1..], expected + MINUTE, deadline, costs); }
  }

  /** A simulated trade enters at the next whole minute and leaves within the horizon. */
  lemma SimulationTiming(w: Watch, observed: int, frame: seq<Bar>, costs: Costs, minutes: nat)
    requires minutes >= 1
    ensures var o := Simulation(w, observed, frame, costs, minutes);
            o.Opened? ==> o.entryTime == CeilMinute(observed) < o.exitTime <= o.entryTime + minutes * MINUTE
  {
    var o := Simulation(w, observed, frame, costs, minutes);
    if o.Opened? {
      var start := CeilMinute(observed);
      var first := Search(frame, start);
      var end := if first + minutes < |frame| then first + minutes else |frame|;
      var entry := EntryPrice(w, frame[first].open, costs);
      PlayTiming(w, entry, frame[first..end], start, start + minutes * MINUTE, costs);
    }
  }

  /** On bars without a gap up to the deadline every trade is resolved: by the horizon exactly when no bar,
      at the exit prices, touches a level. */
  lemma {:induction false} GapFreeTradesResolve(
    w: Watch, entry: real, bars: seq<Bar>, expected: int, deadline: int, costs: Costs)
    requires entry != w.stop && bars != [] && expected + |bars| * MINUTE == deadline
    requires forall i | 0 <= i < |bars| :: bars[i].time == expected + i * MINUTE
    ensures
      var (exitTime, result) := Play(w, entry, bars, expected, deadline, costs);
      && result.Filled?
      && (result.fill.Horizon? <==> forall b | b in bars ::
            !StopHit(w, ExitBar(w, costs, b)) && !TargetHit(w, ExitBar(w, costs, b)))
      && (result.fill.Horizon? ==> exitTime == deadline)
  {
    hide Net, StopHit, TargetHit, ExitBar;
    assert bars == [bars[0]] + bars[1..];
    if |bars| > 1 && BarFill(w, ExitBar(w, costs, bars[0]), expected + MINUTE == deadline).None? {
      GapFreeTradesResolve(w, entry, bars[1..], expected + MINUTE, deadline, costs);
    }
  }

  // ---------------------------------------------------------------------------------------
  // One simulation, written out
  // ---------------------------------------------------------------------------------------

  /** The candle is one of five minutes, and the signal follows it and precedes its observation. */
  predicate Timely(w: Watch, observed: int) {
    w.candle % 300 == 0 && w.signal - w.candle == 300 && w.signal <= observed
  }

  /** Positive prices, stop and target on their own sides of the reference. */
  predicate Planned(w: Watch) {
    && w.atr > 0.0
    && if w.side.Buy? then 0.0 < w.stop < w.reference < w.target else 0.0 < w.target < w.reference < w.stop
  }

  /** The entry is between stop and target, and within 0.35 of the average range from the reference. */
  predicate Nearby(w: Watch, entry: real) {
    && (if w.side.Buy? then w.stop < entry < w.target else w.target < entry < w.stop)
    && -0.35 * w.atr <= entry - w.reference <= 0.35 * w.atr
  }

  predicate IsNextMinute(time: int, minute: int) { minute % 60 == 0 && time <= minute < time + 60 }

  /** Buys leave at the bid, sells at the ask. */
  predicate ReachesStop(w: Watch, spread: real, b: Bar) {
    if w.side.Buy? then w.stop >= b.low else w.stop <= b.high + spread
  }

  predicate ReachesTarget(w: Watch, spread: real, b: Bar) {
    if w.side.Buy? then w.target <= b.high else w.target >= b.low + spread
  }

  /** The price at which a fill leaves, before slippage: a stop at the open if that is already beyond it. */
  predicate LeavesAt(w: Watch, spread: real, b: Bar, fill: Fill, price: real) {
    var ask := if w.side.Buy? then 0.0 else spread;
    match fill
    case Target => price == w.target
    case Horizon => price == b.close + ask
    case _ =>
      var gap := if w.side.Buy? then b.open < w.stop else b.open + ask > w.stop;
      price == if gap then b.open + ask else w.stop
  }

  /** How the bar that ends a trade does so. */
  predicate Settles(w: Watch, entry: real, costs: Costs, b: Bar, last: bool, r: Result)
    requires r.Filled?
  {
    var sign := if w.side.Buy? then 1.0 else -1.0;
    && (r.fill.StopFirst? <==> ReachesStop(w, costs.spread, b) && ReachesTarget(w, costs.spread, b))
    && (r.fill.Stop? <==> ReachesStop(w, costs.spread, b) && !ReachesTarget(w, costs.spread, b))
    && (r.fill.Target? <==> !ReachesStop(w, costs.spread, b) && ReachesTarget(w, costs.spread, b))
    && (r.fill.Horizon? ==> last)
    && LeavesAt(w, costs.spread, b, r.fill, r.exit + sign * costs.slippage)
    && (r.net + costs.commission) * (sign * (entry - w.stop)) == sign * (r.exit - entry)
  }

  /** A bar on its minute that neither touches a level nor completes the horizon. */
  predicate Passes(w: Watch, spread: real, b: Bar, minute: int, last: bool) {
    b.time == minute && !ReachesStop(w, spread, b) && !ReachesTarget(w, spread, b) && !last
  }

  /** How a trade on the bars from a start goes: a number of them pass, and the next one is missing, is not on its
      minute or ends it. Only in the last case does the trade leave before the horizon is over. */
  predicate PlaysOut(
    w: Watch, entry: real, bars: seq<Bar>, start: int, minutes: nat, costs: Costs, passed: nat, exit: int, r: Result)
  {
    && passed <= minutes && passed <= |bars|
    && (forall j | 0 <= j < passed :: Passes(w, costs.spread, bars[j], start + 60 * j, j + 1 == minutes))
    && match r
       case Unfinished => exit == start + 60 * minutes && (passed == minutes || passed == |bars|)
       case Gap =>
         && exit == start + 60 * minutes && passed < minutes && passed < |bars|
         && bars[passed].time != start + 60 * passed
       case Filled(_, _, _) =>
         && exit == start + 60 * (passed + 1) && passed < minutes && passed < |bars|
         && bars[passed].time == start + 60 * passed
         && Settles(w, entry, costs, bars[passed], passed + 1 == minutes, r)
  }

  /** The whole simulation: an untimely signal or a broken plan is an error, one seen more than two minutes late
      is stale; the trade starts at the next whole minute, needs the bar of that minute, enters at its open plus
      costs if that is still near the reference, and plays out on the bars that follow. */
  lemma SimulationWrittenOut(w: Watch, observed: int, frame: seq<Bar>, costs: Costs, minutes: nat)
    returns (start: int, first: nat, passed: nat)
    ensures
      var o := Simulation(w, observed, frame, costs, minutes);
      && IsNextMinute(observed, start)
      && first <= |frame| && (forall i | 0 <= i < first :: frame[i].time < start)
      && (first < |frame| ==> frame[first].time >= start)
      && (o.StaleSignal? <==> Timely(w, observed) && observed - w.signal > 120)
      && (o.Invalid? <==> !Timely(w, observed) || (observed - w.signal <= 120 && !Planned(w)))
      && (Timely(w, observed) && observed - w.signal <= 120 && Planned(w) ==>
            if first == |frame| || frame[first].time > start then o.IncompleteData?
            else
              var open := frame[first].open;
              var entry := if w.side.Buy? then open + costs.spread + costs.slippage else open - costs.slippage;
              if !Nearby(w, entry) then o.Unfillable?
              else
                && o.Opened? && o.entryTime == start && o.entry == entry
                && PlaysOut(w, entry, frame[first..], start, minutes, costs, passed, o.exitTime, o.result))
  {
    hide Play, PlaysOut, Search, CeilMinute;
    start, passed := CeilMinute(observed), 0;
    NextMinute(observed);
    first := Search(frame, start);
    GuardsWrittenOut(w, observed);
    if Simulation(w, observed, frame, costs, minutes).Opened? {
      var entry := EntryPrice(w, frame[first].open, costs);
      var end := if first + minutes < |frame| then first + minutes else |frame|;
      passed := PlayWrittenOut(w, entry, frame[first..end], start, minutes, costs);
      var o := Simulation(w, observed, frame, costs, minutes);
      assert frame[first..end] == if minutes < |frame[first..]| then frame[first..][..minutes] else frame[first..];
      PlaysOnFrame(w, entry, frame[first..], start, minutes, costs, passed, o.exitTime, o.result);
    }
    hide ValidWatch, ValidPlan, Timely, Planned, Fillable, Nearby;
  }

  /** No more bars are looked at than the horizon has minutes. */
  lemma PlaysOnFrame(
    w: Watch, entry: real, bars: seq<Bar>, start: int, minutes: nat, costs: Costs, passed: nat, exit: int, r: Result)
    requires var seen := if minutes < |bars| then bars[..minutes] else bars;
             PlaysOut(w, entry, seen, start, minutes, costs, passed, exit, r) && (r.Unfinished? ==> passed == |seen|)
    ensures PlaysOut(w, entry, bars, start, minutes, costs, passed, exit, r)
  {
    hide Passes, Settles;
  }

  lemma NextMinute(time: int)
    ensures IsNextMinute(time, CeilMinute(time))
  {
  }

  lemma GuardsWrittenOut(w: Watch, observed: int)
    ensures ValidWatch(w, observed) <==> Timely(w, observed)
    ensures ValidPlan(w) <==> Planned(w)
    ensures forall entry :: Fillable(w, entry) <==> Nearby(w, entry)
  {
  }

  lemma {:induction false} PlayWrittenOut(
    w: Watch, entry: real, bars: seq<Bar>, expected: int, minutes: nat, costs: Costs) returns (passed: nat)
    requires Ahead(w.side, w.stop, entry) > 0.0 && |bars| <= minutes
    ensures
      var (exit, r) := Play(w, entry, bars, expected, expected + minutes * MINUTE, costs);
      && PlaysOut(w, entry, bars, expected, minutes, costs, passed, exit, r)
      && (r.Unfinished? ==> passed == |bars|)
  {
    passed := 0;
    if bars != [] && bars[0].time == expected {
      BarWrittenOut(w, entry, bars[0], minutes == 1, costs);
      hide BarFill, ExitBar, Settles, Net, Worse, ReachesStop, ReachesTarget;
      if BarFill(w, ExitBar(w, costs, bars[0]), minutes == 1).None? {
        var later := PlayWrittenOut(w, entry, bars[1..], expected + MINUTE, minutes - 1, costs);
        passed := later + 1;
      }
    }
  }

  lemma BarWrittenOut(w: Watch, entry: real, b: Bar, last: bool, costs: Costs)
    requires Ahead(w.side, w.stop, entry) > 0.0
    ensures
      var fill := BarFill(w, ExitBar(w, costs, b), last);
      && (fill.None? <==> Passes(w, costs.spread, b, b.time, last))
      && (fill.Some? ==>
            var exit := Worse(w.side, fill.value.1, costs.slippage);
            Settles(w, entry, costs, b, last, Filled(fill.value.0, exit, Net(w, entry, exit, costs))))
  {
    var fill := BarFill(w, ExitBar(w, costs, b), last);
    FillWrittenOut(w, b, last, costs);
    if fill.Some? {
      NetWrittenOut(w, entry, Worse(w.side, fill.value.1, costs.slippage), costs);
    }
    hide Net, BarFill, ExitBar, LeavesAt, ReachesStop, ReachesTarget;
  }

  lemma FillWrittenOut(w: Watch, b: Bar, last: bool, costs: Costs)
    ensures
      var fill := BarFill(w, ExitBar(w, costs, b), last);
      var stop, target := ReachesStop(w, costs.spread, b), ReachesTarget(w, costs.spread, b);
      if !stop && !target && !last then fill == None
      else
        && fill.Some? && LeavesAt(w, costs.spread, b, fill.value.0, fill.value.1)
        && fill.value.0
             == if stop && target then StopFirst else if stop then Stop else if target then Target else Horizon
  {
  }

  lemma NetWrittenOut(w: Watch, entry: real, exit: real, costs: Costs)
    requires Ahead(w.side, w.stop, entry) > 0.0
    ensures
      var sign := if w.side.Buy? then 1.0 else -1.0;
      (Net(w, entry, exit, costs) + costs.commission) * (sign * (entry - w.stop)) == sign * (exit - entry)
  {
    var risk := if w.side.Buy? then entry - w.stop else w.stop - entry;
    var ahead := if w.side.Buy? then exit - entry else entry - exit;
    assert Net(w, entry, exit, costs) + costs.commission == ahead / risk;
  }

  // ---------------------------------------------------------------------------------------
  // Losses are never understated
  // ---------------------------------------------------------------------------------------

  predicate Honest(costs: Costs) { costs.spread >= 0.0 && costs.slippage >= 0.0 && costs.commission >= 0.0 }

  /** Stops cost at least one risk unit and targets earn at most the reward, whatever the costs and gaps. */
  lemma {:induction false} FillsArePessimistic(
    w: Watch, entry: real, bars: seq<Bar>, expected: int, deadline: int, costs: Costs)
    requires Honest(costs) && Ahead(w.side, w.stop, entry) > 0.0
    ensures
      var (_, result) := Play(w, entry, bars, expected, deadline, costs);
      result.Filled? ==>
        match result.fill
        case Target => result.net <= Ahead(w.side, entry, w.target) / Abs(entry - w.stop)
        case Horizon => true
        case _ => result.net <= -1.0
  {
    if bars != [] && bars[0].time == expected {
      var fill := BarFill(w, ExitBar(w, costs, bars[0]), expected + MINUTE == deadline);
      if fill.Some? {
        var exit := Worse(w.side, fill.value.1, costs.slippage);
        var risk := Abs(entry - w.stop);
        QuotientMonotone(Ahead(w.side, entry, exit), Ahead(w.side, entry, w.target), risk);
        QuotientMonotone(Ahead(w.side, entry, exit), -risk, risk);
      } else {
        FillsArePessimistic(w, entry, bars[1..], expected + MINUTE, deadline, costs);
      }
    }
  }

  /** Spread and slippage move the entry against the trade, never for it. */
  lemma EntryIsNeverBetter(w: Watch, open: real, costs: Costs)
    requires Honest(costs)
    ensures
      var worse := Ahead(w.side, open, EntryPrice(w, open, costs));
      worse == costs.slippage + (if w.side.Buy? then costs.spread else 0.0) && worse >= 0.0
  {
  }

  lemma QuotientMonotone(a: real, b: real, c: real)
    requires c > 0.0
    ensures a <= b ==> a / c <= b / c
    ensures -c / c == -1.0
  {
  }

  // ---------------------------------------------------------------------------------------
  // Agreement with the shadow evaluator
  // ---------------------------------------------------------------------------------------

  predicate Ascending(frame: seq<Bar>) {
    forall i, j | 0 <= i < j < |frame| :: frame[i].time < frame[j].time
  }

  function ShadowPlan(w: Watch, entry: real): Plan { Plan(w.side, entry, w.stop, w.target) }

  function Rows(frame: seq<Bar>): (rows: seq<Reading<Bar>>)
    ensures |rows| == |frame| && forall i | 0 <= i < |rows| :: rows[i] == Readable(frame[i])
  {
    seq(|frame|, i requires 0 <= i < |frame| => Readable(frame[i]))
  }

  /** The simulator's decisive bar: none before it touches a level, and it fills as reported. */
  lemma {:induction false} PlayStopsAt(
    w: Watch, entry: real, bars: seq<Bar>, expected: int, deadline: int) returns (k: nat)
    requires entry != w.stop
    requires Play(w, entry, bars, expected, deadline, FREE).1.Filled?
    requires !Play(w, entry, bars, expected, deadline, FREE).1.fill.Horizon?
    ensures
      var (exitTime, result) := Play(w, entry, bars, expected, deadline, FREE);
      && k < |bars| && bars[k].time == expected + k * MINUTE == exitTime - MINUTE
      && (forall j | 0 <= j < k :: !StopHit(w, bars[j]) && !TargetHit(w, bars[j]))
      && (result.fill.Target? <==> TargetHit(w, bars[k]) && !StopHit(w, bars[k]))
      && (result.fill.Stop? <==> StopHit(w, bars[k]) && !TargetHit(w, bars[k]))
      && (result.fill.StopFirst? <==> StopHit(w, bars[k]) && TargetHit(w, bars[k]))
      && result.net == Net(w, entry, if result.fill.Target? then w.target else StopPrice(w, bars[k]), FREE)
  {
    hide Net;
    assert ExitBar(w, FREE, bars[0]) == bars[0];
    if BarFill(w, bars[0], expected + MINUTE == deadline).Some? {
      k := 0;
    } else {
      var m := PlayStopsAt(w, entry, bars[1..], expected + MINUTE, deadline);
      k := m + 1;
    }
  }

  function AgreedStatus(fill: Fill): Status
    requires !fill.Horizon?
  {
    match fill case Target => TakeProfit case Stop => StopLoss case StopFirst => Ambiguous
  }

  /** With no costs, on the same bars and from the same entry, a target, stop or both-touched result of the
      simulator means that the shadow evaluator reports the same on the same bar, and the simulated net is
      never better than the shadow outcome. */
  lemma SimulatorsAgree(w: Watch, observed: int, frame: seq<Bar>, minutes: nat, now: int)
    requires minutes >= 1 && Ascending(frame)
    requires Simulation(w, observed, frame, FREE, minutes).Opened?
    requires Simulation(w, observed, frame, FREE, minutes).result.Filled?
    requires !Simulation(w, observed, frame, FREE, minutes).result.fill.Horizon?
    ensures
      var o := Simulation(w, observed, frame, FREE, minutes);
      var r := Evaluation(ShadowPlan(w, o.entry), Rows(frame), o.entryTime, minutes * MINUTE, now);
      && r.Some? && r.value.status == AgreedStatus(o.result.fill)
      && r.value.at == o.exitTime - MINUTE
      && (r.value.outcome.Some? ==> o.result.net <= r.value.outcome.value)
      && (o.result.fill.Target? ==> r.value.outcome == Some(o.result.net))
  {
    hide Simulation, Net, Evaluation, Play, Candidates, DistinctTimes, FirstTouch;
    var o := Simulation(w, observed, frame, FREE, minutes);
    var first, bars := OpenedOn(w, observed, frame, FREE, minutes);
    var deadline := o.entryTime + minutes * MINUTE;
    var k := PlayStopsAt(w, o.entry, bars, o.entryTime, deadline);
    FillsArePessimistic(w, o.entry, bars, o.entryTime, deadline, FREE);
    var p := ShadowPlan(w, o.entry);
    assert forall j | 0 <= j <= k :: frame[first..][j] == bars[j];
    EarliestTouchInFrame(p, frame, o.entryTime, minutes, first, k);
    FirstTouchDecides(p, Rows(frame), o.entryTime, minutes * MINUTE, now, frame[first + k]);
    FreeTarget(w, o.entry);
  }

  /** The stretch of bars that an opened simulation played on. */
  lemma OpenedOn(w: Watch, observed: int, frame: seq<Bar>, costs: Costs, minutes: nat)
    returns (first: nat, bars: seq<Bar>)
    requires Simulation(w, observed, frame, costs, minutes).Opened?
    ensures
      var o := Simulation(w, observed, frame, costs, minutes);
      && first + |bars| <= |frame| && |bars| <= minutes && bars == frame[first..first + |bars|]
      && (forall i | 0 <= i < first :: frame[i].time < o.entryTime)
      && Ahead(w.side, w.stop, o.entry) > 0.0 && Ahead(w.side, o.entry, w.target) > 0.0
      && (o.exitTime, o.result) == Play(w, o.entry, bars, o.entryTime, o.entryTime + minutes * MINUTE, costs)
  {
    hide Play;
    first := Search(frame, CeilMinute(observed));
    bars := frame[first..if first + minutes < |frame| then first + minutes else |frame|];
  }

  lemma FreeTarget(w: Watch, entry: real)
    requires Ahead(w.side, w.stop, entry) > 0.0 && Ahead(w.side, entry, w.target) > 0.0
    ensures Net(w, entry, w.target, FREE) == Abs(w.target - entry) / Abs(entry - w.stop)
  {
  }

  /** In an ascending frame, a decisive bar of the simulated stretch is the earliest touch of the window. */
  lemma EarliestTouchInFrame(p: Plan, frame: seq<Bar>, start: int, minutes: nat, first: nat, k: nat)
    requires Ascending(frame) && k < minutes && first + k < |frame| && frame[first + k].time == start + k * MINUTE
    requires forall i | 0 <= i < first :: frame[i].time < start
    requires forall j | 0 <= j < k :: !Touches(p, frame[first..][j])
    requires Touches(p, frame[first + k])
    ensures
      var bars := Candidates(Rows(frame), start, minutes * MINUTE);
      DistinctTimes(bars) && FirstTouch(p, bars, frame[first + k])
  {
    var bars := Candidates(Rows(frame), start, minutes * MINUTE);
    var b := frame[first + k];
    assert Rows(frame)[first + k] == Readable(b);
    assert b in bars;
    UsableIsInFrame(frame, start, minutes * MINUTE);
    assert forall i | first <= i < first + k :: frame[i] == frame[first..][i - first];
    hide Candidates, Touches;
    forall c | c in bars && Touches(p, c) ensures b.time <= c.time {
      var i := PlaceInFrame(frame, c);
    }
  }

  lemma PlaceInFrame(frame: seq<Bar>, c: Bar) returns (i: nat)
    requires c in frame
    ensures i < |frame| && frame[i] == c
  {
    i :| i < |frame| && frame[i] == c;
  }

  lemma UsableIsInFrame(frame: seq<Bar>, start: int, horizon: int)
    requires Ascending(frame)
    ensures forall c | c in Candidates(Rows(frame), start, horizon) :: c in frame && start <= c.time
    ensures DistinctTimes(Candidates(Rows(frame), start, horizon))
  {
    var rows := Rows(frame);
    forall c | c in Candidates(rows, start, horizon) ensures c in frame && start <= c.time {
      var i :| 0 <= i < |rows| && rows[i] == Readable(c);
      assert frame[i] == c;
    }
    hide Candidates;
    forall c, d | c in frame && d in frame && c.time == d.time ensures c == d {
      var i := PlaceInFrame(frame, c);
      var j := PlaceInFrame(frame, d);
    }
  }
}
