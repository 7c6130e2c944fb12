/** The three stop-moving routines of execution/executor.py and the request they share.
    Prices are counted in units of the last quoted digit; broker levels are whole numbers of units,
    zero meaning that no level is set, and the executable tick is a whole number of units. */
module StopManagement {
  import opened Numbers

  // ---------------------------------------------------------------------------------------
  // The tick grid
  // ---------------------------------------------------------------------------------------

  const SLACK: real := 0.0000000001

  datatype Mode = Down | Up | Nearest

  function Units(units: real, mode: Mode): int {
    match mode case Down => (units + SLACK).Floor case Up => Ceiling(units - SLACK) case Nearest => RoundHalfEven(units)
  }

  /** A tick of zero means that the broker reported neither tick size nor point. */
  function NormalizePrice(price: real, tick: nat, mode: Mode): int {
    if tick == 0 then RoundHalfEven(price)
    else Units(price / tick as real, mode) * tick
  }

  predicate OnTick(level: int, tick: nat) { tick > 0 ==> level % tick == 0 }

  lemma ScaleOrder(a: int, b: int, tick: nat)
    requires a <= b
    ensures a * tick <= b * tick
  {
  }

  lemma TickQuotient(level: int, tick: nat)
    requires tick > 0 && level % tick == 0
    ensures level == level / tick * tick
    ensures level as real / tick as real == (level / tick) as real
  {
    var k := level / tick;
    assert level == k * tick;
    assert level as real == k as real * tick as real;
  }

  lemma MultipleOnTick(k: int, tick: nat)
    ensures OnTick(k * tick, tick)
  {
    if tick > 0 {
      var m := k * tick;
      var q := m / tick;
      assert m == q * tick + m % tick;
      if q < k { ScaleOrder(q + 1, k, tick); }
      if k < q { ScaleOrder(k + 1, q, tick); }
    }
  }

  /** Rounding lands on the grid, keeps prices already there, and keeps order in each direction. */
  lemma NormalizeGrid(price: real, tick: nat, mode: Mode, level: int)
    requires OnTick(level, tick)
    ensures OnTick(NormalizePrice(price, tick, mode), tick)
    ensures NormalizePrice(level as real, tick, mode) == level
    ensures level as real <= price ==> level <= NormalizePrice(price, tick, mode)
    ensures price <= level as real ==> NormalizePrice(price, tick, mode) <= level
  {
    if tick == 0 {
      if level as real <= price { RoundHalfEvenBounds(level as real, price); }
      if price <= level as real { RoundHalfEvenBounds(price, level as real); }
    } else {
      TickQuotient(level, tick);
      var k, units := level / tick, price / tick as real;
      var m := Units(units, mode);
      MultipleOnTick(m, tick);
      UnitsOrder(k, units, mode);
      UnitsOrder(k, k as real, mode);
      hide Units;
      if level as real <= price {
        QuotientOrder(level as real, price, tick as real);
        ScaleOrder(k, m, tick);
      }
      if price <= level as real {
        QuotientOrder(price, level as real, tick as real);
        ScaleOrder(m, k, tick);
      }
    }
  }

  lemma QuotientOrder(a: real, b: real, c: real)
    requires a <= b && c > 0.0
    ensures a / c <= b / c
  {
  }

  lemma UnitsOrder(k: int, units: real, mode: Mode)
    ensures k as real <= units ==> k <= Units(units, mode)
    ensures units <= k as real ==> Units(units, mode) <= k
  {
    if k as real <= units { RoundHalfEvenBounds(k as real, units); }
    if units <= k as real { RoundHalfEvenBounds(units, k as real); }
  }

  /** Directional rounding moves a price by less than one tick, and backwards by no more than the slack. */
  lemma NormalizeReach(price: real, tick: nat)
    requires tick > 0
    ensures price - SLACK * tick as real <= NormalizePrice(price, tick, Up) as real < price + tick as real
    ensures price - tick as real < NormalizePrice(price, tick, Down) as real <= price + SLACK * tick as real
  {
    var units, t := price / tick as real, tick as real;
    assert units * t == price;
    var up, down := Units(units, Up), Units(units, Down);
    assert units - SLACK <= up as real < units + 1.0 && units - 1.0 < down as real <= units + SLACK;
    Distribute(units, 1.0, t);
    Distribute(units, SLACK, t);
    ScaledReach(up, units - SLACK, units + 1.0, tick);
    ScaledReach(down, units - 1.0, units + SLACK, tick);
    hide Units;
    assert NormalizePrice(price, tick, Up) == up * tick && NormalizePrice(price, tick, Down) == down * tick;
    hide NormalizePrice;
  }

  lemma ScaledReach(n: int, low: real, high: real, tick: nat)
    requires tick > 0 && low <= n as real <= high
    ensures low * tick as real <= (n * tick) as real <= high * tick as real
    ensures n as real < high ==> (n * tick) as real < high * tick as real
    ensures low < n as real ==> low * tick as real < (n * tick) as real
  {
    assert (n * tick) as real == n as real * tick as real;
  }

  lemma Distribute(units: real, x: real, t: real)
    ensures (units + x) * t == units * t + x * t && (units - x) * t == units * t - x * t
  {
  }

  // ---------------------------------------------------------------------------------------
  // Modifying a position
  // ---------------------------------------------------------------------------------------

  datatype Position = Position(side: Side, open: real, sl: int, tp: int, swap: real)

  /** What one call sees of the broker. `accepts` stands for every check outside this program: account
      identity, permissions, connection, dry-run and the broker's own answer to the request. */
  datatype Market = Market(
    bid: real, ask: real, pip: real, stopsDistance: real, freezeDistance: real, bothRequired: bool, accepts: bool)

  function Exit(side: Side, m: Market): real { if side.Buy? then m.bid else m.ask }

  predicate StopsAllowed(side: Side, m: Market, sl: int, tp: int) {
    if sl == 0 || tp == 0 then !m.bothRequired
    else
      var price := Exit(side, m);
      var minimum := Max(m.stopsDistance, 0.0);
      && (if side.Buy? then sl as real < price < tp as real else (tp as real) < price < sl as real)
      && (minimum > 0.0 ==> Abs(price - sl as real) >= minimum && Abs(tp as real - price) >= minimum)
  }

  /** A stop beyond the entry is a profit floor and rounds towards more profit; any other rounds outward. */
  function StopMode(pos: Position, requested: real): Mode {
    if pos.side.Buy? then if requested > pos.open then Up else Down
    else if requested < pos.open then Down else Up
  }

  function RequestedStop(pos: Position, sl: Option<real>, tick: nat): int {
    if sl.Some? then NormalizePrice(sl.value, tick, StopMode(pos, sl.value)) else pos.sl
  }

  function RequestedTarget(pos: Position, tp: Option<real>, tick: nat): int {
    if tp.Some? then NormalizePrice(tp.value, tick, Nearest) else pos.tp
  }

  /** The position after a request to move its levels. A broker never holds a negative level. */
  function Modified(pos: Position, sl: Option<real>, tp: Option<real>, tick: nat, m: Market): Position {
    var stop, target := RequestedStop(pos, sl, tick), RequestedTarget(pos, tp, tick);
    if m.accepts && StopsAllowed(pos.side, m, stop, target) && stop >= 0 && target >= 0 then
      pos.(sl := stop, tp := target)
    else pos
  }

  /** One re-read of the position after an accepted request. */
  datatype Reread = Failed | Gone | Held(sl: int, tp: int)

  datatype Verdict = Retained | ClosedMeanwhile | NotRetained | Unread

  const REREADS: nat := 3

  /** How far a level may be from the requested one; `least` is 1e-8 counted in units. */
  function LevelTolerance(tick: nat, least: real): real { Max(least, tick as real * 0.51) }

  predicate Matches(seen: Reread, sl: int, tp: int, tolerance: real) {
    seen.Held? && Abs((seen.sl - sl) as real) <= tolerance && Abs((seen.tp - tp) as real) <= tolerance
  }

  /** The first re-read that matches or finds the position gone decides, and otherwise the last one. */
  function VerdictOf(rereads: seq<Reread>, sl: int, tp: int, tolerance: real): Verdict {
    if rereads == [] then NotRetained
    else if rereads[0].Gone? then ClosedMeanwhile
    else if Matches(rereads[0], sl, tp, tolerance) then Retained
    else if |rereads| == 1 then if rereads[0].Failed? then Unread else NotRetained
    else VerdictOf(rereads[1..], sl, tp, tolerance)
  }

  // ---------------------------------------------------------------------------------------
  // Break-even and trailing
  // ---------------------------------------------------------------------------------------

  /** A set stop on the wrong side of `stop` is no reason to refuse it. */
  predicate Improves(pos: Position, stop: int) {
    if pos.side.Buy? then stop > pos.sl else pos.sl > 0 ==> stop < pos.sl
  }

  function BreakevenStop(pos: Position, buffer: real, m: Market): Option<int> {
    var stop := RoundHalfEven(if pos.side.Buy? then pos.open + buffer else pos.open - buffer);
    if pos.side.Buy? then
      if m.bid < stop as real || (pos.sl > 0 && stop <= pos.sl) then None else Some(stop)
    else
      if m.ask > stop as real || (pos.sl > 0 && stop >= pos.sl) then None else Some(stop)
  }

  function TrailingStop(pos: Position, trail: real, m: Market): Option<int> {
    if pos.side.Buy? then
      var stop := RoundHalfEven(m.bid - trail);
      if stop <= pos.sl then None else Some(stop)
    else
      var stop := RoundHalfEven(m.ask + trail);
      if pos.sl > 0 && stop >= pos.sl then None else Some(stop)
  }

  // ---------------------------------------------------------------------------------------
  // Net-profit lock
  // ---------------------------------------------------------------------------------------

  /** The broker's profit calculator for this position at an exit price. */
  type Calculator = real -> Reading<real>

  const PROFIT_TOLERANCE: real := 0.00000001

  function LockMode(side: Side): Mode { if side.Buy? then Up else Down }

  /** The price a distance further into profit. */
  function Beyond(side: Side, price: real, distance: real): real {
    if side.Buy? then price + distance else price - distance
  }

  /** The distance that a gross profit stands for, extended linearly from one pip. */
  function Reach(gross: real, perPip: real, pip: real): real
    requires perPip > 0.0
  {
    gross / perPip * pip
  }

  /** Moves a stop by at least a tick, and by as much as the missing profit seems to need. */
  function Corrected(side: Side, stop: int, deficit: real, perPip: real, pip: real, tick: nat): int
    requires perPip > 0.0
  {
    NormalizePrice(Beyond(side, stop as real, Max(tick as real, Reach(deficit, perPip, pip))), tick, LockMode(side))
  }

  /** Correct the stop until the broker's own calculator confirms the wanted gross profit. */
  function Solve(
    side: Side, stop: int, target: real, perPip: real, pip: real, tick: nat, calculate: Calculator, passes: nat)
    : Option<int>
    requires perPip > 0.0
    decreases passes
  {
    if passes == 0 then None
    else
      var projected := calculate(stop as real);
      if projected.Unreadable? then None
      else
        var deficit := target - projected.value;
        if deficit <= PROFIT_TOLERANCE then Some(stop)
        else
          var next := Corrected(side, stop, deficit, perPip, pip, tick);
          Solve(side, next, target, perPip, pip, tick, calculate, passes - 1)
  }

  /** The stop may be placed: it improves, lies strictly short of the live exit, and keeps its distance. */
  predicate Placeable(pos: Position, stop: int, m: Market) {
    var minimum := Max(m.stopsDistance, m.freezeDistance);
    && (pos.sl > 0 ==> Improves(pos, stop))
    && (if pos.side.Buy? then (stop as real) < m.bid else stop as real > m.ask)
    && (minimum > 0.0 ==> Abs(Exit(pos.side, m) - stop as real) >= minimum)
  }

  /** The starting estimate: one pip's profit, extended linearly. */
  function FirstLock(pos: Position, target: real, perPip: real, pip: real, tick: nat): int
    requires perPip > 0.0
  {
    NormalizePrice(Beyond(pos.side, pos.open, Reach(target, perPip, pip)), tick, LockMode(pos.side))
  }

  function LockStop(pos: Position, floor: real, cost: real, tick: nat, calculate: Calculator, m: Market): Option<int> {
    var probe := calculate(Beyond(pos.side, pos.open, m.pip));
    if floor < 0.0 || m.pip <= 0.0 || probe.Unreadable? || probe.value <= 0.0 || tick == 0 then None
    else
      var target := cost + floor - pos.swap;
      var first := FirstLock(pos, target, probe.value, m.pip, tick);
      var solved := Solve(pos.side, first, target, probe.value, m.pip, tick, calculate, 3);
      if solved.Some? && Placeable(pos, solved.value, m) then solved else None
  }

  // ---------------------------------------------------------------------------------------
  // The executor
  // ---------------------------------------------------------------------------------------

  datatype Protection =
    | Breakeven(buffer: real)
    | Lock(floor: real, cost: real, calculate: Calculator)
    | Trail(trail: real)

  function Wanted(pos: Position, what: Protection, tick: nat, m: Market): Option<int> {
    match what
    case Breakeven(buffer) => BreakevenStop(pos, buffer, m)
    case Lock(floor, cost, calculate) => LockStop(pos, floor, cost, tick, calculate, m)
    case Trail(trail) => TrailingStop(pos, trail, m)
  }

  function KeptTarget(pos: Position, what: Protection): Option<real> {
    if what.Trail? && pos.tp != 0 then Some(pos.tp as real) else None
  }

  function Protected(pos: Position, what: Protection, tick: nat, m: Market): Position {
    var stop := Wanted(pos, what, tick, m);
    if stop.None? then pos else Modified(pos, Some(stop.value as real), KeptTarget(pos, what), tick, m)
  }

  class StopManager {
    const tick: nat
    /** The position as the broker holds it. */
    var position: Position

    constructor (tick: nat, position: Position)
      ensures this.tick == tick && this.position == position
    {
      this.tick := tick;
      this.position := position;
    }

    method ModifyLevels(sl: Option<real>, tp: Option<real>, m: Market)
      modifies this
      ensures position == Modified(old(position), sl, tp, tick, m)
    {
      var stop := if sl.Some? then NormalizePrice(sl.value, tick, StopMode(position, sl.value)) else position.sl;
      var target := if tp.Some? then NormalizePrice(tp.value, tick, Nearest) else position.tp;
      if stop == position.sl && target == position.tp {
        return;
      }
      if StopsAllowed(position.side, m, stop, target) && m.accepts && stop >= 0 && target >= 0 {
        position := position.(sl := stop, tp := target);
      }
    }

    /** Re-reads the position after acceptance; only `Retained` counts as success. */
    method ReconcileModify(rereads: seq<Reread>, sl: int, tp: int, least: real) returns (verdict: Verdict)
      requires |rereads| == REREADS
      ensures verdict == VerdictOf(rereads, sl, tp, LevelTolerance(tick, least))
    {
      var tolerance := LevelTolerance(tick, least);
      var failed, retained, attempt := false, false, 0;
      while attempt < REREADS
        invariant attempt <= REREADS && !retained
        invariant attempt < REREADS ==>
                    VerdictOf(rereads, sl, tp, tolerance) == VerdictOf(rereads[attempt..], sl, tp, tolerance)
        invariant attempt == REREADS ==>
                    VerdictOf(rereads, sl, tp, tolerance) == if failed then Unread else NotRetained
      {
        match rereads[attempt] {
          case Failed =>
            failed := true;
          case Gone =>
            return ClosedMeanwhile;
          case Held(_, _) =>
            failed := false;
            retained := Matches(rereads[attempt], sl, tp, tolerance);
            if retained {
              break;
            }
        }
        attempt := attempt + 1;
      }
      return if failed then Unread else if retained then Retained else NotRetained;
    }

    method MoveToBreakeven(buffer: real, m: Market)
      modifies this
      ensures position == Protected(old(position), Breakeven(buffer), tick, m)
    {
      var stop := BreakevenStop(position, buffer, m);
      if stop.Some? {
        ModifyLevels(Some(stop.value as real), None, m);
      }
    }

    method ApplyTrailingStop(trail: real, m: Market)
      modifies this
      ensures position == Protected(old(position), Trail(trail), tick, m)
    {
      var stop := TrailingStop(position, trail, m);
      if stop.Some? {
        ModifyLevels(Some(stop.value as real), if position.tp != 0 then Some(position.tp as real) else None, m);
      }
    }

    /** The three verification passes, ending early once the calculator confirms the floor. */
    method SolveLock(first: int, target: real, perPip: real, m: Market, calculate: Calculator)
      returns (stop: Option<int>)
      requires perPip > 0.0
      ensures stop == Solve(position.side, first, target, perPip, m.pip, tick, calculate, 3)
    {
      hide Corrected;
      var lock, passes := first, 3;
      while passes > 0
        invariant Solve(position.side, first, target, perPip, m.pip, tick, calculate, 3)
               == Solve(position.side, lock, target, perPip, m.pip, tick, calculate, passes)
      {
        var projected := calculate(lock as real);
        if projected.Unreadable? {
          return None;
        }
        var deficit := target - projected.value;
        if deficit <= PROFIT_TOLERANCE {
          return Some(lock);
        }
        lock := Corrected(position.side, lock, deficit, perPip, m.pip, tick);
        passes := passes - 1;
      }
      return None;
    }

    method LockMinimumNetProfit(floor: real, cost: real, calculate: Calculator, m: Market)
      modifies this
      ensures position == Protected(old(position), Lock(floor, cost, calculate), tick, m)
    {
      if floor < 0.0 || m.pip <= 0.0 || tick == 0 {
        return;
      }
      var probe := calculate(Beyond(position.side, position.open, m.pip));
      if probe.Unreadable? || probe.value <= 0.0 {
        return;
      }
      var target := cost + floor - position.swap;
      var first := FirstLock(position, target, probe.value, m.pip, tick);
      var stop := SolveLock(first, target, probe.value, m, calculate);
      if stop.Some? && Placeable(position, stop.value, m) {
        ModifyLevels(Some(stop.value as real), None, m);
      }
    }
  }

  // ---------------------------------------------------------------------------------------
  // What takes effect, written out
  // ---------------------------------------------------------------------------------------

  /** Rounding to a grid: up and down with the slack, otherwise to the nearest level and to the even one of two
      that are as near. */
  predicate RoundedTo(level: int, price: real, grid: nat, mode: Mode)
    requires grid > 0
  {
    var slack := 0.0000000001 * grid as real;
    && level % grid == 0
    && (mode.Up? ==> price - slack <= level as real < price - slack + grid as real)
    && (mode.Down? ==> level as real <= price + slack < level as real + grid as real)
    && (mode.Nearest? ==>
          && 2.0 * (level as real - price) <= grid as real && 2.0 * (price - level as real) <= grid as real
          && (2.0 * (level as real - price) == grid as real || 2.0 * (price - level as real) == grid as real ==>
                level / grid % 2 == 0))
  }

  lemma RoundingWrittenOut(price: real, tick: nat, mode: Mode)
    ensures RoundedTo(NormalizePrice(price, tick, mode), price, if tick == 0 then 1 else tick,
                      if tick == 0 then Nearest else mode)
  {
    if tick == 0 {
      NearestWrittenOut(price);
    } else {
      var n := Units(price / tick as real, mode);
      match mode {
        case Nearest =>
          NearestWrittenOut(price / tick as real);
          NearestScaled(n, price, tick);
        case Up => UpScaled(n, price, tick);
        case Down => DownScaled(n, price, tick);
      }
    }
  }

  lemma UpScaled(n: int, price: real, tick: nat)
    requires tick > 0 && n as real - 1.0 < price / tick as real - SLACK <= n as real
    ensures RoundedTo(n * tick, price, tick, Up)
  {
    var t := tick as real;
    MultipleOnTick(n, tick);
    QuotientBelow(price, -SLACK, n as real, t);
    QuotientBelow(price, -SLACK, n as real - 1.0, t);
    OneAway(n, tick);
  }

  lemma DownScaled(n: int, price: real, tick: nat)
    requires tick > 0 && n as real <= price / tick as real + SLACK < n as real + 1.0
    ensures RoundedTo(n * tick, price, tick, Down)
  {
    var t := tick as real;
    MultipleOnTick(n, tick);
    QuotientBelow(price, SLACK, n as real, t);
    QuotientBelow(price, SLACK, n as real + 1.0, t);
    OneAway(n, tick);
  }

  lemma OneAway(n: int, tick: nat)
    ensures n as real * tick as real == (n * tick) as real
    ensures (n as real - 1.0) * tick as real == (n * tick) as real - tick as real
    ensures (n as real + 1.0) * tick as real == (n * tick) as real + tick as real
  {
    assert (n as real - 1.0) * tick as real == n as real * tick as real - tick as real;
    assert (n as real + 1.0) * tick as real == n as real * tick as real + tick as real;
  }

  lemma NearestWrittenOut(x: real)
    ensures RoundedTo(RoundHalfEven(x), x, 1, Nearest)
  {
  }

  lemma NearestScaled(n: int, price: real, tick: nat)
    requires tick > 0 && RoundedTo(n, price / tick as real, 1, Nearest)
    ensures RoundedTo(n * tick, price, tick, Nearest)
  {
    var t := tick as real;
    var gap := 2.0 * (n as real - price / t);
    var scaled := 2.0 * ((n * tick) as real - price);
    assert -1.0 <= gap <= 1.0 && (gap == 1.0 || gap == -1.0 ==> n % 2 == 0);
    MultipleOnTick(n, tick);
    DivModUnique(n * tick, tick, n, 0);
    GapScales(n, price, tick);
    assert (n * tick) % tick == 0 && n * tick / tick == n;
    assert scaled <= t && -scaled <= t && (scaled == t || -scaled == t ==> n % 2 == 0);
  }

  lemma GapScales(n: int, price: real, tick: nat)
    requires tick > 0
    ensures
      var t, gap, scaled := tick as real, 2.0 * (n as real - price / tick as real), 2.0 * ((n * tick) as real - price);
      && (gap <= 1.0 <==> scaled <= t) && (gap < 1.0 <==> scaled < t)
      && (-1.0 <= gap <==> -t <= scaled) && (-1.0 < gap <==> -t < scaled)
  {
    var t, units := tick as real, price / tick as real;
    OneAway(n, tick);
    GapTimes(n as real, units, t);
    assert units * t == price;
    WithinOne(2.0 * (n as real - units), 2.0 * ((n * tick) as real - price), t);
  }

  lemma WithinOne(gap: real, scaled: real, t: real)
    requires t > 0.0 && gap * t == scaled
    ensures (gap <= 1.0 <==> scaled <= t) && (gap < 1.0 <==> scaled < t)
    ensures (-1.0 <= gap <==> -t <= scaled) && (-1.0 < gap <==> -t < scaled)
  {
    ScalesTo(gap, 1.0, t);
    ScalesTo(-1.0, gap, t);
  }

  lemma GapTimes(a: real, b: real, t: real)
    ensures 2.0 * (a - b) * t == 2.0 * (a * t - b * t)
  {
  }

  /** A broker takes two levels if they lie on either side of the quote at which the position would close, each
      at least the minimum distance away; zero stands for a level that is not set. */
  predicate Takeable(side: Side, m: Market, sl: int, tp: int) {
    var distance := if m.stopsDistance > 0.0 then m.stopsDistance else 0.0;
    if sl == 0 || tp == 0 then !m.bothRequired
    else
      match side
      case Buy => sl as real < m.bid < tp as real && m.bid - sl as real >= distance && tp as real - m.bid >= distance
      case Sell => tp as real < m.ask < sl as real && sl as real - m.ask >= distance && m.ask - tp as real >= distance
  }

  /** Stops beyond the entry round towards profit, all others outward. */
  predicate RoundedStop(pos: Position, price: real, tick: nat, stop: int) {
    var outward := match pos.side case Buy => price <= pos.open case Sell => price >= pos.open;
    var mode := if pos.side == Buy then (if outward then Down else Up) else (if outward then Up else Down);
    if tick == 0 then RoundedTo(stop, price, 1, Nearest) else RoundedTo(stop, price, tick, mode)
  }

  lemma RequestedStopWrittenOut(pos: Position, price: real, tick: nat)
    ensures RoundedStop(pos, price, tick, RequestedStop(pos, Some(price), tick))
  {
    RoundingWrittenOut(price, tick, StopMode(pos, price));
    hide RoundedTo, NormalizePrice;
  }

  /** A request takes effect exactly when the broker accepts it, neither level is negative, and the levels are
      takeable; the position then has exactly these levels. */
  lemma ModifiedIff(pos: Position, sl: Option<real>, tp: Option<real>, tick: nat, m: Market)
    ensures
      var stop, target := RequestedStop(pos, sl, tick), RequestedTarget(pos, tp, tick);
      && (sl.None? ==> stop == pos.sl) && (tp.None? ==> target == pos.tp)
      && (sl.Some? ==> RoundedStop(pos, sl.value, tick, stop))
      && (tp.Some? ==> RoundedTo(target, tp.value, if tick == 0 then 1 else tick, Nearest))
      && Modified(pos, sl, tp, tick, m)
           == if m.accepts && stop >= 0 && target >= 0 && Takeable(pos.side, m, stop, target) then
                Position(pos.side, pos.open, stop, target, pos.swap)
              else pos
  {
    if sl.Some? { RequestedStopWrittenOut(pos, sl.value, tick); }
    if tp.Some? { RoundingWrittenOut(tp.value, tick, Nearest); }
    TakeableIff(pos.side, m, RequestedStop(pos, sl, tick), RequestedTarget(pos, tp, tick));
    hide RoundedTo, RoundedStop, NormalizePrice, StopsAllowed, Takeable;
  }

  lemma TakeableIff(side: Side, m: Market, sl: int, tp: int)
    ensures StopsAllowed(side, m, sl, tp) <==> Takeable(side, m, sl, tp)
  {
  }

  /** Break-even: asked for once the live exit has reached the entry plus the buffer, unless a stop is set that is
      at least as good. */
  lemma BreakevenIff(pos: Position, buffer: real, tick: nat, m: Market) returns (wanted: int, stop: int)
    ensures RoundedTo(wanted, if pos.side == Buy then pos.open + buffer else pos.open - buffer, 1, Nearest)
    ensures RoundedStop(pos, wanted as real, tick, stop)
    ensures
      var due :=
        match pos.side
        case Buy => wanted as real <= m.bid && (pos.sl <= 0 || pos.sl < wanted)
        case Sell => wanted as real >= m.ask && (pos.sl <= 0 || pos.sl > wanted);
      Protected(pos, Breakeven(buffer), tick, m)
        == if due && m.accepts && stop >= 0 && pos.tp >= 0 && Takeable(pos.side, m, stop, pos.tp) then
             Position(pos.side, pos.open, stop, pos.tp, pos.swap)
           else pos
  {
    hide RoundedTo, RoundedStop, NormalizePrice, Modified, Takeable, RoundHalfEven;
    var price := if pos.side.Buy? then pos.open + buffer else pos.open - buffer;
    NearestWrittenOut(price);
    wanted := RoundHalfEven(price);
    stop := RequestedStop(pos, Some(wanted as real), tick);
    RequestedStopWrittenOut(pos, wanted as real, tick);
    ModifiedIff(pos, Some(wanted as real), None, tick, m);
  }

  /** Trailing: asked for whenever the stop at the given distance behind the live exit beats the present one. */
  lemma TrailingIff(pos: Position, trail: real, tick: nat, m: Market) returns (wanted: int, stop: int, target: int)
    ensures RoundedTo(wanted, if pos.side == Buy then m.bid - trail else m.ask + trail, 1, Nearest)
    ensures RoundedStop(pos, wanted as real, tick, stop)
    ensures
      if pos.tp == 0 then target == 0
      else RoundedTo(target, pos.tp as real, if tick == 0 then 1 else tick, Nearest)
    ensures
      var due := match pos.side case Buy => wanted > pos.sl case Sell => pos.sl <= 0 || wanted < pos.sl;
      Protected(pos, Trail(trail), tick, m)
        == if due && m.accepts && stop >= 0 && target >= 0 && Takeable(pos.side, m, stop, target) then
             Position(pos.side, pos.open, stop, target, pos.swap)
           else pos
  {
    hide RoundedTo, RoundedStop, NormalizePrice, Modified, Takeable, RoundHalfEven;
    var price := if pos.side.Buy? then m.bid - trail else m.ask + trail;
    NearestWrittenOut(price);
    wanted := RoundHalfEven(price);
    var kept := if pos.tp != 0 then Some(pos.tp as real) else None;
    stop, target := RequestedStop(pos, Some(wanted as real), tick), RequestedTarget(pos, kept, tick);
    ModifiedIff(pos, Some(wanted as real), kept, tick, m);
  }

  /** A stop may be locked: it beats a stop that is set, is short of the live exit, and keeps the larger of the
      stop and the freeze distance if either is positive. */
  predicate Lockable(pos: Position, stop: int, m: Market) {
    var room := if pos.side == Buy then m.bid - stop as real else stop as real - m.ask;
    && (pos.sl > 0 ==> if pos.side == Buy then pos.sl < stop else stop < pos.sl)
    && room > 0.0
    && (m.stopsDistance > 0.0 ==> room >= m.stopsDistance) && (m.freezeDistance > 0.0 ==> room >= m.freezeDistance)
  }

  lemma LockableIff(pos: Position, stop: int, m: Market)
    ensures Placeable(pos, stop, m) <==> Lockable(pos, stop, m)
  {
  }

  /** The distance beyond a price at which the lock looks next. */
  predicate LooksAt(pos: Position, from: real, distance: real, tick: nat, stop: int)
    requires tick > 0
  {
    if pos.side == Buy then RoundedTo(stop, from + distance, tick, Up) else RoundedTo(stop, from - distance, tick, Down)
  }

  /** The profit that a stop still lacks, if the calculator answers. */
  predicate Lacks(calculate: Calculator, stop: int, target: real, deficit: real) {
    && calculate(stop as real).Readable? && deficit == target - calculate(stop as real).value
    && deficit > 0.00000001
  }

  predicate Confirms(calculate: Calculator, stop: int, target: real) {
    calculate(stop as real).Readable? && calculate(stop as real).value + 0.00000001 >= target
  }

  /** The stops that a lock looks at: the linear estimate, then further by the missing profit or at least a tick,
      each time the calculator shows that profit is missing, at most three in all. */
  predicate LockTrail(
    pos: Position, target: real, perPip: real, pip: real, tick: nat, calculate: Calculator, trail: seq<int>)
    requires perPip > 0.0 && tick > 0
  {
    && 1 <= |trail| <= 3
    && LooksAt(pos, pos.open, target / perPip * pip, tick, trail[0])
    && (|trail| > 1 ==> LooksFurther(pos, target, perPip, pip, tick, calculate, trail[0], trail[1]))
    && (|trail| > 2 ==> LooksFurther(pos, target, perPip, pip, tick, calculate, trail[1], trail[2]))
    && (|trail| < 3 ==>
          var last := trail[|trail| - 1]; calculate(last as real).Unreadable? || Confirms(calculate, last, target))
  }

  predicate LooksFurther(
    pos: Position, target: real, perPip: real, pip: real, tick: nat, calculate: Calculator, stop: int, next: int)
    requires perPip > 0.0 && tick > 0
  {
    var projected := calculate(stop as real);
    && projected.Readable? && Lacks(calculate, stop, target, target - projected.value)
    && var reach := (target - projected.value) / perPip * pip;
       LooksAt(pos, stop as real, if reach > tick as real then reach else tick as real, tick, next)
  }

  /** The profit lock: nothing happens without a floor, pip, tick and a positive profit per pip; otherwise the last
      stop it looks at is placed exactly when the calculator confirms it, it may be locked, and the broker takes
      it. */
  lemma LockIff(pos: Position, floor: real, cost: real, tick: nat, calculate: Calculator, m: Market)
    returns (trail: seq<int>)
    ensures
      var probe := calculate(if pos.side == Buy then pos.open + m.pip else pos.open - m.pip);
      var target := cost + floor - pos.swap;
      var after := Protected(pos, Lock(floor, cost, calculate), tick, m);
      if floor < 0.0 || m.pip <= 0.0 || tick == 0 || probe.Unreadable? || probe.value <= 0.0 then after == pos
      else
        && LockTrail(pos, target, probe.value, m.pip, tick, calculate, trail)
        && var stop := trail[|trail| - 1];
           after == if Confirms(calculate, stop, target) && Lockable(pos, stop, m) && m.accepts && stop >= 0
                       && pos.tp >= 0 && Takeable(pos.side, m, stop, pos.tp) then
                      Position(pos.side, pos.open, stop, pos.tp, pos.swap)
                    else pos
  {
    hide LockTrail, Solve, NormalizePrice, RoundedTo, RoundedStop, Placeable, Lockable, FirstLock, Takeable, Confirms;
    trail := [];
    var probe := calculate(Beyond(pos.side, pos.open, m.pip));
    if floor >= 0.0 && m.pip > 0.0 && tick > 0 && probe.Readable? && probe.value > 0.0 {
      var target := cost + floor - pos.swap;
      trail := SolveTrail(pos, target, probe.value, m.pip, tick, calculate);
      var stop := trail[|trail| - 1];
      LockableIff(pos, stop, m);
      if LockStop(pos, floor, cost, tick, calculate, m).Some? {
        LockIsExact(pos, floor, cost, tick, calculate, m);
        ModifiedIff(pos, Some(stop as real), None, tick, m);
      }
      hide Modified;
    }
  }

  lemma SolveTrail(pos: Position, target: real, perPip: real, pip: real, tick: nat, calculate: Calculator)
    returns (trail: seq<int>)
    requires perPip > 0.0 && tick > 0
    ensures trail != []
    ensures LockTrail(pos, target, perPip, pip, tick, calculate, trail)
    ensures
      var stop := trail[|trail| - 1];
      Solve(pos.side, FirstLock(pos, target, perPip, pip, tick), target, perPip, pip, tick, calculate, 3)
        == if Confirms(calculate, stop, target) then Some(stop) else None
  {
    hide NormalizePrice, RoundedTo;
    var first := FirstLock(pos, target, perPip, pip, tick);
    FirstLooksAt(pos, target, perPip, pip, tick);
    trail := [first];
    if calculate(first as real).Readable? && !Confirms(calculate, first, target) {
      var second := Corrected(pos.side, first, target - calculate(first as real).value, perPip, pip, tick);
      CorrectedLooks(pos, target, perPip, pip, tick, calculate, first);
      trail := [first, second];
      if calculate(second as real).Readable? && !Confirms(calculate, second, target) {
        var third := Corrected(pos.side, second, target - calculate(second as real).value, perPip, pip, tick);
        CorrectedLooks(pos, target, perPip, pip, tick, calculate, second);
        trail := [first, second, third];
      }
    }
    hide LooksAt, LooksFurther, Corrected, FirstLock;
  }

  lemma FirstLooksAt(pos: Position, target: real, perPip: real, pip: real, tick: nat)
    requires perPip > 0.0 && tick > 0
    ensures LooksAt(pos, pos.open, target / perPip * pip, tick, FirstLock(pos, target, perPip, pip, tick))
  {
    RoundingWrittenOut(Beyond(pos.side, pos.open, Reach(target, perPip, pip)), tick, LockMode(pos.side));
    hide NormalizePrice, RoundedTo;
  }

  lemma CorrectedLooks(
    pos: Position, target: real, perPip: real, pip: real, tick: nat, calculate: Calculator, stop: int)
    requires perPip > 0.0 && tick > 0
    requires calculate(stop as real).Readable? && !Confirms(calculate, stop, target)
    ensures
      var deficit := target - calculate(stop as real).value;
      LooksFurther(
        pos, target, perPip, pip, tick, calculate, stop, Corrected(pos.side, stop, deficit, perPip, pip, tick))
  {
    var deficit := target - calculate(stop as real).value;
    RoundingWrittenOut(
      Beyond(pos.side, stop as real, Max(tick as real, Reach(deficit, perPip, pip))), tick, LockMode(pos.side));
    hide NormalizePrice, RoundedTo;
  }

  // ---------------------------------------------------------------------------------------
  // Stops never loosen
  // ---------------------------------------------------------------------------------------

  predicate LevelsOnTick(pos: Position, tick: nat) {
    pos.sl >= 0 && pos.tp >= 0 && OnTick(pos.sl, tick) && OnTick(pos.tp, tick)
  }

  /** For a sell, a stop that is set stays set: zero would remove it. */
  predicate NoLooserStop(before: Position, after: Position) {
    && after.side == before.side
    && (if before.side.Buy? then before.sl <= after.sl else before.sl > 0 ==> 0 < after.sl <= before.sl)
  }

  predicate NoLooser(before: Position, after: Position) {
    NoLooserStop(before, after) && after.tp == before.tp
  }

  /** For a sell, neither the ask nor a trailing stop behind it is nearer to zero than a tick and a unit. */
  predicate Plausible(side: Side, what: Protection, tick: nat, m: Market) {
    side.Sell? ==>
      && m.ask >= tick as real && m.ask >= 1.0
      && (what.Trail? ==> m.ask + what.trail >= tick as real && m.ask + what.trail >= 1.0)
  }

  ghost predicate PlausibleRun(side: Side, steps: seq<(Protection, Market)>, tick: nat) {
    forall step | step in steps :: Plausible(side, step.0, tick, step.1)
  }

  lemma WantedImproves(pos: Position, what: Protection, tick: nat, m: Market)
    requires pos.sl >= 0 && Wanted(pos, what, tick, m).Some?
    ensures pos.sl > 0 ==> Improves(pos, Wanted(pos, what, tick, m).value)
    ensures pos.side.Sell? && Plausible(pos.side, what, tick, m) ==>
              Wanted(pos, what, tick, m).value >= tick && Wanted(pos, what, tick, m).value > 0
  {
    if pos.side.Sell? && what.Trail? && Plausible(pos.side, what, tick, m) {
      RoundHalfEvenBounds(tick as real, m.ask + what.trail);
      RoundHalfEvenBounds(1.0, m.ask + what.trail);
    }
  }

  /** What a step that takes effect leaves behind: the rounded request, on the grid. */
  lemma StopAfter(pos: Position, what: Protection, tick: nat, m: Market)
    ensures
      var after := Protected(pos, what, tick, m);
      after != pos ==>
        && Wanted(pos, what, tick, m).Some? && after.side == pos.side && after.sl >= 0
        && after.sl == RequestedStop(pos, Some(Wanted(pos, what, tick, m).value as real), tick)
        && OnTick(after.sl, tick)
        && after.tp == RequestedTarget(pos, KeptTarget(pos, what), tick)
  {
    var stop := Wanted(pos, what, tick, m);
    if stop.Some? {
      hide Wanted, StopsAllowed, NormalizePrice;
      NormalizeGrid(stop.value as real, tick, StopMode(pos, stop.value as real), 0);
    }
  }

  /** One protection step, whatever the market, the calculator and the broker's answer. */
  lemma ProtectionNeverLoosens(pos: Position, what: Protection, tick: nat, m: Market)
    requires LevelsOnTick(pos, tick) && Plausible(pos.side, what, tick, m)
    ensures var after := Protected(pos, what, tick, m); NoLooser(pos, after) && LevelsOnTick(after, tick)
  {
    var stop := Wanted(pos, what, tick, m);
    if stop.Some? {
      WantedImproves(pos, what, tick, m);
      hide Wanted, StopsAllowed, NormalizePrice;
      var wanted := stop.value as real;
      NormalizeGrid(wanted, tick, StopMode(pos, wanted), pos.sl);
      NormalizeGrid(wanted, tick, StopMode(pos, wanted), if tick == 0 then 1 else tick);
      NormalizeGrid(pos.tp as real, tick, Nearest, pos.tp);
    }
  }

  /** A wanted stop so near zero that rounding leaves none. */
  predicate RoundsAway(pos: Position, wanted: int, tick: nat) {
    if tick == 0 then wanted == 0
    else
      var slack := SLACK * tick as real;
      match StopMode(pos, wanted as real)
      case Down => -slack <= wanted as real < tick as real - slack
      case _ => slack - (tick as real) < wanted as real <= slack
  }

  /** The step takes the stop of a sell away, because the wanted one rounds to nothing. */
  predicate Removes(pos: Position, what: Protection, tick: nat, m: Market) {
    var wanted := Wanted(pos, what, tick, m);
    && pos.side.Sell? && pos.sl > 0 && Protected(pos, what, tick, m) != pos
    && wanted.Some? && RoundsAway(pos, wanted.value, tick)
  }

  /** For levels on the grid, a step makes matters worse exactly when it takes the stop of a sell away,
      whatever the quotes and the trailing distance. */
  lemma ProtectionLoosensIff(pos: Position, what: Protection, tick: nat, m: Market)
    requires LevelsOnTick(pos, tick)
    ensures
      var after := Protected(pos, what, tick, m);
      LevelsOnTick(after, tick) && (NoLooser(pos, after) <==> !Removes(pos, what, tick, m))
  {
    var after := Protected(pos, what, tick, m);
    if after != pos {
      StopAfter(pos, what, tick, m);
      WantedImproves(pos, what, tick, m);
      var wanted := Wanted(pos, what, tick, m).value;
      RoundsToNothing(wanted, tick, StopMode(pos, wanted as real));
      hide Wanted, NormalizePrice, Protected;
      NormalizeGrid(wanted as real, tick, StopMode(pos, wanted as real), pos.sl);
      NormalizeGrid(pos.tp as real, tick, Nearest, pos.tp);
      hide OnTick;
    }
  }

  lemma RoundsToNothing(wanted: int, tick: nat, mode: Mode)
    requires !mode.Nearest?
    ensures
      NormalizePrice(wanted as real, tick, mode) == 0 <==>
        if tick == 0 then wanted == 0
        else if mode.Down? then -SLACK * tick as real <= wanted as real < tick as real - SLACK * tick as real
        else SLACK * tick as real - (tick as real) < wanted as real <= SLACK * tick as real
  {
    if tick == 0 {
      RoundHalfEvenBounds(wanted as real, wanted as real);
    } else {
      var t := tick as real;
      var units := wanted as real / t;
      QuotientBelow(wanted as real, SLACK, 0.0, t);
      QuotientBelow(wanted as real, SLACK, 1.0, t);
      QuotientBelow(wanted as real, -SLACK, 0.0, t);
      QuotientBelow(wanted as real, -SLACK, -1.0, t);
      var n := Units(units, mode);
      assert n == 0 <==> if mode.Down? then -SLACK <= units < 1.0 - SLACK else SLACK - 1.0 < units <= SLACK;
      hide Units;
      assert n * tick == 0 <==> n == 0 by { if n != 0 { NonZeroProduct(n, tick); } }
    }
  }

  lemma NonZeroProduct(n: int, tick: nat)
    requires n != 0 && tick > 0
    ensures n * tick != 0
  {
    if n > 0 { ScaleOrder(1, n, tick); } else { ScaleOrder(n, -1, tick); }
  }

  lemma ScalesTo(units: real, bound: real, t: real)
    requires t > 0.0
    ensures units <= bound <==> units * t <= bound * t
    ensures units < bound <==> units * t < bound * t
  {
  }

  /** A step moves the take-profit exactly when it is a trailing step that takes effect on a target off the
      grid. */
  lemma TargetMovesIff(pos: Position, what: Protection, tick: nat, m: Market)
    ensures
      var after := Protected(pos, what, tick, m);
      after.tp != pos.tp <==> after != pos && what.Trail? && !OnTick(pos.tp, tick)
  {
    StopAfter(pos, what, tick, m);
    hide NormalizePrice, Protected, Wanted;
    NormalizeGrid(pos.tp as real, tick, Nearest, 0);
    if OnTick(pos.tp, tick) { NormalizeGrid(pos.tp as real, tick, Nearest, pos.tp); }
  }

  function ProtectedBy(pos: Position, steps: seq<(Protection, Market)>, tick: nat): Position
    decreases |steps|
  {
    if steps == [] then pos else ProtectedBy(Protected(pos, steps[0].0, tick, steps[0].1), steps[1..], tick)
  }

  predicate NothingRemoved(pos: Position, steps: seq<(Protection, Market)>, tick: nat)
    decreases |steps|
  {
    steps == [] ||
    (!Removes(pos, steps[0].0, tick, steps[0].1) &&
     NothingRemoved(Protected(pos, steps[0].0, tick, steps[0].1), steps[1..], tick))
  }

  /** Any interleaving of break-even, profit-lock and trailing steps that takes no stop away: a buy stop only
      rises, a sell stop once set only falls and stays set, and the take-profit never moves. */
  lemma {:induction false} StopsNeverLoosen(pos: Position, steps: seq<(Protection, Market)>, tick: nat)
    requires LevelsOnTick(pos, tick) && NothingRemoved(pos, steps, tick)
    ensures NoLooser(pos, ProtectedBy(pos, steps, tick)) && LevelsOnTick(ProtectedBy(pos, steps, tick), tick)
    decreases |steps|
  {
    if steps != [] {
      hide Protected, LevelsOnTick, Removes;
      ProtectionLoosensIff(pos, steps[0].0, tick, steps[0].1);
      StopsNeverLoosen(Protected(pos, steps[0].0, tick, steps[0].1), steps[1..], tick);
    }
  }

  /** No stop is ever taken away from a buy, nor by quotes and trailing stops of at least a tick and a unit. */
  lemma {:induction false} NothingRemovedWhenPlausible(pos: Position, steps: seq<(Protection, Market)>, tick: nat)
    requires LevelsOnTick(pos, tick) && PlausibleRun(pos.side, steps, tick)
    ensures NothingRemoved(pos, steps, tick)
    decreases |steps|
  {
    if steps != [] {
      hide Protected, LevelsOnTick, Plausible, Removes;
      ProtectionNeverLoosens(pos, steps[0].0, tick, steps[0].1);
      ProtectionLoosensIff(pos, steps[0].0, tick, steps[0].1);
      NothingRemovedWhenPlausible(Protected(pos, steps[0].0, tick, steps[0].1), steps[1..], tick);
    }
  }

  /** Break-even and trailing stops are asked for within half a unit of where they belong, break-even only
      once the live exit has reached it. */
  lemma WantedStopsAreWhereTheyBelong(pos: Position, amount: real, m: Market)
    ensures
      var stop := BreakevenStop(pos, amount, m);
      stop.Some? ==>
        && Abs(stop.value as real - Beyond(pos.side, pos.open, amount)) <= 0.5
        && Gain(pos.side, stop.value as real, Exit(pos.side, m)) >= 0.0
    ensures
      var stop := TrailingStop(pos, amount, m);
      stop.Some? ==> Abs(Gain(pos.side, stop.value as real, Exit(pos.side, m)) - amount) <= 0.5
  {
    RoundHalfEvenBounds(Beyond(pos.side, pos.open, amount), Beyond(pos.side, pos.open, amount));
    var trail := if pos.side.Buy? then m.bid - amount else m.ask + amount;
    RoundHalfEvenBounds(trail, trail);
  }

  /** A requested stop beyond the entry is never rounded to less profit, and any other never to a nearer
      stop, but for the slack; either way it moves by less than a tick. */
  lemma StopsRoundTheSafeWay(pos: Position, requested: real, tick: nat)
    requires tick > 0
    ensures
      var gained := Gain(pos.side, requested, RequestedStop(pos, Some(requested), tick) as real);
      if Gain(pos.side, pos.open, requested) > 0.0 then
        -SLACK * tick as real <= gained < tick as real
      else
        -(tick as real) < gained <= SLACK * tick as real
  {
    hide NormalizePrice;
    NormalizeReach(requested, tick);
  }

  /** Levels that take effect obey the broker's rules: when both are set they lie on either side of the live
      exit, each at its minimum distance. */
  lemma LevelsInForceAreAllowed(pos: Position, what: Protection, tick: nat, m: Market)
    requires Protected(pos, what, tick, m) != pos
    ensures
      var after := Protected(pos, what, tick, m);
      && m.accepts && after.sl >= 0 && after.tp >= 0
      && (after.sl != 0 && after.tp != 0 ==>
            && Gain(pos.side, after.sl as real, Exit(pos.side, m)) > 0.0
            && Gain(pos.side, Exit(pos.side, m), after.tp as real) > 0.0
            && Gain(pos.side, after.sl as real, Exit(pos.side, m)) >= m.stopsDistance
            && Gain(pos.side, Exit(pos.side, m), after.tp as real) >= m.stopsDistance)
      && (m.bothRequired ==> after.sl != 0 && after.tp != 0)
  {
    hide Wanted, NormalizePrice;
  }

  predicate DecidedAt(rereads: seq<Reread>, sl: int, tp: int, tolerance: real, i: nat) {
    && i < |rereads| && (rereads[i].Gone? || Matches(rereads[i], sl, tp, tolerance))
    && forall j | 0 <= j < i :: !rereads[j].Gone? && !Matches(rereads[j], sl, tp, tolerance)
  }

  /** A modification counts as retained exactly when some re-read showed the requested levels before any
      showed the position gone; the other verdicts are told apart by what was seen. */
  lemma {:induction false} VerdictMeaning(rereads: seq<Reread>, sl: int, tp: int, tolerance: real)
    requires rereads != []
    ensures
      var v := VerdictOf(rereads, sl, tp, tolerance);
      && (v.Retained? <==> exists i: nat :: DecidedAt(rereads, sl, tp, tolerance, i) && !rereads[i].Gone?)
      && (v.ClosedMeanwhile? <==> exists i: nat :: DecidedAt(rereads, sl, tp, tolerance, i) && rereads[i].Gone?)
      && (v.Unread? ==> rereads[|rereads| - 1].Failed?) && (v.NotRetained? ==> rereads[|rereads| - 1].Held?)
  {
    hide Matches;
    if rereads[0].Gone? || Matches(rereads[0], sl, tp, tolerance) {
      assert DecidedAt(rereads, sl, tp, tolerance, 0);
    } else if |rereads| > 1 {
      var rest := rereads[1..];
      VerdictMeaning(rest, sl, tp, tolerance);
      forall i: nat ensures DecidedAt(rest, sl, tp, tolerance, i) <==> DecidedAt(rereads, sl, tp, tolerance, i + 1) {
        assert i < |rest| ==> rest[i] == rereads[i + 1];
        if DecidedAt(rest, sl, tp, tolerance, i) {
          forall j | 0 <= j < i + 1 ensures !rereads[j].Gone? && !Matches(rereads[j], sl, tp, tolerance) {
            if j > 0 { assert rest[j - 1] == rereads[j]; }
          }
        }
        if DecidedAt(rereads, sl, tp, tolerance, i + 1) {
          forall j | 0 <= j < i ensures !rest[j].Gone? && !Matches(rest[j], sl, tp, tolerance) {
            assert rest[j] == rereads[j + 1];
          }
        }
      }
      forall i: nat | DecidedAt(rereads, sl, tp, tolerance, i)
        ensures i > 0 && DecidedAt(rest, sl, tp, tolerance, i - 1)
      {
        assert i > 0;
        assert DecidedAt(rest, sl, tp, tolerance, i - 1) <==> DecidedAt(rereads, sl, tp, tolerance, i - 1 + 1);
      }
    }
  }

  /** A level counts as the one that was sent within 51 hundredths of a tick, or within the least tolerance. */
  predicate CountsAs(seen: int, sent: int, tick: nat, least: real) {
    var apart := if seen < sent then sent - seen else seen - sent;
    100 * apart <= 51 * tick || apart as real <= least
  }

  lemma MatchesIff(seen: Reread, sl: int, tp: int, tick: nat, least: real)
    ensures Matches(seen, sl, tp, LevelTolerance(tick, least)) <==>
              seen.Held? && CountsAs(seen.sl, sl, tick, least) && CountsAs(seen.tp, tp, tick, least)
  {
    if seen.Held? {
      CountsAsIff(seen.sl, sl, tick, least);
      CountsAsIff(seen.tp, tp, tick, least);
    }
    hide LevelTolerance, CountsAs;
  }

  lemma CountsAsIff(seen: int, sent: int, tick: nat, least: real)
    ensures CountsAs(seen, sent, tick, least) <==> Abs((seen - sent) as real) <= LevelTolerance(tick, least)
  {
  }

  /** On the grid the tolerance tells levels apart: a re-read matches exactly when it shows the very levels
      that were sent. */
  lemma MatchesExactly(seen: Reread, sl: int, tp: int, tick: nat, least: real)
    requires 0.0 <= least < 1.0 && seen.Held?
    requires OnTick(sl, tick) && OnTick(tp, tick) && OnTick(seen.sl, tick) && OnTick(seen.tp, tick)
    ensures Matches(seen, sl, tp, LevelTolerance(tick, least)) <==> seen == Held(sl, tp)
  {
    ApartByATick(seen.sl, sl, tick);
    ApartByATick(seen.tp, tp, tick);
  }

  lemma ApartByATick(a: int, b: int, tick: nat)
    requires OnTick(a, tick) && OnTick(b, tick)
    ensures a != b ==> a - b >= tick || b - a >= tick
  {
    if tick > 0 && a != b {
      TickQuotient(a, tick);
      TickQuotient(b, tick);
      var i, j := a / tick, b / tick;
      if i < j { ScaleOrder(i + 1, j, tick); } else { ScaleOrder(j + 1, i, tick); }
    }
  }

  // ---------------------------------------------------------------------------------------
  // Stops off the grid
  // ---------------------------------------------------------------------------------------

  /** A stop that lies behind a level, seen from the side of profit. */
  predicate Behind(side: Side, stop: int, level: int) { if side.Buy? then stop < level else stop > level }

  /** The least improvement of a stop, and what it is rounded to. */
  function NextStop(pos: Position): int { if pos.side.Buy? then pos.sl + 1 else pos.sl - 1 }

  function NextRounded(pos: Position, tick: nat): int { RequestedStop(pos, Some(NextStop(pos) as real), tick) }

  /** Some quote lets the broker take the rounded stop together with the target as it is, or as a trailing step
      rounds it. */
  predicate HasRoom(pos: Position, tick: nat) {
    var nearest := NormalizePrice(pos.tp as real, tick, Nearest);
    || NextRounded(pos, tick) == 0 || pos.tp == 0 || nearest == 0
    || Behind(pos.side, NextStop(pos), pos.tp) || Behind(pos.side, NextRounded(pos, tick), nearest)
  }

  /** The least improvement is rounded to a stop behind the present one, and a plausible step can place it. */
  predicate CanLoosen(pos: Position, tick: nat) {
    && pos.sl > 0 && (pos.side.Sell? ==> NextStop(pos) >= tick && NextStop(pos) >= 1)
    && Behind(pos.side, NextRounded(pos, tick), pos.sl) && HasRoom(pos, tick)
  }

  /** The source's rounding slack is less than one unit. */
  predicate FineSlack(tick: nat) { SLACK * tick as real < 1.0 }

  lemma RoundWhole(price: int, tick: nat)
    requires tick > 0 && FineSlack(tick)
    ensures NormalizePrice(price as real, tick, Down) == price - price % tick
    ensures NormalizePrice(price as real, tick, Up) == if price % tick == 0 then price else price - price % tick + tick
  {
    var q, r, t := price / tick, price % tick, tick as real;
    var part := r as real / t;
    assert price == q * tick + r;
    assert price as real / t == q as real + part by { SplitQuotient(q, r, tick); }
    assert 0.0 <= part && part + SLACK < 1.0 && (r > 0 ==> part > SLACK) by { PartBounds(r, tick); }
    assert Units(q as real + part, Down) == q;
    assert Units(q as real + part, Up) == if r == 0 then q else q + 1;
    assert (q + 1) * tick == q * tick + tick;
  }

  lemma SplitQuotient(q: int, r: int, tick: nat)
    requires tick > 0
    ensures (q * tick + r) as real / tick as real == q as real + r as real / tick as real
  {
    assert (q * tick) as real == q as real * tick as real;
  }

  lemma PartBounds(r: int, tick: nat)
    requires 0 <= r < tick && FineSlack(tick)
    ensures var part := r as real / tick as real;
            0.0 <= part && part + SLACK < 1.0 && (r == 0 ==> part == 0.0) && (r > 0 ==> part > SLACK)
  {
    QuotientBelow(r as real, 0.0, 0.0, tick as real);
    QuotientBelow(r as real, SLACK, 1.0, tick as real);
    QuotientBelow(r as real, -SLACK, 0.0, tick as real);
  }

  lemma QuotientBelow(price: real, slack: real, bound: real, t: real)
    requires t > 0.0
    ensures price / t + slack < bound <==> price + slack * t < bound * t
    ensures price / t + slack <= bound <==> price + slack * t <= bound * t
  {
    var units := price / t + slack;
    assert units * t == price + slack * t by { assert price / t * t == price; }
    ScalesTo(units, bound, t);
  }

  lemma UnitsMonotone(x: real, y: real, low: Mode, high: Mode)
    requires x <= y && !low.Nearest? && !high.Nearest? && (low.Up? ==> high.Up?)
    ensures Units(x, low) <= Units(y, high)
  {
  }

  /** A better wanted stop is never rounded to a lower price. */
  lemma StopMonotone(pos: Position, a: int, b: int, tick: nat)
    requires a <= b
    ensures RequestedStop(pos, Some(a as real), tick) <= RequestedStop(pos, Some(b as real), tick)
  {
    var low, high := StopMode(pos, a as real), StopMode(pos, b as real);
    if tick == 0 {
      RoundHalfEvenBounds(a as real, b as real);
    } else {
      QuotientOrder(a as real, b as real, tick as real);
      UnitsMonotone(a as real / tick as real, b as real / tick as real, low, high);
      hide Units;
      ScaleOrder(Units(a as real / tick as real, low), Units(b as real / tick as real, high), tick);
    }
  }

  /** A positive wanted stop is rounded to a stop that is not negative, and one of a tick or more to at least
      that. */
  lemma StopNotNegative(pos: Position, wanted: int, tick: nat)
    requires wanted >= 0
    ensures var stop := RequestedStop(pos, Some(wanted as real), tick);
            stop >= 0 && (wanted >= tick && wanted > 0 ==> stop > 0)
  {
    var mode := StopMode(pos, wanted as real);
    NormalizeGrid(wanted as real, tick, mode, 0);
    NormalizeGrid(wanted as real, tick, mode, if tick == 0 then 1 else tick);
    hide NormalizePrice;
  }

  /** Whatever step loosens a stop, the stop was one that can loosen. */
  lemma LooserMeansCan(pos: Position, what: Protection, tick: nat, m: Market)
    requires pos.sl >= 0 && pos.tp >= 0 && Plausible(pos.side, what, tick, m)
    ensures !NoLooserStop(pos, Protected(pos, what, tick, m)) ==> CanLoosen(pos, tick)
  {
    var after := Protected(pos, what, tick, m);
    if !NoLooserStop(pos, after) {
      StopAfter(pos, what, tick, m);
      WantedImproves(pos, what, tick, m);
      var wanted := Wanted(pos, what, tick, m).value;
      if wanted >= 0 { StopNotNegative(pos, wanted, tick); }
      assert pos.sl > 0 && Improves(pos, wanted) && Behind(pos.side, after.sl, pos.sl);
      if pos.side.Buy? {
        StopMonotone(pos, NextStop(pos), wanted, tick);
        StopNotNegative(pos, NextStop(pos), tick);
      } else {
        StopMonotone(pos, wanted, NextStop(pos), tick);
      }
      if what.Lock? { LockIsExact(pos, what.floor, what.cost, tick, what.calculate, m); }
      RoomWhenPlaced(pos, what, tick, m);
    }
  }

  lemma LockIsExact(pos: Position, floor: real, cost: real, tick: nat, calculate: Calculator, m: Market)
    requires LockStop(pos, floor, cost, tick, calculate, m).Some?
    ensures var stop := LockStop(pos, floor, cost, tick, calculate, m).value;
            RequestedStop(pos, Some(stop as real), tick) == stop
  {
    hide NormalizePrice, Solve, FirstLock, OnTick, Placeable;
    var stop := LockStop(pos, floor, cost, tick, calculate, m).value;
    var target := cost + floor - pos.swap;
    var perPip := calculate(Beyond(pos.side, pos.open, m.pip)).value;
    FirstLockOnTick(pos, target, perPip, m.pip, tick);
    SolveIsVerified(
      pos.side, FirstLock(pos, target, perPip, m.pip, tick), target, perPip, m.pip, tick, calculate, 3);
    NormalizeGrid(stop as real, tick, StopMode(pos, stop as real), stop);
  }

  /** The quote that placed a looser stop is the room it needed. */
  lemma RoomWhenPlaced(pos: Position, what: Protection, tick: nat, m: Market)
    requires pos.sl > 0 && !what.Lock? && Protected(pos, what, tick, m) != pos
    requires
      var wanted, after := Wanted(pos, what, tick, m), Protected(pos, what, tick, m);
      && wanted.Some? && Improves(pos, wanted.value)
      && after.sl == RequestedStop(pos, Some(wanted.value as real), tick)
      && after.tp == RequestedTarget(pos, KeptTarget(pos, what), tick)
      && (if pos.side.Buy? then 0 <= NextRounded(pos, tick) <= after.sl else 0 < after.sl <= NextRounded(pos, tick))
    ensures HasRoom(pos, tick)
  {
    hide NormalizePrice;
    var after := Protected(pos, what, tick, m);
    assert StopsAllowed(pos.side, m, after.sl, after.tp);
    if what.Breakeven? {
      var wanted := Wanted(pos, what, tick, m).value;
      assert if pos.side.Buy? then m.bid >= wanted as real else m.ask <= wanted as real;
    }
  }

  lemma {:induction false} NeverLoosensUnless(pos: Position, steps: seq<(Protection, Market)>, tick: nat)
    requires pos.sl >= 0 && pos.tp >= 0 && !CanLoosen(pos, tick)
    requires PlausibleRun(pos.side, steps, tick)
    ensures NoLooserStop(pos, ProtectedBy(pos, steps, tick))
    decreases |steps|
  {
    if steps != [] {
      var (what, m) := steps[0];
      LooserMeansCan(pos, what, tick, m);
      StopAfter(pos, what, tick, m);
      var after := Protected(pos, what, tick, m);
      assert after.tp >= 0;
      if after != pos { OnGridCannotLoosen(after, tick); }
      hide Protected, Plausible, CanLoosen;
      NeverLoosensUnless(after, steps[1..], tick);
    }
  }

  lemma OnGridCannotLoosen(pos: Position, tick: nat)
    requires OnTick(pos.sl, tick)
    ensures !CanLoosen(pos, tick)
  {
    NormalizeGrid(NextStop(pos) as real, tick, StopMode(pos, NextStop(pos) as real), pos.sl);
    hide NormalizePrice, HasRoom;
  }

  /** A step that places the rounded stop: break-even if the target leaves room for its quote, else trailing. */
  function LooseningStep(pos: Position, tick: nat): (Protection, Market) {
    var next, rounded := NextStop(pos) as real, NextRounded(pos, tick) as real;
    var nearest := NormalizePrice(pos.tp as real, tick, Nearest);
    if NextRounded(pos, tick) == 0 || pos.tp == 0 || Behind(pos.side, NextStop(pos), pos.tp) then
      (Breakeven(Gain(pos.side, pos.open, next)), Market(next, next, 1.0, 0.0, 0.0, false, true))
    else if nearest == 0 then
      (Trail(0.0), Market(next, next, 1.0, 0.0, 0.0, false, true))
    else
      var quote :=
        if pos.side.Buy? then (rounded + nearest as real) / 2.0 else (Max(nearest as real, next) + rounded) / 2.0;
      (Trail(if pos.side.Buy? then quote - next else next - quote), Market(quote, quote, 1.0, 0.0, 0.0, false, true))
  }

  lemma LooseningStepLoosens(pos: Position, tick: nat)
    requires pos.tp >= 0 && CanLoosen(pos, tick)
    ensures
      var (what, m) := LooseningStep(pos, tick);
      Plausible(pos.side, what, tick, m) && !NoLooserStop(pos, Protected(pos, what, tick, m))
  {
    var (what, m) := LooseningStep(pos, tick);
    RoundHalfEvenBounds(NextStop(pos) as real, NextStop(pos) as real);
    assert Wanted(pos, what, tick, m) == Some(NextStop(pos));
    StopNotNegative(pos, NextStop(pos), tick);
    NormalizeGrid(pos.tp as real, tick, Nearest, 0);
    hide NormalizePrice, Wanted;
  }

  /** No plausible run of protection steps ever loosens a stop, exactly when rounding its least improvement
      does not fall behind it, or no quote can place the result. */
  lemma StopsNeverLoosenIff(pos: Position, tick: nat)
    requires pos.sl >= 0 && pos.tp >= 0
    ensures
      (forall steps | PlausibleRun(pos.side, steps, tick) :: NoLooserStop(pos, ProtectedBy(pos, steps, tick))) <==>
      !CanLoosen(pos, tick)
  {
    if CanLoosen(pos, tick) {
      LooseningStepLoosens(pos, tick);
      var step := LooseningStep(pos, tick);
      hide Protected, Plausible, LooseningStep, CanLoosen;
      OneStep(pos, step, tick);
      assert PlausibleRun(pos.side, [step], tick) && !NoLooserStop(pos, ProtectedBy(pos, [step], tick));
    } else {
      hide CanLoosen;
      forall steps | PlausibleRun(pos.side, steps, tick)
        ensures NoLooserStop(pos, ProtectedBy(pos, steps, tick))
      {
        NeverLoosensUnless(pos, steps, tick);
      }
    }
  }

  lemma OneStep(pos: Position, step: (Protection, Market), tick: nat)
    ensures ProtectedBy(pos, [step], tick) == Protected(pos, step.0, tick, step.1)
  {
    assert [step][1..] == [];
  }

  /** Two neighbours off the grid lie strictly inside the same tick. */
  lemma NextResidue(price: int, next: int, tick: nat)
    requires tick > 0 && price % tick != 0 && next % tick != 0
    ensures next == price + 1 ==> next % tick == price % tick + 1
    ensures next == price - 1 ==> next % tick == price % tick - 1
  {
    var q := price / tick;
    if next == price + 1 {
      if price % tick + 1 == tick {
        assert next == (q + 1) * tick;
        DivModUnique(next, tick, q + 1, 0);
      } else {
        DivModUnique(next, tick, q, price % tick + 1);
      }
    } else if next == price - 1 {
      DivModUnique(next, tick, q, price % tick - 1);
    }
  }

  /** In ordinary grids: the least improvement falls behind exactly when the stop and the next unit are both off
      the grid and that unit does not lie beyond the entry. */
  lemma FallsBehindIff(pos: Position, tick: nat)
    requires FineSlack(tick)
    ensures
      Behind(pos.side, NextRounded(pos, tick), pos.sl) <==>
        && tick > 0 && pos.sl % tick != 0 && NextStop(pos) % tick != 0
        && (if pos.side.Buy? then NextStop(pos) as real <= pos.open else NextStop(pos) as real >= pos.open)
  {
    var next := NextStop(pos);
    if tick == 0 {
      NormalizeGrid(next as real, tick, StopMode(pos, next as real), next);
    } else {
      RoundWhole(next, tick);
      hide NormalizePrice, FineSlack;
      if pos.sl % tick != 0 && next % tick != 0 {
        NextResidue(pos.sl, next, tick);
      } else if pos.sl % tick == 0 && next % tick != 0 {
        NeighbourOfGrid(pos.sl, next, tick);
      }
    }
  }

  lemma NeighbourOfGrid(level: int, next: int, tick: nat)
    requires tick > 0 && level % tick == 0 && next % tick != 0 && (next == level + 1 || next == level - 1)
    ensures next % tick == if next == level + 1 then 1 else tick - 1
  {
    var q := level / tick;
    if next == level + 1 {
      if tick == 1 { DivModUnique(next, tick, next, 0); } else { DivModUnique(next, tick, q, 1); }
    } else {
      assert (q - 1) * tick == q * tick - tick;
      DivModUnique(next, tick, q - 1, tick - 1);
    }
  }

  /** For instance: 7 is off a grid of 5, and a break-even at 8 rounds outward to 5. */
  lemma OffGridStopCanLoosen()
    ensures
      var pos := Position(Buy, 8.0, 7, 20, 0.0);
      var m := Market(12.0, 12.0, 1.0, 0.0, 0.0, true, true);
      CanLoosen(pos, 5) && Protected(pos, Breakeven(0.0), 5, m).sl == 5
  {
    assert RoundHalfEven(8.0) == 8;
    assert (8.0 / 5.0 + SLACK).Floor == 1;
    assert NextRounded(Position(Buy, 8.0, 7, 20, 0.0), 5) == 5;
  }

  // ---------------------------------------------------------------------------------------
  // Targets off the grid
  // ---------------------------------------------------------------------------------------

  lemma {:induction false} TargetStays(pos: Position, steps: seq<(Protection, Market)>, tick: nat)
    requires OnTick(pos.tp, tick)
    ensures ProtectedBy(pos, steps, tick).tp == pos.tp
    decreases |steps|
  {
    if steps != [] {
      TargetMovesIff(pos, steps[0].0, tick, steps[0].1);
      hide Protected, OnTick;
      TargetStays(Protected(pos, steps[0].0, tick, steps[0].1), steps[1..], tick);
    }
  }

  /** A sell without a stop, and a trailing step that gives it one far above its target. */
  function Unprotected(tp: int): Position { Position(Sell, 0.0, 0, tp, 0.0) }

  function FarTrail(tp: int, tick: nat): (Protection, Market) {
    var quote := (tp + tick + 1) as real;
    (Trail(tick as real + 1.0), Market(quote, quote, 1.0, 0.0, 0.0, false, true))
  }

  /** No run of protection steps on any position moves this target, exactly when the target is on the grid. */
  lemma TargetNeverMovesIff(tp: int, tick: nat)
    requires tp >= 0
    ensures
      (forall pos: Position, steps | pos.tp == tp && PlausibleRun(pos.side, steps, tick) ::
         ProtectedBy(pos, steps, tick).tp == tp) <==>
      OnTick(tp, tick)
  {
    if OnTick(tp, tick) {
      forall pos: Position, steps | pos.tp == tp && PlausibleRun(pos.side, steps, tick)
        ensures ProtectedBy(pos, steps, tick).tp == tp
      {
        TargetStays(pos, steps, tick);
      }
    } else {
      var pos, step := Unprotected(tp), FarTrail(tp, tick);
      FarTrailMoves(tp, tick);
      hide Protected, Plausible, FarTrail, OnTick;
      OneStep(pos, step, tick);
      assert PlausibleRun(pos.side, [step], tick) && ProtectedBy(pos, [step], tick).tp != tp;
    }
  }

  lemma FarTrailMoves(tp: int, tick: nat)
    requires tp >= 0 && !OnTick(tp, tick)
    ensures
      var pos, step := Unprotected(tp), FarTrail(tp, tick);
      Plausible(pos.side, step.0, tick, step.1) && Protected(pos, step.0, tick, step.1).tp != tp
  {
    var pos := Unprotected(tp);
    var (what, m) := FarTrail(tp, tick);
    assert tp > 0 && tick > 0;
    TargetMovesIff(pos, what, tick, m);
    FarTrailLevels(tp, tick);
    hide NormalizePrice, OnTick;
    var wanted := tp + 2 * tick + 2;
    RoundHalfEvenBounds(wanted as real, wanted as real);
    assert m.ask + what.trail == wanted as real;
    assert Wanted(pos, what, tick, m) == Some(wanted);
    hide Wanted;
    assert Protected(pos, what, tick, m).sl == NormalizePrice(wanted as real, tick, Up);
  }

  lemma FarTrailLevels(tp: int, tick: nat)
    requires tp > 0 && tick > 0
    ensures NormalizePrice((tp + 2 * tick + 2) as real, tick, Up) > tp + tick + 1
    ensures 0 <= NormalizePrice(tp as real, tick, Nearest) < tp + tick + 1
  {
    NormalizeReach((tp + 2 * tick + 2) as real, tick);
    NearestReach(tp, tick);
    hide NormalizePrice;
  }

  lemma NearestReach(price: int, tick: nat)
    requires tick > 0 && price >= 0
    ensures 0 <= NormalizePrice(price as real, tick, Nearest) <= price + tick
  {
    var units := price as real / tick as real;
    NormalizeGrid(price as real, tick, Nearest, 0);
    RoundHalfEvenBounds(units, units);
    var n := RoundHalfEven(units);
    assert units * tick as real == price as real;
    ScaledReach(n, n as real, units + 1.0, tick);
    Distribute(units, 1.0, tick as real);
  }

  // ---------------------------------------------------------------------------------------
  // The profit lock is verified end to end
  // ---------------------------------------------------------------------------------------

  lemma {:induction false} SolveIsVerified(
    side: Side, stop: int, target: real, perPip: real, pip: real, tick: nat, calculate: Calculator, passes: nat)
    requires perPip > 0.0 && OnTick(stop, tick)
    requires Solve(side, stop, target, perPip, pip, tick, calculate, passes).Some?
    ensures
      var solved := Solve(side, stop, target, perPip, pip, tick, calculate, passes).value;
      && OnTick(solved, tick)
      && calculate(solved as real).Readable? && calculate(solved as real).value >= target - PROFIT_TOLERANCE
    decreases passes
  {
    hide Corrected;
    var projected := calculate(stop as real);
    var deficit := target - projected.value;
    if deficit > PROFIT_TOLERANCE {
      CorrectedOnTick(side, stop, deficit, perPip, pip, tick);
      SolveIsVerified(
        side, Corrected(side, stop, deficit, perPip, pip, tick), target, perPip, pip, tick, calculate, passes - 1);
    }
  }

  lemma CorrectedOnTick(side: Side, stop: int, deficit: real, perPip: real, pip: real, tick: nat)
    requires perPip > 0.0
    ensures OnTick(Corrected(side, stop, deficit, perPip, pip, tick), tick)
  {
    hide NormalizePrice, Reach;
    NormalizeGrid(Beyond(side, stop as real, Max(tick as real, Reach(deficit, perPip, pip))), tick, LockMode(side), 0);
  }

  lemma FirstLockOnTick(pos: Position, target: real, perPip: real, pip: real, tick: nat)
    requires perPip > 0.0
    ensures OnTick(FirstLock(pos, target, perPip, pip, tick), tick)
  {
    hide NormalizePrice, Reach;
    NormalizeGrid(Beyond(pos.side, pos.open, Reach(target, perPip, pip)), tick, LockMode(pos.side), 0);
  }

  /** Whenever a lock reaches the broker, the stop sent is the very price the calculator verified: it keeps
      the floor after costs and swap, is on the grid, beats the old stop and is short of the live exit. */
  lemma LockIsVerifiedEndToEnd(
    pos: Position, floor: real, cost: real, tick: nat, calculate: Calculator, m: Market)
    requires LevelsOnTick(pos, tick) && LockStop(pos, floor, cost, tick, calculate, m).Some?
    ensures
      var stop := LockStop(pos, floor, cost, tick, calculate, m).value;
      && RequestedStop(pos, Some(stop as real), tick) == stop
      && OnTick(stop, tick) && tick > 0
      && calculate(stop as real).Readable?
      && calculate(stop as real).value - cost + pos.swap >= floor - PROFIT_TOLERANCE
      && (pos.sl > 0 ==> Improves(pos, stop))
      && (if pos.side.Buy? then (stop as real) < m.bid else stop as real > m.ask)
      && Protected(pos, Lock(floor, cost, calculate), tick, m)
           == (if m.accepts && stop >= 0 && StopsAllowed(pos.side, m, stop, pos.tp) then pos.(sl := stop) else pos)
  {
    hide NormalizePrice, Solve, FirstLock, OnTick;
    var stop := LockStop(pos, floor, cost, tick, calculate, m).value;
    var target := cost + floor - pos.swap;
    var perPip := calculate(Beyond(pos.side, pos.open, m.pip)).value;
    FirstLockOnTick(pos, target, perPip, m.pip, tick);
    SolveIsVerified(
      pos.side, FirstLock(pos, target, perPip, m.pip, tick), target, perPip, m.pip, tick, calculate, 3);
    NormalizeGrid(stop as real, tick, StopMode(pos, stop as real), stop);
  }

  function Gain(side: Side, open: real, price: real): real {
    if side.Buy? then price - open else open - price
  }

  function Worth(rate: real, gain: real): real { rate * gain }

  /** A broker whose calculator pays `rate` for every unit of price. */
  ghost predicate Linear(calculate: Calculator, side: Side, open: real, rate: real) {
    forall price :: calculate(price).Readable? && calculate(price).value == Worth(rate, Gain(side, open, price))
  }

  /** Against a linear calculator the lock always finds a stop, and overshoots the floor by less than the
      worth of one tick. */
  lemma LinearBrokerLocksWithinATick(
    pos: Position, target: real, rate: real, pip: real, tick: nat, calculate: Calculator)
    requires rate > 0.0 && pip > 0.0 && tick > 0 && rate * pip > 0.0
    requires Linear(calculate, pos.side, pos.open, rate)
    ensures
      var solved := Solve(
        pos.side, FirstLock(pos, target, rate * pip, pip, tick), target, rate * pip, pip, tick, calculate, 3);
      && solved.Some?
      && target - PROFIT_TOLERANCE
      <= Worth(rate, Gain(pos.side, pos.open, solved.value as real))
       < target + Worth(rate, tick as real)
  {
    var side, t, perPip := pos.side, tick as real, rate * pip;
    var first := FirstLock(pos, target, perPip, pip, tick);
    FirstLockWorth(pos, target, rate, pip, tick);
    FirstLockOnTick(pos, target, perPip, pip, tick);
    hide FirstLock, Corrected, Worth, OnTick;
    var gain := Gain(side, pos.open, first as real);
    var deficit := target - calculate(first as real).value;
    if deficit > PROFIT_TOLERANCE {
      SmallDeficit(deficit, rate, pip, t);
      var next := Corrected(side, first, deficit, perPip, pip, tick);
      OneTickFurther(side, first, deficit, perPip, pip, tick);
      assert Gain(side, pos.open, next as real) == gain + t;
      WorthAdds(rate, gain, t);
      assert calculate(next as real).value == Worth(rate, gain + t);
    }
  }

  lemma WorthAdds(rate: real, gain: real, t: real)
    ensures Worth(rate, gain + t) == Worth(rate, gain) + Worth(rate, t)
    ensures rate > 0.0 && t > 0.0 ==> Worth(rate, t) > 0.0
  {
  }

  lemma FirstLockWorth(pos: Position, target: real, rate: real, pip: real, tick: nat)
    requires rate > 0.0 && pip > 0.0 && tick > 0 && rate * pip > 0.0
    ensures
      var worth := Worth(rate, Gain(pos.side, pos.open, FirstLock(pos, target, rate * pip, pip, tick) as real));
      target - Worth(rate, tick as real) * SLACK <= worth < target + Worth(rate, tick as real)
  {
    hide Reach, NormalizePrice;
    var t := tick as real;
    var gain := Gain(pos.side, pos.open, FirstLock(pos, target, rate * pip, pip, tick) as real);
    ReachIsLinear(target, rate, pip);
    NormalizeReach(Beyond(pos.side, pos.open, Reach(target, rate * pip, pip)), tick);
    WorthOfGain(target, gain, rate, t);
  }

  lemma ReachIsLinear(gross: real, rate: real, pip: real)
    requires rate > 0.0 && pip > 0.0 && rate * pip > 0.0
    ensures Reach(gross, rate * pip, pip) == gross / rate
  {
    var x := gross / (rate * pip);
    assert x * (rate * pip) == gross;
    assert x * pip * rate == gross;
  }

  lemma WorthOfGain(target: real, gain: real, rate: real, t: real)
    requires rate > 0.0 && target / rate - SLACK * t <= gain < target / rate + t
    ensures target - rate * t * SLACK <= rate * gain < target + rate * t
  {
    assert rate * (target / rate) == target;
    assert rate * (target / rate - SLACK * t) <= rate * gain < rate * (target / rate + t);
    assert rate * (target / rate + t) == target + rate * t;
    assert rate * (target / rate - SLACK * t) == target - rate * t * SLACK;
  }

  lemma SmallDeficit(deficit: real, rate: real, pip: real, t: real)
    requires rate > 0.0 && pip > 0.0 && rate * pip > 0.0 && t > 0.0 && deficit <= Worth(rate, t) * SLACK
    ensures Reach(deficit, rate * pip, pip) < t
  {
    ReachIsLinear(deficit, rate, pip);
    QuotientOrder(deficit, rate * t * SLACK, rate);
    assert rate * t * SLACK / rate == t * SLACK;
  }

  lemma OneTickFurther(side: Side, stop: int, deficit: real, perPip: real, pip: real, tick: nat)
    requires perPip > 0.0 && tick > 0 && OnTick(stop, tick) && Reach(deficit, perPip, pip) < tick as real
    ensures Corrected(side, stop, deficit, perPip, pip, tick) == if side.Buy? then stop + tick else stop - tick
  {
    hide Reach, NormalizePrice;
    var next := if side.Buy? then stop + tick else stop - tick;
    assert OnTick(next, tick) by {
      TickQuotient(stop, tick);
      var k := stop / tick;
      assert (k + 1) * tick == k * tick + tick && (k - 1) * tick == k * tick - tick;
      MultipleOnTick(if side.Buy? then k + 1 else k - 1, tick);
    }
    hide OnTick;
    NormalizeGrid(next as real, tick, LockMode(side), next);
  }
}
