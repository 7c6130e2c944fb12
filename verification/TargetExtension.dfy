/** Extending a planned target until the reward net of costs suffices (core/trade_planner.py,
    `_execution_adjusted_take_profit`). Prices are counted in units of the last quoted digit. */
module TargetExtension {
  import opened Numbers
  import Stops = StopManagement

  const TOLERANCE: real := 0.000000001
  const HALVINGS: nat := 48

  /** The broker's numbers for one plan: worst entry, round-trip cost, money at risk, the wanted net
      reward-to-risk ratio, the point size and the profit calculator. */
  datatype Setup = Setup(
    side: Side, worstEntry: real, cost: real, risk: real, desired: real, point: nat, calculate: real -> Reading<real>)

  /** Profit at a distance beyond the worst entry, if the broker can tell; a loss counts as nothing. */
  function Gross(s: Setup, distance: real): Reading<real> {
    var price := if s.side.Buy? then s.worstEntry + distance else s.worstEntry - distance;
    if price <= 0.0 || s.calculate(price).Unreadable? then Unreadable
    else Readable(Max(0.0, s.calculate(price).value))
  }

  function NetRatio(s: Setup, gross: real): real
    requires s.risk > 0.0
  {
    Max(0.0, gross - s.cost) / s.risk
  }

  function Required(s: Setup): real { s.desired * s.risk + s.cost }

  predicate Enough(s: Setup, distance: real) {
    Gross(s, distance).Readable? && Gross(s, distance).value >= Required(s)
  }

  function Bisected(s: Setup, low: real, high: real, times: nat): (real, real)
    decreases times
  {
    if times == 0 then (low, high)
    else
      var middle := (low + high) / 2.0;
      if Enough(s, middle) then Bisected(s, low, middle, times - 1) else Bisected(s, middle, high, times - 1)
  }

  /** The extended target is rounded to the point grid away from the entry. */
  function OnGrid(s: Setup, distance: real): int {
    var price := if s.side.Buy? then s.worstEntry + distance else s.worstEntry - distance;
    Stops.NormalizePrice(price, s.point, Stops.LockMode(s.side))
  }

  datatype Adjustment =
    | Unavailable
    | TooShort(ratio: real)
    | Kept(target: real, ratio: real)
    | Extended(level: int, ratio: real)

  function InitialDistance(s: Setup, target: real): real { Abs(target - s.worstEntry) }

  /** The extended target counts if it nearly has the wanted ratio itself. */
  function Settled(s: Setup, ratio: real, level: int): Adjustment
    requires s.risk > 0.0
  {
    var final := Gross(s, Abs(level as real - s.worstEntry));
    if final.Readable? && NetRatio(s, final.value) + TOLERANCE >= s.desired then
      Extended(level, NetRatio(s, final.value))
    else TooShort(ratio)
  }

  /** `extension` is the configured number of risk distances, and `allowed` that extending is enabled. */
  function Adjusted(s: Setup, target: real, extension: real, allowed: bool): Adjustment {
    var initial := InitialDistance(s, target);
    if s.risk <= 0.0 || Gross(s, initial).Unreadable? then Unavailable
    else
      var ratio := NetRatio(s, Gross(s, initial).value);
      if ratio + TOLERANCE >= s.desired then Kept(target, ratio)
      else if !allowed then TooShort(ratio)
      else
        var maximum := initial + extension;
        if Gross(s, maximum).Unreadable? || Gross(s, maximum).value + TOLERANCE < Required(s) then TooShort(ratio)
        else
          Settled(s, ratio, OnGrid(s, Bisected(s, initial, maximum, HALVINGS).1))
  }

  method AdjustTakeProfit(s: Setup, target: real, extension: real, allowed: bool) returns (result: Adjustment)
    ensures result == Adjusted(s, target, extension, allowed)
  {
    hide Gross, NetRatio, Required, OnGrid, Enough;
    var initial := Abs(target - s.worstEntry);
    var gross := Gross(s, initial);
    if s.risk <= 0.0 || gross.Unreadable? {
      return Unavailable;
    }
    var ratio := NetRatio(s, gross.value);
    if ratio + TOLERANCE >= s.desired {
      return Kept(target, ratio);
    }
    if !allowed {
      return TooShort(ratio);
    }
    var low, high := initial, initial + extension;
    var most := Gross(s, high);
    if most.Unreadable? || most.value + TOLERANCE < Required(s) {
      return TooShort(ratio);
    }
    for i := 0 to HALVINGS
      invariant Bisected(s, initial, initial + extension, HALVINGS) == Bisected(s, low, high, HALVINGS - i)
    {
      var middle := (low + high) / 2.0;
      if Enough(s, middle) {
        high := middle;
      } else {
        low := middle;
      }
    }
    var level := OnGrid(s, high);
    var final := Gross(s, Abs(level as real - s.worstEntry));
    if final.Readable? && NetRatio(s, final.value) + TOLERANCE >= s.desired {
      return Extended(level, NetRatio(s, final.value));
    }
    return TooShort(ratio);
  }

  // ---------------------------------------------------------------------------------------
  // What the search finds
  // ---------------------------------------------------------------------------------------

  function Power2(n: nat): (p: nat)
    ensures p >= 1
  {
    if n == 0 then 1 else 2 * Power2(n - 1)
  }

  /** The lower end is never enough, the upper end is enough unless it never moved, and the bracket halves
      every time. */
  lemma {:induction false} BisectionBrackets(s: Setup, low: real, high: real, times: nat)
    requires low <= high && !Enough(s, low)
    ensures
      var (l, h) := Bisected(s, low, high, times);
      && low <= l <= h <= high
      && !Enough(s, l) && (h == high || Enough(s, h))
      && (h - l) * Power2(times) as real == high - low
    decreases times
  {
    hide Enough;
    if times > 0 {
      var middle := (low + high) / 2.0;
      if Enough(s, middle) {
        BisectionBrackets(s, low, middle, times - 1);
      } else {
        BisectionBrackets(s, middle, high, times - 1);
      }
      var (l, h) := Bisected(s, low, high, times);
      hide Power2;
      assert Power2(times) == 2 * Power2(times - 1) by { Power2Step(times); }
      Doubled(h - l, Power2(times - 1));
    }
  }

  lemma Power2Step(n: nat)
    requires n > 0
    ensures Power2(n) == 2 * Power2(n - 1)
  {
  }

  lemma Doubled(width: real, p: nat)
    ensures width * (2 * p) as real == 2.0 * (width * p as real)
  {
  }

  /** A target that falls short of the ratio falls short of the required gross profit. */
  lemma ShortfallIsNotEnough(s: Setup, distance: real)
    requires s.risk > 0.0 && Gross(s, distance).Readable?
    requires NetRatio(s, Gross(s, distance).value) + TOLERANCE < s.desired
    ensures !Enough(s, distance)
  {
    var net := Max(0.0, Gross(s, distance).value - s.cost);
    hide Gross;
    RatioTimesRisk(net, s.risk, s.desired);
  }

  lemma RatioTimesRisk(net: real, risk: real, desired: real)
    requires risk > 0.0 && net / risk < desired
    ensures net < desired * risk
  {
    assert net == net / risk * risk;
  }

  /** The point, or the last quoted digit when the broker reports no point. */
  function GridStep(s: Setup): real { if s.point == 0 then 1.0 else s.point as real }

  /** Rounding to the grid never moves a target a whole step further out. */
  lemma GridOvershoot(s: Setup, distance: real)
    requires distance >= 0.0
    ensures Abs(OnGrid(s, distance) as real - s.worstEntry) < distance + GridStep(s)
  {
    var price := if s.side.Buy? then s.worstEntry + distance else s.worstEntry - distance;
    if s.point == 0 {
      RoundHalfEvenBounds(price, price);
    } else {
      Stops.NormalizeReach(price, s.point);
      hide Stops.NormalizePrice;
    }
  }

  /** Whenever the target is extended: the ratio reached is the wanted one, the target was short before,
      and it lies less than a grid step beyond the configured limit. */
  lemma ExtensionIsBounded(s: Setup, target: real, extension: real, allowed: bool)
    requires extension >= 0.0 && Adjusted(s, target, extension, allowed).Extended?
    ensures
      var r := Adjusted(s, target, extension, allowed);
      var distance := Abs(r.level as real - s.worstEntry);
      && r.ratio + TOLERANCE >= s.desired
      && Gross(s, distance).Readable? && r.ratio == NetRatio(s, Gross(s, distance).value)
      && !Enough(s, InitialDistance(s, target))
      && distance < InitialDistance(s, target) + extension + GridStep(s)
  {
    hide Gross, NetRatio, Required, OnGrid, Enough, Bisected, Power2;
    var initial := InitialDistance(s, target);
    ShortfallIsNotEnough(s, initial);
    BisectionBrackets(s, initial, initial + extension, HALVINGS);
    GridOvershoot(s, Bisected(s, initial, initial + extension, HALVINGS).1);
  }

  // ---------------------------------------------------------------------------------------
  // One adjustment, written out
  // ---------------------------------------------------------------------------------------

  /** The price at a distance from the worst entry in the direction of the trade. */
  function PriceAt(s: Setup, distance: real): real {
    match s.side case Buy => s.worstEntry + distance case Sell => s.worstEntry - distance
  }

  /** The broker can price a positive price for which its calculator answers. */
  predicate Priceable(s: Setup, distance: real) {
    PriceAt(s, distance) > 0.0 && s.calculate(PriceAt(s, distance)).Readable?
  }

  predicate Pays(s: Setup, distance: real, amount: real) {
    && Priceable(s, distance)
    && if s.calculate(PriceAt(s, distance)).value < 0.0 then amount <= 0.0
       else s.calculate(PriceAt(s, distance)).value >= amount
  }

  /** The profit net of costs, or nothing, as a multiple of the risk. */
  predicate IsRatio(s: Setup, distance: real, ratio: real)
    requires Priceable(s, distance)
  {
    var profit := s.calculate(PriceAt(s, distance)).value;
    var gained := if profit < 0.0 then 0.0 else profit;
    ratio * s.risk == if gained < s.cost then 0.0 else gained - s.cost
  }

  /** One halving: the upper end moves in if the middle pays enough, and the lower end moves up otherwise. */
  predicate Halves(s: Setup, from: (real, real), to: (real, real)) {
    var middle := from.0 + (from.1 - from.0) / 2.0;
    to == if Pays(s, middle, s.desired * s.risk + s.cost) then (from.0, middle) else (middle, from.1)
  }

  predicate Halvings(s: Setup, brackets: seq<(real, real)>) {
    forall k | 0 <= k < |brackets| - 1 :: Halves(s, brackets[k], brackets[k + 1])
  }

  function DistanceTo(s: Setup, price: real): real {
    if price < s.worstEntry then s.worstEntry - price else price - s.worstEntry
  }

  /** The end of the search: its distance is rounded away from the entry, to the point or to the last digit, and
      the result counts if it nearly has the wanted ratio itself. */
  predicate Settles(s: Setup, distance: real, ratio: real, level: int, reached: real, r: Adjustment) {
    var final := DistanceTo(s, level as real);
    && (if s.point == 0 then Stops.RoundedTo(level, PriceAt(s, distance), 1, Stops.Nearest)
        else Stops.RoundedTo(level, PriceAt(s, distance), s.point, if s.side == Buy then Stops.Up else Stops.Down))
    && (Priceable(s, final) ==> IsRatio(s, final, reached))
    && r == if Priceable(s, final) && reached >= s.desired - 0.000000001 then Extended(level, reached)
            else TooShort(ratio)
  }

  /** The whole adjustment: a target that nearly has the wanted ratio is kept; a shorter one needs permission and a
      furthest distance that nearly pays enough; then the bracket between the two is halved 48 times, and the search
      settles on its upper end. */
  lemma AdjustmentWrittenOut(s: Setup, target: real, extension: real, allowed: bool)
    returns (ratio: real, brackets: seq<(real, real)>, level: int, reached: real)
    ensures
      var r := Adjusted(s, target, extension, allowed);
      var planned := DistanceTo(s, target);
      if s.risk <= 0.0 || !Priceable(s, planned) then r == Unavailable
      else
        && IsRatio(s, planned, ratio)
        && if ratio >= s.desired - 0.000000001 then r == Kept(target, ratio)
           else if !allowed || !Pays(s, planned + extension, s.desired * s.risk + s.cost - 0.000000001) then
             r == TooShort(ratio)
           else
             && |brackets| == 49 && brackets[0] == (planned, planned + extension) && Halvings(s, brackets)
             && Settles(s, brackets[48].1, ratio, level, reached, r)
  {
    hide *;
    var planned := DistanceTo(s, target);
    ratio, brackets, level, reached := 0.0, [], 0, 0.0;
    if s.risk <= 0.0 {
      NothingWithoutRisk(s, target, extension, allowed);
    } else {
      GrossWrittenOut(s, planned);
      brackets := BracketsHalve(s, planned, planned + extension, 48);
      level := OnGrid(s, brackets[48].1);
      if Priceable(s, planned) { ratio := NetRatio(s, Gross(s, planned).value); }
      reached := SearchSettles(s, brackets[48].1, ratio, level);
      Stages(s, target, extension, allowed);
      RequiredIs(s);
    }
  }

  lemma RequiredIs(s: Setup)
    ensures Required(s) == s.desired * s.risk + s.cost
  {
  }

  lemma NothingWithoutRisk(s: Setup, target: real, extension: real, allowed: bool)
    requires s.risk <= 0.0
    ensures Adjusted(s, target, extension, allowed) == Unavailable
  {
  }

  lemma SearchSettles(s: Setup, distance: real, ratio: real, level: int) returns (reached: real)
    requires s.risk > 0.0 && level == OnGrid(s, distance)
    ensures Settles(s, distance, ratio, level, reached, Settled(s, ratio, level))
  {
    var final := DistanceTo(s, level as real);
    assert final == Abs(level as real - s.worstEntry);
    GridWrittenOut(s, distance);
    GrossWrittenOut(s, final);
    hide Gross, NetRatio, OnGrid, Pays, Priceable, IsRatio, PriceAt, Stops.RoundedTo, DistanceTo;
    reached := if Priceable(s, final) then NetRatio(s, Gross(s, final).value) else 0.0;
  }

  lemma Stages(s: Setup, target: real, extension: real, allowed: bool)
    requires s.risk > 0.0
    ensures
      var r := Adjusted(s, target, extension, allowed);
      var planned := DistanceTo(s, target);
      if !Priceable(s, planned) then r == Unavailable
      else
        && Gross(s, planned).Readable?
        && var ratio := NetRatio(s, Gross(s, planned).value);
           if ratio >= s.desired - 0.000000001 then r == Kept(target, ratio)
           else if !allowed || !Pays(s, planned + extension, Required(s) - 0.000000001) then r == TooShort(ratio)
           else r == Settled(s, ratio, OnGrid(s, Bisected(s, planned, planned + extension, 48).1))
  {
    hide Required, Gross, NetRatio, OnGrid, Pays, Priceable, IsRatio, Bisected, PriceAt, DistanceTo, InitialDistance;
    var planned := DistanceTo(s, target);
    DistanceIs(s, target);
    PriceableIff(s, planned);
    PaysIff(s, planned + extension, Required(s) - TOLERANCE);
  }

  lemma DistanceIs(s: Setup, price: real)
    ensures DistanceTo(s, price) == InitialDistance(s, price)
  {
  }

  lemma PriceableIff(s: Setup, distance: real)
    ensures Gross(s, distance).Readable? <==> Priceable(s, distance)
  {
  }

  lemma GrossWrittenOut(s: Setup, distance: real)
    requires s.risk > 0.0
    ensures Gross(s, distance).Readable? <==> Priceable(s, distance)
    ensures Gross(s, distance).Readable? ==> IsRatio(s, distance, NetRatio(s, Gross(s, distance).value))
  {
  }

  lemma PaysIff(s: Setup, distance: real, amount: real)
    ensures Pays(s, distance, amount) <==> Gross(s, distance).Readable? && Gross(s, distance).value >= amount
  {
  }

  lemma GridWrittenOut(s: Setup, distance: real)
    ensures
      if s.point == 0 then Stops.RoundedTo(OnGrid(s, distance), PriceAt(s, distance), 1, Stops.Nearest)
      else
        Stops.RoundedTo(
          OnGrid(s, distance), PriceAt(s, distance), s.point, if s.side == Buy then Stops.Up else Stops.Down)
  {
    Stops.RoundingWrittenOut(PriceAt(s, distance), s.point, if s.side == Buy then Stops.Up else Stops.Down);
    hide Stops.RoundedTo, Stops.NormalizePrice;
  }

  lemma {:induction false} BracketsHalve(s: Setup, low: real, high: real, times: nat)
    returns (brackets: seq<(real, real)>)
    ensures |brackets| == times + 1 && brackets[0] == (low, high) && Halvings(s, brackets)
    ensures Bisected(s, low, high, times) == brackets[times]
    decreases times
  {
    if times == 0 {
      brackets := [(low, high)];
    } else {
      var middle := (low + high) / 2.0;
      HalvesAt(s, low, high, middle);
      hide Enough, Halves;
      if Enough(s, middle) {
        brackets := BracketsHalve(s, low, middle, times - 1);
      } else {
        brackets := BracketsHalve(s, middle, high, times - 1);
      }
      brackets := [(low, high)] + brackets;
    }
  }

  lemma HalvesAt(s: Setup, low: real, high: real, middle: real)
    requires middle == (low + high) / 2.0
    ensures Halves(s, (low, high), if Enough(s, middle) then (low, middle) else (middle, high))
  {
    PaysIff(s, middle, Required(s));
    hide Gross, Pays;
  }

  /** A target that already pays is kept as it is; a refusal reports the ratio of the target as planned,
      which falls short; and a target is refused without a search only if extending is off or even the
      furthest target the broker can price falls short. */
  lemma KeptAndRefused(s: Setup, target: real, extension: real, allowed: bool)
    requires s.risk > 0.0 && Gross(s, InitialDistance(s, target)).Readable?
    ensures
      var ratio := NetRatio(s, Gross(s, InitialDistance(s, target)).value);
      var r := Adjusted(s, target, extension, allowed);
      && (r.Kept? <==> ratio + TOLERANCE >= s.desired)
      && (r.Kept? ==> r == Kept(target, ratio))
      && (r.TooShort? ==> r.ratio == ratio < s.desired)
      && (r.Extended? ==> allowed && Gross(s, InitialDistance(s, target) + extension).Readable?)
  {
    hide Gross, NetRatio, Required, OnGrid, Enough, Bisected, Power2;
  }

  /** Profit does not shrink with distance, and what the broker can price at a distance it can price closer. */
  ghost predicate Monotone(s: Setup) {
    forall a, b :: 0.0 <= a <= b && Gross(s, b).Readable? ==>
      Gross(s, a).Readable? && Gross(s, a).value <= Gross(s, b).value
  }

  /** For a monotone broker, the extended target is within a grid step and a 2^48th of the extension of
      every distance that would have been enough, the smallest included. */
  lemma ExtensionIsNearlySmallest(s: Setup, target: real, extension: real, allowed: bool, sufficient: real)
    requires extension >= 0.0 && Monotone(s)
    requires Adjusted(s, target, extension, allowed).Extended? && sufficient >= 0.0 && Enough(s, sufficient)
    ensures
      var distance := Abs(Adjusted(s, target, extension, allowed).level as real - s.worstEntry);
      (distance - sufficient - GridStep(s)) * Power2(HALVINGS) as real < extension
  {
    hide Gross, NetRatio, Required, OnGrid, Enough, Bisected, Monotone, Power2;
    var initial := InitialDistance(s, target);
    ShortfallIsNotEnough(s, initial);
    BisectionBrackets(s, initial, initial + extension, HALVINGS);
    var (low, high) := Bisected(s, initial, initial + extension, HALVINGS);
    EnoughIsUpwards(s, sufficient, low, high);
    GridOvershoot(s, high);
    ScaleStrictly(
      Abs(OnGrid(s, high) as real - s.worstEntry) - sufficient - GridStep(s), high - low, Power2(HALVINGS));
  }

  lemma EnoughIsUpwards(s: Setup, sufficient: real, low: real, high: real)
    requires Monotone(s) && sufficient >= 0.0 && Enough(s, sufficient) && !Enough(s, low)
    requires 0.0 <= low <= high && (Enough(s, high) || Gross(s, high).Readable?)
    ensures low < sufficient
  {
    hide Gross, Required;
    assert Gross(s, low).Readable?;
  }

  function Pay(rate: real, distance: real): real { rate * distance }

  /** A broker that pays `rate` for every unit of price gained, on either side. */
  ghost predicate Linear(s: Setup, rate: real) {
    forall price :: s.calculate(price) == Readable(Pay(rate, Stops.Gain(s.side, s.worstEntry, price)))
  }

  function Priced(s: Setup, distance: real): real {
    if s.side.Buy? then s.worstEntry + distance else s.worstEntry - distance
  }

  lemma LinearGross(s: Setup, rate: real, distance: real)
    requires Linear(s, rate) && rate > 0.0 && distance >= 0.0
    ensures Gross(s, distance) == if Priced(s, distance) > 0.0 then Readable(Pay(rate, distance)) else Unreadable
  {
    assert Stops.Gain(s.side, s.worstEntry, Priced(s, distance)) == distance;
  }

  lemma PayOrder(rate: real, a: real, b: real)
    requires rate > 0.0 && a <= b
    ensures Pay(rate, a) <= Pay(rate, b)
  {
  }

  /** A linear broker is monotone, for plans of either side. */
  lemma LinearIsMonotone(s: Setup, rate: real)
    requires Linear(s, rate) && rate > 0.0 && s.worstEntry > 0.0
    ensures Monotone(s)
  {
    hide Gross, Pay;
    forall a, b | 0.0 <= a <= b && Gross(s, b).Readable?
      ensures Gross(s, a).Readable? && Gross(s, a).value <= Gross(s, b).value
    {
      LinearGross(s, rate, a);
      LinearGross(s, rate, b);
      PayOrder(rate, a, b);
    }
  }

  /** The search succeeds whenever it should: with a linear broker a short target is extended if the
      furthest distance is enough, lies a point from zero, and a point is worth at most ten times the risk. */
  lemma LinearBrokerExtends(s: Setup, rate: real, target: real, extension: real)
    requires Linear(s, rate) && rate > 0.0 && s.worstEntry > 0.0 && s.risk > 0.0 && extension >= 0.0
    requires s.point > 0 && Pay(rate, s.point as real) <= 10.0 * s.risk
    requires Priced(s, InitialDistance(s, target) + extension) >= s.point as real
    requires Gross(s, InitialDistance(s, target)).Readable?
    requires NetRatio(s, Gross(s, InitialDistance(s, target)).value) + TOLERANCE < s.desired
    requires Enough(s, InitialDistance(s, target) + extension)
    ensures Adjusted(s, target, extension, true).Extended?
  {
    hide NetRatio, Bisected, Power2, Pay, OnGrid, Linear, Gross;
    var initial := InitialDistance(s, target);
    ShortfallIsNotEnough(s, initial);
    BisectionBrackets(s, initial, initial + extension, HALVINGS);
    var high := Bisected(s, initial, initial + extension, HALVINGS).1;
    var final := Abs(OnGrid(s, high) as real - s.worstEntry);
    GridUndershoot(s, high, initial + extension);
    LinearGross(s, rate, high);
    LinearGross(s, rate, final);
    PayOrder(rate, high - Stops.SLACK * s.point as real, final);
    PaySplits(rate, high, s.point as real);
    RatioNearly(s, Gross(s, final).value);
  }

  lemma RatioNearly(s: Setup, gross: real)
    requires s.risk > 0.0 && gross >= Required(s) - 0.000000001 * s.risk
    ensures NetRatio(s, gross) + TOLERANCE >= s.desired
  {
    var net := Max(0.0, gross - s.cost);
    assert net >= (s.desired - TOLERANCE) * s.risk;
    var ratio := net / s.risk;
    assert ratio * s.risk == net;
    if ratio < s.desired - TOLERANCE { assert ratio * s.risk < (s.desired - TOLERANCE) * s.risk; }
  }

  lemma PaySplits(rate: real, distance: real, point: real)
    ensures Pay(rate, distance - Stops.SLACK * point) == Pay(rate, distance) - Stops.SLACK * Pay(rate, point)
  {
  }

  /** Rounding brings a target nearer by no more than the slack, and keeps its price positive. */
  lemma GridUndershoot(s: Setup, distance: real, furthest: real)
    requires 0.0 <= distance <= furthest && s.point > 0 && s.worstEntry > 0.0 && Priced(s, furthest) >= s.point as real
    ensures
      var final := Abs(OnGrid(s, distance) as real - s.worstEntry);
      final >= distance - Stops.SLACK * s.point as real && Priced(s, final) > 0.0 && Priced(s, distance) > 0.0
  {
    Stops.NormalizeReach(Priced(s, distance), s.point);
    Stops.NormalizeGrid(Priced(s, distance), s.point, Stops.LockMode(s.side), s.point);
    hide Stops.NormalizePrice;
  }

  /** A buy plan to which the results above apply. */
  lemma BuyPlanIsExtended(calculate: real -> Reading<real>)
    requires forall price :: calculate(price) == Readable(price - 100.0)
    ensures
      var s := Setup(Buy, 100.0, 1.0, 10.0, 2.0, 1, calculate);
      Monotone(s) && Enough(s, 21.0) && Adjusted(s, 110.0, 20.0, true).Extended?
  {
    var s := Setup(Buy, 100.0, 1.0, 10.0, 2.0, 1, calculate);
    forall price ensures s.calculate(price) == Readable(Pay(1.0, Stops.Gain(s.side, s.worstEntry, price))) {
    }
    LinearIsMonotone(s, 1.0);
    assert Pay(1.0, 1.0) == 1.0 && Gross(s, 10.0) == Readable(10.0) && Enough(s, 21.0) && Enough(s, 30.0);
    assert NetRatio(s, 10.0) == 0.9;
    hide Gross, Enough, Adjusted, NetRatio, Pay, Monotone;
    LinearBrokerExtends(s, 1.0, 110.0, 20.0);
  }

  lemma ScaleStrictly(a: real, b: real, p: nat)
    requires a < b && p >= 1
    ensures a * p as real < b * p as real
  {
  }
}
