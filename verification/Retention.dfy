/** The profit-retention ratchet of core/profit_retention.py. */
module Retention {
  import opened Numbers

  const EPSILON: real := 0.000000001

  datatype State = State(peak: real, floor: real, volume: real, reference: real)

  const EMPTY := State(0.0, 0.0, 0.0, 0.0)

  datatype Policy = Policy(
    trigger: real, triggerR: real, matureR: real, keep: real, matureKeep: real, cashFloor: real, headroom: real)
  {
    predicate Valid() {
      && trigger > 0.0 && triggerR > 0.0 && matureR >= triggerR
      && 0.0 < keep <= matureKeep < 1.0
      && cashFloor >= 0.0 && headroom > 0.0
      && trigger >= cashFloor + headroom
    }

    /** What the settings file can ask for (app_config/settings.py clamps every value). */
    predicate Admitted() {
      Valid() && headroom >= 0.01 && triggerR >= 0.1 && keep >= 0.05 && matureKeep <= 0.95
    }
  }

  datatype Observation = Observation(net: real, size: real, risk: real) {
    predicate Valid() { size > 0.0 && risk >= 0.0 }
  }

  /** The guard in front of the ratchet: anything else leaves the state as it was. */
  predicate Usable(seen: Reading<Observation>, policy: Reading<Policy>) {
    seen.Readable? && seen.value.Valid() && policy.Readable? && policy.value.Valid()
  }

  function FloorToCents(amount: real): real {
    ((amount + EPSILON) * 100.0).Floor as real / 100.0
  }

  /** Carries a state over to a new position size: scaled by a partial close, reset by an addition. */
  function Resize(s: State, size: real): State
    requires size > 0.0
  {
    var reference := if s.reference != 0.0 then s.reference else size;
    if s.volume > 0.0 && size < s.volume - EPSILON then
      var ratio := size / s.volume;
      State(s.peak * ratio, s.floor * ratio, size, reference)
    else if size > s.volume + EPSILON then
      State(0.0, 0.0, size, size)
    else
      State(s.peak, s.floor, size, reference)
  }

  function RemainingRisk(s: State, risk: real): real
    requires s.reference != 0.0
  {
    risk * s.volume / s.reference
  }

  function PeakR(peak: real, remaining: real): real {
    if remaining > 0.0 then peak / remaining else 0.0
  }

  predicate Armed(peak: real, floor: real, remaining: real, p: Policy) {
    || floor > 0.0
    || (peak + EPSILON >= p.trigger && (remaining <= 0.0 || PeakR(peak, remaining) + EPSILON >= p.triggerR))
  }

  function KeepFraction(peak: real, remaining: real, p: Policy): real {
    if remaining > 0.0 && PeakR(peak, remaining) >= p.matureR then p.matureKeep else p.keep
  }

  /** Cash that must stay between the floor and the peak at the current size. */
  function Headroom(s: State, p: Policy): real
    requires s.reference != 0.0
  {
    p.headroom * s.volume / s.reference
  }

  function Milestone(s: State, p: Policy): real
    requires s.reference != 0.0
  {
    p.cashFloor * s.volume / s.reference
  }

  function Kept(peak: real, remaining: real, p: Policy): real {
    peak * KeepFraction(peak, remaining, p)
  }

  function Candidate(s: State, peak: real, risk: real, p: Policy): real
    requires s.reference != 0.0
  {
    Min(Max(Milestone(s, p), Kept(peak, RemainingRisk(s, risk), p)), peak - Headroom(s, p))
  }

  /** The floor that the peak on its own would justify. */
  function PeakFloor(s: State, peak: real, risk: real, p: Policy): real
    requires s.reference != 0.0
  {
    FloorToCents(Candidate(s, peak, risk, p))
  }

  /** One observed net profit at the state's own size. */
  function Observe(s: State, net: real, risk: real, p: Policy): State
    requires s.reference != 0.0
  {
    var peak := Max(Max(s.peak, net), 0.0);
    var floor :=
      if Armed(peak, s.floor, RemainingRisk(s, risk), p) then Max(s.floor, PeakFloor(s, peak, risk, p)) else s.floor;
    State(peak, Max(0.0, floor), s.volume, s.reference)
  }

  function Advance(previous: State, seen: Reading<Observation>, policy: Reading<Policy>): State
  {
    if Usable(seen, policy) then
      Observe(Resize(previous, seen.value.size), seen.value.net, seen.value.risk, policy.value)
    else
      previous
  }

  // ---------------------------------------------------------------------------------------
  // Arithmetic
  // ---------------------------------------------------------------------------------------

  lemma ScaleMonotone(a: real, b: real, k: real)
    requires a <= b && k >= 0.0
    ensures a * k <= b * k
  {
  }

  lemma ProductMonotone(a: real, b: real, f: real, g: real)
    requires 0.0 <= a <= b && 0.0 <= f <= g
    ensures a * f <= b * g
  {
    ScaleMonotone(a, b, f);
    ScaleMonotone(f, g, b);
  }

  lemma QuotientInUnit(small: real, large: real)
    requires 0.0 < small <= large
    ensures 0.0 < small / large <= 1.0
  {
  }

  lemma DivideMonotone(a: real, b: real, k: real)
    requires a <= b && k > 0.0
    ensures a / k <= b / k
  {
  }

  /** `FloorToCents` gives the largest whole cent that is no more than EPSILON above the amount. */
  lemma FloorToCentsIsLargest(amount: real, cents: int)
    ensures FloorToCents(amount) <= amount + EPSILON < FloorToCents(amount) + 0.01
    ensures FloorToCents(amount) * 100.0 == (FloorToCents(amount) * 100.0).Floor as real
    ensures cents as real / 100.0 <= amount + EPSILON <==> cents as real / 100.0 <= FloorToCents(amount)
  {
    var whole := ((amount + EPSILON) * 100.0).Floor;
    assert FloorToCents(amount) * 100.0 == whole as real;
    assert cents as real <= (amount + EPSILON) * 100.0 <==> cents <= whole;
  }

  lemma FloorToCentsMonotone(a: real, b: real)
    requires a <= b
    ensures FloorToCents(a) <= FloorToCents(b)
  {
    FloorMonotone((a + EPSILON) * 100.0, (b + EPSILON) * 100.0);
  }

  lemma PeakRMonotone(low: real, high: real, remaining: real)
    requires low <= high
    ensures PeakR(low, remaining) <= PeakR(high, remaining)
  {
    if remaining > 0.0 { DivideMonotone(low, high, remaining); }
  }

  lemma KeptMonotone(low: real, high: real, remaining: real, p: Policy)
    requires p.Valid() && 0.0 <= low <= high
    ensures Kept(low, remaining, p) <= Kept(high, remaining, p)
  {
    PeakRMonotone(low, high, remaining);
    hide PeakR;
    var f, g := KeepFraction(low, remaining, p), KeepFraction(high, remaining, p);
    ProductMonotone(low, high, f, g);
  }

  lemma PeakFloorMonotone(s: State, low: real, high: real, risk: real, p: Policy)
    requires s.reference != 0.0 && p.Valid() && 0.0 <= low <= high
    ensures PeakFloor(s, low, risk, p) <= PeakFloor(s, high, risk, p)
  {
    hide FloorToCents, RemainingRisk, Headroom, Milestone, Kept;
    KeptMonotone(low, high, RemainingRisk(s, risk), p);
    FloorToCentsMonotone(Candidate(s, low, risk, p), Candidate(s, high, risk, p));
  }

  lemma PeakFloorIgnoresFloor(s: State, t: State, peak: real, risk: real, p: Policy)
    requires s.reference == t.reference != 0.0 && s.volume == t.volume
    ensures PeakFloor(s, peak, risk, p) == PeakFloor(t, peak, risk, p)
  {
    hide FloorToCents, Kept;
    assert RemainingRisk(s, risk) == RemainingRisk(t, risk);
    assert Milestone(s, p) == Milestone(t, p);
    assert Headroom(s, p) == Headroom(t, p);
    hide RemainingRisk, Milestone, Headroom;
    assert Candidate(s, peak, risk, p) == Candidate(t, peak, risk, p);
  }

  // ---------------------------------------------------------------------------------------
  // The ratchet equals a formula over the largest profit seen
  // ---------------------------------------------------------------------------------------

  predicate Sized(s: State) { s.volume > 0.0 && s.reference > 0.0 && s.floor >= 0.0 }

  /** Two observations are worth exactly one observation of the larger. */
  lemma ObserveTwice(s: State, a: real, b: real, risk: real, p: Policy)
    requires Sized(s) && risk >= 0.0 && p.Valid()
    ensures Sized(Observe(s, a, risk, p)) && Observe(s, a, risk, p).volume == s.volume
    ensures Observe(Observe(s, a, risk, p), b, risk, p) == Observe(s, Max(a, b), risk, p)
  {
    hide PeakFloor, PeakR;
    var r := RemainingRisk(s, risk);
    var first := Max(Max(s.peak, a), 0.0);
    var both := Max(Max(s.peak, Max(a, b)), 0.0);
    var mid := Observe(s, a, risk, p);
    assert Max(Max(mid.peak, b), 0.0) == both;
    assert RemainingRisk(mid, risk) == r;
    PeakRMonotone(first, both, r);
    PeakFloorMonotone(s, first, both, risk, p);
    PeakFloorIgnoresFloor(s, mid, both, risk, p);
    assert Armed(both, mid.floor, r, p) == Armed(both, s.floor, r, p);
  }

  function Replay(s: State, seen: seq<Reading<Observation>>, policy: Reading<Policy>): State
    decreases |seen|
  {
    if seen == [] then s else Replay(Advance(s, seen[0], policy), seen[1..], policy)
  }

  /** Observations at one size and one initial risk, mixed with unusable ones. */
  predicate Stretch(seen: seq<Reading<Observation>>, size: real, risk: real, policy: Reading<Policy>) {
    forall i | 0 <= i < |seen| && Usable(seen[i], policy) :: seen[i].value.size == size && seen[i].value.risk == risk
  }

  ghost predicate IsLargestNet(seen: seq<Reading<Observation>>, policy: Reading<Policy>, net: real) {
    && (exists i :: 0 <= i < |seen| && Usable(seen[i], policy) && seen[i].value.net == net)
    && (forall i | 0 <= i < |seen| && Usable(seen[i], policy) :: seen[i].value.net <= net)
  }

  /** Whatever the order, repetition or gaps, a stretch of observations leaves the state that the
      starting state and the single largest net profit determine. */
  lemma {:induction false} RatchetIsBatchFormula(
    s: State, seen: seq<Reading<Observation>>, size: real, risk: real, policy: Reading<Policy>, net: real)
    requires s.reference >= 0.0 && s.floor >= 0.0 && size > 0.0 && risk >= 0.0
    requires Stretch(seen, size, risk, policy) && IsLargestNet(seen, policy, net)
    ensures Replay(s, seen, policy) == Observe(Resize(s, size), net, risk, policy.value)
    decreases |seen|
  {
    hide Observe, Resize;
    var i :| 0 <= i < |seen| && Usable(seen[i], policy) && seen[i].value.net == net;
    var rest := seen[1..];
    assert forall j | 0 <= j < |rest| :: rest[j] == seen[j + 1];
    var next := Advance(s, seen[0], policy);
    if i != 0 && !Usable(seen[0], policy) {
      assert rest[i - 1] == seen[i];
      RatchetIsBatchFormula(s, rest, size, risk, policy, net);
    } else if forall j | 0 <= j < |rest| :: !Usable(rest[j], policy) {
      assert forall j | 0 < j < |seen| :: seen[j] == rest[j - 1];
      UnusableStretch(next, rest, policy);
    } else {
      var m := LargestNet(rest, policy);
      ResizeSized(s, size);
      var base := Resize(s, size);
      ObserveTwice(base, seen[0].value.net, m, risk, policy.value);
      ResizeSame(next);
      RatchetIsBatchFormula(next, rest, size, risk, policy, m);
      var j :| 0 <= j < |rest| && Usable(rest[j], policy) && rest[j].value.net == m;
      assert seen[j + 1].value.net <= net;
      if i != 0 { assert rest[i - 1] == seen[i]; }
      assert Max(seen[0].value.net, m) == net;
    }
  }

  lemma ResizeSized(s: State, size: real)
    requires s.reference >= 0.0 && s.floor >= 0.0 && size > 0.0
    ensures Sized(Resize(s, size)) && Resize(s, size).volume == size
  {
    if s.volume > 0.0 { ScaleMonotone(0.0, s.floor, size / s.volume); }
  }

  lemma ResizeSame(s: State)
    requires s.reference != 0.0
    ensures s.volume > 0.0 ==> Resize(s, s.volume) == s
  {
  }

  lemma {:induction false} UnusableStretch(s: State, seen: seq<Reading<Observation>>, policy: Reading<Policy>)
    requires forall i | 0 <= i < |seen| :: !Usable(seen[i], policy)
    ensures Replay(s, seen, policy) == s
  {
    if seen != [] { UnusableStretch(s, seen[1..], policy); }
  }

  lemma {:induction false} LargestNet(seen: seq<Reading<Observation>>, policy: Reading<Policy>) returns (net: real)
    requires exists i :: 0 <= i < |seen| && Usable(seen[i], policy)
    ensures IsLargestNet(seen, policy, net)
  {
    var i :| 0 <= i < |seen| && Usable(seen[i], policy);
    var rest := seen[1..];
    assert forall j | 0 <= j < |rest| :: rest[j] == seen[j + 1];
    if exists j :: 0 <= j < |rest| && Usable(rest[j], policy) {
      net := LargestNet(rest, policy);
      var j :| 0 <= j < |rest| && Usable(rest[j], policy) && rest[j].value.net == net;
      if Usable(seen[0], policy) && seen[0].value.net > net {
        net := seen[0].value.net;
      } else {
        assert seen[j + 1].value.net == net;
      }
      forall k | 0 <= k < |seen| && Usable(seen[k], policy) ensures seen[k].value.net <= net {
        if k > 0 { assert rest[k - 1] == seen[k]; }
      }
    } else {
      net := seen[i].value.net;
      assert forall k | 0 < k < |seen| :: seen[k] == rest[k - 1];
    }
  }

  // ---------------------------------------------------------------------------------------
  // What every tick, partial close and addition keeps
  // ---------------------------------------------------------------------------------------

  predicate BelowPeak(s: State, p: Policy)
    requires s.reference != 0.0
  {
    s.floor > 0.0 ==> s.floor <= s.peak - Headroom(s, p) + EPSILON
  }

  predicate Sound(s: State, p: Policy) {
    s == EMPTY || (Sized(s) && s.volume <= s.reference && s.peak >= 0.0 && BelowPeak(s, p))
  }

  /** An addition too small for the ratchet to notice. */
  predicate Creeps(s: State, size: real) { 0.0 < s.volume < size <= s.volume + EPSILON }

  lemma ResizeKeepsSound(s: State, size: real, p: Policy)
    requires Sound(s, p) && p.Valid() && size > 0.0 && !Creeps(s, size)
    ensures Sound(Resize(s, size), p) && Sized(Resize(s, size))
  {
    ResizeSized(s, size);
    var t := Resize(s, size);
    if s.volume > 0.0 && size <= s.volume {
      var ratio := if size < s.volume - EPSILON then size / s.volume else 1.0;
      ScaleMonotone(0.0, s.peak, ratio);
      if s.floor > 0.0 { ScaledHeadroom(s, size, p); }
    } else {
      assert t.floor == 0.0;
    }
  }

  /** Partial closes take floor, peak and headroom down together. */
  lemma ScaledHeadroom(s: State, size: real, p: Policy)
    requires Sound(s, p) && p.Valid() && s.floor > 0.0 && 0.0 < size <= s.volume
    ensures BelowPeak(Resize(s, size), p)
  {
    hide Headroom;
    HeadroomScales(s, size, p);
    QuotientInUnit(size, s.volume);
    ScaledBound(s.floor, s.peak, Headroom(s, p), size / s.volume);
  }

  lemma HeadroomScales(s: State, size: real, p: Policy)
    requires s.volume > 0.0 && s.reference > 0.0 && 0.0 < size <= s.volume && p.Valid()
    ensures 0.0 <= Headroom(s, p)
    ensures Headroom(Resize(s, size), p) == Headroom(s, p) * (size / s.volume)
  {
    assert Resize(s, size).volume == size && Resize(s, size).reference == s.reference;
    hide Resize;
    ScaleMonotone(0.0, p.headroom, s.volume);
    DivideMonotone(0.0, p.headroom * s.volume, s.reference);
    ScaleFraction(p.headroom, s.volume, s.reference, size);
  }

  lemma ScaledBound(floor: real, peak: real, h: real, ratio: real)
    requires floor <= peak - h + EPSILON && h >= 0.0 && 0.0 < ratio <= 1.0
    ensures floor * ratio <= peak * ratio - h * ratio + EPSILON && h * ratio <= h
  {
    ScaleMonotone(floor, peak - h + EPSILON, ratio);
    assert (peak - h + EPSILON) * ratio == peak * ratio - h * ratio + EPSILON * ratio;
    ScaleMonotone(ratio, 1.0, h);
    ScaleMonotone(ratio, 1.0, EPSILON);
  }

  lemma ScaleFraction(x: real, volume: real, reference: real, size: real)
    requires volume != 0.0 && reference != 0.0
    ensures x * volume / reference * (size / volume) == x * size / reference
  {
    calc {
      x * volume / reference * (size / volume);
      (x / reference) * volume * (size / volume);
      { assert volume * (size / volume) == size; }
      (x / reference) * size;
      x * size / reference;
    }
  }

  lemma ObserveKeepsSound(s: State, net: real, risk: real, p: Policy)
    requires Sound(s, p) && Sized(s) && p.Valid() && risk >= 0.0
    ensures Sound(Observe(s, net, risk, p), p) && Sized(Observe(s, net, risk, p))
  {
    hide Milestone, Kept, RemainingRisk, FloorToCents;
    var t := Observe(s, net, risk, p);
    assert Headroom(t, p) == Headroom(s, p);
    hide Headroom;
    FloorToCentsIsLargest(Candidate(s, t.peak, risk, p), 0);
  }

  /** A call without an unnoticed addition keeps the safety invariant. */
  lemma AdvanceKeepsSound(s: State, seen: Reading<Observation>, p: Policy)
    requires Sound(s, p) && p.Valid()
    requires Usable(seen, Readable(p)) ==> !Creeps(s, seen.value.size)
    ensures Sound(Advance(s, seen, Readable(p)), p)
  {
    if Usable(seen, Readable(p)) {
      ResizeKeepsSound(s, seen.value.size, p);
      ObserveKeepsSound(Resize(s, seen.value.size), seen.value.net, seen.value.risk, p);
    }
  }

  /** One call keeps the safety invariant exactly when it is not an unnoticed addition that takes the volume
      above the reference, or the floor too near the peak for the larger size. */
  lemma AdvanceSoundIff(s: State, seen: Reading<Observation>, p: Policy)
    requires Sound(s, p) && p.Valid()
    ensures Sound(Advance(s, seen, Readable(p)), p) <==>
              (Usable(seen, Readable(p)) && Creeps(s, seen.value.size) ==>
                 && seen.value.size <= s.reference
                 && (s.floor > 0.0 ==>
                       s.floor <= Max(s.peak, seen.value.net) - p.headroom * seen.value.size / s.reference + EPSILON))
  {
    hide Sound, Advance, Resize, Observe, Headroom;
    if !Usable(seen, Readable(p)) || !Creeps(s, seen.value.size) {
      AdvanceKeepsSound(s, seen, p);
    } else {
      var o := seen.value;
      CreepingAdvance(s, o, p);
      ObserveSoundIff(State(s.peak, s.floor, o.size, s.reference), o.net, o.risk, p);
    }
  }

  lemma CreepingAdvance(s: State, o: Observation, p: Policy)
    requires Sound(s, p) && p.Valid() && o.Valid() && Creeps(s, o.size)
    ensures
      var base := State(s.peak, s.floor, o.size, s.reference);
      && Sized(base) && s.peak >= 0.0
      && Headroom(base, p) == p.headroom * o.size / s.reference
      && Advance(s, Readable(o), Readable(p)) == Observe(base, o.net, o.risk, p)
  {
    hide Observe, BelowPeak;
  }

  lemma ObserveSoundIff(s: State, net: real, risk: real, p: Policy)
    requires Sized(s) && s.peak >= 0.0 && risk >= 0.0 && p.Valid()
    ensures Sound(Observe(s, net, risk, p), p) <==>
              s.volume <= s.reference && (s.floor > 0.0 ==> s.floor <= Max(s.peak, net) - Headroom(s, p) + EPSILON)
  {
    var t := Observe(s, net, risk, p);
    hide Milestone, Kept, RemainingRisk, FloorToCents, Armed;
    assert Headroom(t, p) == Headroom(s, p);
    hide Headroom;
    FloorToCentsIsLargest(Candidate(s, t.peak, risk, p), 0);
    var own := PeakFloor(s, t.peak, risk, p);
    assert own <= t.peak - Headroom(s, p) + EPSILON;
    assert t.floor == Max(0.0, s.floor) || t.floor == Max(0.0, Max(s.floor, own));
    assert t.peak == Max(Max(s.peak, net), 0.0) && t.volume == s.volume && t.reference == s.reference;
    hide Observe, Candidate, PeakFloor;
  }

  /** The volume stays within the reference exactly when the call is not an unnoticed addition
      above the reference. */
  lemma VolumeWithinReferenceIff(s: State, seen: Reading<Observation>, p: Policy)
    requires Sound(s, p) && Usable(seen, Readable(p))
    ensures var t := Advance(s, seen, Readable(p));
            t.volume <= t.reference <==> !(Creeps(s, seen.value.size) && seen.value.size > s.reference)
  {
    hide Armed, PeakFloor;
  }

  predicate Multiple(lots: int, step: real, size: real) { lots > 0 && size == lots as real * step }

  ghost predicate OnGrid(step: real, size: real) { exists lots :: Multiple(lots, step, size) }

  lemma GridNeverCreeps(s: State, step: real, size: real)
    requires step > EPSILON && OnGrid(step, size) && (s == EMPTY || OnGrid(step, s.volume))
    ensures !Creeps(s, size)
  {
    if s != EMPTY {
      var a :| Multiple(a, step, s.volume);
      var b :| Multiple(b, step, size);
      assert size - s.volume == (b - a) as real * step;
      StepsApart(b - a, step);
    }
  }

  lemma StepsApart(lots: int, step: real)
    requires step > 0.0
    ensures lots <= 0 ==> lots as real * step <= 0.0
    ensures lots > 0 ==> lots as real * step >= step
  {
    if lots > 0 { ScaleMonotone(1.0, lots as real, step); }
    if lots <= 0 { ScaleMonotone(lots as real, 0.0, step); }
  }

  /** Every mixture of ticks, partial closes and additions on the broker's volume grid. */
  lemma {:induction false} ReplayKeepsSound(s: State, seen: seq<Reading<Observation>>, p: Policy, step: real)
    requires Sound(s, p) && p.Valid() && step > EPSILON && (s == EMPTY || OnGrid(step, s.volume))
    requires forall o | o in seen && Usable(o, Readable(p)) :: OnGrid(step, o.value.size)
    ensures Sound(Replay(s, seen, Readable(p)), p)
    decreases |seen|
  {
    if seen != [] {
      hide Resize, Observe, Sound;
      var next := Advance(s, seen[0], Readable(p));
      if Usable(seen[0], Readable(p)) {
        GridNeverCreeps(s, step, seen[0].value.size);
        AdvanceTakesSize(s, seen[0], p);
      }
      AdvanceKeepsSound(s, seen[0], p);
      assert OnGrid(step, next.volume) || next == EMPTY;
      ReplayKeepsSound(next, seen[1..], p, step);
    }
  }

  lemma AdvanceTakesSize(s: State, seen: Reading<Observation>, p: Policy)
    requires Usable(seen, Readable(p))
    ensures Advance(s, seen, Readable(p)).volume == seen.value.size
  {
    hide Armed, PeakFloor;
  }

  // ---------------------------------------------------------------------------------------
  // Protection per lot, and what an armed floor retains
  // ---------------------------------------------------------------------------------------

  function PerLot(s: State): real {
    if s.volume > 0.0 then s.floor / s.volume else 0.0
  }

  /** Between additions the floor per remaining lot never falls. */
  lemma PerLotNeverFalls(s: State, seen: Reading<Observation>, p: Policy)
    requires Sound(s, p) && p.Valid()
    requires Usable(seen, Readable(p)) && s.volume > 0.0 ==> seen.value.size <= s.volume
    ensures PerLot(Advance(s, seen, Readable(p))) >= PerLot(s)
  {
    if Usable(seen, Readable(p)) {
      var size := seen.value.size;
      ResizeSized(s, size);
      ResizeKeepsPerLot(s, size);
      hide Resize, PeakFloor, Armed;
      DivideMonotone(Resize(s, size).floor, Advance(s, seen, Readable(p)).floor, size);
    }
  }

  /** A partial close keeps peak and floor per lot exactly; an addition forgets both. */
  lemma PartialCloseIsProportional(s: State, size: real)
    requires s.volume > 0.0 && size > 0.0
    ensures
      var t := Resize(s, size);
      && t.volume == size
      && (size < s.volume - EPSILON ==>
            t.floor / size == s.floor / s.volume && t.peak / size == s.peak / s.volume
            && (s.reference != 0.0 ==> t.reference == s.reference))
      && (size > s.volume + EPSILON ==> t.floor == t.peak == 0.0 && t.reference == size)
  {
    if size < s.volume - EPSILON {
      QuotientOfScaled(Resize(s, size).floor, s.floor, s.volume, size);
      QuotientOfScaled(Resize(s, size).peak, s.peak, s.volume, size);
    }
  }

  lemma ResizeKeepsPerLot(s: State, size: real)
    requires s.floor >= 0.0 && size > 0.0 && (s.volume > 0.0 ==> size <= s.volume)
    ensures Resize(s, size).floor / size >= PerLot(s)
  {
    if s.volume <= 0.0 {
      DivideMonotone(0.0, Resize(s, size).floor, size);
    } else if size < s.volume - EPSILON {
      ScaleQuotient(s.floor, s.volume, size);
    } else {
      DivideBySmaller(s.floor, size, s.volume);
    }
  }

  lemma QuotientOfScaled(scaled: real, x: real, volume: real, size: real)
    requires volume != 0.0 && size != 0.0 && scaled == x * (size / volume)
    ensures scaled / size == x / volume
  {
    ScaleQuotient(x, volume, size);
  }

  lemma ScaleQuotient(x: real, volume: real, size: real)
    requires volume != 0.0 && size != 0.0
    ensures x * (size / volume) / size == x / volume
  {
    assert x * (size / volume) == x / volume * size;
  }

  lemma DivideBySmaller(x: real, small: real, large: real)
    requires x >= 0.0 && 0.0 < small <= large
    ensures x / large <= x / small
  {
    assert x / large * small <= x / large * large;
    DivideMonotone(x / large * small, x, small);
  }

  /** An armed floor is within a cent of what the policy promises; an unarmed one stays at zero. */
  lemma ArmedFloorRetains(s: State, net: real, risk: real, p: Policy)
    requires Sound(s, p) && Sized(s) && p.Valid() && risk >= 0.0
    ensures
      var t := Observe(s, net, risk, p);
      var r := RemainingRisk(s, risk);
      if Armed(t.peak, s.floor, r, p) then
        && t.floor > Min(Kept(t.peak, r, p), t.peak - Headroom(s, p)) - 0.01
        && t.floor > Min(Milestone(s, p), t.peak - Headroom(s, p)) - 0.01
        && t.floor <= Max(s.floor, Min(Max(Milestone(s, p), Kept(t.peak, r, p)), t.peak - Headroom(s, p)) + EPSILON)
      else
        t.floor == s.floor == 0.0
  {
    hide FloorToCents, Headroom, Milestone, RemainingRisk, Kept, PeakR;
    FloorToCentsIsLargest(Candidate(s, Observe(s, net, risk, p).peak, risk, p), 0);
  }

  /** An unarmed floor rises only at a peak that reaches the cash trigger and, when the risk is known, the
      R threshold; and the first floor at full size keeps the cash milestone to within a cent. */
  lemma FirstFloorMeetsMilestone(s: State, net: real, risk: real, p: Policy)
    requires Sound(s, p) && Sized(s) && p.Valid() && risk >= 0.0 && s.floor == 0.0
    ensures
      var t := Observe(s, net, risk, p);
      t.floor > 0.0 ==>
        && t.peak + EPSILON >= p.trigger
        && (RemainingRisk(s, risk) > 0.0 ==> t.peak >= (p.triggerR - EPSILON) * RemainingRisk(s, risk))
        && (s.volume == s.reference ==> t.floor > p.cashFloor - 0.01 - EPSILON)
  {
    hide FloorToCents, Headroom, Milestone, RemainingRisk, Kept, PeakR;
    ArmedFloorRetains(s, net, risk, p);
    if s.volume == s.reference { FullSize(s, p); }
    var r, peak := RemainingRisk(s, risk), Observe(s, net, risk, p).peak;
    if r > 0.0 { PeakRReaches(peak, r, p.triggerR - EPSILON); }
  }

  // ---------------------------------------------------------------------------------------
  // One call, written out
  // ---------------------------------------------------------------------------------------

  /** What a change of size makes of an amount: nothing after an addition, in proportion after a partial close,
      and the amount itself when the size is the same up to 1e-9 or there was no position. */
  predicate CarriedOver(amount: real, carried: real, before: real, size: real) {
    && (size > before + 0.000000001 ==> carried == 0.0)
    && (before > 0.0 && size < before - 0.000000001 ==> carried * before == amount * size)
    && (size <= before + 0.000000001 && (before <= 0.0 || size >= before - 0.000000001) ==> carried == amount)
  }

  /** The largest whole cent that is not more than 1e-9 above an amount. */
  predicate CentsBelow(cents: int, amount: real) {
    cents as real <= 100.0 * amount + 0.0000001 < cents as real + 1.0
  }

  /** Initial risk, headroom and cash milestone in proportion to what is left of the position. */
  predicate InProportion(risk: real, room: real, milestone: real, t: State, initial: real, p: Policy) {
    && t.reference > 0.0 && risk * t.reference == initial * t.volume
    && room * t.reference == p.headroom * t.volume && milestone * t.reference == p.cashFloor * t.volume
  }

  /** The mature share exactly from the mature R multiple on. */
  predicate ShareKept(share: real, peak: real, risk: real, p: Policy) {
    share == if risk > 0.0 && peak >= p.matureR * risk then p.matureKeep else p.keep
  }

  function Most(a: real, b: real): real { if b > a then b else a }

  function Least(a: real, b: real): real { if b < a then b else a }

  /** The state after a net profit was seen, from the peak and floor before. An armed floor is the larger of the
      one before and the whole cents of the kept share or the cash milestone, whichever is more, as far as the
      headroom allows. */
  predicate Ratcheted(
    t: State, net: real, peak: real, floor: real, risk: real, room: real, milestone: real, share: real, cents: int,
    p: Policy)
  {
    && t.peak >= peak && t.peak >= net && t.peak >= 0.0 && (t.peak == peak || t.peak == net || t.peak == 0.0)
    && CentsBelow(cents, Least(Most(milestone, share * t.peak), t.peak - room))
    && (if floor > 0.0
           || (t.peak + 0.000000001 >= p.trigger
               && (risk <= 0.0 || t.peak + 0.000000001 * risk >= p.triggerR * risk)) then
          t.floor == Most(floor, cents as real / 100.0)
        else
          t.floor == floor == 0.0)
  }

  /** What the ratchet acts on: a positive size, a risk that is not negative, and settings that fit together. */
  predicate Sensible(o: Observation, p: Policy) {
    && 0.0 < o.size && 0.0 <= o.risk
    && 0.0 < p.trigger && 0.0 < p.triggerR <= p.matureR
    && 0.0 < p.keep <= p.matureKeep < 1.0
    && 0.0 <= p.cashFloor && 0.0 < p.headroom && p.cashFloor + p.headroom <= p.trigger
  }

  /** One call, from first principles. Unless everything is readable and sensible the state stays as it is; otherwise
      `peak` and `floor` are carried over to the new size, and `risk`, `room` and `milestone` belong to it. */
  lemma AdvanceWrittenOut(s: State, seen: Reading<Observation>, policy: Reading<Policy>)
    returns (peak: real, floor: real, risk: real, room: real, milestone: real, share: real, cents: int)
    requires s.reference >= 0.0 && s.floor >= 0.0 && s.volume >= 0.0
    ensures
      var t := Advance(s, seen, policy);
      if seen.Unreadable? || policy.Unreadable? || !Sensible(seen.value, policy.value) then t == s
      else
        var o, p := seen.value, policy.value;
        && t.volume == o.size
        && t.reference == (if o.size > s.volume + 0.000000001 || s.reference == 0.0 then o.size else s.reference)
        && CarriedOver(s.peak, peak, s.volume, o.size) && CarriedOver(s.floor, floor, s.volume, o.size)
        && InProportion(risk, room, milestone, t, o.risk, p)
        && ShareKept(share, t.peak, risk, p)
        && Ratcheted(t, o.net, peak, floor, risk, room, milestone, share, cents, p)
  {
    UsableIff(seen, policy);
    hide Usable, Resize, Observe, RemainingRisk, Headroom, Milestone, KeepFraction, Ratcheted, CarriedOver,
         InProportion, ShareKept, Sensible;
    peak, floor, risk, room, milestone, share, cents := 0.0, 0.0, 0.0, 0.0, 0.0, 0.0, 0;
    if Usable(seen, policy) {
      var o, p := seen.value, policy.value;
      var base := Resize(s, o.size);
      ResizeSized(s, o.size);
      CarriesOver(s, o.size);
      AdvanceIsObserve(s, o, p);
      hide Advance;
      peak, floor := base.peak, base.floor;
      var t := Observe(base, o.net, o.risk, p);
      risk, room, milestone := RemainingRisk(base, o.risk), Headroom(base, p), Milestone(base, p);
      share := KeepFraction(t.peak, risk, p);
      ShareSpelled(t.peak, risk, p);
      cents := ObserveSpelled(base, o.net, o.risk, p);
      ScaledToRest(base, t, o.risk, p);
    }
  }

  lemma UsableIff(seen: Reading<Observation>, policy: Reading<Policy>)
    ensures Usable(seen, policy) <==> seen.Readable? && policy.Readable? && Sensible(seen.value, policy.value)
    ensures Usable(seen, policy) ==> seen.value.size > 0.0 && seen.value.Valid() && policy.value.Valid()
  {
  }

  lemma AdvanceIsObserve(s: State, o: Observation, p: Policy)
    requires o.Valid() && p.Valid()
    ensures Advance(s, Readable(o), Readable(p)) == Observe(Resize(s, o.size), o.net, o.risk, p)
  {
    hide Observe, Resize;
  }

  lemma ScaledToRest(s: State, t: State, risk: real, p: Policy)
    requires s.reference > 0.0 && t.volume == s.volume && t.reference == s.reference
    ensures InProportion(RemainingRisk(s, risk), Headroom(s, p), Milestone(s, p), t, risk, p)
  {
    TimesReference(risk, s);
    TimesReference(p.headroom, s);
    TimesReference(p.cashFloor, s);
  }

  /** One observation at the state's own size, with the amounts scaled to that size named. */
  lemma ObserveSpelled(s: State, net: real, initial: real, p: Policy) returns (cents: int)
    requires s.reference > 0.0 && s.floor >= 0.0
    ensures
      var t := Observe(s, net, initial, p);
      var risk := RemainingRisk(s, initial);
      && t.volume == s.volume && t.reference == s.reference
      && Ratcheted(
           t, net, s.peak, s.floor, risk, Headroom(s, p), Milestone(s, p), KeepFraction(t.peak, risk, p), cents, p)
  {
    hide RemainingRisk, Headroom, Milestone, KeepFraction, FloorToCents, Candidate, Armed;
    var t := Observe(s, net, initial, p);
    var risk := RemainingRisk(s, initial);
    var amount := Candidate(s, t.peak, initial, p);
    cents := ((amount + EPSILON) * 100.0).Floor;
    CentsSpelled(amount, cents);
    AmountSpelled(s, t.peak, initial, p);
    RatchetSpelled(t, net, s.peak, s.floor, risk, Headroom(s, p), Milestone(s, p), KeepFraction(t.peak, risk, p), cents,
                   amount, p);
  }

  lemma RatchetSpelled(
    t: State, net: real, peak: real, floor: real, risk: real, room: real, milestone: real, share: real, cents: int,
    amount: real, p: Policy)
    requires floor >= 0.0 && CentsBelow(cents, amount)
    requires amount == Least(Most(milestone, share * t.peak), t.peak - room)
    requires t.peak == Max(Max(peak, net), 0.0)
    requires t.floor == Max(0.0, if Armed(t.peak, floor, risk, p) then Max(floor, cents as real / 100.0) else floor)
    ensures Ratcheted(t, net, peak, floor, risk, room, milestone, share, cents, p)
  {
    ArmedSpelled(t.peak, floor, risk, p);
    hide Armed, CentsBelow, Least;
    assert CentsBelow(cents, Least(Most(milestone, share * t.peak), t.peak - room));
    assert Armed(t.peak, floor, risk, p) ==> t.floor == Most(floor, cents as real / 100.0);
    assert !Armed(t.peak, floor, risk, p) ==> t.floor == floor == 0.0;
    assert t.peak >= peak && t.peak >= net && t.peak >= 0.0 && (t.peak == peak || t.peak == net || t.peak == 0.0);
    hide Most;
  }

  lemma AmountSpelled(s: State, peak: real, initial: real, p: Policy)
    requires s.reference > 0.0
    ensures Candidate(s, peak, initial, p)
         == Least(Most(Milestone(s, p), KeepFraction(peak, RemainingRisk(s, initial), p) * peak), peak - Headroom(s, p))
  {
    hide RemainingRisk, Headroom, Milestone, KeepFraction;
  }

  lemma CentsSpelled(amount: real, cents: int)
    requires cents == ((amount + EPSILON) * 100.0).Floor
    ensures CentsBelow(cents, amount) && FloorToCents(amount) == cents as real / 100.0
  {
  }

  lemma CarriesOver(s: State, size: real)
    requires size > 0.0 && s.reference >= 0.0 && s.volume >= 0.0
    ensures
      var t := Resize(s, size);
      && CarriedOver(s.peak, t.peak, s.volume, size) && CarriedOver(s.floor, t.floor, s.volume, size)
      && t.reference == (if size > s.volume + EPSILON || s.reference == 0.0 then size else s.reference)
  {
    if s.volume > 0.0 && size < s.volume - EPSILON {
      assert s.peak * (size / s.volume) * s.volume == s.peak * size;
      assert s.floor * (size / s.volume) * s.volume == s.floor * size;
    }
  }

  lemma TimesReference(x: real, s: State)
    requires s.reference > 0.0
    ensures x * s.volume / s.reference * s.reference == x * s.volume
  {
  }

  lemma ShareSpelled(peak: real, risk: real, p: Policy)
    ensures ShareKept(KeepFraction(peak, risk, p), peak, risk, p)
  {
    if risk > 0.0 { PeakRReaches(peak, risk, p.matureR); }
    hide PeakR;
  }

  lemma ArmedSpelled(peak: real, floor: real, risk: real, p: Policy)
    ensures Armed(peak, floor, risk, p) <==>
              || floor > 0.0
              || (peak + EPSILON >= p.trigger && (risk <= 0.0 || peak + EPSILON * risk >= p.triggerR * risk))
  {
    if risk > 0.0 {
      PeakRReaches(peak, risk, p.triggerR - EPSILON);
      assert (p.triggerR - EPSILON) * risk == p.triggerR * risk - EPSILON * risk;
    }
    hide PeakR;
  }

  lemma FullSize(s: State, p: Policy)
    requires s.volume == s.reference > 0.0
    ensures Milestone(s, p) == p.cashFloor && Headroom(s, p) == p.headroom
  {
  }

  /** The kept share of a peak is the mature one exactly from the mature R multiple on. */
  lemma KeptIsShare(peak: real, remaining: real, p: Policy)
    ensures Kept(peak, remaining, p)
         == if remaining > 0.0 && peak >= p.matureR * remaining then p.matureKeep * peak else p.keep * peak
  {
    if remaining > 0.0 { PeakRReaches(peak, remaining, p.matureR); }
    hide PeakR;
  }

  lemma PeakRReaches(peak: real, remaining: real, r: real)
    requires remaining > 0.0
    ensures peak >= r * remaining <==> PeakR(peak, remaining) >= r
  {
    assert peak == PeakR(peak, remaining) * remaining;
    if peak >= r * remaining { DivideMonotone(r * remaining, peak, remaining); }
    if PeakR(peak, remaining) >= r { ScaleMonotone(r, PeakR(peak, remaining), remaining); }
  }

  // ---------------------------------------------------------------------------------------
  // Storage
  // ---------------------------------------------------------------------------------------

  datatype Field = PeakField | FloorField | VolumeField | ReferenceField

  type Fields = map<Field, Reading<real>>

  function ToDict(s: State): Fields {
    map[
      PeakField := Readable(s.peak), FloorField := Readable(s.floor),
      VolumeField := Readable(s.volume), ReferenceField := Readable(s.reference)]
  }

  function Get(fields: Fields, field: Field): Reading<real> {
    if field in fields then fields[field] else Readable(0.0)
  }

  predicate Storable(s: State) {
    && s.peak >= 0.0 && 0.0 <= s.floor <= s.peak
    && 0.0 < s.volume <= s.reference
  }

  /** `None` is a stored value that is not a mapping, or no stored value at all. */
  function FromDict(stored: Option<Fields>): State {
    if stored.None? then EMPTY
    else
      var f := stored.value;
      match (Get(f, PeakField), Get(f, FloorField), Get(f, VolumeField), Get(f, ReferenceField))
      case (Readable(peak), Readable(floor), Readable(volume), Readable(reference)) =>
        var s := State(peak, floor, volume, reference);
        if Storable(s) then s else EMPTY
      case _ => EMPTY
  }

  /** Only a usable state is ever taken from storage, whatever was stored there. */
  lemma StoredStateIsUsable(stored: Option<Fields>)
    ensures var s := FromDict(stored); s == EMPTY || Storable(s)
    ensures stored.Some? ==> forall f | f in stored.value && stored.value[f].Unreadable? :: FromDict(stored) == EMPTY
  {
    if stored.Some? {
      forall f | f in stored.value && stored.value[f].Unreadable? ensures FromDict(stored) == EMPTY {
        match f
        case PeakField => assert Get(stored.value, PeakField).Unreadable?;
        case FloorField => assert Get(stored.value, FloorField).Unreadable?;
        case VolumeField => assert Get(stored.value, VolumeField).Unreadable?;
        case ReferenceField => assert Get(stored.value, ReferenceField).Unreadable?;
      }
    }
  }

  /** A stored field reads as this number; one that is missing reads as zero. */
  predicate ReadsAs(fields: Fields, field: Field, x: real) {
    if field in fields then fields[field] == Readable(x) else x == 0.0
  }

  /** The state that a stored mapping spells, if all its fields are readable, none is negative, the floor is not above
      the peak, there is a volume, and the reference is not below it. */
  predicate Spells(fields: Fields, s: State) {
    && ReadsAs(fields, PeakField, s.peak) && ReadsAs(fields, FloorField, s.floor)
    && ReadsAs(fields, VolumeField, s.volume) && ReadsAs(fields, ReferenceField, s.reference)
    && s.peak >= 0.0 && s.floor >= 0.0 && s.volume > 0.0 && s.reference >= 0.0
    && s.floor <= s.peak && s.volume <= s.reference
  }

  /** Reading returns the state that a stored mapping spells, and the empty state if it spells none. */
  lemma StoredStateWrittenOut(stored: Option<Fields>)
    ensures
      var s := FromDict(stored);
      if stored.Some? && exists t :: Spells(stored.value, t) then Spells(stored.value, s)
      else s == State(0.0, 0.0, 0.0, 0.0)
  {
    if stored.Some? {
      var f := stored.value;
      forall t | Spells(f, t) ensures t == FromDict(stored) {
      }
      if FromDict(stored) != EMPTY { assert Spells(f, FromDict(stored)); }
    }
  }

  /** Writing and reading back returns a state exactly when it is usable or empty. */
  lemma RoundTripIff(s: State)
    ensures FromDict(Some(ToDict(s))) == s <==> Storable(s) || s == EMPTY
  {
  }

  /** Room for the floor: the headroom at this size outweighs the ratchet's own slack. */
  predicate Roomy(p: Policy, size: real, reference: real) { p.headroom * size >= EPSILON * reference }

  lemma AdvanceKeepsStorable(s: State, seen: Reading<Observation>, p: Policy)
    requires Sound(s, p) && p.Valid() && (s == EMPTY || Storable(s))
    requires Usable(seen, Readable(p)) ==>
               && !Creeps(s, seen.value.size)
               && Roomy(p, seen.value.size, Resize(s, seen.value.size).reference)
    ensures var t := Advance(s, seen, Readable(p)); t == EMPTY || Storable(t)
  {
    if Usable(seen, Readable(p)) {
      var o := seen.value;
      ResizeKeepsSound(s, o.size, p);
      ResizeKeepsFloor(s, o.size);
      AdvanceIsObserve(s, o, p);
      hide *;
      ObserveKeepsStorable(Resize(s, o.size), o.net, o.risk, p);
    }
  }

  lemma ResizeKeepsFloor(s: State, size: real)
    requires size > 0.0 && (s == EMPTY || Storable(s))
    ensures var base := Resize(s, size); base.floor <= base.peak && base.volume == size && base.reference > 0.0
  {
    if s.volume > 0.0 { ScaleMonotone(s.floor, s.peak, size / s.volume); }
  }

  lemma ObserveKeepsStorable(s: State, net: real, risk: real, p: Policy)
    requires Sound(s, p) && Sized(s) && s.floor <= s.peak && p.Valid() && Roomy(p, s.volume, s.reference)
    ensures Storable(Observe(s, net, risk, p))
  {
    DivideMonotone(EPSILON * s.reference, p.headroom * s.volume, s.reference);
    assert Headroom(s, p) >= EPSILON;
    hide FloorToCents, Headroom, Milestone, RemainingRisk, Kept, Armed;
    var t := Observe(s, net, risk, p);
    FloorToCentsIsLargest(Candidate(s, t.peak, risk, p), 0);
  }

  predicate StorableIfRoomy(s: State, p: Policy) {
    s == EMPTY || (Roomy(p, s.volume, s.reference) ==> Storable(s))
  }

  lemma AdvanceStorableIfRoomy(s: State, seen: Reading<Observation>, p: Policy)
    requires Sound(s, p) && p.Valid() && StorableIfRoomy(s, p)
    requires Usable(seen, Readable(p)) ==> !Creeps(s, seen.value.size)
    ensures StorableIfRoomy(Advance(s, seen, Readable(p)), p)
  {
    if Usable(seen, Readable(p)) {
      var size := seen.value.size;
      var t := Advance(s, seen, Readable(p));
      AdvanceTakesSize(s, seen, p);
      assert t.reference == Resize(s, size).reference by { hide PeakFloor, Armed; }
      if Roomy(p, t.volume, t.reference) {
        if s.volume > 0.0 && size <= s.volume {
          ScaleMonotone(size, s.volume, p.headroom);
          assert Roomy(p, s.volume, s.reference);
          hide Observe, Resize, Sound;
          AdvanceKeepsStorable(s, seen, p);
        } else {
          assert Resize(s, size) == Resize(EMPTY, size);
          hide Observe, Resize;
          AdvanceKeepsStorable(EMPTY, seen, p);
        }
      }
    }
  }

  /** Every state the ratchet can reach on a volume grid survives being stored and read back if, at the size
      it has reached, the headroom outweighs the ratchet's slack. */
  lemma {:induction false} ReachableStatesRoundTrip(
    s: State, seen: seq<Reading<Observation>>, p: Policy, step: real)
    requires Sound(s, p) && p.Valid() && step > EPSILON
    requires s == EMPTY || (StorableIfRoomy(s, p) && OnGrid(step, s.volume))
    requires forall o | o in seen && Usable(o, Readable(p)) :: OnGrid(step, o.value.size)
    ensures var t := Replay(s, seen, Readable(p));
            t == EMPTY || Roomy(p, t.volume, t.reference) ==> FromDict(Some(ToDict(t))) == t
    decreases |seen|
  {
    if seen != [] {
      var o := seen[0];
      var next := Advance(s, o, Readable(p));
      if Usable(o, Readable(p)) {
        GridNeverCreeps(s, step, o.value.size);
        AdvanceTakesSize(s, o, p);
      }
      hide Resize, Observe, Sound;
      AdvanceKeepsSound(s, o, p);
      AdvanceStorableIfRoomy(s, o, p);
      ReachableStatesRoundTrip(next, seen[1..], p, step);
    }
  }

  /** Under the settings, that is so whenever at least a ten-millionth of the position is left. */
  lemma AdmittedPoliciesRoundTrip(seen: seq<Reading<Observation>>, p: Policy, step: real)
    requires p.Admitted() && step > EPSILON
    requires forall o | o in seen && Usable(o, Readable(p)) :: OnGrid(step, o.value.size)
    ensures var t := Replay(EMPTY, seen, Readable(p));
            t.reference <= 10000000.0 * t.volume ==> FromDict(Some(ToDict(t))) == t
  {
    ReachableStatesRoundTrip(EMPTY, seen, p, step);
    var t := Replay(EMPTY, seen, Readable(p));
    if t.reference <= 10000000.0 * t.volume && t != EMPTY {
      ReplayKeepsSound(EMPTY, seen, p, step);
      hide Replay;
      AdmittedIsRoomy(p, t.volume, t.reference);
    }
  }

  lemma AdmittedIsRoomy(p: Policy, volume: real, reference: real)
    requires p.Admitted() && 0.0 <= volume && reference <= 10000000.0 * volume
    ensures Roomy(p, volume, reference)
  {
    ScaleMonotone(0.01, p.headroom, volume);
  }

  // ---------------------------------------------------------------------------------------
  // Exactly when a state can be lost
  // ---------------------------------------------------------------------------------------

  /** A run on a volume grid ends at this size of this reference with a state that is discarded when it is
      read back. Whenever the settings allow the headroom, they allow the whole policy. */
  ghost predicate Loses(
    p: Policy, seen: seq<Reading<Observation>>, step: real, headroom: real, size: real, reference: real)
  {
    var t := Replay(EMPTY, seen, Readable(p));
    && p.Valid() && p.headroom == headroom && (headroom >= 0.01 ==> p.Admitted())
    && (forall o | o in seen && Usable(o, Readable(p)) :: OnGrid(step, o.value.size))
    && t.volume == size && t.reference == reference && FromDict(Some(ToDict(t))) != t
  }

  /** Some policy and some run lose their state at this size exactly when the headroom that is left there is
      below the ratchet's slack. */
  lemma StateLostIff(headroom: real, size: real, reference: real, step: real)
    requires headroom > 0.0 && 0.0 < size <= reference
    requires step > EPSILON && OnGrid(step, size) && OnGrid(step, reference)
    ensures (exists p, seen :: Loses(p, seen, step, headroom, size, reference)) <==>
              headroom * size < EPSILON * reference
  {
    forall p, seen | Loses(p, seen, step, headroom, size, reference)
      ensures headroom * size < EPSILON * reference
    {
      LossNeedsNoRoom(p, seen, step, headroom, size, reference);
    }
    hide Loses, OnGrid;
    if headroom * size < EPSILON * reference {
      LosingRun(headroom, size, reference, step);
    }
  }

  lemma LossNeedsNoRoom(
    p: Policy, seen: seq<Reading<Observation>>, step: real, headroom: real, size: real, reference: real)
    requires Loses(p, seen, step, headroom, size, reference) && step > EPSILON
    ensures headroom * size < EPSILON * reference
  {
    ReachableStatesRoundTrip(EMPTY, seen, p, step);
    hide Replay, FromDict, ToDict;
  }

  /** With the smallest headroom the settings allow, that takes a position of 200,000 lots of which
      a hundredth of a lot is left. */
  lemma AdmittedPolicyLosesState()
    ensures exists p, seen :: Loses(p, seen, 0.01, 0.01, 0.01, 200000.0)
  {
    assert Multiple(1, 0.01, 0.01) && Multiple(20000000, 0.01, 200000.0);
    StateLostIff(0.01, 0.01, 200000.0, 0.01);
  }

  /** A peak just under a cent at the reduced size, and the peak at full size that becomes it. */
  function LostPeak(room: real): real { 0.01 - (EPSILON - room) / 2.0 }

  function LosingPolicy(headroom: real, peak: real): Policy {
    Policy(peak, 1.0, 2.0, 0.5, 0.75, peak - headroom, headroom)
  }

  function LosingSeen(peak: real, size: real, reference: real): seq<Reading<Observation>> {
    [Readable(Observation(peak, reference, 0.0)), Readable(Observation(0.0, size, 0.0))]
  }

  /** Arm at full size, then close down to the reduced size. */
  lemma LosingRun(headroom: real, size: real, reference: real, step: real)
    requires headroom > 0.0 && 0.0 < size <= reference && headroom * size < EPSILON * reference
    requires step > EPSILON && OnGrid(step, size) && OnGrid(step, reference)
    ensures exists p, seen :: Loses(p, seen, step, headroom, size, reference)
  {
    var ratio, room, peak := LosingNumbers(headroom, size, reference);
    hide LostPeak, Advance, Loses, Creeps;
    ArmsAtFullSize(headroom, peak, reference);
    GridNeverCreeps(State(0.0, 0.0, size, reference), step, reference);
    LosingRunLoses(headroom, size, reference, step, ratio, room, peak);
  }

  lemma LosingRunLoses(
    headroom: real, size: real, reference: real, step: real, ratio: real, room: real, peak: real)
    requires 0.0 < size <= reference && ratio == size / reference > 0.0 && peak * ratio == LostPeak(room)
    requires 0.0 < room < EPSILON && headroom * size / reference == room
    requires (peak - headroom) * size / reference == LostPeak(room) - room
    requires OnGrid(step, size) && OnGrid(step, reference) && !Creeps(State(0.0, 0.0, size, reference), reference)
    requires
      var p := LosingPolicy(headroom, peak);
      var t := Advance(EMPTY, Readable(Observation(peak, reference, 0.0)), Readable(p));
      p.Valid() && t.peak == peak && t.floor > 0.0 && t.volume == t.reference == reference
    ensures exists p, seen :: Loses(p, seen, step, headroom, size, reference)
  {
    hide OnGrid, LostPeak, Advance, Replay;
    var p, seen := LosingPolicy(headroom, peak), LosingSeen(peak, size, reference);
    var armed := Advance(EMPTY, seen[0], Readable(p));
    ClosesDown(armed, size, reference, ratio);
    LosesAtTheEnd(armed, p, size, reference, room);
    ReplayTwo(seen[0], seen[1], Readable(p));
    hide Creeps;
    RoundTripIff(Replay(EMPTY, seen, Readable(p)));
    assert Loses(p, seen, step, headroom, size, reference);
  }

  lemma ReplayTwo(a: Reading<Observation>, b: Reading<Observation>, policy: Reading<Policy>)
    ensures Replay(EMPTY, [a, b], policy) == Advance(Advance(EMPTY, a, policy), b, policy)
  {
    hide Advance;
    var mid := Advance(EMPTY, a, policy);
    var end := Advance(mid, b, policy);
    assert [a, b][1..] == [b] && [b][1..] == [];
    assert Replay(end, [], policy) == end;
    assert Replay(mid, [b], policy) == end;
  }

  lemma LosesAtTheEnd(armed: State, p: Policy, size: real, reference: real, room: real)
    requires p.Valid() && 0.0 < room < EPSILON && 0.0 < size <= reference
    requires p.headroom * size / reference == room && p.cashFloor * size / reference == LostPeak(room) - room
    requires
      var left := Resize(armed, size);
      left.peak == LostPeak(room) && left.floor > 0.0 && left.volume == size && left.reference == reference
    ensures
      var t := Advance(armed, Readable(Observation(0.0, size, 0.0)), Readable(p));
      t.volume == size && t.reference == reference && t.floor > t.peak && t.floor > 0.0
  {
    var left := Resize(armed, size);
    assert Milestone(left, p) == LostPeak(room) - room && Headroom(left, p) == room;
    hide Resize, Milestone, Headroom, Observe;
    LosesWhenClosed(left, room, p);
  }

  lemma ClosesDown(s: State, size: real, reference: real, ratio: real)
    requires 0.0 < size <= reference && ratio == size / reference > 0.0 && s.volume == s.reference == reference
    requires !Creeps(State(0.0, 0.0, size, reference), reference) && s.floor > 0.0
    ensures var t := Resize(s, size);
            t.peak == s.peak * ratio && t.floor > 0.0 && t.volume == size && t.reference == reference
  {
    ScalesUp(s.floor, ratio);
    if size == reference { assert reference / reference == 1.0; }
  }

  lemma ScalesUp(x: real, ratio: real)
    requires x > 0.0 && ratio > 0.0
    ensures x * ratio > 0.0
  {
  }

  lemma LosingNumbers(headroom: real, size: real, reference: real) returns (ratio: real, room: real, peak: real)
    requires headroom > 0.0 && 0.0 < size <= reference && headroom * size < EPSILON * reference
    ensures ratio == size / reference && 0.0 < ratio <= 1.0
    ensures room == headroom * size / reference && 0.0 < room < EPSILON
    ensures peak * ratio == LostPeak(room) && peak - headroom >= 0.01 - EPSILON
    ensures (peak - headroom) * size / reference == LostPeak(room) - room
  {
    ratio, room := size / reference, headroom * size / reference;
    QuotientInUnit(size, reference);
    ScalesUp(headroom, size);
    StrictQuotient(headroom * size, EPSILON, reference);
    assert headroom * ratio == room;
    peak := LostPeak(room) / ratio;
    assert peak * ratio == LostPeak(room);
    assert (peak - headroom) * ratio == LostPeak(room) - room;
    AtLeastScaled(peak - headroom, LostPeak(room) - room, ratio);
    MilestoneLeft(headroom, size, reference, peak, room);
  }

  lemma StrictQuotient(x: real, bound: real, y: real)
    requires 0.0 < x < bound * y && y > 0.0
    ensures 0.0 < x / y < bound
  {
    assert x == x / y * y;
    if x / y >= bound { ScaleMonotone(bound, x / y, y); }
  }

  lemma AtLeastScaled(x: real, scaled: real, ratio: real)
    requires x * ratio == scaled > 0.0 && 0.0 < ratio <= 1.0
    ensures x >= scaled
  {
    if x > 0.0 { ScaleMonotone(ratio, 1.0, x); } else { ScaleMonotone(x, 0.0, ratio); }
  }

  lemma MilestoneLeft(headroom: real, size: real, reference: real, peak: real, room: real)
    requires reference > 0.0 && room == headroom * size / reference && peak * (size / reference) == LostPeak(room)
    ensures (peak - headroom) * size / reference == LostPeak(room) - room
  {
  }

  lemma ArmsAtFullSize(headroom: real, peak: real, reference: real)
    requires headroom > 0.0 && reference > 0.0 && peak - headroom >= 0.01 - EPSILON
    ensures
      var p := LosingPolicy(headroom, peak);
      var t := Advance(EMPTY, Readable(Observation(peak, reference, 0.0)), Readable(p));
      p.Valid() && t.peak == peak && t.floor > 0.0 && t.volume == t.reference == reference
  {
    var p := LosingPolicy(headroom, peak);
    var base := Resize(EMPTY, reference);
    assert base == State(0.0, 0.0, reference, reference);
    FullSize(base, p);
    assert RemainingRisk(base, 0.0) == 0.0;
    hide Milestone, Headroom, RemainingRisk, FloorToCents;
    FloorToCentsIsLargest(Candidate(base, peak, 0.0, p), 1);
  }

  lemma LosesWhenClosed(s: State, room: real, p: Policy)
    requires p.Valid() && Sized(s) && s.floor > 0.0 && 0.0 < room < EPSILON
    requires s.peak == LostPeak(room) && Headroom(s, p) == room && Milestone(s, p) == s.peak - room
    ensures var t := Observe(s, 0.0, 0.0, p);
            t.floor > t.peak && t.floor > 0.0 && t.volume == s.volume && t.reference == s.reference
  {
    hide Milestone, Headroom, RemainingRisk, FloorToCents, Kept;
    FloorToCentsIsLargest(Candidate(s, s.peak, 0.0, p), 1);
  }
}
