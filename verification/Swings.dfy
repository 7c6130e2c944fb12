/** Swing highs and lows by a symmetric window (market_structure/smc.py, `detect_swings`). */
module Swings {

  datatype Sense = High | Low

  /** A label compares a swing with the one before; the first keeps its placeholder. */
  datatype Label = First | Higher | Lower

  datatype Swing = Swing(index: nat, price: real, tag: Label)

  predicate NoBetter(sense: Sense, a: real, b: real) { if sense.High? then b <= a else b >= a }

  /** No bar within the window on either side goes further. */
  predicate IsSwing(sense: Sense, values: seq<real>, window: nat, i: int) {
    && window <= i < |values| - window
    && forall j | i - window <= j <= i + window :: NoBetter(sense, values[i], values[j])
  }

  /** Unlabelled swings at indices below `limit`. */
  function Found(sense: Sense, values: seq<real>, window: nat, limit: nat): seq<Swing>
    requires limit <= |values|
  {
    if limit == 0 then []
    else
      var before := Found(sense, values, window, limit - 1);
      var i := limit - 1;
      if IsSwing(sense, values, window, i) then before + [Swing(i, values[i], First)] else before
  }

  function LabelAfter(previous: Swing, swing: Swing): Label {
    if swing.price > previous.price then Higher else Lower
  }

  function Labelled(swings: seq<Swing>): (labelled: seq<Swing>)
    ensures |labelled| == |swings|
  {
    if swings == [] then []
    else
      var n := |swings| - 1;
      Labelled(swings[..n]) + [if n == 0 then swings[n] else swings[n].(tag := LabelAfter(swings[n - 1], swings[n]))]
  }

  function SwingsOf(sense: Sense, values: seq<real>, window: nat): seq<Swing> {
    if |values| < 2 * window + 1 then [] else Labelled(Found(sense, values, window, |values| - window))
  }

  method DetectSwings(highs: seq<real>, lows: seq<real>, window: nat) returns (tops: seq<Swing>, bottoms: seq<Swing>)
    requires |highs| == |lows|
    ensures tops == SwingsOf(High, highs, window) && bottoms == SwingsOf(Low, lows, window)
  {
    if |highs| < 2 * window + 1 {
      return [], [];
    }
    hide IsSwing, Labelled, Found;
    tops, bottoms := ScanSwings(highs, lows, window, |highs| - window);
    tops := Relabel(tops);
    bottoms := Relabel(bottoms);
  }

  method ScanSwings(highs: seq<real>, lows: seq<real>, window: nat, end: nat)
    returns (tops: seq<Swing>, bottoms: seq<Swing>)
    requires |highs| == |lows| && window <= end <= |highs| - window
    ensures tops == Found(High, highs, window, end) && bottoms == Found(Low, lows, window, end)
  {
    hide IsSwing, Found;
    NothingBefore(High, highs, window, window);
    NothingBefore(Low, lows, window, window);
    tops, bottoms := [], [];
    for i := window to end
      invariant tops == Found(High, highs, window, i)
      invariant bottoms == Found(Low, lows, window, i)
    {
      tops := Report(High, highs, window, i, tops);
      bottoms := Report(Low, lows, window, i, bottoms);
    }
  }

  /** One bar, in one sense: appended if it is a swing. */
  method Report(sense: Sense, values: seq<real>, window: nat, i: nat, before: seq<Swing>) returns (after: seq<Swing>)
    requires window <= i < |values| - window && before == Found(sense, values, window, i)
    ensures after == Found(sense, values, window, i + 1)
  {
    FoundStep(sense, values, window, i);
    hide IsSwing, Found;
    after := before;
    var swing := CheckSwing(sense, values, window, i);
    if swing {
      after := after + [Swing(i, values[i], First)];
    }
  }

  method CheckSwing(sense: Sense, values: seq<real>, window: nat, i: nat) returns (swing: bool)
    requires window <= i < |values| - window
    ensures swing == IsSwing(sense, values, window, i)
  {
    swing := true;
    for j := 1 to window + 1
      invariant forall k | i - j < k < i + j :: NoBetter(sense, values[i], values[k])
    {
      if !NoBetter(sense, values[i], values[i - j]) || !NoBetter(sense, values[i], values[i + j]) {
        return false;
      }
    }
  }

  method Relabel(swings: seq<Swing>) returns (labelled: seq<Swing>)
    ensures labelled == Labelled(swings)
  {
    labelled := swings;
    for n := 0 to |swings|
      invariant |labelled| == |swings|
      invariant labelled[..n] == Labelled(swings[..n]) && labelled[n..] == swings[n..]
      invariant forall k | 0 <= k < |swings| :: labelled[k].price == swings[k].price
    {
      assert swings[..n + 1][..n] == swings[..n] && labelled[n] == labelled[n..][0] == swings[n];
      if n > 0 {
        labelled := labelled[n := labelled[n].(tag := LabelAfter(labelled[n - 1], labelled[n]))];
      }
      assert labelled[..n + 1] == labelled[..n] + [labelled[n]];
    }
    assert swings[..|swings|] == swings && labelled[..|swings|] == labelled;
  }

  lemma FoundStep(sense: Sense, values: seq<real>, window: nat, i: nat)
    requires i < |values|
    ensures
      var before := Found(sense, values, window, i);
      Found(sense, values, window, i + 1)
        == if IsSwing(sense, values, window, i) then before + [Swing(i, values[i], First)] else before
  {
  }

  lemma {:induction false} NothingBefore(sense: Sense, values: seq<real>, window: nat, limit: nat)
    requires limit <= window && limit <= |values|
    ensures Found(sense, values, window, limit) == []
  {
    if limit > 0 { NothingBefore(sense, values, window, limit - 1); }
  }

  // ---------------------------------------------------------------------------------------
  // What is found
  // ---------------------------------------------------------------------------------------

  lemma {:induction false} FoundMeaning(sense: Sense, values: seq<real>, window: nat, limit: nat)
    requires limit <= |values|
    ensures
      var found := Found(sense, values, window, limit);
      && (forall s | s in found ::
            s.index < limit && IsSwing(sense, values, window, s.index) && s.price == values[s.index])
      && (forall i: nat | i < limit && IsSwing(sense, values, window, i) :: Swing(i, values[i], First) in found)
      && (forall a, b | 0 <= a < b < |found| :: found[a].index < found[b].index)
      && (forall k | 0 <= k < |found| :: found[k].tag == First)
  {
    hide IsSwing;
    if limit > 0 { FoundMeaning(sense, values, window, limit - 1); }
  }

  /** Labelling changes labels only: each compares its swing with the one before. */
  lemma {:induction false} LabelledMeaning(swings: seq<Swing>)
    ensures
      var labelled := Labelled(swings);
      forall k | 0 <= k < |swings| ::
        && labelled[k].index == swings[k].index && labelled[k].price == swings[k].price
        && (k == 0 ==> labelled[k].tag == swings[k].tag)
        && (k > 0 ==> (labelled[k].tag == Higher <==> swings[k].price > swings[k - 1].price))
        && (k > 0 ==> (labelled[k].tag == Lower <==> swings[k].price <= swings[k - 1].price))
  {
    if swings != [] { LabelledMeaning(swings[..|swings| - 1]); }
  }

  /** No bar of a stretch goes above the one at `i`. */
  predicate Highest(values: seq<real>, from: int, to: int, i: int)
    requires 0 <= from <= i <= to < |values|
  {
    forall j | from <= j <= to :: values[j] <= values[i]
  }

  /** No bar of a stretch goes below the one at `i`. */
  predicate Lowest(values: seq<real>, from: int, to: int, i: int)
    requires 0 <= from <= i <= to < |values|
  {
    forall j | from <= j <= to :: values[i] <= values[j]
  }

  ghost predicate Reported(swings: seq<Swing>, i: int) {
    exists k :: 0 <= k < |swings| && swings[k].index == i
  }

  /** The reported highs are exactly the bars that no bar within the window on either side exceeds, and the
      reported lows those that none undercuts; they come in order, each at its own price and labelled against
      the one before. */
  lemma SwingsAreExactlyDominatingBars(sense: Sense, values: seq<real>, window: nat)
    ensures
      var swings := SwingsOf(sense, values, window);
      && (forall i: int :: Reported(swings, i) <==>
            && window <= i < |values| - window
            && if sense.High? then Highest(values, i - window, i + window, i)
               else Lowest(values, i - window, i + window, i))
      && (forall k | 0 <= k < |swings| ::
            0 <= swings[k].index < |values| && swings[k].price == values[swings[k].index])
      && (forall a, b | 0 <= a < b < |swings| :: swings[a].index < swings[b].index)
      && (forall k | 0 <= k < |swings| ::
            swings[k].tag
              == if k == 0 then First else if swings[k].price > swings[k - 1].price then Higher else Lower)
  {
    ReportedIff(sense, values, window);
    SwingIff(sense, values, window);
    LabelsInOrder(sense, values, window);
    hide *;
  }

  lemma SwingIff(sense: Sense, values: seq<real>, window: nat)
    ensures forall i: int :: IsSwing(sense, values, window, i) <==>
      && window <= i < |values| - window
      && if sense.High? then Highest(values, i - window, i + window, i)
         else Lowest(values, i - window, i + window, i)
  {
  }

  lemma LabelsInOrder(sense: Sense, values: seq<real>, window: nat)
    ensures
      var swings := SwingsOf(sense, values, window);
      && (forall a, b | 0 <= a < b < |swings| :: swings[a].index < swings[b].index)
      && (forall k | 0 <= k < |swings| ::
            swings[k].tag
              == if k == 0 then First else if swings[k].price > swings[k - 1].price then Higher else Lower)
  {
    hide IsSwing, Found, Labelled;
    if |values| >= 2 * window + 1 {
      FoundMeaning(sense, values, window, |values| - window);
      LabelledMeaning(Found(sense, values, window, |values| - window));
    }
  }

  lemma ReportedIff(sense: Sense, values: seq<real>, window: nat)
    ensures
      var swings := SwingsOf(sense, values, window);
      && (forall i: int :: Reported(swings, i) <==> IsSwing(sense, values, window, i))
      && (forall k | 0 <= k < |swings| ::
            0 <= swings[k].index < |values| && swings[k].price == values[swings[k].index])
  {
    Bounds(sense, values, window);
    hide IsSwing, Found, Labelled;
    if |values| >= 2 * window + 1 {
      var found := Found(sense, values, window, |values| - window);
      FoundMeaning(sense, values, window, |values| - window);
      LabelledMeaning(found);
      LabelledFound(sense, values, window, found, Labelled(found));
    }
  }

  lemma LabelledFound(sense: Sense, values: seq<real>, window: nat, found: seq<Swing>, swings: seq<Swing>)
    requires |found| == |swings|
    requires forall k | 0 <= k < |found| :: swings[k].index == found[k].index && swings[k].price == found[k].price
    requires forall s | s in found :: IsSwing(sense, values, window, s.index) && s.price == values[s.index]
    requires forall i | IsSwing(sense, values, window, i) :: i >= 0 && Swing(i, values[i], First) in found
    ensures forall k | 0 <= k < |swings| ::
              IsSwing(sense, values, window, swings[k].index) && swings[k].price == values[swings[k].index]
    ensures forall i | IsSwing(sense, values, window, i) :: exists k :: 0 <= k < |swings| && swings[k].index == i
  {
    Bounds(sense, values, window);
    hide IsSwing;
    forall k | 0 <= k < |swings|
      ensures IsSwing(sense, values, window, swings[k].index) && swings[k].price == values[swings[k].index]
    {
      assert found[k] in found;
    }
    forall i | IsSwing(sense, values, window, i) ensures exists k :: 0 <= k < |swings| && swings[k].index == i {
      var k :| 0 <= k < |found| && found[k] == Swing(i, values[i], First);
      assert swings[k].index == i;
    }
  }

  lemma Bounds(sense: Sense, values: seq<real>, window: nat)
    ensures forall i | IsSwing(sense, values, window, i) :: window <= i < |values| - window
  {
  }

  // ---------------------------------------------------------------------------------------
  // Swings do not repaint
  // ---------------------------------------------------------------------------------------

  lemma {:induction false} FoundInPrefix(sense: Sense, values: seq<real>, window: nat, n: nat, limit: nat)
    requires limit + window <= n <= |values|
    ensures Found(sense, values[..n], window, limit) == Found(sense, values, window, limit)
  {
    if limit > 0 { FoundInPrefix(sense, values, window, n, limit - 1); }
  }

  lemma {:induction false} FoundGrows(sense: Sense, values: seq<real>, window: nat, from: nat, to: nat)
    requires from <= to <= |values|
    ensures Found(sense, values, window, from) <= Found(sense, values, window, to)
  {
    if from < to { FoundGrows(sense, values, window, from, to - 1); }
  }

  lemma {:induction false} LabelledGrows(a: seq<Swing>, b: seq<Swing>)
    requires a <= b
    ensures Labelled(a) <= Labelled(b)
  {
    if |a| < |b| {
      LabelledGrows(a, b[..|b| - 1]);
    } else {
      assert a == b;
    }
  }

  /** Whatever candles follow, every swing already reported stays, label included: the list on any prefix
      of the candles is a prefix of the list on all of them. */
  lemma SwingsDoNotRepaint(sense: Sense, values: seq<real>, window: nat, n: nat)
    requires n <= |values|
    ensures SwingsOf(sense, values[..n], window) <= SwingsOf(sense, values, window)
  {
    hide Found, Labelled;
    if n >= 2 * window + 1 {
      FoundInPrefix(sense, values, window, n, n - window);
      FoundGrows(sense, values, window, n - window, |values| - window);
      LabelledGrows(
        Found(sense, values, window, n - window), Found(sense, values, window, |values| - window));
    }
  }

  /** Two swings of the same sense within one window of each other are level. */
  lemma NearbySwingsAreLevel(sense: Sense, values: seq<real>, window: nat, i: int, j: int)
    requires IsSwing(sense, values, window, i) && IsSwing(sense, values, window, j) && i - window <= j <= i + window
    ensures values[i] == values[j]
  {
    assert NoBetter(sense, values[i], values[j]) && NoBetter(sense, values[j], values[i]);
  }
}
