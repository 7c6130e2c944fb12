/** Rotating discovery over the broker's catalog (core/market_universe.py). */
module MarketUniverse {
  import opened Numbers

  /** Market names as they are listed, and in their normalized spelling. */
  type Raw(==, !new)
  type Name(==, !new)

  /** `strip().upper()`, which is not modelled further; a blank name becomes nothing. */
  type Normalizer = Raw -> Option<Name>

  /** Normalized, without blanks, first occurrences only. */
  function Normalized(names: seq<Raw>, norm: Normalizer): seq<Name> {
    if names == [] then []
    else
      var k := |names| - 1;
      var front, last := Normalized(names[..k], norm), norm(names[k]);
      if last.None? || last.value in front then front else front + [last.value]
  }

  function Limit(batchSize: int): nat { if batchSize > 1 then batchSize else 1 }

  /** The catalog entry a number of places after the cursor, normalized. */
  function At(universe: seq<Raw>, cursor: int, offset: nat, norm: Normalizer): Option<Name>
    requires universe != []
  {
    norm(universe[(cursor + offset) % |universe|])
  }

  /** What is found after one more entry. */
  function With(found: seq<Name>, name: Option<Name>): seq<Name> {
    if name.Some? && name.value !in found then found + [name.value] else found
  }

  /** Scans the catalog from `seen` places after the cursor until enough new names are found or all is seen. */
  function Scan(
    universe: seq<Raw>, cursor: int, seen: nat, found: seq<Name>, full: nat, norm: Normalizer): (seq<Name>, nat)
    requires universe != []
    decreases |universe| - seen
  {
    if seen >= |universe| || |found| >= full then (found, seen)
    else
      Scan(universe, cursor, seen + 1, With(found, At(universe, cursor, seen, norm)), full, norm)
  }

  function Discovery(
    configured: seq<Raw>, selected: seq<Raw>, universe: seq<Raw>, cursor: int, batchSize: int, norm: Normalizer)
    : (seq<Name>, int)
  {
    var priority := Normalized(configured + selected, norm);
    if universe == [] then (priority, 0)
    else
      var (batch, visited) := Scan(universe, cursor, 0, priority, |priority| + Limit(batchSize), norm);
      (batch, (cursor + visited) % |universe|)
  }

  method DiscoveryBatch(
    configured: seq<Raw>, selected: seq<Raw>, universe: seq<Raw>, cursor: int, batchSize: int, norm: Normalizer)
    returns (batch: seq<Name>, next: int)
    ensures (batch, next) == Discovery(configured, selected, universe, cursor, batchSize, norm)
  {
    var priority := Normalized(configured + selected, norm);
    if universe == [] {
      return priority, 0;
    }
    var start := cursor % |universe|;
    hide Normalized, Limit, At, Scan;
    SameEntries(universe, cursor, norm);
    var visited: nat;
    batch, visited := VisitCatalog(universe, cursor, start, priority, Limit(batchSize), norm);
    StartAnywhere(cursor, |universe|, visited);
    return batch, (start + visited) % |universe|;
  }

  method VisitCatalog(
    universe: seq<Raw>, cursor: int, start: int, priority: seq<Name>, limit: nat, norm: Normalizer)
    returns (batch: seq<Name>, visited: nat)
    requires universe != []
    requires forall i: nat :: At(universe, start, i, norm) == At(universe, cursor, i, norm)
    ensures (batch, visited) == Scan(universe, cursor, 0, priority, |priority| + limit, norm)
  {
    hide At;
    var known := set n | n in priority;
    var extras: seq<Name> := [];
    visited := 0;
    ghost var full, found := |priority| + limit, priority;
    while visited < |universe| && |extras| < limit
      invariant visited <= |universe|
      invariant found == priority + extras && forall n :: n in known <==> n in found
      invariant Scan(universe, cursor, 0, priority, full, norm)
             == Scan(universe, cursor, visited, found, full, norm)
    {
      var name := At(universe, start, visited, norm);
      assert Scan(universe, cursor, visited, found, full, norm)
          == Scan(universe, cursor, visited + 1, With(found, name), full, norm);
      hide Scan;
      visited := visited + 1;
      if name.Some? && name.value !in known {
        extras, found := extras + [name.value], found + [name.value];
        known := known + {name.value};
      }
    }
    return priority + extras, visited;
  }

  // ---------------------------------------------------------------------------------------
  // Positions on the ring
  // ---------------------------------------------------------------------------------------

  lemma ModuloShift(x: int, n: nat, k: int)
    requires n > 0
    ensures (x + k * n) % n == x % n
  {
    assert x + k * n == (x / n + k) * n + x % n;
    DivModUnique(x + k * n, n, x / n + k, x % n);
  }

  /** Reducing a position first makes no difference to where an offset from it lands. */
  lemma StartAnywhere(cursor: int, n: nat, i: int)
    requires n > 0
    ensures (cursor % n + i) % n == (cursor + i) % n
  {
    assert cursor % n + i + cursor / n * n == cursor + i;
    ModuloShift(cursor % n + i, n, cursor / n);
  }

  lemma SameEntries(universe: seq<Raw>, cursor: int, norm: Normalizer)
    requires universe != []
    ensures forall i: nat :: At(universe, cursor % |universe|, i, norm) == At(universe, cursor, i, norm)
  {
    forall i: nat ensures At(universe, cursor % |universe|, i, norm) == At(universe, cursor, i, norm) {
      StartAnywhere(cursor, |universe|, i);
    }
  }

  // ---------------------------------------------------------------------------------------
  // One batch
  // ---------------------------------------------------------------------------------------

  predicate Unique(names: seq<Name>) {
    forall i, j | 0 <= i < j < |names| :: names[i] != names[j]
  }

  lemma {:induction false} NormalizedIsUnique(names: seq<Raw>, norm: Normalizer)
    ensures var result := Normalized(names, norm);
            Unique(result) && forall n :: n in result <==> exists m :: m in names && norm(m) == Some(n)
  {
    if names != [] {
      var k := |names| - 1;
      NormalizedIsUnique(names[..k], norm);
      assert names == names[..k] + [names[k]];
    }
  }

  /** Every non-blank name of a stretch of the ring is in the batch. */
  ghost predicate Covers(batch: seq<Name>, universe: seq<Raw>, cursor: int, from: nat, to: nat, norm: Normalizer)
    requires universe != []
  {
    forall i: nat | from <= i < to && At(universe, cursor, i, norm).Some? ::
      At(universe, cursor, i, norm).value in batch
  }

  lemma {:induction false} ScanCovers(
    universe: seq<Raw>, cursor: int, seen: nat, found: seq<Name>, full: nat, norm: Normalizer)
    requires universe != [] && seen <= |universe| && Unique(found) && |found| <= full
    ensures
      var (batch, visited) := Scan(universe, cursor, seen, found, full, norm);
      && found <= batch && Unique(batch) && |batch| <= full
      && seen <= visited <= |universe| && |batch| - |found| <= visited - seen
      && (visited == |universe| || |batch| == full)
      && Covers(batch, universe, cursor, seen, visited, norm)
    decreases |universe| - seen
  {
    hide At;
    if seen < |universe| && |found| < full {
      var name := At(universe, cursor, seen, norm);
      var more := With(found, name);
      ScanCovers(universe, cursor, seen + 1, more, full, norm);
      var (batch, visited) := Scan(universe, cursor, seen + 1, more, full, norm);
      assert Scan(universe, cursor, seen, found, full, norm) == (batch, visited);
      assert found <= more && |more| <= |found| + 1 && (name.Some? ==> name.value in more);
      hide Scan, With, Unique;
      assert forall n | n in more :: n in batch;
    }
  }

  /** A batch has no repetition, begins with the priority list and adds at most the batch size; and the
      stretch of the catalog it used up is entirely in it, and is at least a batch long or the whole ring. */
  lemma BatchShape(
    configured: seq<Raw>, selected: seq<Raw>, universe: seq<Raw>, cursor: int, batchSize: int, norm: Normalizer)
    returns (visited: nat)
    requires universe != []
    ensures
      var priority := Normalized(configured + selected, norm);
      var (batch, next) := Discovery(configured, selected, universe, cursor, batchSize, norm);
      && (forall i, j | 0 <= i < j < |batch| :: batch[i] != batch[j])
      && priority <= batch && |batch| <= |priority| + Limit(batchSize)
      && next == (cursor + visited) % |universe|
      && visited <= |universe| && (visited == |universe| || visited >= Limit(batchSize))
      && Covers(batch, universe, cursor, 0, visited, norm)
  {
    hide Normalized, At, Scan, Limit;
    var priority := Normalized(configured + selected, norm);
    NormalizedIsUnique(configured + selected, norm);
    ScanCovers(universe, cursor, 0, priority, |priority| + Limit(batchSize), norm);
    visited := Scan(universe, cursor, 0, priority, |priority| + Limit(batchSize), norm).1;
  }

  // ---------------------------------------------------------------------------------------
  // One batch, written out
  // ---------------------------------------------------------------------------------------

  /** Names taken from a list of entries, at increasing places; none is taken that was known or taken before. */
  predicate TakenAt(places: seq<nat>, taken: seq<Name>, entries: nat -> Option<Name>, known: seq<Name>, end: nat) {
    && |places| == |taken|
    && (forall i | 0 <= i < |places| :: places[i] < end && entries(places[i]) == Some(taken[i]))
    && (forall i, j | 0 <= i < j < |places| :: places[i] < places[j] && taken[i] != taken[j])
    && (forall i | 0 <= i < |taken| :: taken[i] !in known)
  }

  /** The priority list holds each non-blank name once, in the order in which they first occur. */
  lemma {:induction false} NormalizedWrittenOut(names: seq<Raw>, norm: Normalizer) returns (places: seq<nat>)
    ensures
      var result := Normalized(names, norm);
      && |places| == |result|
      && (forall i | 0 <= i < |places| :: places[i] < |names| && norm(names[places[i]]) == Some(result[i]))
      && (forall i, j | 0 <= i < j < |places| :: places[i] < places[j] && result[i] != result[j])
      && (forall i, m | 0 <= i < |places| && 0 <= m < places[i] :: norm(names[m]) != Some(result[i]))
      && (forall m | 0 <= m < |names| && norm(names[m]).Some? :: norm(names[m]).value in result)
  {
    places := [];
    if names != [] {
      var k := |names| - 1;
      places := NormalizedWrittenOut(names[..k], norm);
      var front := Normalized(names[..k], norm);
      assert forall m | 0 <= m < k :: names[..k][m] == names[m];
      if norm(names[k]).Some? && norm(names[k]).value !in front {
        places := places + [k];
      }
    }
  }

  /** The name at an offset from the cursor. */
  function Entry(universe: seq<Raw>, cursor: int, norm: Normalizer): nat -> Option<Name>
    requires universe != []
  {
    (i: nat) => norm(universe[(cursor + i) % |universe|])
  }

  /** A batch is the priority list followed by the new names met from the cursor on, in that order; the scan ends
      when it has enough of them, which is at least one, or has been around; and the next cursor is where it
      ended. */
  lemma DiscoveryWrittenOut(
    configured: seq<Raw>, selected: seq<Raw>, universe: seq<Raw>, cursor: int, batchSize: int, norm: Normalizer)
    returns (places: seq<nat>, extras: seq<Name>, visited: nat)
    ensures
      var priority := Normalized(configured + selected, norm);
      var enough := if batchSize < 1 then 1 else batchSize;
      if universe == [] then
        Discovery(configured, selected, universe, cursor, batchSize, norm) == (priority, 0)
      else
        var entries := Entry(universe, cursor, norm);
        && Discovery(configured, selected, universe, cursor, batchSize, norm)
             == (priority + extras, (cursor + visited) % |universe|)
        && TakenAt(places, extras, entries, priority, visited)
        && (forall i: nat | i < visited && entries(i).Some? :: entries(i).value in priority + extras)
        && visited <= |universe| && |extras| <= enough
        && (visited < |universe| ==> |extras| == enough)
        && (|extras| == enough ==> places[enough - 1] == visited - 1)
  {
    hide *;
    places, extras, visited := [], [], 0;
    DiscoveryIsScan(configured, selected, universe, cursor, batchSize, norm);
    if universe != [] {
      var enough := if batchSize < 1 then 1 else batchSize;
      places, extras, visited := ScanTakes(universe, cursor, Normalized(configured + selected, norm), enough, norm);
      NormalizedIsUnique(configured + selected, norm);
    }
  }

  lemma DiscoveryIsScan(
    configured: seq<Raw>, selected: seq<Raw>, universe: seq<Raw>, cursor: int, batchSize: int, norm: Normalizer)
    ensures
      var priority := Normalized(configured + selected, norm);
      var enough := if batchSize < 1 then 1 else batchSize;
      var result := Discovery(configured, selected, universe, cursor, batchSize, norm);
      if universe == [] then result == (priority, 0)
      else
        var (batch, visited) := Scan(universe, cursor, 0, priority, |priority| + enough, norm);
        result == (batch, (cursor + visited) % |universe|)
  {
    hide Normalized, Scan;
  }

  lemma ScanTakes(universe: seq<Raw>, cursor: int, priority: seq<Name>, limit: nat, norm: Normalizer)
    returns (places: seq<nat>, extras: seq<Name>, visited: nat)
    requires universe != [] && limit >= 1
    ensures Scan(universe, cursor, 0, priority, |priority| + limit, norm) == (priority + extras, visited)
    ensures
      var entries := Entry(universe, cursor, norm);
      && TakenAt(places, extras, entries, priority, visited)
      && (Unique(priority) ==>
            && (forall i: nat | i < visited && entries(i).Some? :: entries(i).value in priority + extras)
            && visited <= |universe| && |extras| <= limit
            && (visited < |universe| ==> |extras| == limit)
            && (|extras| == limit ==> |places| == limit && places[limit - 1] == visited - 1))
  {
    hide *;
    places, extras := ScanWrittenOut(universe, cursor, 0, priority, |priority| + limit, norm);
    visited := Scan(universe, cursor, 0, priority, |priority| + limit, norm).1;
    AddsParts(places, extras, Entry(universe, cursor, norm), priority,
              Scan(universe, cursor, 0, priority, |priority| + limit, norm).0, visited, limit);
    if Unique(priority) {
      ScanCovers(universe, cursor, 0, priority, |priority| + limit, norm);
      CoversEntries(priority + extras, universe, cursor, visited, norm);
    }
  }

  lemma AddsParts(
    places: seq<nat>, extras: seq<Name>, entries: nat -> Option<Name>, found: seq<Name>, batch: seq<Name>,
    visited: nat, limit: nat)
    requires limit >= 1 && Adds(places, extras, entries, found, batch, 0, visited, |found| + limit)
    ensures batch == found + extras && TakenAt(places, extras, entries, found, visited) && |places| == |extras|
    ensures |extras| == limit ==> places[limit - 1] == visited - 1
  {
  }

  lemma CoversEntries(batch: seq<Name>, universe: seq<Raw>, cursor: int, visited: nat, norm: Normalizer)
    requires universe != [] && Covers(batch, universe, cursor, 0, visited, norm)
    ensures
      var entries := Entry(universe, cursor, norm);
      forall i: nat | i < visited && entries(i).Some? :: entries(i).value in batch
  {
    assert forall i: nat :: Entry(universe, cursor, norm)(i) == At(universe, cursor, i, norm);
    hide Entry, At;
  }

  /** The names a scan adds to those found before, taken from `seen` on; if they complete the batch, the last of
      them is where the scan ends. */
  predicate Adds(
    places: seq<nat>, extras: seq<Name>, entries: nat -> Option<Name>, found: seq<Name>, batch: seq<Name>,
    seen: nat, visited: nat, full: nat)
  {
    && seen <= visited && batch == found + extras
    && TakenAt(places, extras, entries, found, visited)
    && (forall p | p in places :: seen <= p)
    && (|batch| == full && |found| < full ==> places != [] && places[|places| - 1] == visited - 1)
  }

  lemma {:induction false} ScanWrittenOut(
    universe: seq<Raw>, cursor: int, seen: nat, found: seq<Name>, full: nat, norm: Normalizer)
    returns (places: seq<nat>, extras: seq<Name>)
    requires universe != [] && seen <= |universe|
    ensures
      var (batch, visited) := Scan(universe, cursor, seen, found, full, norm);
      Adds(places, extras, Entry(universe, cursor, norm), found, batch, seen, visited, full)
    decreases |universe| - seen
  {
    hide *;
    if seen >= |universe| || |found| >= full {
      places, extras := [], [];
      ScanEnds(universe, cursor, seen, found, full, norm);
    } else {
      var entries, name := Entry(universe, cursor, norm), At(universe, cursor, seen, norm);
      var more, batch, visited := ScanStep(universe, cursor, seen, found, full, norm);
      places, extras := ScanWrittenOut(universe, cursor, seen + 1, more, full, norm);
      if more == found {
        SkipsOne(places, extras, entries, found, batch, seen, visited, full);
      } else {
        AddsFirst(places, extras, entries, found, name.value, batch, seen, visited, full);
        places, extras := [seen] + places, [name.value] + extras;
      }
    }
  }

  lemma ScanEnds(universe: seq<Raw>, cursor: int, seen: nat, found: seq<Name>, full: nat, norm: Normalizer)
    requires universe != [] && (seen >= |universe| || |found| >= full)
    ensures
      var (batch, visited) := Scan(universe, cursor, seen, found, full, norm);
      Adds([], [], Entry(universe, cursor, norm), found, batch, seen, visited, full)
  {
    hide Entry;
  }

  lemma ScanStep(universe: seq<Raw>, cursor: int, seen: nat, found: seq<Name>, full: nat, norm: Normalizer)
    returns (more: seq<Name>, batch: seq<Name>, visited: nat)
    requires seen < |universe| && |found| < full
    ensures
      && (batch, visited) == Scan(universe, cursor, seen, found, full, norm)
      && (batch, visited) == Scan(universe, cursor, seen + 1, more, full, norm)
      && (more == found || |found| + 1 < full || (batch, visited) == (more, seen + 1))
    ensures
      var name := At(universe, cursor, seen, norm);
      && name == Entry(universe, cursor, norm)(seen)
      && (more == found || (name.Some? && name.value !in found && more == found + [name.value]))
  {
    more := With(found, At(universe, cursor, seen, norm));
    var result := Scan(universe, cursor, seen + 1, more, full, norm);
    batch, visited := result.0, result.1;
  }

  lemma SkipsOne(
    places: seq<nat>, extras: seq<Name>, entries: nat -> Option<Name>, found: seq<Name>, batch: seq<Name>,
    seen: nat, visited: nat, full: nat)
    requires Adds(places, extras, entries, found, batch, seen + 1, visited, full)
    ensures Adds(places, extras, entries, found, batch, seen, visited, full)
  {
    hide TakenAt;
  }

  lemma AddsFirst(
    places: seq<nat>, extras: seq<Name>, entries: nat -> Option<Name>, found: seq<Name>, name: Name, batch: seq<Name>,
    seen: nat, visited: nat, full: nat)
    requires Adds(places, extras, entries, found + [name], batch, seen + 1, visited, full)
    requires entries(seen) == Some(name) && name !in found
    requires |found| + 1 < full || (batch, visited) == (found + [name], seen + 1)
    ensures Adds([seen] + places, [name] + extras, entries, found, batch, seen, visited, full)
  {
    TakenFirst(places, extras, entries, found, name, seen, visited);
    assert batch == found + ([name] + extras);
    if |found| + 1 >= full {
      assert |places| == |extras| == 0;
    }
    hide TakenAt;
  }

  lemma TakenFirst(
    places: seq<nat>, taken: seq<Name>, entries: nat -> Option<Name>, known: seq<Name>, name: Name, seen: nat, end: nat)
    requires TakenAt(places, taken, entries, known + [name], end) && (forall p | p in places :: seen < p)
    requires seen < end && entries(seen) == Some(name) && name !in known
    ensures TakenAt([seen] + places, [name] + taken, entries, known, end)
  {
    assert forall i | 0 <= i < |taken| :: taken[i] != name;
    assert forall i | 0 <= i < |places| :: places[i] in places;
  }

  // ---------------------------------------------------------------------------------------
  // Coverage over consecutive batches
  // ---------------------------------------------------------------------------------------

  /** The configured and the selected markets of one call. */
  datatype Call = Call(configured: seq<Raw>, selected: seq<Raw>)

  /** Consecutive batches, each starting at the cursor the one before returned. */
  function Batches(calls: seq<Call>, universe: seq<Raw>, cursor: int, batchSize: int, norm: Normalizer)
    : (batches: seq<seq<Name>>)
    ensures |batches| == |calls|
  {
    if calls == [] then []
    else
      var (batch, next) :=
        Discovery(calls[0].configured, calls[0].selected, universe, cursor, batchSize, norm);
      [batch] + Batches(calls[1..], universe, next, batchSize, norm)
  }

  ghost predicate Offered(name: Name, batches: seq<seq<Name>>) {
    exists r :: 0 <= r < |batches| && name in batches[r]
  }

  lemma {:induction false} WindowIsOffered(
    calls: seq<Call>, universe: seq<Raw>, cursor: int, batchSize: int, norm: Normalizer, width: nat)
    requires universe != [] && width <= |universe| && width <= |calls| * Limit(batchSize)
    ensures forall i: nat | i < width && At(universe, cursor, i, norm).Some? ::
              Offered(At(universe, cursor, i, norm).value, Batches(calls, universe, cursor, batchSize, norm))
    decreases |calls|
  {
    if calls != [] {
      var batches := Batches(calls, universe, cursor, batchSize, norm);
      var (batch, next) := Discovery(calls[0].configured, calls[0].selected, universe, cursor, batchSize, norm);
      var visited := BatchShape(calls[0].configured, calls[0].selected, universe, cursor, batchSize, norm);
      var rest := Batches(calls[1..], universe, next, batchSize, norm);
      assert batches == [batch] + rest;
      hide Discovery, Limit, Batches, Offered, At;
      if visited < width {
        OneMore(|calls[1..]|, Limit(batchSize));
        WindowIsOffered(calls[1..], universe, next, batchSize, norm, width - visited);
      }
      forall i: nat | i < width && At(universe, cursor, i, norm).Some?
        ensures Offered(At(universe, cursor, i, norm).value, batches)
      {
        if i < visited {
          OfferedFirst(At(universe, cursor, i, norm).value, batch, rest);
        } else {
          AtFurther(universe, cursor, visited, i - visited, norm);
          OfferedLater(At(universe, cursor, i, norm).value, batch, rest);
        }
      }
    }
  }

  lemma AtFurther(universe: seq<Raw>, cursor: int, visited: nat, i: nat, norm: Normalizer)
    requires universe != []
    ensures At(universe, (cursor + visited) % |universe|, i, norm) == At(universe, cursor, visited + i, norm)
  {
    StartAnywhere(cursor + visited, |universe|, i);
  }

  lemma OneMore(count: nat, size: nat)
    ensures (count + 1) * size == count * size + size
  {
  }

  lemma OfferedFirst(name: Name, batch: seq<Name>, rest: seq<seq<Name>>)
    requires name in batch
    ensures Offered(name, [batch] + rest)
  {
    assert ([batch] + rest)[0] == batch;
  }

  lemma OfferedLater(name: Name, batch: seq<Name>, rest: seq<seq<Name>>)
    requires Offered(name, rest)
    ensures Offered(name, [batch] + rest)
  {
    var r :| 0 <= r < |rest| && name in rest[r];
    assert ([batch] + rest)[r + 1] == rest[r];
  }

  /** In any ceil(n / max(1, b)) consecutive batches, from any cursor and with the configured and selected
      lists changing at will, every non-blank name of a catalog of n is offered. */
  lemma RotationCoversUniverse(
    calls: seq<Call>, universe: seq<Raw>, cursor: int, batchSize: int, norm: Normalizer, name: Raw)
    requires name in universe && norm(name).Some? && |calls| * Limit(batchSize) >= |universe|
    ensures Offered(norm(name).value, Batches(calls, universe, cursor, batchSize, norm))
  {
    var n := |universe|;
    var k :| 0 <= k < n && universe[k] == name;
    WindowIsOffered(calls, universe, cursor, batchSize, norm, n);
    var i := (k - cursor) % n;
    StartAnywhere(k - cursor, n, cursor);
    DivModUnique(k, n, 0, k);
    hide Limit, Batches;
    assert At(universe, cursor, i, norm) == norm(name);
  }
}
