/** The cache around market analysis (core/analysis_engine.py): an LRU of current records with one
    previous record per key, looked up and filled by callers that compute outside the lock. */
module AnalysisCache {
  import opened Numbers

  /** Cache keys (symbol and timeframe in upper case), candle frames (with the settings that analysis reads),
      content hashes and finished analyses. */
  type Key(==, !new)
  type Frame(==, !new)
  type Signature(==, !new)
  type Answer(==, !new)

  datatype Record = Record(time: int, signature: Signature, answer: Answer)

  /** What the cache must agree with: the last candle's time, the content hash and the analysis itself,
      none of which is modelled further. `usable` is the guard on short, empty or stale frames. */
  datatype Analysis = Analysis(
    usable: Frame -> bool, timeOf: Frame -> int, signatureOf: Frame -> Signature, compute: (Key, Frame) -> Answer)
  {
    function Made(key: Key, frame: Frame): Record {
      Record(timeOf(frame), signatureOf(frame), compute(key, frame))
    }
  }

  /** No two frames share a signature. */
  ghost predicate Injective(a: Analysis) {
    forall f, g :: a.signatureOf(f) == a.signatureOf(g) ==> f == g
  }

  /** `order` lists the keys of `current`, least recently used first. */
  datatype Cache = Cache(
    order: seq<Key>, current: map<Key, Record>, previous: map<Key, Record>)

  // ---------------------------------------------------------------------------------------
  // The two locked steps
  // ---------------------------------------------------------------------------------------

  function Without(order: seq<Key>, key: Key): (rest: seq<Key>)
    ensures key !in rest
    ensures forall k | k != key :: k in rest <==> k in order
  {
    if order == [] then []
    else if order[0] == key then Without(order[1..], key)
    else [order[0]] + Without(order[1..], key)
  }

  function Touch(order: seq<Key>, key: Key): seq<Key> { Without(order, key) + [key] }

  predicate Matches(r: Record, time: int, signature: Signature) {
    r.time == time && r.signature == signature
  }

  function Find(
    c: Cache, key: Key, time: int, signature: Signature): Option<Answer>
  {
    if key in c.current && Matches(c.current[key], time, signature) then Some(c.current[key].answer)
    else if key in c.previous && Matches(c.previous[key], time, signature) then Some(c.previous[key].answer)
    else None
  }

  function Looked(
    c: Cache, key: Key, time: int, signature: Signature): Cache
  {
    if Find(c, key, time, signature).Some? then c.(order := Touch(c.order, key)) else c
  }

  /** A record older than the current one becomes the previous one; a newer one pushes it there. */
  function Placed(
    c: Cache, key: Key, record: Record): Cache
  {
    var order := Touch(c.order, key);
    if key in c.current && record.time < c.current[key].time then
      Cache(order, c.current, c.previous[key := record])
    else if key in c.current && record.time > c.current[key].time then
      Cache(order, c.current[key := record], c.previous[key := c.current[key]])
    else
      Cache(order, c.current[key := record], c.previous)
  }

  function Evicted(c: Cache, limit: nat): Cache
    decreases |c.order|
  {
    if |c.order| <= limit then c
    else Evicted(Cache(c.order[1..], c.current - {c.order[0]}, c.previous - {c.order[0]}), limit)
  }

  function Inserted(
    c: Cache, key: Key, record: Record, limit: nat)
    : Cache
  {
    Evicted(Placed(c, key, record), limit)
  }

  class MarketAnalysisEngine {
    const limit: nat
    var order: seq<Key>
    var current: map<Key, Record>
    var previous: map<Key, Record>

    function Contents(): Cache
      reads this
    {
      Cache(order, current, previous)
    }

    constructor (limit: nat)
      requires limit >= 1
      ensures this.limit == limit && Contents() == Cache([], map[], map[])
    {
      this.limit := limit;
      order, current, previous := [], map[], map[];
    }

    /** `move_to_end`, which needs its key to be present. */
    method MoveToEnd(key: Key)
      requires key in order
      modifies this`order
      ensures order == Touch(old(order), key)
    {
      order := Without(order, key) + [key];
    }

    method Lookup(key: Key, time: int, signature: Signature) returns (answer: Option<Answer>)
      requires Consistent(Contents())
      modifies this`order
      ensures answer == Find(old(Contents()), key, time, signature)
      ensures Contents() == Looked(old(Contents()), key, time, signature)
    {
      answer := None;
      if key in current && Matches(current[key], time, signature) {
        answer := Some(current[key].answer);
      } else if key in previous && Matches(previous[key], time, signature) {
        answer := Some(previous[key].answer);
      }
      if answer.Some? {
        MoveToEnd(key);
      }
    }

    method Insert(key: Key, record: Record)
      requires Consistent(Contents())
      modifies this
      ensures Contents() == Inserted(old(Contents()), key, record, limit)
    {
      if key in current && record.time < current[key].time {
        previous := previous[key := record];
        MoveToEnd(key);
      } else if key in current {
        previous := if record.time > current[key].time then previous[key := current[key]] else previous;
        current := current[key := record];
        MoveToEnd(key);
      } else {
        WithoutAbsent(order, key);
        current := current[key := record];
        order := order + [key];
      }
      assert Contents() == Placed(old(Contents()), key, record);
      while |order| > limit
        invariant Evicted(Contents(), limit) == Inserted(old(Contents()), key, record, limit)
        decreases |order|
      {
        var victim := order[0];
        order, current, previous := order[1..], current - {victim}, previous - {victim};
      }
    }

    /** `analyze` as one caller runs it: the answer is direct computation on the caller's frame. */
    method Analyze(a: Analysis, key: Key, frame: Frame) returns (answer: Option<Answer>)
      requires limit >= 1 && Injective(a) && Consistent(Contents()) && Genuine(Contents(), a)
      modifies this
      ensures answer == if a.usable(frame) then Some(a.compute(key, frame)) else None
      ensures Consistent(Contents()) && Genuine(Contents(), a)
    {
      if !a.usable(frame) {
        return None;
      }
      hide Inserted, Find, Injective;
      HitIsDirect(Contents(), a, key, frame);
      LookupKeepsConsistency(Contents(), key, a.timeOf(frame), a.signatureOf(frame));
      answer := Lookup(key, a.timeOf(frame), a.signatureOf(frame));
      if answer.None? {
        InsertionKeepsConsistency(Contents(), key, a.Made(key, frame), limit);
        InsertionKeepsGenuine(Contents(), a, key, frame, limit);
        Insert(key, a.Made(key, frame));
        answer := Some(a.compute(key, frame));
      }
    }
  }

  // ---------------------------------------------------------------------------------------
  // Consistency
  // ---------------------------------------------------------------------------------------

  predicate Distinct(order: seq<Key>) {
    forall i, j | 0 <= i < j < |order| :: order[i] != order[j]
  }

  /** The order lists exactly the current keys, and a previous record is older than the current one. */
  ghost predicate Consistent(c: Cache) {
    && Distinct(c.order)
    && (forall k :: k in c.order <==> k in c.current)
    && (forall k | k in c.previous :: k in c.current && c.previous[k].time < c.current[k].time)
  }

  lemma {:induction false} WithoutAbsent(order: seq<Key>, key: Key)
    requires key !in order
    ensures Without(order, key) == order
  {
    if order != [] { WithoutAbsent(order[1..], key); }
  }

  lemma {:induction false} WithoutDistinct(order: seq<Key>, key: Key)
    requires Distinct(order)
    ensures Distinct(Without(order, key))
    ensures |Without(order, key)| == if key in order then |order| - 1 else |order|
  {
    if order != [] {
      WithoutDistinct(order[1..], key);
      if order[0] == key {
        WithoutAbsent(order[1..], key);
      } else {
        assert order[0] !in order[1..];
      }
    }
  }

  lemma PlacedConsistent(
    c: Cache, key: Key, record: Record)
    requires Consistent(c)
    ensures Consistent(Placed(c, key, record))
  {
    hide Touch, Distinct;
    TouchedOrder(c.order, key);
  }

  lemma TouchedOrder(order: seq<Key>, key: Key)
    requires Distinct(order)
    ensures Distinct(Touch(order, key)) && forall k :: k in Touch(order, key) <==> k in order || k == key
  {
    WithoutDistinct(order, key);
    hide Without;
  }

  /** `e` holds some of the keys of `c`, with both records of each. */
  ghost predicate Keeps(e: Cache, c: Cache) {
    && (forall k | k in e.current :: k in c.current && e.current[k] == c.current[k])
    && (forall k :: k in e.previous <==> k in c.previous && k in e.current)
    && (forall k | k in e.previous :: e.previous[k] == c.previous[k])
  }

  /** Eviction keeps exactly the `limit` most recently used keys, with their records. */
  lemma {:induction false} EvictionKeepsMostRecent(c: Cache, limit: nat)
    requires Consistent(c)
    ensures
      var e := Evicted(c, limit);
      && Consistent(e) && Keeps(e, c)
      && e.order == (if |c.order| <= limit then c.order else c.order[|c.order| - limit..])
    decreases |c.order|
  {
    if |c.order| > limit {
      var next := Cache(c.order[1..], c.current - {c.order[0]}, c.previous - {c.order[0]});
      DropOldest(c);
      hide Consistent, Keeps, Distinct;
      if |c.order| > limit + 1 { assert next.order[|next.order| - limit..] == c.order[|c.order| - limit..]; }
      EvictionKeepsMostRecent(next, limit);
      KeepsTransitive(Evicted(next, limit), next, c);
    }
  }

  lemma DropOldest(c: Cache)
    requires Consistent(c) && c.order != []
    ensures var next := Cache(c.order[1..], c.current - {c.order[0]}, c.previous - {c.order[0]});
            Consistent(next) && Keeps(next, c)
  {
    assert forall k :: k in c.order <==> k == c.order[0] || k in c.order[1..];
  }

  lemma KeepsTransitive(a: Cache, b: Cache, c: Cache)
    requires Keeps(a, b) && Keeps(b, c)
    ensures Keeps(a, c)
  {
  }

  /** One insertion: the invariant holds again, at most `limit` keys are left, they are the most recently
      used, the inserted key is among them, and every other survivor keeps both its records. */
  lemma InsertionKeepsConsistency(
    c: Cache, key: Key, record: Record, limit: nat)
    requires Consistent(c) && limit >= 1
    ensures
      var after := Inserted(c, key, record, limit);
      && Consistent(after) && |after.order| <= limit && |after.current| <= limit
      && key in after.current
      && (exists n :: 0 <= n <= |Touch(c.order, key)| && after.order == Touch(c.order, key)[n..])
      && Keeps(after, Placed(c, key, record))
      && (forall k | k != key :: Unplaced(Placed(c, key, record), c, k))
  {
    var p := Placed(c, key, record);
    PlacedConsistent(c, key, record);
    PlacedTouchesOnlyKey(c, key, record);
    EvictionKeepsMostRecent(p, limit);
    assert p.order == Touch(c.order, key) && p.order[|p.order| - 1] == key;
    hide Evicted, Placed, Keeps, Touch, Distinct, Unplaced;
    RecentSurvive(p, Evicted(p, limit), key, limit);
  }

  lemma RecentSurvive(c: Cache, e: Cache, key: Key, limit: nat)
    requires limit >= 1 && c.order != [] && c.order[|c.order| - 1] == key && Consistent(e)
    requires e.order == (if |c.order| <= limit then c.order else c.order[|c.order| - limit..])
    ensures |e.order| <= limit && |e.current| <= limit && key in e.current
    ensures exists n :: 0 <= n <= |c.order| && e.order == c.order[n..]
  {
    var n := if |c.order| <= limit then 0 else |c.order| - limit;
    assert e.order == c.order[n..];
    assert e.order[|e.order| - 1] == key;
    KeysBounded(e.order, e.current.Keys);
  }

  predicate Unplaced(p: Cache, c: Cache, k: Key) {
    && (k in p.current <==> k in c.current) && (k in c.current ==> p.current[k] == c.current[k])
    && (k in p.previous <==> k in c.previous) && (k in c.previous ==> p.previous[k] == c.previous[k])
  }

  lemma PlacedTouchesOnlyKey(c: Cache, key: Key, record: Record)
    ensures forall k | k != key :: Unplaced(Placed(c, key, record), c, k)
    ensures Placed(c, key, record).order == Touch(c.order, key)
  {
  }

  lemma {:induction false} KeysBounded(order: seq<Key>, keys: set<Key>)
    requires forall k | k in keys :: k in order
    ensures |keys| <= |order|
  {
    if order != [] {
      KeysBounded(order[1..], keys - {order[0]});
      assert keys <= (keys - {order[0]}) + {order[0]};
    }
  }

  // ---------------------------------------------------------------------------------------
  // The two locked steps, written out
  // ---------------------------------------------------------------------------------------

  /** A key has moved behind all others, which keep their order; a new key comes last. */
  ghost predicate MovedLast(before: seq<Key>, key: Key, after: seq<Key>) {
    if key in before then
      exists i :: 0 <= i < |before| && before[i] == key && after == before[..i] + before[i + 1..] + [key]
    else after == before + [key]
  }

  lemma TouchMovesLast(order: seq<Key>, key: Key)
    requires Distinct(order)
    ensures MovedLast(order, key, Touch(order, key))
  {
    if key in order {
      var i := WithoutAt(order, key);
      assert order[i] == key;
    } else {
      WithoutAbsent(order, key);
    }
  }

  lemma {:induction false} WithoutAt(order: seq<Key>, key: Key) returns (i: nat)
    requires Distinct(order) && key in order
    ensures i < |order| && order[i] == key && Without(order, key) == order[..i] + order[i + 1..]
  {
    if order[0] == key {
      i := 0;
      WithoutAbsent(order[1..], key);
    } else {
      var j := WithoutAt(order[1..], key);
      i := j + 1;
      assert order[..i] == [order[0]] + order[1..][..j] && order[i + 1..] == order[1..][j + 1..];
    }
  }

  /** A record answers a lookup for its own candle time and content. */
  predicate Answers(records: map<Key, Record>, key: Key, time: int, signature: Signature) {
    key in records && records[key].time == time && records[key].signature == signature
  }

  /** A lookup answers from the current record of its key or else from the previous one. A hit moves the key last
      in the order of use and a miss does not; neither changes a record. */
  lemma LookupWrittenOut(c: Cache, key: Key, time: int, signature: Signature)
    requires Consistent(c)
    ensures
      var answer, after := Find(c, key, time, signature), Looked(c, key, time, signature);
      && after.current == c.current && after.previous == c.previous
      && (if Answers(c.current, key, time, signature) then answer == Some(c.current[key].answer)
          else if Answers(c.previous, key, time, signature) then answer == Some(c.previous[key].answer)
          else answer == None)
      && (answer.Some? ==> key in c.order && MovedLast(c.order, key, after.order))
      && (answer.None? ==> after.order == c.order)
  {
    TouchMovesLast(c.order, key);
    hide Touch, MovedLast, Distinct;
  }

  /** What an inserted record leaves under its key: a newer one becomes current and the one it replaces the previous
      one, an older one becomes the previous one, and one of the same time replaces the current record alone. */
  predicate TakenIn(c: Cache, key: Key, record: Record, after: Cache) {
    var known := key in c.current;
    && key in after.current
    && after.current[key] == (if known && record.time < c.current[key].time then c.current[key] else record)
    && if known && record.time != c.current[key].time then
         && key in after.previous
         && after.previous[key] == if record.time < c.current[key].time then record else c.current[key]
       else if key in c.previous then key in after.previous && after.previous[key] == c.previous[key]
       else key !in after.previous
  }

  /** A key is either gone or has the records it had. */
  predicate GoneOrSame(c: Cache, k: Key, after: Cache) {
    if k !in after.current then k !in after.previous
    else
      && k in c.current && after.current[k] == c.current[k]
      && (k in after.previous <==> k in c.previous)
      && (k in c.previous ==> after.previous[k] == c.previous[k])
  }

  /** An insertion takes its record in, moves its key last in the order of use and keeps the end of that order, as
      many keys as fit; the keys kept are those that have records. */
  lemma InsertionWrittenOut(c: Cache, key: Key, record: Record, limit: nat) returns (touched: seq<Key>)
    requires Consistent(c) && limit >= 1
    ensures
      var after := Inserted(c, key, record, limit);
      && MovedLast(c.order, key, touched)
      && after.order == touched[if |touched| <= limit then 0 else |touched| - limit..]
      && (forall k :: k in after.current <==> k in after.order)
      && TakenIn(c, key, record, after)
      && (forall k | k != key :: GoneOrSame(c, k, after))
  {
    hide *;
    touched := OrderAfterInsertion(c, key, record, limit);
    RecordsAfterInsertion(c, key, record, limit);
  }

  lemma OrderAfterInsertion(c: Cache, key: Key, record: Record, limit: nat) returns (touched: seq<Key>)
    requires Consistent(c)
    ensures
      var after := Inserted(c, key, record, limit);
      && MovedLast(c.order, key, touched)
      && after.order == touched[if |touched| <= limit then 0 else |touched| - limit..]
      && (forall k :: k in after.current <==> k in after.order)
  {
    hide *;
    var p := Placed(c, key, record);
    touched := p.order;
    PlacedWrittenOut(c, key, record);
    PlacedConsistent(c, key, record);
    EvictionKeepsMostRecent(p, limit);
    InsertedIsEvicted(c, key, record, limit);
    ConsistentParts(c);
    ConsistentParts(Evicted(p, limit));
    TouchMovesLast(c.order, key);
  }

  lemma RecordsAfterInsertion(c: Cache, key: Key, record: Record, limit: nat)
    requires Consistent(c) && limit >= 1
    ensures
      var after := Inserted(c, key, record, limit);
      TakenIn(c, key, record, after) && forall k | k != key :: GoneOrSame(c, k, after)
  {
    hide *;
    var p := Placed(c, key, record);
    PlacedWrittenOut(c, key, record);
    PlacedConsistent(c, key, record);
    EvictionKeepsMostRecent(p, limit);
    InsertedIsEvicted(c, key, record, limit);
    InsertionKeepsConsistency(c, key, record, limit);
    KeptTakenIn(Evicted(p, limit), p, c, key, record);
  }

  lemma InsertedIsEvicted(c: Cache, key: Key, record: Record, limit: nat)
    ensures Inserted(c, key, record, limit) == Evicted(Placed(c, key, record), limit)
  {
    hide Evicted, Placed;
  }

  lemma ConsistentParts(c: Cache)
    requires Consistent(c)
    ensures Distinct(c.order) && forall k :: k in c.current <==> k in c.order
  {
    hide Distinct;
  }

  lemma PlacedWrittenOut(c: Cache, key: Key, record: Record)
    ensures
      var p := Placed(c, key, record);
      TakenIn(c, key, record, p) && p.order == Touch(c.order, key) && forall k | k != key :: Unplaced(p, c, k)
  {
    hide Touch;
  }

  lemma KeptTakenIn(e: Cache, p: Cache, c: Cache, key: Key, record: Record)
    requires Keeps(e, p) && key in e.current && TakenIn(c, key, record, p)
    requires forall k | k != key :: Unplaced(p, c, k)
    ensures TakenIn(c, key, record, e)
    ensures forall k | k != key :: GoneOrSame(c, k, e)
  {
    forall k | k != key ensures GoneOrSame(c, k, e) {
      assert Unplaced(p, c, k);
    }
  }

  // ---------------------------------------------------------------------------------------
  // The cache refines direct computation
  // ---------------------------------------------------------------------------------------

  /** Every record was made from some frame under its own key. */
  ghost predicate Genuine(
    c: Cache, a: Analysis)
  {
    && (forall k | k in c.current :: exists f :: c.current[k] == a.Made(k, f))
    && (forall k | k in c.previous :: exists f :: c.previous[k] == a.Made(k, f))
  }

  lemma InsertionKeepsGenuine(
    c: Cache, a: Analysis, key: Key, frame: Frame, limit: nat)
    requires Consistent(c) && Genuine(c, a)
    ensures Genuine(Inserted(c, key, a.Made(key, frame), limit), a)
  {
    hide Touch, Evicted, Consistent, Distinct;
    var record := a.Made(key, frame);
    PlacedConsistent(c, key, record);
    EvictionKeepsMostRecent(Placed(c, key, record), limit);
    assert Genuine(Placed(c, key, record), a);
    hide Placed;
  }

  lemma HitIsDirect(
    c: Cache, a: Analysis, key: Key, frame: Frame)
    requires Genuine(c, a) && Injective(a)
    ensures var hit := Find(c, key, a.timeOf(frame), a.signatureOf(frame));
            hit.Some? ==> hit.value == a.compute(key, frame)
  {
    if key in c.current && Matches(c.current[key], a.timeOf(frame), a.signatureOf(frame)) {
      var f :| c.current[key] == a.Made(key, f);
      assert f == frame;
    } else if key in c.previous && Matches(c.previous[key], a.timeOf(frame), a.signatureOf(frame)) {
      var f :| c.previous[key] == a.Made(key, f);
      assert f == frame;
    }
  }

  /** A caller of `analyze`, between its locked steps. */
  datatype Caller =
    | Arrived(key: Key, frame: Frame)
    | Computing(key: Key, frame: Frame)
    | Answered(key: Key, frame: Frame, answer: Option<Answer>)

  datatype System = System(
    cache: Cache, callers: map<nat, Caller>)

  /** Any caller may take its next step at any time; a new caller may arrive under a free number. */
  datatype Move = Arrive(caller: nat, key: Key, frame: Frame) | Proceed(caller: nat)

  function Moved(
    s: System, a: Analysis,
    move: Move, limit: nat)
    : System
  {
    match move
    case Arrive(i, key, frame) =>
      if i in s.callers then s
      else if a.usable(frame) then s.(callers := s.callers[i := Arrived(key, frame)])
      else s.(callers := s.callers[i := Answered(key, frame, None)])
    case Proceed(i) =>
      if i !in s.callers then s
      else
        match s.callers[i]
        case Arrived(key, frame) =>
          var hit := Find(s.cache, key, a.timeOf(frame), a.signatureOf(frame));
          var cache := Looked(s.cache, key, a.timeOf(frame), a.signatureOf(frame));
          System(cache, s.callers[i := if hit.Some? then Answered(key, frame, hit) else Computing(key, frame)])
        case Computing(key, frame) =>
          System(
            Inserted(s.cache, key, a.Made(key, frame), limit),
            s.callers[i := Answered(key, frame, Some(a.compute(key, frame)))])
        case Answered(_, _, _) => s
  }

  ghost predicate Safe(
    s: System, a: Analysis, limit: nat)
  {
    && Consistent(s.cache) && Genuine(s.cache, a) && |s.cache.order| <= limit
    && forall i | i in s.callers ::
         match s.callers[i]
         case Answered(key, frame, answer) => answer == if a.usable(frame) then Some(a.compute(key, frame)) else None
         case Computing(_, frame) => a.usable(frame)
         case Arrived(_, frame) => a.usable(frame)
  }

  lemma LookupKeepsConsistency(
    c: Cache, key: Key, time: int, signature: Signature)
    requires Consistent(c)
    ensures var after := Looked(c, key, time, signature); Consistent(after) && |after.order| == |c.order|
  {
    WithoutDistinct(c.order, key);
  }

  lemma MoveKeepsSafe(
    s: System, a: Analysis,
    move: Move, limit: nat)
    requires Safe(s, a, limit) && Injective(a) && limit >= 1
    ensures Safe(Moved(s, a, move, limit), a, limit)
  {
    hide Injective, Inserted, Find, Looked, Consistent, Genuine;
    if move.Proceed? && move.caller in s.callers {
      match s.callers[move.caller]
      case Arrived(key, frame) =>
        LookupIsSafe(s.cache, a, key, frame, limit);
      case Computing(key, frame) =>
        InsertionKeepsConsistency(s.cache, key, a.Made(key, frame), limit);
        InsertionKeepsGenuine(s.cache, a, key, frame, limit);
      case Answered(_, _, _) =>
    }
  }

  lemma LookupIsSafe(c: Cache, a: Analysis, key: Key, frame: Frame, limit: nat)
    requires Consistent(c) && Genuine(c, a) && |c.order| <= limit && Injective(a)
    ensures
      var hit := Find(c, key, a.timeOf(frame), a.signatureOf(frame));
      var after := Looked(c, key, a.timeOf(frame), a.signatureOf(frame));
      && (hit.Some? ==> hit.value == a.compute(key, frame))
      && Consistent(after) && Genuine(after, a) && |after.order| <= limit
  {
    HitIsDirect(c, a, key, frame);
    LookupKeepsConsistency(c, key, a.timeOf(frame), a.signatureOf(frame));
    hide Injective, Find, Consistent, Touch;
  }

  function After(
    s: System, a: Analysis,
    moves: seq<Move>, limit: nat)
    : System
    decreases |moves|
  {
    if moves == [] then s else After(Moved(s, a, moves[0], limit), a, moves[1..], limit)
  }

  /** In every interleaving of any number of callers, every answer equals direct computation on the
      caller's own frame, and the cache stays consistent and bounded. */
  lemma {:induction false} CacheRefinesDirectComputation(
    s: System, a: Analysis,
    moves: seq<Move>, limit: nat)
    requires Safe(s, a, limit) && Injective(a) && limit >= 1
    ensures Safe(After(s, a, moves, limit), a, limit)
    decreases |moves|
  {
    if moves != [] {
      hide Safe, Moved, Injective;
      MoveKeepsSafe(s, a, moves[0], limit);
      CacheRefinesDirectComputation(Moved(s, a, moves[0], limit), a, moves[1..], limit);
    }
  }

  /** The locked steps a caller has still to take: at most a lookup and an insertion. */
  function StepsLeft(caller: Caller): nat {
    match caller case Arrived(_, _) => 2 case Computing(_, _) => 1 case Answered(_, _, _) => 0
  }

  function StepsTaken(moves: seq<Move>, i: nat): nat {
    if moves == [] then 0 else (if moves[0] == Proceed(i) then 1 else 0) + StepsTaken(moves[1..], i)
  }

  /** Whatever other callers do in between, each step brings a caller nearer to its answer, and it keeps its key
      and its frame. */
  lemma {:induction false} CallersAdvance(s: System, a: Analysis, moves: seq<Move>, limit: nat, i: nat)
    requires i in s.callers
    ensures
      var after := After(s, a, moves, limit);
      && i in after.callers && after.callers[i].key == s.callers[i].key && after.callers[i].frame == s.callers[i].frame
      && StepsLeft(after.callers[i])
           <= (if StepsTaken(moves, i) < StepsLeft(s.callers[i]) then StepsLeft(s.callers[i]) - StepsTaken(moves, i)
               else 0)
    decreases |moves|
  {
    if moves != [] {
      OneAdvances(s, a, moves[0], limit, i);
      hide Moved;
      CallersAdvance(Moved(s, a, moves[0], limit), a, moves[1..], limit, i);
    }
  }

  lemma OneAdvances(s: System, a: Analysis, move: Move, limit: nat, i: nat)
    requires i in s.callers
    ensures
      var after, left := Moved(s, a, move, limit), StepsLeft(s.callers[i]);
      && i in after.callers && after.callers[i].key == s.callers[i].key && after.callers[i].frame == s.callers[i].frame
      && StepsLeft(after.callers[i]) <= if move == Proceed(i) && left > 0 then left - 1 else left
  {
    hide Find, Looked, Inserted;
  }

  /** A caller that arrives under a free number has its answer after two steps of its own, and the answer is direct
      computation on its own frame, whatever the other callers did in between. */
  lemma EveryCallerIsAnswered(
    s: System, a: Analysis, moves: seq<Move>, limit: nat, i: nat, key: Key, frame: Frame)
    requires Safe(s, a, limit) && Injective(a) && limit >= 1
    requires i !in s.callers && StepsTaken(moves, i) >= 2
    ensures
      var after := After(s, a, [Arrive(i, key, frame)] + moves, limit);
      i in after.callers
      && after.callers[i] == Answered(key, frame, if a.usable(frame) then Some(a.compute(key, frame)) else None)
  {
    var arrived := Moved(s, a, Arrive(i, key, frame), limit);
    assert i in arrived.callers && arrived.callers[i].key == key && arrived.callers[i].frame == frame;
    assert ([Arrive(i, key, frame)] + moves)[1..] == moves;
    CacheRefinesDirectComputation(s, a, [Arrive(i, key, frame)] + moves, limit);
    CallersAdvance(arrived, a, moves, limit, i);
    hide Moved, Consistent, Genuine, Injective;
  }

  /** What was just computed is found again, whether it was newer or older than the current record; and
      the record it replaced as current is still found. */
  lemma InsertedIsFound(
    c: Cache, a: Analysis, key: Key, frame: Frame, replaced: Frame,
    limit: nat)
    requires Consistent(c) && limit >= 1
    ensures
      var after := Inserted(c, key, a.Made(key, frame), limit);
      && Find(after, key, a.timeOf(frame), a.signatureOf(frame)) == Some(a.compute(key, frame))
      && (key in c.current && c.current[key] == a.Made(key, replaced) && a.timeOf(replaced) < a.timeOf(frame) ==>
            Find(after, key, a.timeOf(replaced), a.signatureOf(replaced)) == Some(a.compute(key, replaced)))
  {
    var record := a.Made(key, frame);
    InsertionKeepsConsistency(c, key, record, limit);
    PlacedIsFound(c, key, record);
    hide Evicted, Consistent, Touch, Placed, Find, Matches;
    var p := Placed(c, key, record);
    FoundInBoth(Evicted(p, limit), p, key);
  }

  lemma PlacedIsFound(c: Cache, key: Key, record: Record)
    ensures
      var p := Placed(c, key, record);
      && Find(p, key, record.time, record.signature) == Some(record.answer)
      && (key in c.current && c.current[key].time < record.time ==>
            var r := c.current[key]; Find(p, key, r.time, r.signature) == Some(r.answer))
  {
    hide Touch;
  }

  lemma FoundInBoth(e: Cache, p: Cache, key: Key)
    requires Keeps(e, p) && key in e.current
    ensures forall time, signature :: Find(e, key, time, signature) == Find(p, key, time, signature)
  {
    hide Matches;
  }
}
