/** Python's stable `sort` by an integer or pair-of-integers key. */
module Sorting {
  type Rank = (int, int)

  predicate AtMost(a: Rank, b: Rank) { a.0 < b.0 || (a.0 == b.0 && a.1 <= b.1) }

  function Insert<T>(x: T, items: seq<T>, key: T -> Rank): seq<T> {
    if items == [] || AtMost(key(x), key(items[0])) then [x] + items
    else [items[0]] + Insert(x, items[1..], key)
  }

  /** Equal keys keep their order, because each element is inserted in front of those that follow it. */
  function SortBy<T>(items: seq<T>, key: T -> Rank): seq<T> {
    if items == [] then [] else Insert(items[0], SortBy(items[1..], key), key)
  }

  predicate Sorted<T>(items: seq<T>, key: T -> Rank) {
    forall i, j | 0 <= i < j < |items| :: AtMost(key(items[i]), key(items[j]))
  }

  predicate DistinctKeys<T>(items: seq<T>, key: T -> Rank) {
    forall i, j | 0 <= i < j < |items| :: key(items[i]) != key(items[j])
  }

  ghost predicate SameMembers<T(!new)>(a: seq<T>, b: seq<T>) {
    forall x :: x in a <==> x in b
  }

  lemma {:induction false} InsertSorts<T(!new)>(x: T, items: seq<T>, key: T -> Rank)
    requires Sorted(items, key)
    ensures var r := Insert(x, items, key); Sorted(r, key) && |r| == |items| + 1 && SameMembers(r, [x] + items)
  {
    if items != [] && !AtMost(key(x), key(items[0])) {
      InsertSorts(x, items[1..], key);
      var rest := Insert(x, items[1..], key);
      assert items == [items[0]] + items[1..];
      forall j | 0 <= j < |rest| ensures AtMost(key(items[0]), key(rest[j])) {
        assert rest[j] in [x] + items[1..];
      }
    }
  }

  /** A sort keeps the elements and puts them in order. */
  lemma {:induction false} SortBySorts<T(!new)>(items: seq<T>, key: T -> Rank)
    ensures var r := SortBy(items, key); Sorted(r, key) && |r| == |items| && SameMembers(r, items)
  {
    if items != [] {
      SortBySorts(items[1..], key);
      InsertSorts(items[0], SortBy(items[1..], key), key);
      assert items == [items[0]] + items[1..];
    }
  }

  predicate Strict<T>(items: seq<T>, key: T -> Rank) { Sorted(items, key) && DistinctKeys(items, key) }

  lemma {:induction false} SortByStrict<T(!new)>(items: seq<T>, key: T -> Rank)
    requires DistinctKeys(items, key)
    ensures Strict(SortBy(items, key), key)
  {
    if items != [] {
      var rest := SortBy(items[1..], key);
      SortByStrict(items[1..], key);
      SortBySorts(items[1..], key);
      assert forall y | y in rest :: key(y) != key(items[0]);
      InsertStrict(items[0], rest, key);
    }
  }

  lemma {:induction false} InsertStrict<T(!new)>(x: T, items: seq<T>, key: T -> Rank)
    requires Strict(items, key) && forall y | y in items :: key(y) != key(x)
    ensures Strict(Insert(x, items, key), key)
  {
    InsertSorts(x, items, key);
    if items != [] && !AtMost(key(x), key(items[0])) {
      InsertStrict(x, items[1..], key);
      InsertSorts(x, items[1..], key);
      var rest := Insert(x, items[1..], key);
      forall j | 0 <= j < |rest| ensures key(items[0]) != key(rest[j]) {
        assert rest[j] in [x] + items[1..];
      }
    }
  }

  lemma TailMembers<T(!new)>(a: seq<T>, key: T -> Rank)
    requires a != [] && DistinctKeys(a, key)
    ensures forall x :: x in a[1..] <==> x in a && x != a[0]
  {
  }

  /** There is only one strictly sorted arrangement of the same elements. */
  lemma {:induction false} StrictUnique<T(!new)>(a: seq<T>, b: seq<T>, key: T -> Rank)
    requires Strict(a, key) && Strict(b, key) && SameMembers(a, b)
    ensures a == b
  {
    assert a != [] ==> a[0] in b;
    assert b != [] ==> b[0] in a;
    if a != [] {
      assert a[0] == b[0];
      TailMembers(a, key);
      TailMembers(b, key);
      StrictUnique(a[1..], b[1..], key);
    }
  }

  /** With distinct keys, sorting forgets the order the elements came in. */
  lemma SortIgnoresOrder<T(!new)>(a: seq<T>, b: seq<T>, key: T -> Rank)
    requires DistinctKeys(a, key) && DistinctKeys(b, key) && SameMembers(a, b)
    ensures SortBy(a, key) == SortBy(b, key)
  {
    SortBySorts(a, key);
    SortBySorts(b, key);
    SortByStrict(a, key);
    SortByStrict(b, key);
    StrictUnique(SortBy(a, key), SortBy(b, key), key);
  }
}
