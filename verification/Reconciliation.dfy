/** Closed positions rebuilt from broker deals (database/reconciliation.py). */
module Reconciliation {
  import opened Numbers
  import opened Sorting

  type Symbol(==, !new)

  datatype Deal = Deal(
    position: int, time: int, millis: int, entry: int, kind: int, reason: int, magic: int, symbol: Symbol,
    volume: real, price: real, profit: real, commission: real, swap: real, fee: real)

  function ByTime(d: Deal): Rank { (d.time, d.millis) }

  predicate IsEntry(d: Deal) { d.entry == 0 || d.entry == 2 }

  predicate IsExit(d: Deal) { d.entry == 1 || d.entry == 3 }

  function Only(deals: seq<Deal>, keep: Deal -> bool): seq<Deal> {
    if deals == [] then []
    else
      var n := |deals| - 1;
      if keep(deals[n]) then Only(deals[..n], keep) + [deals[n]] else Only(deals[..n], keep)
  }

  function Total(deals: seq<Deal>, amount: Deal -> real): real {
    if deals == [] then 0.0
    else Total(deals[..|deals| - 1], amount) + amount(deals[|deals| - 1])
  }

  function Volume(d: Deal): real { d.volume }
  function Notional(d: Deal): real { d.price * d.volume }
  function Profit(d: Deal): real { d.profit }
  function Commission(d: Deal): real { d.commission }
  function Swap(d: Deal): real { d.swap }
  function Fee(d: Deal): real { d.fee }
  function Net(d: Deal): real { d.profit + d.commission + d.swap + d.fee }

  function Own(deals: seq<Deal>, position: int): seq<Deal> { Only(deals, (d: Deal) => d.position == position) }

  datatype Reason = Client | Mobile | Web | Expert | StopLoss | ProtectiveStop | TakeProfit | StopOut | Signal | Other

  function ReasonOf(code: int, net: real): Reason {
    match code
    case 0 => Client
    case 1 => Mobile
    case 2 => Web
    case 3 => Expert
    case 4 => if RoundHalfEven(net * 100000000.0) > 0 then ProtectiveStop else StopLoss
    case 5 => TakeProfit
    case 6 => StopOut
    case 7 => Signal
    case _ => Other
  }

  datatype Row = Row(
    position: int, openTime: int, closeTime: int, symbol: Symbol, buy: bool, volume: real, openPrice: real,
    closePrice: real, gross: real, commission: real, swap: real, fee: real, net: real, reason: Reason)

  const SLACK: real := 0.000000001

  /** A finished position of this strategy that the broker no longer holds. */
  predicate Reportable(deals: seq<Deal>, position: int, magic: int, active: set<int>) {
    var own := Own(deals, position);
    var entries, exits := Only(own, IsEntry), Only(own, IsExit);
    && entries != [] && exits != [] && position !in active
    && (exists d :: d in entries && d.magic == magic)
    && Total(exits, Volume) + SLACK >= Total(entries, Volume)
  }

  function Average(deals: seq<Deal>): real {
    Total(deals, Notional) / Max(Total(deals, Volume), 0.000000000001)
  }

  /** `utc` converts broker times. */
  function RowOf(position: int, own: seq<Deal>, utc: int -> int): Row
    requires Only(own, IsEntry) != [] && Only(own, IsExit) != []
  {
    var entries, exits := Only(own, IsEntry), Only(own, IsExit);
    var first, last := entries[0], exits[|exits| - 1];
    var gross, commission, swap, fee := Total(own, Profit), Total(own, Commission), Total(own, Swap), Total(own, Fee);
    var net := gross + commission + swap + fee;
    Row(position, utc(first.time), utc(last.time), first.symbol, first.kind == 0, Total(entries, Volume),
        Average(entries), Average(exits), gross, commission, swap, fee, net, ReasonOf(last.reason, net))
  }

  /** Positions in order of first appearance; zero is no position. */
  function Positions(deals: seq<Deal>): (ids: seq<int>)
    ensures forall id :: id in ids <==> id != 0 && exists d :: d in deals && d.position == id
    ensures forall i, j | 0 <= i < j < |ids| :: ids[i] != ids[j]
  {
    if deals == [] then []
    else
      var n := |deals| - 1;
      var before := Positions(deals[..n]);
      assert forall d :: d in deals <==> d in deals[..n] || d == deals[n];
      if deals[n].position == 0 || deals[n].position in before then before else before + [deals[n].position]
  }

  function Rows(ids: seq<int>, deals: seq<Deal>, magic: int, active: set<int>, utc: int -> int): seq<Row> {
    if ids == [] then []
    else
      var n := |ids| - 1;
      var before := Rows(ids[..n], deals, magic, active, utc);
      var row := PositionRow(ids[n], deals, magic, active, utc);
      if row.Some? then before + [row.value] else before
  }

  function NewestFirst(row: Row): Rank { (-row.closeTime, 0) }

  method AggregateClosedPositions(deals: seq<Deal>, magic: int, active: set<int>, utc: int -> int)
    returns (rows: seq<Row>)
    ensures rows == SortBy(Rows(Positions(deals), deals, magic, active, utc), NewestFirst)
  {
    assert Rows([], deals, magic, active, utc) == [];
    hide Rows, Positions, Own, Reportable, RowOf;
    var order, grouped := GroupByPosition(deals);
    rows := [];
    assert order[..0] == [];
    for k := 0 to |order|
      invariant rows == Rows(order[..k], deals, magic, active, utc)
    {
      var row := ReportPosition(order[k], grouped[order[k]], deals, magic, active, utc);
      RowsStep(order, k, deals, magic, active, utc);
      rows := if row.Some? then rows + [row.value] else rows;
    }
    assert order[..|order|] == order;
    rows := SortBy(rows, NewestFirst);
  }

  /** The deals of each position, and the positions in order of first appearance. */
  method GroupByPosition(deals: seq<Deal>) returns (order: seq<int>, grouped: map<int, seq<Deal>>)
    ensures order == Positions(deals)
    ensures forall id :: id in grouped <==> id in order
    ensures forall id | id in grouped :: grouped[id] == Own(deals, id)
  {
    order, grouped := [], map[];
    for i := 0 to |deals|
      invariant order == Positions(deals[..i])
      invariant forall id | id != 0 :: Own(deals[..i], id) == if id in grouped then grouped[id] else []
      invariant forall id :: id in grouped <==> id in order
    {
      var d := deals[i];
      PositionsStep(deals, i);
      forall id ensures Own(deals[..i + 1], id) == Own(deals[..i], id) + if d.position == id then [d] else [] {
        OwnStep(deals, i, id);
      }
      hide Positions, Own;
      if d.position != 0 {
        order := if d.position in grouped then order else order + [d.position];
        grouped := grouped[d.position := (if d.position in grouped then grouped[d.position] else []) + [d]];
      }
    }
    assert deals[..|deals|] == deals;
  }

  /** The row of one position, if it is finished, of this strategy, and no longer held. */
  method ReportPosition(
    position: int, deals: seq<Deal>, all: seq<Deal>, magic: int, active: set<int>, utc: int -> int)
    returns (row: Option<Row>)
    requires deals == Own(all, position)
    ensures row == PositionRow(position, all, magic, active, utc)
  {
    SortedIsReportable(all, position, magic, active);
    hide Own, RowOf, Reportable;
    var own := SortBy(deals, ByTime);
    var entries, exits := Only(own, IsEntry), Only(own, IsExit);
    if entries == [] || exits == [] || position in active {
      return None;
    }
    if !exists d :: d in entries && d.magic == magic {
      return None;
    }
    if Total(exits, Volume) + SLACK < Total(entries, Volume) {
      return None;
    }
    return Some(RowOf(position, own, utc));
  }

  function PositionRow(position: int, deals: seq<Deal>, magic: int, active: set<int>, utc: int -> int): Option<Row> {
    SortedIsReportable(deals, position, magic, active);
    if Reportable(deals, position, magic, active) then
      Some(RowOf(position, SortBy(Own(deals, position), ByTime), utc))
    else None
  }

  lemma RowsStep(ids: seq<int>, k: nat, deals: seq<Deal>, magic: int, active: set<int>, utc: int -> int)
    requires k < |ids|
    ensures
      var before := Rows(ids[..k], deals, magic, active, utc);
      var row := PositionRow(ids[k], deals, magic, active, utc);
      Rows(ids[..k + 1], deals, magic, active, utc) == if row.Some? then before + [row.value] else before
  {
    hide RowOf, Reportable, Own;
    assert ids[..k + 1][..k] == ids[..k];
  }

  lemma PositionsStep(deals: seq<Deal>, i: nat)
    requires i < |deals|
    ensures
      var before, id := Positions(deals[..i]), deals[i].position;
      Positions(deals[..i + 1]) == if id == 0 || id in before then before else before + [id]
  {
    assert deals[..i + 1][..i] == deals[..i];
  }

  lemma OwnStep(deals: seq<Deal>, i: nat, id: int)
    requires i < |deals|
    ensures Own(deals[..i + 1], id) == Own(deals[..i], id) + if deals[i].position == id then [deals[i]] else []
  {
    assert deals[..i + 1][..i] == deals[..i];
  }

  // ---------------------------------------------------------------------------------------
  // Sums do not depend on order
  // ---------------------------------------------------------------------------------------

  lemma {:induction false} OnlyMembers(deals: seq<Deal>, keep: Deal -> bool)
    ensures forall d :: d in Only(deals, keep) <==> d in deals && keep(d)
  {
    if deals != [] {
      var n := |deals| - 1;
      OnlyMembers(deals[..n], keep);
      assert deals == deals[..n] + [deals[n]];
    }
  }

  lemma {:induction false} OnlyConcat(a: seq<Deal>, b: seq<Deal>, keep: Deal -> bool)
    ensures Only(a + b, keep) == Only(a, keep) + Only(b, keep)
  {
    if b == [] {
      assert a + b == a;
    } else {
      var n := |b| - 1;
      assert (a + b)[..|a| + n] == a + b[..n];
      OnlyConcat(a, b[..n], keep);
    }
  }

  lemma {:induction false} TotalConcat(a: seq<Deal>, b: seq<Deal>, amount: Deal -> real)
    ensures Total(a + b, amount) == Total(a, amount) + Total(b, amount)
  {
    if b == [] {
      assert a + b == a;
    } else {
      var n := |b| - 1;
      assert (a + b)[..|a| + n] == a + b[..n];
      TotalConcat(a, b[..n], amount);
    }
  }

  /** The total over the deals that are kept. */
  function Sum(deals: seq<Deal>, keep: Deal -> bool, amount: Deal -> real): real {
    Total(Only(deals, keep), amount)
  }

  lemma SumConcat(a: seq<Deal>, b: seq<Deal>, keep: Deal -> bool, amount: Deal -> real)
    ensures Sum(a + b, keep, amount) == Sum(a, keep, amount) + Sum(b, keep, amount)
  {
    OnlyConcat(a, b, keep);
    TotalConcat(Only(a, keep), Only(b, keep), amount);
  }

  lemma {:induction false} InsertSplits(d: Deal, deals: seq<Deal>) returns (k: nat)
    ensures k <= |deals| && Insert(d, deals, ByTime) == deals[..k] + [d] + deals[k..]
  {
    if deals == [] || AtMost(ByTime(d), ByTime(deals[0])) {
      k := 0;
    } else {
      var m := InsertSplits(d, deals[1..]);
      k := m + 1;
    }
  }

  lemma {:induction false} SortKeepsSum(deals: seq<Deal>, keep: Deal -> bool, amount: Deal -> real)
    ensures Sum(SortBy(deals, ByTime), keep, amount) == Sum(deals, keep, amount)
  {
    if deals != [] {
      var rest := SortBy(deals[1..], ByTime);
      SortKeepsSum(deals[1..], keep, amount);
      var k := InsertSplits(deals[0], rest);
      hide Sum;
      assert deals == [deals[0]] + deals[1..] && rest == rest[..k] + rest[k..];
      SumConcat([deals[0]], deals[1..], keep, amount);
      SumConcat(rest[..k], rest[k..], keep, amount);
      SumConcat(rest[..k] + [deals[0]], rest[k..], keep, amount);
      SumConcat(rest[..k], [deals[0]], keep, amount);
    }
  }

  lemma SortKeepsTotal(deals: seq<Deal>, amount: Deal -> real)
    ensures Total(SortBy(deals, ByTime), amount) == Total(deals, amount)
  {
    var all := (d: Deal) => true;
    SortKeepsSum(deals, all, amount);
    KeepEverything(deals, all);
    KeepEverything(SortBy(deals, ByTime), all);
  }

  lemma {:induction false} KeepEverything(deals: seq<Deal>, keep: Deal -> bool)
    requires forall d :: keep(d)
    ensures Only(deals, keep) == deals
  {
    if deals != [] { KeepEverything(deals[..|deals| - 1], keep); }
  }

  /** Sorting a position's deals does not change whether it is reported. */
  lemma SortedIsReportable(deals: seq<Deal>, position: int, magic: int, active: set<int>)
    ensures
      var own := SortBy(Own(deals, position), ByTime);
      var entries, exits := Only(own, IsEntry), Only(own, IsExit);
      Reportable(deals, position, magic, active) <==>
        && entries != [] && exits != [] && position !in active
        && (exists d :: d in entries && d.magic == magic)
        && Total(exits, Volume) + SLACK >= Total(entries, Volume)
  {
    var raw := Own(deals, position);
    var own := SortBy(raw, ByTime);
    SortBySorts(raw, ByTime);
    SortKeepsSum(raw, IsEntry, Volume);
    SortKeepsSum(raw, IsExit, Volume);
    SameKept(raw, own, IsEntry);
    SameKept(raw, own, IsExit);
  }

  lemma SameKept(a: seq<Deal>, b: seq<Deal>, keep: Deal -> bool)
    requires SameMembers(b, a)
    ensures SameMembers(Only(a, keep), Only(b, keep))
    ensures Only(a, keep) == [] <==> Only(b, keep) == []
  {
    OnlyMembers(a, keep);
    OnlyMembers(b, keep);
    if Only(a, keep) != [] { assert Only(a, keep)[0] in Only(b, keep); }
    if Only(b, keep) != [] { assert Only(b, keep)[0] in Only(a, keep); }
  }

  // ---------------------------------------------------------------------------------------
  // What is reported
  // ---------------------------------------------------------------------------------------

  /** The one row that all deals of its position make. */
  predicate IsReport(row: Row, deals: seq<Deal>, utc: int -> int) {
    var own := SortBy(Own(deals, row.position), ByTime);
    Only(own, IsEntry) != [] && Only(own, IsExit) != [] && row == RowOf(row.position, own, utc)
  }

  /** Exactly the reportable positions are reported, each by the one row made from all of its own deals. */
  lemma {:induction false} RowsAreReportable(
    ids: seq<int>, deals: seq<Deal>, magic: int, active: set<int>, utc: int -> int)
    requires forall i, j | 0 <= i < j < |ids| :: ids[i] != ids[j]
    ensures
      var rows := Rows(ids, deals, magic, active, utc);
      && (forall i, j | 0 <= i < j < |rows| :: rows[i].position != rows[j].position)
      && (forall row | row in rows ::
            row.position in ids && Reportable(deals, row.position, magic, active) && IsReport(row, deals, utc))
      && (forall id | id in ids && Reportable(deals, id, magic, active) ::
            exists row :: row in rows && row.position == id)
  {
    if ids != [] {
      var n := |ids| - 1;
      RowsAreReportable(ids[..n], deals, magic, active, utc);
      PositionRowMeaning(ids[n], deals, magic, active, utc);
      assert ids == ids[..n] + [ids[n]];
      var before, row := Rows(ids[..n], deals, magic, active, utc), PositionRow(ids[n], deals, magic, active, utc);
      assert Rows(ids, deals, magic, active, utc) == if row.Some? then before + [row.value] else before;
      hide Reportable, IsReport, Rows, PositionRow;
    }
  }

  /** A position makes a row exactly when it is reportable, and from all of its own deals. */
  lemma PositionRowMeaning(position: int, deals: seq<Deal>, magic: int, active: set<int>, utc: int -> int)
    ensures
      var row := PositionRow(position, deals, magic, active, utc);
      && (row.Some? <==> Reportable(deals, position, magic, active))
      && (row.Some? ==> row.value.position == position && IsReport(row.value, deals, utc))
  {
    SortedIsReportable(deals, position, magic, active);
    hide Reportable, Own, Average, Total;
  }

  /** A row opens with the position's earliest entry and closes with its latest exit. */
  lemma RowSpansItsDeals(row: Row, deals: seq<Deal>, utc: int -> int) returns (first: Deal, last: Deal)
    requires IsReport(row, deals, utc)
    ensures first in Own(deals, row.position) && IsEntry(first) && last in Own(deals, row.position) && IsExit(last)
    ensures forall d | d in Own(deals, row.position) && IsEntry(d) :: AtMost(ByTime(first), ByTime(d))
    ensures forall d | d in Own(deals, row.position) && IsExit(d) :: AtMost(ByTime(d), ByTime(last))
    ensures row.openTime == utc(first.time) && row.closeTime == utc(last.time) && row.buy == (first.kind == 0)
    ensures row.symbol == first.symbol && row.reason == ReasonOf(last.reason, row.net)
  {
    hide Own, SortBy, Total, Average, ReasonOf, AtMost;
    var own := SortBy(Own(deals, row.position), ByTime);
    SortBySorts(Own(deals, row.position), ByTime);
    var entries, exits := Only(own, IsEntry), Only(own, IsExit);
    first, last := entries[0], exits[|exits| - 1];
    OnlyMembers(own, IsEntry);
    OnlyMembers(own, IsExit);
    OnlySorted(own, IsEntry);
    OnlySorted(own, IsExit);
    hide Only;
    forall d | d in own && IsEntry(d) ensures AtMost(ByTime(first), ByTime(d)) {
      FirstIsLeast(entries, d);
    }
    forall d | d in own && IsExit(d) ensures AtMost(ByTime(d), ByTime(last)) {
      LastIsMost(exits, d);
    }
  }

  lemma FirstIsLeast(deals: seq<Deal>, d: Deal)
    requires d in deals && Sorted(deals, ByTime)
    ensures AtMost(ByTime(deals[0]), ByTime(d))
  {
    var i :| 0 <= i < |deals| && deals[i] == d;
  }

  lemma LastIsMost(deals: seq<Deal>, d: Deal)
    requires d in deals && Sorted(deals, ByTime)
    ensures AtMost(ByTime(d), ByTime(deals[|deals| - 1]))
  {
    var i :| 0 <= i < |deals| && deals[i] == d;
  }

  lemma {:induction false} OnlySorted(deals: seq<Deal>, keep: Deal -> bool)
    requires Sorted(deals, ByTime)
    ensures Sorted(Only(deals, keep), ByTime)
  {
    if deals != [] {
      var n := |deals| - 1;
      OnlySorted(deals[..n], keep);
      OnlyMembers(deals[..n], keep);
      forall d | d in deals[..n] ensures AtMost(ByTime(d), ByTime(deals[n])) {
        var i :| 0 <= i < n && deals[i] == d;
      }
    }
  }

  // ---------------------------------------------------------------------------------------
  // Conservation
  // ---------------------------------------------------------------------------------------

  function NetOf(rows: seq<Row>): real {
    if rows == [] then 0.0 else NetOf(rows[..|rows| - 1]) + rows[|rows| - 1].net
  }

  lemma {:induction false} NetAddsUp(deals: seq<Deal>)
    ensures Total(deals, Net)
         == Total(deals, Profit) + Total(deals, Commission) + Total(deals, Swap) + Total(deals, Fee)
  {
    if deals != [] { NetAddsUp(deals[..|deals| - 1]); }
  }

  /** A row's net is the net of all deals of its position. */
  lemma RowNet(row: Row, deals: seq<Deal>, utc: int -> int)
    requires IsReport(row, deals, utc)
    ensures row.net == Total(Own(deals, row.position), Net)
  {
    var own := SortBy(Own(deals, row.position), ByTime);
    NetAddsUp(own);
    SortKeepsTotal(Own(deals, row.position), Net);
  }

  lemma {:induction false} SumSplits(
    deals: seq<Deal>, whole: Deal -> bool, one: Deal -> bool, other: Deal -> bool, amount: Deal -> real)
    requires forall d :: (whole(d) <==> one(d) || other(d)) && !(one(d) && other(d))
    ensures Sum(deals, whole, amount) == Sum(deals, one, amount) + Sum(deals, other, amount)
  {
    if deals != [] {
      SumSplits(deals[..|deals| - 1], whole, one, other, amount);
    }
  }

  /** The deals of the reportable positions among some. */
  function InReport(ids: seq<int>, deals: seq<Deal>, magic: int, active: set<int>): Deal -> bool {
    (d: Deal) => d.position in ids && Reportable(deals, d.position, magic, active)
  }

  lemma {:induction false} NetIsConservedOver(
    ids: seq<int>, deals: seq<Deal>, magic: int, active: set<int>, utc: int -> int)
    requires forall i, j | 0 <= i < j < |ids| :: ids[i] != ids[j]
    ensures NetOf(Rows(ids, deals, magic, active, utc)) == Sum(deals, InReport(ids, deals, magic, active), Net)
  {
    if ids == [] {
      SumOfNone(deals, InReport(ids, deals, magic, active));
    } else {
      var n := |ids| - 1;
      NetIsConservedOver(ids[..n], deals, magic, active, utc);
      PositionNet(ids[n], deals, magic, active, utc);
      hide Sum, Reportable;
      SumSplits(
        deals, InReport(ids, deals, magic, active), InReport(ids[..n], deals, magic, active),
        OfReported(ids[n], deals, magic, active), Net) by {
        assert ids == ids[..n] + [ids[n]] && ids[n] !in ids[..n];
      }
      hide PositionRow, InReport, OfReported;
      NetOfLast(Rows(ids[..n], deals, magic, active, utc), PositionRow(ids[n], deals, magic, active, utc));
    }
  }

  /** The deals of one position, if it is reportable. */
  function OfReported(position: int, deals: seq<Deal>, magic: int, active: set<int>): Deal -> bool {
    var reportable := Reportable(deals, position, magic, active);
    (d: Deal) => reportable && d.position == position
  }

  lemma PositionNet(position: int, deals: seq<Deal>, magic: int, active: set<int>, utc: int -> int)
    ensures
      var row := PositionRow(position, deals, magic, active, utc);
      Sum(deals, OfReported(position, deals, magic, active), Net) == if row.Some? then row.value.net else 0.0
  {
    var own := OfReported(position, deals, magic, active);
    PositionRowMeaning(position, deals, magic, active, utc);
    var row := PositionRow(position, deals, magic, active, utc);
    hide Reportable, PositionRow, IsReport, Own;
    if row.Some? {
      RowNet(row.value, deals, utc);
      OwnIs(deals, position, own);
    } else {
      SumOfNone(deals, own);
    }
  }

  lemma NetOfLast(rows: seq<Row>, row: Option<Row>)
    ensures NetOf(if row.Some? then rows + [row.value] else rows)
         == NetOf(rows) + if row.Some? then row.value.net else 0.0
  {
    if row.Some? { assert (rows + [row.value])[..|rows|] == rows; }
  }

  lemma {:induction false} SumOfNone(deals: seq<Deal>, keep: Deal -> bool)
    requires forall d :: !keep(d)
    ensures Sum(deals, keep, Net) == 0.0
  {
    if deals != [] { SumOfNone(deals[..|deals| - 1], keep); }
  }

  lemma {:induction false} SameSelection(deals: seq<Deal>, a: Deal -> bool, b: Deal -> bool)
    requires forall d :: a(d) <==> b(d)
    ensures Only(deals, a) == Only(deals, b)
  {
    if deals != [] { SameSelection(deals[..|deals| - 1], a, b); }
  }

  lemma OwnIs(deals: seq<Deal>, position: int, keep: Deal -> bool)
    requires forall d: Deal :: keep(d) <==> d.position == position
    ensures Only(deals, keep) == Own(deals, position)
  {
    SameSelection(deals, keep, (d: Deal) => d.position == position);
  }

  lemma {:induction false} NetOfInsert(row: Row, rows: seq<Row>)
    ensures NetOf(Insert(row, rows, NewestFirst)) == row.net + NetOf(rows)
    ensures NetOf([row] + rows) == row.net + NetOf(rows)
  {
    NetOfFront(row, rows);
    if rows != [] && !AtMost(NewestFirst(row), NewestFirst(rows[0])) {
      NetOfInsert(row, rows[1..]);
      NetOfFront(rows[0], Insert(row, rows[1..], NewestFirst));
      NetOfFront(rows[0], rows[1..]);
      assert rows == [rows[0]] + rows[1..];
    }
  }

  lemma {:induction false} NetOfFront(row: Row, rows: seq<Row>)
    ensures NetOf([row] + rows) == row.net + NetOf(rows)
  {
    if rows == [] {
      assert [row] + rows == [row] && [row][..0] == [];
    } else {
      var n := |rows| - 1;
      assert ([row] + rows)[..|rows|] == [row] + rows[..n];
      NetOfFront(row, rows[..n]);
    }
  }

  lemma {:induction false} NetOfSorted(rows: seq<Row>)
    ensures NetOf(SortBy(rows, NewestFirst)) == NetOf(rows)
  {
    if rows != [] {
      assert rows == [rows[0]] + rows[1..];
      NetOfSorted(rows[1..]);
      NetOfInsert(rows[0], SortBy(rows[1..], NewestFirst));
      NetOfFront(rows[0], rows[1..]);
    }
  }

  function Report(deals: seq<Deal>, magic: int, active: set<int>, utc: int -> int): seq<Row> {
    SortBy(Rows(Positions(deals), deals, magic, active, utc), NewestFirst)
  }

  /** The report's net profit is the profit, commission, swap and fees of exactly the deals of the
      positions it reports: no deal is used twice or lost. */
  lemma NetIsConserved(deals: seq<Deal>, magic: int, active: set<int>, utc: int -> int)
    ensures NetOf(Report(deals, magic, active, utc))
         == Sum(deals, (d: Deal) => d.position != 0 && Reportable(deals, d.position, magic, active), Net)
  {
    hide Reportable;
    var ids := Positions(deals);
    NetOfSorted(Rows(ids, deals, magic, active, utc));
    NetIsConservedOver(ids, deals, magic, active, utc);
    var reported := (d: Deal) => d.position != 0 && Reportable(deals, d.position, magic, active);
    SameOnMembers(deals, InReport(ids, deals, magic, active), reported);
  }

  lemma {:induction false} SameOnMembers(deals: seq<Deal>, a: Deal -> bool, b: Deal -> bool)
    requires forall d | d in deals :: a(d) <==> b(d)
    ensures Only(deals, a) == Only(deals, b)
  {
    if deals != [] {
      assert deals == deals[..|deals| - 1] + [deals[|deals| - 1]];
      SameOnMembers(deals[..|deals| - 1], a, b);
    }
  }

  // ---------------------------------------------------------------------------------------
  // Prices and order
  // ---------------------------------------------------------------------------------------

  predicate Between(low: real, notional: real, high: real, volume: real) {
    low * volume <= notional <= high * volume
  }

  lemma {:induction false} TotalBetween(deals: seq<Deal>, low: real, high: real)
    requires forall d | d in deals :: d.volume >= 0.0 && low <= d.price <= high
    ensures Between(low, Total(deals, Notional), high, Total(deals, Volume))
  {
    if deals != [] {
      var n := |deals| - 1;
      var d := deals[n];
      assert deals == deals[..n] + [d];
      TotalBetween(deals[..n], low, high);
      StepBetween(low, high, Total(deals[..n], Volume), Total(deals[..n], Notional), d);
      hide Between;
      assert Total(deals, Notional) == Total(deals[..n], Notional) + Notional(d);
    }
  }

  lemma StepBetween(low: real, high: real, volume: real, notional: real, d: Deal)
    requires low <= d.price <= high && d.volume >= 0.0 && Between(low, notional, high, volume)
    ensures Between(low, notional + Notional(d), high, volume + d.volume)
  {
    var v := d.volume;
    assert low * (volume + v) == low * volume + low * v && high * (volume + v) == high * volume + high * v;
    assert low * v <= d.price * v <= high * v;
  }

  /** A volume-weighted price lies between the lowest and the highest of its deals. */
  lemma AverageIsBetween(deals: seq<Deal>, low: real, high: real)
    requires forall d | d in deals :: d.volume >= 0.0 && low <= d.price <= high
    requires Total(deals, Volume) >= 0.000000000001
    ensures low <= Average(deals) <= high
  {
    TotalBetween(deals, low, high);
    var volume, notional := Total(deals, Volume), Total(deals, Notional);
    hide Total, Between;
    assert Average(deals) == notional / volume;
    QuotientBetween(low, notional, high, volume);
  }

  lemma QuotientBetween(low: real, notional: real, high: real, volume: real)
    requires volume > 0.0 && Between(low, notional, high, volume)
    ensures low <= notional / volume <= high
  {
    assert low * volume / volume == low && high * volume / volume == high;
    QuotientOrder(low * volume, notional, volume);
    QuotientOrder(notional, high * volume, volume);
  }

  lemma QuotientOrder(a: real, b: real, c: real)
    requires a <= b && c > 0.0
    ensures a / c <= b / c
  {
  }

  /** For distinct times within each position, the report's rows do not depend on the order of the deals;
      nor does the report itself when no two of its rows close at the same second. */
  lemma OrderOfDealsIsIrrelevant(a: seq<Deal>, b: seq<Deal>, magic: int, active: set<int>, utc: int -> int)
    requires SameMembers(a, b)
    requires forall id | id != 0 :: DistinctKeys(Own(a, id), ByTime) && DistinctKeys(Own(b, id), ByTime)
    ensures SameMembers(Report(a, magic, active, utc), Report(b, magic, active, utc))
    ensures DistinctKeys(Report(a, magic, active, utc), NewestFirst) ==>
              Report(a, magic, active, utc) == Report(b, magic, active, utc)
  {
    forall id | id != 0 ensures SortBy(Own(a, id), ByTime) == SortBy(Own(b, id), ByTime)
                        ensures Reportable(a, id, magic, active) <==> Reportable(b, id, magic, active) {
      OnlyMembers(a, (d: Deal) => d.position == id);
      OnlyMembers(b, (d: Deal) => d.position == id);
      SortIgnoresOrder(Own(a, id), Own(b, id), ByTime);
      SortedIsReportable(a, id, magic, active);
      SortedIsReportable(b, id, magic, active);
    }
    ReportMembers(a, magic, active, utc);
    ReportMembers(b, magic, active, utc);
    var first, second := Report(a, magic, active, utc), Report(b, magic, active, utc);
    assert SameMembers(first, second);
    if DistinctKeys(first, NewestFirst) {
      ReportOrder(a, magic, active, utc);
      ReportOrder(b, magic, active, utc);
      hide Report, Reportable, IsReport;
      DistinctKeysCarryOver(first, second);
      StrictUnique(first, second, NewestFirst);
    }
  }

  /** The report is sorted by closing time, newest first, and names no position twice. */
  lemma ReportOrder(deals: seq<Deal>, magic: int, active: set<int>, utc: int -> int)
    ensures
      var report := Report(deals, magic, active, utc);
      && Sorted(report, NewestFirst)
      && (forall i, j | 0 <= i < j < |report| :: report[i].closeTime >= report[j].closeTime)
      && forall i, j | 0 <= i < j < |report| :: report[i].position != report[j].position
  {
    hide Reportable, RowOf;
    var rows := Rows(Positions(deals), deals, magic, active, utc);
    RowsAreReportable(Positions(deals), deals, magic, active, utc);
    hide Rows, Positions;
    SortBySorts(rows, NewestFirst);
    SortKeepsPositionsApart(rows);
    var report := SortBy(rows, NewestFirst);
    forall i, j | 0 <= i < j < |report| ensures report[i].closeTime >= report[j].closeTime {
      assert AtMost(NewestFirst(report[i]), NewestFirst(report[j]));
    }
  }

  predicate Apart(rows: seq<Row>) {
    forall i, j | 0 <= i < j < |rows| :: rows[i].position != rows[j].position
  }

  lemma {:induction false} SortKeepsPositionsApart(rows: seq<Row>)
    requires Apart(rows)
    ensures Apart(SortBy(rows, NewestFirst))
  {
    if rows != [] {
      SortKeepsPositionsApart(rows[1..]);
      SortBySorts(rows[1..], NewestFirst);
      InsertKeepsPositionsApart(rows[0], SortBy(rows[1..], NewestFirst));
    }
  }

  lemma {:induction false} InsertKeepsPositionsApart(row: Row, rows: seq<Row>)
    requires Apart(rows) && forall other | other in rows :: other.position != row.position
    ensures Apart(Insert(row, rows, NewestFirst))
    ensures forall other :: other in Insert(row, rows, NewestFirst) <==> other == row || other in rows
  {
    if rows != [] && !AtMost(NewestFirst(row), NewestFirst(rows[0])) {
      InsertKeepsPositionsApart(row, rows[1..]);
      assert rows == [rows[0]] + rows[1..];
      var rest := Insert(row, rows[1..], NewestFirst);
      forall j | 0 <= j < |rest| ensures rest[j].position != rows[0].position {
        assert rest[j] in rest;
      }
    }
  }

  lemma DistinctKeysCarryOver(a: seq<Row>, b: seq<Row>)
    requires SameMembers(a, b) && DistinctKeys(a, NewestFirst) && Apart(b)
    ensures DistinctKeys(b, NewestFirst)
  {
    forall i, j | 0 <= i < j < |b| ensures NewestFirst(b[i]) != NewestFirst(b[j]) {
      assert b[i] in a && b[j] in a;
      var k :| 0 <= k < |a| && a[k] == b[i];
      var l :| 0 <= l < |a| && a[l] == b[j];
      assert k != l;
    }
  }

  lemma ReportMembers(deals: seq<Deal>, magic: int, active: set<int>, utc: int -> int)
    ensures forall row :: row in Report(deals, magic, active, utc) <==>
              && row.position != 0 && Reportable(deals, row.position, magic, active)
              && IsReport(row, deals, utc)
  {
    hide RowOf;
    var ids := Positions(deals);
    RowsAreReportable(ids, deals, magic, active, utc);
    SortBySorts(Rows(ids, deals, magic, active, utc), NewestFirst);
    forall id | id != 0 && Reportable(deals, id, magic, active) ensures id in ids {
      ReportableHasDeals(deals, id, magic, active);
    }
    hide Reportable, Positions;
  }

  lemma ReportableHasDeals(deals: seq<Deal>, id: int, magic: int, active: set<int>)
    requires Reportable(deals, id, magic, active)
    ensures exists d :: d in deals && d.position == id
  {
    var own := Own(deals, id);
    OnlyMembers(own, IsEntry);
    OnlyMembers(deals, (d: Deal) => d.position == id);
    assert Only(own, IsEntry)[0] in Only(own, IsEntry);
  }

  // ---------------------------------------------------------------------------------------
  // Rows written out
  // ---------------------------------------------------------------------------------------

  datatype Part = All | Opening | Closing

  /** Deals that open a position are marked in or in-out by reversal, and those that close it out or out-by. */
  predicate Belongs(d: Deal, position: int, part: Part) {
    && d.position == position
    && match part
       case All => true
       case Opening => d.entry == 0 || d.entry == 2
       case Closing => d.entry == 1 || d.entry == 3
  }

  datatype Amount = Lots | Value | Gain | Charge | Rollover | Levy

  function AmountOf(d: Deal, amount: Amount): real {
    match amount
    case Lots => d.volume
    case Value => d.price * d.volume
    case Gain => d.profit
    case Charge => d.commission
    case Rollover => d.swap
    case Levy => d.fee
  }

  /** An amount of one position, over all its deals or its opening or closing ones. */
  function AddUp(deals: seq<Deal>, position: int, part: Part, amount: Amount): real {
    if |deals| == 0 then 0.0
    else
      var rest := AddUp(deals[1..], position, part, amount);
      if Belongs(deals[0], position, part) then AmountOf(deals[0], amount) + rest else rest
  }

  lemma {:induction false} SumIsAddUp(
    deals: seq<Deal>, keep: Deal -> bool, f: Deal -> real, position: int, part: Part, amount: Amount)
    requires forall d :: (keep(d) <==> Belongs(d, position, part)) && f(d) == AmountOf(d, amount)
    ensures Sum(deals, keep, f) == AddUp(deals, position, part, amount)
  {
    if deals != [] {
      assert deals == [deals[0]] + deals[1..];
      SumConcat([deals[0]], deals[1..], keep, f);
      SumIsAddUp(deals[1..], keep, f, position, part, amount);
      SumOfOne(deals[0], keep, f);
      hide Sum, Belongs, AmountOf;
    }
  }

  lemma SumOfOne(d: Deal, keep: Deal -> bool, f: Deal -> real)
    ensures Sum([d], keep, f) == if keep(d) then f(d) else 0.0
  {
    assert [d][..0] == [] && Only([], keep) == [];
    var one := Only([d], keep);
    assert one == if keep(d) then [] + [d] else [];
    if keep(d) { assert one[..0] == [] && Total(one[..0], f) == 0.0; }
  }

  lemma {:induction false} OnlyOfOwn(deals: seq<Deal>, position: int, keep: Deal -> bool, meant: Deal -> bool)
    requires forall d: Deal :: meant(d) <==> d.position == position && keep(d)
    ensures Only(Own(deals, position), keep) == Only(deals, meant)
  {
    if deals != [] {
      var n := |deals| - 1;
      OnlyOfOwn(deals[..n], position, keep, meant);
      OwnStep(deals, n, position);
      assert deals[..n + 1] == deals;
      hide Own;
      if deals[n].position == position {
        OnlyConcat(Own(deals[..n], position), [deals[n]], keep);
        assert [deals[n]][..0] == [];
      }
    }
  }

  lemma OwnSum(deals: seq<Deal>, position: int, keep: Deal -> bool, f: Deal -> real, part: Part, amount: Amount)
    requires forall d: Deal :: Belongs(d, position, part) <==> d.position == position && keep(d)
    requires forall d :: f(d) == AmountOf(d, amount)
    ensures Sum(SortBy(Own(deals, position), ByTime), keep, f) == AddUp(deals, position, part, amount)
  {
    var meant := (d: Deal) => Belongs(d, position, part);
    SortKeepsSum(Own(deals, position), keep, f);
    OnlyOfOwn(deals, position, keep, meant);
    SumIsAddUp(deals, meant, f, position, part, amount);
  }

  /** A position is reported exactly when it has opening deals, one of them of this strategy, and closing deals, is
      no longer held, and the closing volume covers the opening one up to 1e-9. */
  lemma ReportableIff(deals: seq<Deal>, position: int, magic: int, active: set<int>)
    ensures Reportable(deals, position, magic, active) <==>
              && position !in active
              && (exists d :: d in deals && Belongs(d, position, Opening) && d.magic == magic)
              && (exists d :: d in deals && Belongs(d, position, Closing))
              && AddUp(deals, position, Opening, Lots) <= AddUp(deals, position, Closing, Lots) + 0.000000001
  {
    SortedIsReportable(deals, position, magic, active);
    var own := SortBy(Own(deals, position), ByTime);
    SortBySorts(Own(deals, position), ByTime);
    OwnSum(deals, position, IsEntry, Volume, Opening, Lots);
    OwnSum(deals, position, IsExit, Volume, Closing, Lots);
    OnlyMembers(deals, (d: Deal) => d.position == position);
    PartMembers(deals, own, position);
    var entries, exits := Only(own, IsEntry), Only(own, IsExit);
    hide Own, AddUp, Total, Belongs, Reportable, Only;
    if exits != [] { assert exits[0] in exits; }
  }

  lemma PartMembers(deals: seq<Deal>, own: seq<Deal>, position: int)
    requires forall d: Deal :: d in own <==> d in deals && d.position == position
    ensures forall d :: d in Only(own, IsEntry) <==> d in deals && Belongs(d, position, Opening)
    ensures forall d :: d in Only(own, IsExit) <==> d in deals && Belongs(d, position, Closing)
  {
    OnlyMembers(own, IsEntry);
    OnlyMembers(own, IsExit);
  }

  predicate NoLater(a: Deal, b: Deal) { a.time < b.time || (a.time == b.time && a.millis <= b.millis) }

  /** An average price: the total of price times volume over the total volume, which counts as at least 1e-12. */
  predicate IsAverage(price: real, value: real, lots: real) {
    price * (if lots < 0.000000000001 then 0.000000000001 else lots) == value
  }

  /** Why a position closed. A stop that ends in profit, after rounding to eight digits, is a protective one. */
  predicate ClosedBy(reason: Reason, code: int, net: real) {
    match reason
    case Client => code == 0
    case Mobile => code == 1
    case Web => code == 2
    case Expert => code == 3
    case ProtectiveStop => code == 4 && net > 0.000000005
    case StopLoss => code == 4 && net <= 0.000000005
    case TakeProfit => code == 5
    case StopOut => code == 6
    case Signal => code == 7
    case Other => code < 0 || code > 7
  }

  /** Every field of a report row, from the deals alone. */
  lemma RowWrittenOut(row: Row, deals: seq<Deal>, utc: int -> int) returns (first: Deal, last: Deal)
    requires IsReport(row, deals, utc)
    ensures first in deals && Belongs(first, row.position, Opening)
    ensures last in deals && Belongs(last, row.position, Closing)
    ensures forall d | d in deals && Belongs(d, row.position, Opening) :: NoLater(first, d)
    ensures forall d | d in deals && Belongs(d, row.position, Closing) :: NoLater(d, last)
    ensures row.openTime == utc(first.time) && row.closeTime == utc(last.time)
    ensures row.symbol == first.symbol && row.buy == (first.kind == 0)
    ensures row.volume == AddUp(deals, row.position, Opening, Lots)
    ensures IsAverage(
              row.openPrice, AddUp(deals, row.position, Opening, Value), AddUp(deals, row.position, Opening, Lots))
    ensures IsAverage(
              row.closePrice, AddUp(deals, row.position, Closing, Value), AddUp(deals, row.position, Closing, Lots))
    ensures row.gross == AddUp(deals, row.position, All, Gain)
    ensures row.commission == AddUp(deals, row.position, All, Charge)
    ensures row.swap == AddUp(deals, row.position, All, Rollover)
    ensures row.fee == AddUp(deals, row.position, All, Levy)
    ensures row.net == row.gross + row.commission + row.swap + row.fee
    ensures ClosedBy(row.reason, last.reason, row.net)
  {
    first, last := RowSpansItsDeals(row, deals, utc);
    OnlyMembers(deals, (d: Deal) => d.position == row.position);
    assert forall d: Deal :: d in Own(deals, row.position) <==> d in deals && d.position == row.position;
    RowAmounts(row, deals, utc);
    ReasonWrittenOut(last.reason, row.net);
    hide Own, IsReport, RowOf, AddUp, IsAverage, ClosedBy, ReasonOf;
  }

  lemma ReasonWrittenOut(code: int, net: real)
    ensures ClosedBy(ReasonOf(code, net), code, net)
  {
  }

  lemma RowAmounts(row: Row, deals: seq<Deal>, utc: int -> int)
    requires IsReport(row, deals, utc)
    ensures row.volume == AddUp(deals, row.position, Opening, Lots)
    ensures IsAverage(
              row.openPrice, AddUp(deals, row.position, Opening, Value), AddUp(deals, row.position, Opening, Lots))
    ensures IsAverage(
              row.closePrice, AddUp(deals, row.position, Closing, Value), AddUp(deals, row.position, Closing, Lots))
    ensures row.gross == AddUp(deals, row.position, All, Gain)
    ensures row.commission == AddUp(deals, row.position, All, Charge)
    ensures row.swap == AddUp(deals, row.position, All, Rollover)
    ensures row.fee == AddUp(deals, row.position, All, Levy)
    ensures row.net == row.gross + row.commission + row.swap + row.fee
  {
    hide Own, SortBy, Only, AddUp, Total, ReasonOf, IsAverage, Average;
    var position := row.position;
    var own, all := SortBy(Own(deals, position), ByTime), (d: Deal) => true;
    KeepEverything(own, all);
    OwnSum(deals, position, all, Profit, All, Gain);
    OwnSum(deals, position, all, Commission, All, Charge);
    OwnSum(deals, position, all, Swap, All, Rollover);
    OwnSum(deals, position, all, Fee, All, Levy);
    OwnSum(deals, position, IsEntry, Volume, Opening, Lots);
    OwnSum(deals, position, IsEntry, Notional, Opening, Value);
    OwnSum(deals, position, IsExit, Volume, Closing, Lots);
    OwnSum(deals, position, IsExit, Notional, Closing, Value);
    hide Belongs;
    AverageWrittenOut(Only(own, IsEntry));
    AverageWrittenOut(Only(own, IsExit));
  }

  lemma AverageWrittenOut(deals: seq<Deal>)
    ensures IsAverage(Average(deals), Total(deals, Notional), Total(deals, Volume))
  {
    hide Total;
    var lots := Max(Total(deals, Volume), 0.000000000001);
    assert Total(deals, Notional) / lots * lots == Total(deals, Notional);
  }
}
