/** Leave-one-out currency strength over the scanned pairs (core/forex_context.py). */
module CurrencyContext {
  import opened Numbers

  datatype Currency = AUD | CAD | CHF | EUR | GBP | JPY | NZD | USD

  /** A market's symbol in upper case. */
  type Symbol(==, !new)

  /** `pair` is what the symbol's letters spell, if they spell two known currencies, which need not differ;
      `impulse` is zero if unreadable; the flags say which words the regime text contains. */
  datatype Row = Row(symbol: Symbol, pair: Option<(Currency, Currency)>, impulse: real, bullish: bool, bearish: bool)

  function Signal(row: Row): real {
    Max(-2.0, Min(2.0, row.impulse)) + if row.bullish then 0.5 else if row.bearish then -0.5 else 0.0
  }

  /** What one row adds to a currency: plus its signal as base, minus its signal as quote. */
  function Share(row: Row, c: Currency): real {
    if row.pair.None? then 0.0
    else
      (if row.pair.value.0 == c then Signal(row) else 0.0) - (if row.pair.value.1 == c then Signal(row) else 0.0)
  }

  function Uses(row: Row, c: Currency): nat {
    if row.pair.None? then 0
    else (if row.pair.value.0 == c then 1 else 0) + (if row.pair.value.1 == c then 1 else 0)
  }

  function Total(rows: seq<Row>, c: Currency): real {
    if rows == [] then 0.0 else Total(rows[..|rows| - 1], c) + Share(rows[|rows| - 1], c)
  }

  function Samples(rows: seq<Row>, c: Currency): nat {
    if rows == [] then 0 else Samples(rows[..|rows| - 1], c) + Uses(rows[|rows| - 1], c)
  }

  datatype Bias = Bullish | Bearish | Neutral

  datatype Context = Context(
    base: Currency, quote: Currency, baseStrength: real, quoteStrength: real, pairStrength: real,
    bias: Bias, reliable: bool, aligned: bool, baseSamples: nat, quoteSamples: nat)

  function Average(total: real, samples: nat): real { if samples > 0 then total / samples as real else 0.0 }

  /** The verdict on a pair from the totals and samples of its two currencies. */
  function Judge(row: Row, baseTotal: real, baseSamples: nat, quoteTotal: real, quoteSamples: nat): Context
    requires row.pair.Some?
  {
    var base, quote := Average(baseTotal, baseSamples), Average(quoteTotal, quoteSamples);
    var strength := base - quote;
    var reliable := baseSamples >= 1 && quoteSamples >= 1;
    var bias :=
      if reliable && strength >= 0.35 then Bullish
      else if reliable && strength <= -0.35 then Bearish
      else Neutral;
    Context(
      row.pair.value.0, row.pair.value.1, base, quote, strength, bias, reliable,
      (row.bullish && bias.Bullish?) || (row.bearish && bias.Bearish?), baseSamples, quoteSamples)
  }

  /** One less, but not below zero. */
  function Fewer(n: nat): nat { if n > 0 then n - 1 else 0 }

  /** The context of one row, computed from the totals of all rows. */
  function ContextOf(row: Row, rows: seq<Row>): Context
    requires row.pair.Some?
  {
    var (base, quote) := row.pair.value;
    Judge(
      row,
      Total(rows, base) - Signal(row), Fewer(Samples(rows, base)),
      Total(rows, quote) + Signal(row), Fewer(Samples(rows, quote)))
  }

  /** Later rows with the same symbol replace earlier ones. */
  function Contexts(count: nat, rows: seq<Row>): map<Symbol, Context>
    requires count <= |rows|
  {
    if count == 0 then map[]
    else
      var row := rows[count - 1];
      var before := Contexts(count - 1, rows);
      if row.pair.Some? then before[row.symbol := ContextOf(row, rows)] else before
  }

  function Held<T>(values: map<Currency, T>, c: Currency, default: T): T {
    if c in values then values[c] else default
  }

  method BuildCurrencyContext(rows: seq<Row>) returns (contexts: map<Symbol, Context>)
    ensures contexts == Contexts(|rows|, rows)
  {
    var totals: map<Currency, real> := map[];
    var samples: map<Currency, nat> := map[];
    for i := 0 to |rows|
      invariant forall c :: Held(totals, c, 0.0) == Total(rows[..i], c)
      invariant forall c :: Held(samples, c, 0) == Samples(rows[..i], c)
    {
      assert rows[..i + 1][..i] == rows[..i];
      if rows[i].pair.Some? {
        var (base, quote) := rows[i].pair.value;
        var signal := Signal(rows[i]);
        hide Signal;
        totals := totals[base := Held(totals, base, 0.0) + signal];
        totals := totals[quote := Held(totals, quote, 0.0) - signal];
        samples := samples[base := Held(samples, base, 0) + 1];
        samples := samples[quote := Held(samples, quote, 0) + 1];
      }
    }
    assert rows[..|rows|] == rows;
    contexts := map[];
    for i := 0 to |rows|
      invariant contexts == Contexts(i, rows)
    {
      var row := rows[i];
      hide Signal, Total, Samples, Judge;
      if row.pair.Some? {
        var (base, quote) := row.pair.value;
        var signal := Signal(row);
        var context := Judge(
          row, Held(totals, base, 0.0) - signal, Fewer(Held(samples, base, 0)),
          Held(totals, quote, 0.0) + signal, Fewer(Held(samples, quote, 0)));
        contexts := contexts[row.symbol := context];
      }
    }
  }

  // ---------------------------------------------------------------------------------------
  // Leave one out
  // ---------------------------------------------------------------------------------------

  function Others(rows: seq<Row>, i: nat): seq<Row>
    requires i < |rows|
  {
    rows[..i] + rows[i + 1..]
  }

  lemma {:induction false} TotalConcat(a: seq<Row>, b: seq<Row>, c: Currency)
    ensures Total(a + b, c) == Total(a, c) + Total(b, c)
    ensures Samples(a + b, c) == Samples(a, c) + Samples(b, c)
  {
    if b == [] {
      assert a + b == a;
    } else {
      var n := |b| - 1;
      assert (a + b)[..|a| + n] == a + b[..n];
      TotalConcat(a, b[..n], c);
    }
  }

  lemma TotalWithout(rows: seq<Row>, i: nat, c: Currency)
    requires i < |rows|
    ensures Total(rows, c) == Total(Others(rows, i), c) + Share(rows[i], c)
    ensures Samples(rows, c) == Samples(Others(rows, i), c) + Uses(rows[i], c)
  {
    assert rows == rows[..i] + [rows[i]] + rows[i + 1..];
    assert [rows[i]][..0] == [];
    TotalConcat(rows[..i] + [rows[i]], rows[i + 1..], c);
    TotalConcat(rows[..i], [rows[i]], c);
    TotalConcat(rows[..i], rows[i + 1..], c);
  }

  /** The verdict on a pair from the other rows alone. */
  function FromOthers(row: Row, others: seq<Row>): Context
    requires row.pair.Some?
  {
    var (base, quote) := row.pair.value;
    Judge(row, Total(others, base), Samples(others, base), Total(others, quote), Samples(others, quote))
  }

  /** For a pair of two different currencies, the context equals the one computed from scratch with the
      pair's own row deleted. */
  lemma ContextLeavesOwnRowOut(rows: seq<Row>, i: nat)
    requires i < |rows| && rows[i].pair.Some? && rows[i].pair.value.0 != rows[i].pair.value.1
    ensures ContextOf(rows[i], rows) == FromOthers(rows[i], Others(rows, i))
  {
    var (base, quote) := rows[i].pair.value;
    TotalWithout(rows, i, base);
    TotalWithout(rows, i, quote);
    hide Total, Samples, Judge, Others, Signal;
  }

  /** The samples a context counts are those of the other rows exactly when the two currencies differ: a
      symbol that spells one currency twice still counts itself once. */
  lemma OwnRowIsLeftOutIff(rows: seq<Row>, i: nat)
    requires i < |rows| && rows[i].pair.Some?
    ensures
      var (base, quote) := rows[i].pair.value;
      ContextOf(rows[i], rows).baseSamples == Samples(Others(rows, i), base) <==> base != quote
  {
    TotalWithout(rows, i, rows[i].pair.value.0);
  }

  /** So a pair's own impulse and regime cannot confirm themselves: changing them changes no strength, no
      sample count, no reliability and no bias. */
  lemma OwnSignalIsIrrelevant(rows: seq<Row>, i: nat, row: Row)
    requires i < |rows| && rows[i].pair.Some? && rows[i].pair.value.0 != rows[i].pair.value.1
    requires row.pair == rows[i].pair
    ensures var now := ContextOf(row, rows[i := row]); now == ContextOf(rows[i], rows).(aligned := now.aligned)
  {
    var changed := rows[i := row];
    assert Others(changed, i) == Others(rows, i) && changed[i] == row;
    ContextLeavesOwnRowOut(rows, i);
    ContextLeavesOwnRowOut(changed, i);
    hide Total, Samples, Others, ContextOf;
  }

  /** A bias needs another row for each currency, and its side is that of the stronger currency. */
  lemma BiasFollowsTheStrongerCurrency(rows: seq<Row>, i: nat)
    requires i < |rows| && rows[i].pair.Some? && rows[i].pair.value.0 != rows[i].pair.value.1
    ensures
      var (base, quote) := rows[i].pair.value;
      var context, others := ContextOf(rows[i], rows), Others(rows, i);
      var stronger :=
        Average(Total(others, base), Samples(others, base)) - Average(Total(others, quote), Samples(others, quote));
      var reliable := Samples(others, base) >= 1 && Samples(others, quote) >= 1;
      && (context.bias.Bullish? <==> reliable && stronger >= 0.35)
      && (context.bias.Bearish? <==> reliable && stronger <= -0.35)
  {
    ContextLeavesOwnRowOut(rows, i);
    hide Total, Samples, Others, ContextOf, Average;
  }

  // ---------------------------------------------------------------------------------------
  // One context, written out
  // ---------------------------------------------------------------------------------------

  /** A signal is the impulse, cut off at two on either side, plus a half for a regime text that says bullish,
      or minus a half for one that only says bearish. */
  predicate IsSignal(row: Row, signal: real) {
    var impulse := if row.bullish then signal - 0.5 else if row.bearish then signal + 0.5 else signal;
    && -2.0 <= impulse <= 2.0
    && (impulse < row.impulse ==> impulse == 2.0)
    && (impulse > row.impulse ==> impulse == -2.0)
  }

  /** A pair's base earns its signal and its quote loses it; a currency that is both, or neither, earns nothing. */
  predicate Earns(row: Row, c: Currency, earned: real) {
    if row.pair.None? || (row.pair.value.0 == c <==> row.pair.value.1 == c) then earned == 0.0
    else if row.pair.value.0 == c then IsSignal(row, earned)
    else IsSignal(row, -earned)
  }

  predicate Earnings(rows: seq<Row>, c: Currency, earned: seq<real>) {
    |earned| == |rows| && forall i | 0 <= i < |rows| :: Earns(rows[i], c, earned[i])
  }

  function Sum(amounts: seq<real>): real { if amounts == [] then 0.0 else amounts[0] + Sum(amounts[1..]) }

  /** The rows in which a currency is the base, and those in which it is the quote. */
  function Bases(rows: seq<Row>, c: Currency): set<nat> {
    set i: nat | i < |rows| && rows[i].pair.Some? && rows[i].pair.value.0 == c
  }

  function Quotes(rows: seq<Row>, c: Currency): set<nat> {
    set i: nat | i < |rows| && rows[i].pair.Some? && rows[i].pair.value.1 == c
  }

  /** A mean of no samples is zero. */
  predicate IsMean(mean: real, samples: nat, total: real) {
    if samples == 0 then mean == 0.0 else mean * samples as real == total
  }

  /** A row's context: each currency's samples are all its appearances but one, its strength the mean of what it
      earned without the row's own signal, or zero without samples; the bias needs a sample on either side and
      0.35 between them; and it is aligned if the regime text says the same. */
  lemma ContextWrittenOut(rows: seq<Row>, i: nat) returns (own: real, earned: seq<real>, lost: seq<real>)
    requires i < |rows| && rows[i].pair.Some?
    ensures
      var (base, quote) := rows[i].pair.value;
      var c := ContextOf(rows[i], rows);
      && IsSignal(rows[i], own) && Earnings(rows, base, earned) && Earnings(rows, quote, lost)
      && c.base == base && c.quote == quote
      && c.baseSamples + 1 == |Bases(rows, base)| + |Quotes(rows, base)|
      && c.quoteSamples + 1 == |Bases(rows, quote)| + |Quotes(rows, quote)|
      && IsMean(c.baseStrength, c.baseSamples, Sum(earned) - own)
      && IsMean(c.quoteStrength, c.quoteSamples, Sum(lost) + own)
      && c.pairStrength == c.baseStrength - c.quoteStrength
      && (c.reliable <==> c.baseSamples > 0 && c.quoteSamples > 0)
      && (c.bias.Bullish? <==> c.reliable && c.pairStrength >= 0.35)
      && (c.bias.Bearish? <==> c.reliable && c.pairStrength <= -0.35)
      && (c.aligned <==> if c.bias.Bullish? then rows[i].bullish else c.bias.Bearish? && rows[i].bearish)
  {
    var (base, quote) := rows[i].pair.value;
    own := Signal(rows[i]);
    earned := TotalWrittenOut(rows, base);
    lost := TotalWrittenOut(rows, quote);
    SamplesWrittenOut(rows, base);
    SamplesWrittenOut(rows, quote);
    OwnAppearances(rows, i);
    SignalIsSignal(rows[i]);
    JudgeWrittenOut(
      rows[i], Total(rows, base) - own, Fewer(Samples(rows, base)),
      Total(rows, quote) + own, Fewer(Samples(rows, quote)));
    hide Total, Samples, Signal, Sum, Bases, Quotes, IsSignal, Earnings, Judge, IsMean;
  }

  lemma OwnAppearances(rows: seq<Row>, i: nat)
    requires i < |rows| && rows[i].pair.Some?
    ensures |Bases(rows, rows[i].pair.value.0)| >= 1 && |Quotes(rows, rows[i].pair.value.1)| >= 1
  {
    assert i in Bases(rows, rows[i].pair.value.0) && i in Quotes(rows, rows[i].pair.value.1);
  }

  lemma JudgeWrittenOut(row: Row, baseTotal: real, baseSamples: nat, quoteTotal: real, quoteSamples: nat)
    requires row.pair.Some?
    ensures
      var c := Judge(row, baseTotal, baseSamples, quoteTotal, quoteSamples);
      && (c.base, c.quote) == row.pair.value && c.baseSamples == baseSamples && c.quoteSamples == quoteSamples
      && IsMean(c.baseStrength, c.baseSamples, baseTotal) && IsMean(c.quoteStrength, c.quoteSamples, quoteTotal)
      && c.pairStrength == c.baseStrength - c.quoteStrength
      && (c.reliable <==> c.baseSamples > 0 && c.quoteSamples > 0)
      && (c.bias.Bullish? <==> c.reliable && c.pairStrength >= 0.35)
      && (c.bias.Bearish? <==> c.reliable && c.pairStrength <= -0.35)
      && (c.aligned <==> if c.bias.Bullish? then row.bullish else c.bias.Bearish? && row.bearish)
  {
    AverageTimes(baseTotal, baseSamples);
    AverageTimes(quoteTotal, quoteSamples);
    hide Average, IsMean;
  }

  lemma AverageTimes(total: real, samples: nat)
    ensures IsMean(Average(total, samples), samples, total)
  {
  }

  lemma SignalIsSignal(row: Row)
    ensures IsSignal(row, Signal(row))
  {
  }

  lemma {:induction false} TotalWrittenOut(rows: seq<Row>, c: Currency) returns (earned: seq<real>)
    ensures Earnings(rows, c, earned) && Total(rows, c) == Sum(earned)
  {
    earned := [];
    if rows != [] {
      var k := |rows| - 1;
      var before := TotalWrittenOut(rows[..k], c);
      SignalIsSignal(rows[k]);
      hide Signal, IsSignal;
      earned := before + [Share(rows[k], c)];
      SumAppend(before, Share(rows[k], c));
    }
  }

  lemma {:induction false} SumAppend(amounts: seq<real>, amount: real)
    ensures Sum(amounts + [amount]) == Sum(amounts) + amount
  {
    if amounts == [] {
      assert [amount][1..] == [];
    } else {
      SumAppend(amounts[1..], amount);
      assert (amounts + [amount])[1..] == amounts[1..] + [amount];
    }
  }

  lemma {:induction false} SamplesWrittenOut(rows: seq<Row>, c: Currency)
    ensures Samples(rows, c) == |Bases(rows, c)| + |Quotes(rows, c)|
  {
    if rows != [] {
      var k := |rows| - 1;
      SamplesWrittenOut(rows[..k], c);
      AppearancesStep(rows, c);
      hide Bases, Quotes;
    }
  }

  lemma AppearancesStep(rows: seq<Row>, c: Currency)
    requires rows != []
    ensures
      var k := |rows| - 1;
      var pair := rows[k].pair;
      && |Bases(rows, c)| == |Bases(rows[..k], c)| + (if pair.Some? && pair.value.0 == c then 1 else 0)
      && |Quotes(rows, c)| == |Quotes(rows[..k], c)| + (if pair.Some? && pair.value.1 == c then 1 else 0)
  {
    var k := |rows| - 1;
    assert rows == rows[..k] + [rows[k]];
    BasesAppend(rows[..k], rows[k], c);
    QuotesAppend(rows[..k], rows[k], c);
    hide Bases, Quotes;
  }

  lemma OneMore(all: set<nat>, before: set<nat>, last: nat)
    requires forall i | i in all :: i <= last
    requires forall i | i in before :: i < last
    requires forall i: nat | i < last :: i in all <==> i in before
    ensures |all| == |before| + if last in all then 1 else 0
  {
    assert all == before + if last in all then {last} else {};
  }

  lemma BasesAppend(rows: seq<Row>, row: Row, c: Currency)
    ensures |Bases(rows + [row], c)|
         == |Bases(rows, c)| + if row.pair.Some? && row.pair.value.0 == c then 1 else 0
  {
    var all, before := Bases(rows + [row], c), Bases(rows, c);
    forall i: nat | i < |rows| ensures i in all <==> i in before {
      assert (rows + [row])[i] == rows[i];
    }
    assert (rows + [row])[|rows|] == row;
    OneMore(all, before, |rows|);
  }

  lemma QuotesAppend(rows: seq<Row>, row: Row, c: Currency)
    ensures |Quotes(rows + [row], c)|
         == |Quotes(rows, c)| + if row.pair.Some? && row.pair.value.1 == c then 1 else 0
  {
    var all, before := Quotes(rows + [row], c), Quotes(rows, c);
    forall i: nat | i < |rows| ensures i in all <==> i in before {
      assert (rows + [row])[i] == rows[i];
    }
    assert (rows + [row])[|rows|] == row;
    OneMore(all, before, |rows|);
  }

  // ---------------------------------------------------------------------------------------
  // The whole report
  // ---------------------------------------------------------------------------------------

  function Accepted(rows: seq<Row>): nat {
    if rows == [] then 0 else Accepted(rows[..|rows| - 1]) + if rows[|rows| - 1].pair.Some? then 1 else 0
  }

  /** What one currency gains another loses, and every accepted row is sampled twice. */
  lemma {:induction false} TotalsBalance(rows: seq<Row>)
    ensures Total(rows, AUD) + Total(rows, CAD) + Total(rows, CHF) + Total(rows, EUR)
          + Total(rows, GBP) + Total(rows, JPY) + Total(rows, NZD) + Total(rows, USD) == 0.0
    ensures Samples(rows, AUD) + Samples(rows, CAD) + Samples(rows, CHF) + Samples(rows, EUR)
          + Samples(rows, GBP) + Samples(rows, JPY) + Samples(rows, NZD) + Samples(rows, USD) == 2 * Accepted(rows)
  {
    if rows != [] {
      TotalsBalance(rows[..|rows| - 1]);
      SharesBalance(rows[|rows| - 1]);
    }
  }

  lemma SharesBalance(row: Row)
    ensures Share(row, AUD) + Share(row, CAD) + Share(row, CHF) + Share(row, EUR)
          + Share(row, GBP) + Share(row, JPY) + Share(row, NZD) + Share(row, USD) == 0.0
    ensures Uses(row, AUD) + Uses(row, CAD) + Uses(row, CHF) + Uses(row, EUR)
          + Uses(row, GBP) + Uses(row, JPY) + Uses(row, NZD) + Uses(row, USD) == if row.pair.Some? then 2 else 0
  {
    hide Signal;
  }

  /** The map holds, for each symbol, the context of its last accepted row. */
  lemma {:induction false} LastRowWins(count: nat, rows: seq<Row>, i: nat)
    requires i < count <= |rows| && rows[i].pair.Some?
    requires forall j | i < j < count && rows[j].pair.Some? :: rows[j].symbol != rows[i].symbol
    ensures rows[i].symbol in Contexts(count, rows) && Contexts(count, rows)[rows[i].symbol] == ContextOf(rows[i], rows)
  {
    hide ContextOf;
    if i < count - 1 { LastRowWins(count - 1, rows, i); }
  }
}
