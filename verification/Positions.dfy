/** Position accounting: the incremental average-cost book of a live position, the replay of the same
    economics from a list of fills, and when the two agree. Amounts are reals; an input the machine
    could hold but that is not a finite number is `Bad`. */
module Positions {
  import opened Common

  datatype Num = Fin(v: real) | Bad

  // The live book -----------------------------------------------------------

  /** `realizedPnl` is None for rows whose earlier exits cannot be attributed. */
  datatype Book = Book(qty: real, avgEntry: real, costBasis: real, realizedQuote: real,
                       realizedPnl: Option<real>, lastMark: real, highWater: Option<real>)

  const NEW_BOOK := Book(0.0, 0.0, 0.0, 0.0, Some(0.0), 0.0, None)

  predicate AccountingOk(b: Book) {
    b.qty >= 0.0 && b.avgEntry >= 0.0 && b.costBasis >= 0.0 && b.realizedQuote >= 0.0 && b.lastMark >= 0.0
  }

  predicate FillOk(qty: Num, price: Num, quote: Num) {
    qty.Fin? && qty.v > 0.0 && price.Fin? && price.v >= 0.0 && quote.Fin? && quote.v >= 0.0
  }

  function Quotient(x: real, d: real): real
    requires d != 0.0
  {
    x / d
  }

  /** Volume-weighted price of a holding and an addition to it. */
  function Weighted(avg: real, qty: real, price: real, n: real): real
    requires qty + n > 0.0
  {
    Quotient(avg * qty + price * n, qty + n)
  }

  function ApplyBuy(b: Book, qty: Num, price: Num, quoteSpent: Num): (r: Book) {
    if !AccountingOk(b) || !FillOk(qty, price, quoteSpent) then b
    else
      var newQty := b.qty + qty.v;
      b.(avgEntry := Weighted(b.avgEntry, b.qty, price.v, qty.v),
         qty := newQty,
         costBasis := b.costBasis + quoteSpent.v,
         lastMark := price.v,
         highWater := Some(if b.highWater.None? then price.v else Max(b.highWater.value, price.v)))
  }

  /** The share of the cost basis an exit of `q` units carries away; the last dust goes with it. */
  function CostOfSlice(b: Book, q: real, eps: real): real
    requires b.qty > 0.0
  {
    if q >= b.qty - eps then b.costBasis else b.costBasis * (q / b.qty)
  }

  function ApplySell(b: Book, qty: Num, price: Num, quoteReceived: Num, eps: real): (r: (Book, real)) {
    if !AccountingOk(b) || !FillOk(qty, price, quoteReceived) then (b, 0.0)
    else
      var q := Min(qty.v, b.qty);
      if q <= 0.0 then (b, 0.0)
      else
        var slice := CostOfSlice(b, q, eps);
        var realised := quoteReceived.v - slice;
        var left := Max(b.qty - q, 0.0);
        (b.(qty := if left <= eps then 0.0 else left,
            costBasis := if left <= eps then 0.0 else Max(b.costBasis - slice, 0.0),
            realizedQuote := b.realizedQuote + quoteReceived.v,
            realizedPnl := if b.realizedPnl.Some? then Some(b.realizedPnl.value + realised) else None,
            lastMark := price.v),
         realised)
  }

  function Unrealised(b: Book): real {
    if b.qty <= 0.0 then 0.0 else (b.lastMark - b.avgEntry) * b.qty
  }

  function Realised(b: Book): real {
    if b.realizedPnl.Some? then b.realizedPnl.value else b.realizedQuote - b.costBasis
  }

  /** The denominator of the PnL percentage. */
  function LifecycleBasis(b: Book): real {
    if b.realizedPnl.Some? then b.realizedQuote - b.realizedPnl.value + b.costBasis else b.costBasis
  }

  function TotalPnlPct(b: Book): real {
    if LifecycleBasis(b) <= 0.0 then 0.0 else (Realised(b) + Unrealised(b)) / LifecycleBasis(b) * 100.0
  }

  class Position {
    const eps: real
    var qty: real
    var avgEntry: real
    var costBasis: real
    var realizedQuote: real
    var realizedPnl: Option<real>
    var lastMark: real
    var highWater: Option<real>

    function Value(): Book
      reads this
    {
      Book(qty, avgEntry, costBasis, realizedQuote, realizedPnl, lastMark, highWater)
    }

    constructor (eps: real)
      ensures Value() == NEW_BOOK && this.eps == eps
    {
      this.eps := eps;
      qty, avgEntry, costBasis, realizedQuote := 0.0, 0.0, 0.0, 0.0;
      realizedPnl, lastMark, highWater := Some(0.0), 0.0, None;
    }

    method Buy(q: Num, price: Num, quoteSpent: Num)
      modifies this
      ensures Value() == ApplyBuy(old(Value()), q, price, quoteSpent)
    {
      if !AccountingOk(Value()) || q.Bad? || q.v <= 0.0 || price.Bad? || price.v < 0.0
         || quoteSpent.Bad? || quoteSpent.v < 0.0
      {
        return;
      }
      var newQty := qty + q.v;
      var newAvgEntry := Weighted(avgEntry, qty, price.v, q.v);
      var newCostBasis := costBasis + quoteSpent.v;
      avgEntry := newAvgEntry;
      qty := newQty;
      costBasis := newCostBasis;
      lastMark := price.v;
      highWater := Some(if highWater.None? then price.v else Max(highWater.value, price.v));
    }

    method Sell(q: Num, price: Num, quoteReceived: Num) returns (realised: real)
      modifies this
      ensures (Value(), realised) == ApplySell(old(Value()), q, price, quoteReceived, eps)
    {
      if !AccountingOk(Value()) || q.Bad? || q.v <= 0.0 || price.Bad? || price.v < 0.0
         || quoteReceived.Bad? || quoteReceived.v < 0.0
      {
        return 0.0;
      }
      var sold := Min(q.v, qty);
      if sold <= 0.0 {
        return 0.0;
      }
      var priorQty := qty;
      var costOfSlice := if sold >= priorQty - eps then costBasis else costBasis * (sold / priorQty);
      realised := quoteReceived.v - costOfSlice;
      var newQty := Max(priorQty - sold, 0.0);
      if newQty <= eps {
        qty, costBasis := 0.0, 0.0;
      } else {
        qty, costBasis := newQty, Max(costBasis - costOfSlice, 0.0);
      }
      realizedQuote := realizedQuote + quoteReceived.v;
      realizedPnl := if realizedPnl.Some? then Some(realizedPnl.value + realised) else None;
      lastMark := price.v;
    }
  }

  // The replay --------------------------------------------------------------

  datatype FillRecord = FillRecord(side: string, qty: Num, quote: Num)

  /** The five accumulators of the replay. */
  datatype Replay = Replay(openQty: real, openCost: real, buyCost: real, sellProceeds: real, realized: real)

  datatype Reconstruction = Reconstruction(openQty: real, avgEntry: real, buyCost: real, sellProceeds: real,
                                           realized: real, openCostBasis: real)

  const NO_FILLS := Replay(0.0, 0.0, 0.0, 0.0, 0.0)

  function ToLower(c: char): char {
    if 'A' <= c <= 'Z' then (c as int + 32) as char else c
  }

  predicate EqIgnoreAsciiCase(a: string, b: string) {
    |a| == |b| && forall i :: 0 <= i < |a| ==> ToLower(a[i]) == ToLower(b[i])
  }

  /** `q` units at the running average cost. */
  function CostOfUnits(openCost: real, openQty: real, q: real): real {
    (if openQty > 0.0 then openCost / openQty else 0.0) * q
  }

  /** The part of `quote` attributable to `q` of `total` units. */
  function Share(quote: real, q: real, total: real): real
    requires total > 0.0
  {
    Quotient(q, total) * quote
  }

  function ReplayFill(r: Replay, f: FillRecord): (r': Replay) {
    if f.qty.Bad? || f.qty.v <= 0.0 || f.quote.Bad? then r
    else if EqIgnoreAsciiCase(f.side, "buy") then
      r.(openQty := r.openQty + f.qty.v, openCost := r.openCost + f.quote.v, buyCost := r.buyCost + f.quote.v)
    else if EqIgnoreAsciiCase(f.side, "sell") then
      var q := Min(f.qty.v, r.openQty);
      if q <= 0.0 then r
      else
        var costOfSold := CostOfUnits(r.openCost, r.openQty, q);
        var proceeds := Share(f.quote.v, q, f.qty.v);
        r.(openQty := r.openQty - q, openCost := r.openCost - costOfSold,
           sellProceeds := r.sellProceeds + proceeds, realized := r.realized + (proceeds - costOfSold))
    else r
  }

  function ReplayAll(fills: seq<FillRecord>): (r: Replay) {
    if fills == [] then NO_FILLS else ReplayFill(ReplayAll(fills[..|fills| - 1]), fills[|fills| - 1])
  }

  function Reconstructed(r: Replay): Reconstruction {
    Reconstruction(r.openQty, if r.openQty > 0.0 then r.openCost / r.openQty else 0.0,
                   r.buyCost, r.sellProceeds, r.realized, Max(r.openCost, 0.0))
  }

  lemma ReplaySnoc(fills: seq<FillRecord>, i: nat)
    requires i < |fills|
    ensures ReplayAll(fills[..i + 1]) == ReplayFill(ReplayAll(fills[..i]), fills[i])
  {
    assert fills[..i + 1][..i] == fills[..i];
  }

  method ReconstructPnl(fills: seq<FillRecord>) returns (r: Reconstruction)
    ensures r == Reconstructed(ReplayAll(fills))
  {
    var openQty, openCost, buyCost, sellProceeds, realized := 0.0, 0.0, 0.0, 0.0, 0.0;
    for i := 0 to |fills|
      invariant Replay(openQty, openCost, buyCost, sellProceeds, realized) == ReplayAll(fills[..i])
    {
      var f := fills[i];
      ReplaySnoc(fills, i);
      if f.qty.Bad? || f.qty.v <= 0.0 || f.quote.Bad? {
        continue;
      }
      if EqIgnoreAsciiCase(f.side, "buy") {
        openQty := openQty + f.qty.v;
        openCost := openCost + f.quote.v;
        buyCost := buyCost + f.quote.v;
      } else if EqIgnoreAsciiCase(f.side, "sell") {
        var qty := Min(f.qty.v, openQty);
        if qty <= 0.0 {
          continue;
        }
        var costOfSold := CostOfUnits(openCost, openQty, qty);
        var proceeds := Share(f.quote.v, qty, f.qty.v);
        realized := realized + (proceeds - costOfSold);
        sellProceeds := sellProceeds + proceeds;
        openCost := openCost - costOfSold;
        openQty := openQty - qty;
      }
    }
    assert fills[..|fills|] == fills;
    r := Reconstruction(openQty, if openQty > 0.0 then openCost / openQty else 0.0,
                        buyCost, sellProceeds, realized, Max(openCost, 0.0));
  }

  // Cash is conserved -------------------------------------------------------

  ghost predicate ReplayConserves(r: Replay) {
    && r.openQty >= 0.0
    && r.buyCost - r.sellProceeds + r.realized == r.openCost
    && (r.openQty == 0.0 ==> r.openCost == 0.0)
  }

  lemma FillConserves(r: Replay, f: FillRecord)
    requires ReplayConserves(r)
    ensures ReplayConserves(ReplayFill(r, f))
  {
  }

  /** For every list of fills, malformed and over-sold ones included, the cash put in less the cash taken out
      plus the profit booked is the cost still open; it is zero when nothing is open. */
  lemma {:induction false} ReplayConservesCash(fills: seq<FillRecord>)
    ensures ReplayConserves(ReplayAll(fills))
    ensures var r := Reconstructed(ReplayAll(fills));
            && r.openCostBasis == Max(r.buyCost - r.sellProceeds + r.realized, 0.0)
            && (r.openQty == 0.0 ==> r.buyCost - r.sellProceeds + r.realized == 0.0)
  {
    if fills != [] {
      ReplayConservesCash(fills[..|fills| - 1]);
      FillConserves(ReplayAll(fills[..|fills| - 1]), fills[|fills| - 1]);
    }
  }

  /** One fill as the live book sees it. */
  datatype Fill = Fill(isBuy: bool, qty: Num, price: Num, quote: Num)

  function Trade(b: Book, f: Fill, eps: real): (r: Book) {
    if f.isBuy then ApplyBuy(b, f.qty, f.price, f.quote) else ApplySell(b, f.qty, f.price, f.quote, eps).0
  }

  function BookOf(fs: seq<Fill>, eps: real): (r: Book) {
    if fs == [] then NEW_BOOK else Trade(BookOf(fs[..|fs| - 1], eps), fs[|fs| - 1], eps)
  }

  /** Quote spent by the accepted buys of a history. */
  function Spent(fs: seq<Fill>): (r: real) {
    if fs == [] then 0.0
    else
      var f := fs[|fs| - 1];
      Spent(fs[..|fs| - 1]) + if f.isBuy && FillOk(f.qty, f.price, f.quote) then f.quote.v else 0.0
  }

  ghost predicate BookOk(b: Book) {
    AccountingOk(b) && b.realizedPnl.Some? && (b.qty == 0.0 ==> b.costBasis == 0.0)
  }

  lemma WeightedAtLeast(avg: real, qty: real, price: real, n: real, lo: real)
    requires qty >= 0.0 && n > 0.0 && lo <= price && (qty > 0.0 ==> lo <= avg)
    ensures lo <= Weighted(avg, qty, price, n)
  {
    assert avg * qty >= lo * qty by {
      if qty > 0.0 {
        Scales(lo, avg, qty);
      }
    }
    Scales(lo, price, n);
    var x, d := avg * qty + price * n, qty + n;
    assert lo * d == lo * qty + lo * n;
    QuotientAtLeast(x, d, lo);
    assert Weighted(avg, qty, price, n) == Quotient(x, d);
  }

  lemma WeightedAtMost(avg: real, qty: real, price: real, n: real, hi: real)
    requires qty >= 0.0 && n > 0.0 && price <= hi && (qty > 0.0 ==> avg <= hi)
    ensures Weighted(avg, qty, price, n) <= hi
  {
    WeightedAtLeast(-avg, qty, -price, n, -hi);
    assert (-avg) * qty + (-price) * n == -(avg * qty + price * n);
    assert Weighted(-avg, qty, -price, n) == -Weighted(avg, qty, price, n);
  }

  lemma QuotientAtLeast(x: real, d: real, lo: real)
    requires d > 0.0 && lo * d <= x
    ensures lo <= Quotient(x, d)
  {
  }

  lemma TradeKeepsBookOk(b: Book, f: Fill, eps: real)
    requires BookOk(b) && eps >= 0.0
    ensures BookOk(Trade(b, f, eps))
    ensures LifecycleBasis(Trade(b, f, eps))
            == LifecycleBasis(b) + if f.isBuy && FillOk(f.qty, f.price, f.quote) then f.quote.v else 0.0
  {
  }

  /** For every history of fills the live book keeps its accounting sound, and exit proceeds less booked profit
      plus remaining basis is exactly the quote its accepted buys have spent. */
  lemma {:induction false} BookConservesCash(fs: seq<Fill>, eps: real)
    requires eps >= 0.0
    ensures BookOk(BookOf(fs, eps)) && LifecycleBasis(BookOf(fs, eps)) == Spent(fs)
  {
    if fs != [] {
      BookConservesCash(fs[..|fs| - 1], eps);
      TradeKeepsBookOk(BookOf(fs[..|fs| - 1], eps), fs[|fs| - 1], eps);
    }
  }

  /** The percentage is over everything the position ever spent, and a flat position's profit is what came back
      less what went in. */
  lemma ProfitIsOverSpent(fs: seq<Fill>, eps: real)
    requires eps >= 0.0
    ensures TotalPnlPct(BookOf(fs, eps))
            == if Spent(fs) <= 0.0 then 0.0
                else (Realised(BookOf(fs, eps)) + Unrealised(BookOf(fs, eps))) / Spent(fs) * 100.0
    ensures BookOf(fs, eps).qty == 0.0 ==>
              Realised(BookOf(fs, eps)) + Unrealised(BookOf(fs, eps)) == BookOf(fs, eps).realizedQuote - Spent(fs)
  {
    BookConservesCash(fs, eps);
    FlatProfit(BookOf(fs, eps));
  }

  lemma FlatProfit(b: Book)
    requires BookOk(b)
    ensures b.qty == 0.0 ==> Realised(b) + Unrealised(b) == b.realizedQuote - LifecycleBasis(b)
  {
  }

  // The average entry -------------------------------------------------------

  predicate Accepted(f: Fill) { FillOk(f.qty, f.price, f.quote) }

  /** An accepted buy adds its quantity and cost at its price; the average weighs both by quantity. */
  lemma BuyAverages(b: Book, f: Fill, eps: real)
    requires AccountingOk(b) && f.isBuy && Accepted(f)
    ensures var r := Trade(b, f, eps);
            && r.qty == b.qty + f.qty.v && r.costBasis == b.costBasis + f.quote.v
            && r.avgEntry * r.qty == b.avgEntry * b.qty + f.price.v * f.qty.v
  {
    var x, d := b.avgEntry * b.qty + f.price.v * f.qty.v, b.qty + f.qty.v;
    QuotientTimes(x, d);
  }

  lemma QuotientTimes(x: real, d: real)
    requires d > 0.0
    ensures Quotient(x, d) * d == x
  {
  }

  /** A sell takes what is held at most and leaves the average of the rest alone; what is refused changes nothing. */
  lemma SellKeepsAverage(b: Book, f: Fill, eps: real)
    requires BookOk(b) && eps >= 0.0 && !f.isBuy
    ensures var r := Trade(b, f, eps);
            && r.avgEntry == b.avgEntry
            && (!Accepted(f) || b.qty == 0.0 ==> r == b)
            && (Accepted(f) && b.qty > 0.0 ==>
                  r.qty == if f.qty.v < b.qty - eps then b.qty - f.qty.v else 0.0)
  {
  }

  /** Fills count exactly when their quantity is a positive number and price and quote are numbers not below zero, a
      sell only against a holding; a book with a negative figure takes none. */
  lemma CountsIff(b: Book, f: Fill, eps: real)
    requires eps >= 0.0
    ensures var counts := && f.qty.Fin? && f.qty.v > 0.0 && f.price.Fin? && f.price.v >= 0.0
                          && f.quote.Fin? && f.quote.v >= 0.0;
            var sound := && b.qty >= 0.0 && b.avgEntry >= 0.0 && b.costBasis >= 0.0 && b.realizedQuote >= 0.0
                         && b.lastMark >= 0.0;
            && (counts && sound && f.isBuy ==> Trade(b, f, eps).qty == b.qty + f.qty.v)
            && (counts && sound && !f.isBuy && b.qty > 0.0 ==> Trade(b, f, eps).qty < b.qty)
            && (!counts || !sound || (!f.isBuy && b.qty == 0.0) ==> Trade(b, f, eps) == b)
            && (!counts || !sound ==> ApplySell(b, f.qty, f.price, f.quote, eps).1 == 0.0)
  {
  }

  /** An accepted buy's quote is its price times its quantity. */
  predicate FillAtPrice(f: Fill) {
    f.isBuy && Accepted(f) ==> f.quote.v == Product(f.price.v, f.qty.v)
  }

  predicate AtPrice(fs: seq<Fill>) {
    forall i :: 0 <= i < |fs| ==> FillAtPrice(fs[i])
  }

  /** The average entry times the quantity held is the cost basis. */
  predicate Priced(b: Book) {
    Product(b.avgEntry, b.qty) == b.costBasis
  }

  lemma BuyKeepsPricing(b: Book, f: Fill, eps: real)
    requires AccountingOk(b) && f.isBuy && Accepted(f) && FillAtPrice(f) && Priced(b)
    ensures Priced(Trade(b, f, eps))
  {
    BuyAverages(b, f, eps);
  }

  /** What a sell leaves of the basis is the average price of what it leaves of the quantity. */
  lemma SellKeepsPricing(b: Book, f: Fill, eps: real)
    requires BookOk(b) && eps >= 0.0 && !f.isBuy && Priced(b)
    ensures Priced(Trade(b, f, eps))
  {
    if Accepted(f) && b.qty > 0.0 && f.qty.v < b.qty - eps {
      var part := f.qty.v / b.qty;
      assert part * b.qty == f.qty.v;
      Proportional(b.avgEntry, b.qty, f.qty.v, b.costBasis, part);
    }
  }

  lemma Proportional(avg: real, qty: real, q: real, cost: real, part: real)
    requires 0.0 < q < qty && avg * qty == cost && avg >= 0.0 && part * qty == q
    ensures 0.0 <= cost * part <= cost && avg * (qty - q) == cost - cost * part
  {
    var sold := avg * q;
    assert sold == cost * part by {
      Reorder(avg, qty, part);
      assert cost * part == avg * qty * part;
    }
    assert 0.0 <= sold <= cost by {
      Scales(q, qty, avg);
      Scales(0.0, q, avg);
      assert sold == q * avg && cost == qty * avg && 0.0 * avg == 0.0;
    }
    assert avg * (qty - q) == cost - sold;
  }

  lemma Reorder(a: real, b: real, c: real)
    ensures a * b * c == a * (c * b)
  {
  }

  lemma TradeKeepsPricing(b: Book, f: Fill, eps: real)
    requires BookOk(b) && eps >= 0.0 && FillAtPrice(f) && Priced(b)
    ensures Priced(Trade(b, f, eps))
  {
    if !f.isBuy {
      SellKeepsPricing(b, f, eps);
    } else if Accepted(f) {
      BuyKeepsPricing(b, f, eps);
    }
  }

  /** For every history of buys at their price, sells of any kind included, the average entry times the quantity held
      is the cost basis. */
  lemma {:induction false} BasisIsAverageTimesQuantity(fs: seq<Fill>, eps: real)
    requires eps >= 0.0 && AtPrice(fs)
    ensures Priced(BookOf(fs, eps))
  {
    if fs != [] {
      var past := fs[..|fs| - 1];
      BasisIsAverageTimesQuantity(past, eps);
      BookConservesCash(past, eps);
      TradeKeepsPricing(BookOf(past, eps), fs[|fs| - 1], eps);
    }
  }

  /** So total profit is an account balance: proceeds, plus what is held at the last price, less what was spent. */
  lemma ProfitIsEquity(fs: seq<Fill>, eps: real)
    requires eps >= 0.0 && AtPrice(fs)
    ensures var b := BookOf(fs, eps);
            Realised(b) + Unrealised(b) == b.realizedQuote + Product(b.lastMark, b.qty) - Spent(fs)
  {
    BasisIsAverageTimesQuantity(fs, eps);
    BookConservesCash(fs, eps);
    EquityOf(BookOf(fs, eps));
  }

  lemma EquityOf(b: Book)
    requires BookOk(b) && Priced(b)
    ensures Realised(b) + Unrealised(b) == b.realizedQuote + Product(b.lastMark, b.qty) - LifecycleBasis(b)
  {
    assert (b.lastMark - b.avgEntry) * b.qty == b.lastMark * b.qty - b.avgEntry * b.qty;
  }

  /** Price times quantity of the accepted buys. */
  function Volume(fs: seq<Fill>): (v: real) {
    if fs == [] then 0.0 else Volume(fs[..|fs| - 1]) + VolumeOf(fs[|fs| - 1])
  }

  function VolumeOf(f: Fill): real {
    if f.isBuy && Accepted(f) then Product(f.price.v, f.qty.v) else 0.0
  }

  lemma BuyAddsVolume(b: Book, f: Fill, eps: real)
    requires AccountingOk(b) && f.isBuy
    ensures var r := Trade(b, f, eps); Product(r.avgEntry, r.qty) == Product(b.avgEntry, b.qty) + VolumeOf(f)
  {
    if Accepted(f) {
      BuyAverages(b, f, eps);
    }
  }

  /** Whatever the quotes, while nothing has been sold since the book was last flat the average entry times the
      quantity held is the volume bought since. */
  lemma {:induction false} AverageIsVolumeWeighted(flat: seq<Fill>, buys: seq<Fill>, eps: real)
    requires eps >= 0.0 && BookOf(flat, eps).qty == 0.0 && forall i :: 0 <= i < |buys| ==> buys[i].isBuy
    ensures var b := BookOf(flat + buys, eps); Product(b.avgEntry, b.qty) == Volume(buys)
    decreases |buys|
  {
    if buys == [] {
      assert flat + buys == flat;
    } else {
      var past, f := buys[..|buys| - 1], buys[|buys| - 1];
      assert (flat + buys)[..|flat + buys| - 1] == flat + past;
      AverageIsVolumeWeighted(flat, past, eps);
      BookConservesCash(flat + past, eps);
      BuyAddsVolume(BookOf(flat + past, eps), f, eps);
    }
  }

  /** The last mark is the price of the last trade the book accepted, and the high water the highest price bought. */
  lemma {:induction false} MarksFollowTrades(fs: seq<Fill>, eps: real)
    requires eps >= 0.0 && fs != []
    ensures var past, f := BookOf(fs[..|fs| - 1], eps), fs[|fs| - 1]; var b := BookOf(fs, eps);
            var took := Accepted(f) && (f.isBuy || past.qty > 0.0);
            && b.lastMark == (if took then f.price.v else past.lastMark)
            && (!(took && f.isBuy) ==> b.highWater == past.highWater)
  {
    BookConservesCash(fs[..|fs| - 1], eps);
  }

  lemma {:induction false} HighWaterIsHighestBuy(fs: seq<Fill>, eps: real)
    requires eps >= 0.0
    ensures var h := BookOf(fs, eps).highWater;
            && (h.None? <==> forall i :: 0 <= i < |fs| ==> !(fs[i].isBuy && Accepted(fs[i])))
            && (h.Some? ==>
                  && (forall i :: 0 <= i < |fs| && fs[i].isBuy && Accepted(fs[i]) ==> fs[i].price.v <= h.value)
                  && exists i :: 0 <= i < |fs| && fs[i].isBuy && Accepted(fs[i]) && fs[i].price.v == h.value)
  {
    if fs != [] {
      var past, f := fs[..|fs| - 1], fs[|fs| - 1];
      HighWaterIsHighestBuy(past, eps);
      BookConservesCash(past, eps);
      assert forall i :: 0 <= i < |past| ==> past[i] == fs[i];
      var h := BookOf(past, eps).highWater;
      if h.Some? {
        var i :| 0 <= i < |past| && past[i].isBuy && Accepted(past[i]) && past[i].price.v == h.value;
        assert fs[i] == past[i];
      }
      assert fs[|fs| - 1] == f;
    }
  }

  /** A row whose earlier exits cannot be attributed keeps that mark through sells, reports proceeds less remaining
      basis, and takes its percentage over that basis alone. */
  lemma UnattributedBook(b: Book, f: Fill, eps: real)
    requires b.realizedPnl.None?
    ensures Trade(b, f, eps).realizedPnl.None?
    ensures Realised(b) + b.costBasis == b.realizedQuote
    ensures b.costBasis > 0.0 ==> TotalPnlPct(b) / 100.0 * b.costBasis == Realised(b) + Unrealised(b)
    ensures b.costBasis <= 0.0 ==> TotalPnlPct(b) == 0.0
  {
    if b.costBasis > 0.0 {
      var x := Realised(b) + Unrealised(b);
      assert x / b.costBasis * 100.0 / 100.0 == x / b.costBasis;
    }
  }

  // Within the prices paid ---------------------------------------------------

  /** Prices of the buys accepted since the book was last flat. */
  function PricesSinceFlat(fs: seq<Fill>, eps: real): (ps: seq<real>) {
    if fs == [] || BookOf(fs, eps).qty == 0.0 then []
    else
      var f := fs[|fs| - 1];
      PricesSinceFlat(fs[..|fs| - 1], eps) + if f.isBuy && FillOk(f.qty, f.price, f.quote) then [f.price.v] else []
  }

  /** While a position is open its average entry lies within any bounds on the accepted buy prices since the
      book was last flat, the lowest and the highest of them in particular. */
  lemma {:induction false} AverageEntryIsWithinPrices(fs: seq<Fill>, eps: real, lo: real, hi: real)
    requires eps >= 0.0 && forall p :: p in PricesSinceFlat(fs, eps) ==> lo <= p <= hi
    ensures BookOf(fs, eps).qty > 0.0 ==> PricesSinceFlat(fs, eps) != [] && lo <= BookOf(fs, eps).avgEntry <= hi
  {
    if fs != [] && BookOf(fs, eps).qty != 0.0 {
      var past, f := fs[..|fs| - 1], fs[|fs| - 1];
      var b := BookOf(past, eps);
      BookConservesCash(past, eps);
      forall p | p in PricesSinceFlat(past, eps)
        ensures lo <= p <= hi
      {
        assert p in PricesSinceFlat(fs, eps);
      }
      AverageEntryIsWithinPrices(past, eps, lo, hi);
      if f.isBuy && FillOk(f.qty, f.price, f.quote) {
        assert f.price.v in PricesSinceFlat(fs, eps);
        WeightedAtLeast(b.avgEntry, b.qty, f.price.v, f.qty.v, lo);
        WeightedAtMost(b.avgEntry, b.qty, f.price.v, f.qty.v, hi);
      } else {
        assert PricesSinceFlat(fs, eps) == PricesSinceFlat(past, eps);
        assert BookOf(fs, eps).avgEntry == b.avgEntry && b.qty > 0.0;
      }
    }
  }

  // Book and replay agree ---------------------------------------------------

  function AsRecord(f: Fill): FillRecord {
    FillRecord(if f.isBuy then "buy" else "sell", f.qty, f.quote)
  }

  function AsRecords(fs: seq<Fill>): (rs: seq<FillRecord>) {
    if fs == [] then [] else AsRecords(fs[..|fs| - 1]) + [AsRecord(fs[|fs| - 1])]
  }

  /** Same quantity, cost basis, proceeds and realized profit. */
  predicate Agree(b: Book, r: Replay) {
    b.qty == r.openQty && b.costBasis == r.openCost && b.realizedQuote == r.sellProceeds
        && b.realizedPnl == Some(r.realized)
  }

  /** Can be checked before a fill is applied to a book holding `held`: both sides skip it, or both accept it,
      a sell leaves nothing or more than dust, and an over-sell brings in no cash. */
  predicate Reconcilable(f: Fill, held: real, eps: real) {
    if f.qty.Bad? || f.qty.v <= 0.0 || f.quote.Bad? then true
    else if f.isBuy then FillOk(f.qty, f.price, f.quote)
    else
      || held == 0.0
      || (&& FillOk(f.qty, f.price, f.quote)
          && (if f.qty.v <= held then f.qty.v == held || held - f.qty.v > eps else f.quote.v == 0.0))
  }

  lemma BuyAgreesIff(b: Book, r: Replay, f: Fill, eps: real)
    requires f.isBuy && eps >= 0.0 && BookOk(b) && Agree(b, r)
    ensures Agree(Trade(b, f, eps), ReplayFill(r, AsRecord(f))) <==> Reconcilable(f, b.qty, eps)
  {
  }

  lemma SellAgreesIff(b: Book, r: Replay, f: Fill, eps: real)
    requires !f.isBuy && eps >= 0.0 && BookOk(b) && Agree(b, r)
    ensures Agree(Trade(b, f, eps), ReplayFill(r, AsRecord(f))) <==> Reconcilable(f, b.qty, eps)
  {
  }

  /** Book and replay agree after every prefix of the history. */
  predicate AgreeThroughout(fs: seq<Fill>, eps: real) {
    && Agree(BookOf(fs, eps), ReplayAll(AsRecords(fs)))
    && (fs != [] ==> AgreeThroughout(fs[..|fs| - 1], eps))
  }

  /** Every fill was reconcilable with what the book held just before it. */
  predicate AllReconcilable(fs: seq<Fill>, eps: real) {
    fs == [] ||
    (&& Reconcilable(fs[|fs| - 1], BookOf(fs[..|fs| - 1], eps).qty, eps)
     && AllReconcilable(fs[..|fs| - 1], eps))
  }

  lemma AgreesIff(b: Book, r: Replay, f: Fill, eps: real)
    requires eps >= 0.0 && BookOk(b) && Agree(b, r)
    ensures Agree(Trade(b, f, eps), ReplayFill(r, AsRecord(f))) <==> Reconcilable(f, b.qty, eps)
  {
    if f.isBuy {
      BuyAgreesIff(b, r, f, eps);
    } else {
      SellAgreesIff(b, r, f, eps);
    }
  }

  /** The incremental book and the replay from fills agree throughout a history exactly when each fill was
      reconcilable with what the book held at that point. */
  lemma {:induction false} BookAgreesWithReplayIff(fs: seq<Fill>, eps: real)
    requires eps >= 0.0
    ensures AgreeThroughout(fs, eps) <==> AllReconcilable(fs, eps)
  {
    if fs != [] {
      var past, f := fs[..|fs| - 1], fs[|fs| - 1];
      BookAgreesWithReplayIff(past, eps);
      ReplayOfRecords(fs);
      if AgreeThroughout(past, eps) {
        BookConservesCash(past, eps);
        AgreesIff(BookOf(past, eps), ReplayAll(AsRecords(past)), f, eps);
      }
    }
  }

  lemma BuyFirst(f: Fill, eps: real)
    requires f.isBuy && FillOk(f.qty, f.price, f.quote) && eps >= 0.0
    ensures var b := Trade(NEW_BOOK, f, eps); BookOk(b) && b.qty == f.qty.v && b.realizedQuote == 0.0
    ensures ReplayFill(NO_FILLS, AsRecord(f)) == Replay(f.qty.v, f.quote.v, f.quote.v, 0.0, 0.0)
  {
    SidesDiffer();
    TradeKeepsBookOk(NEW_BOOK, f, eps);
  }

  lemma OverSell(b: Book, r: Replay, f: Fill, eps: real)
    requires BookOk(b) && b.qty == r.openQty > 0.0 && b.realizedQuote == r.sellProceeds == 0.0
    requires !f.isBuy && FillOk(f.qty, f.price, f.quote) && f.qty.v > b.qty
    ensures Trade(b, f, eps).realizedQuote == f.quote.v
    ensures ReplayFill(r, AsRecord(f)).sellProceeds == Share(f.quote.v, b.qty, f.qty.v)
  {
    SidesDiffer();
  }

  lemma ShareIsLess(quote: real, q: real, total: real)
    requires 0.0 < q < total && quote > 0.0
    ensures Share(quote, q, total) < quote
  {
    var part := Quotient(q, total);
    assert part * total == q;
    if part >= 1.0 {
      Scales(1.0, part, total);
    }
  }

  /** The condition is needed: after a buy and an over-sell, one unit for one and two for two say, the book has booked
      the whole proceeds and the replay only the share of what was held. */
  lemma OverSellDiffers(held: real, sold: real, quote: real)
    requires 0.0 < held < sold && quote > 0.0
    ensures var fs := [Fill(true, Fin(held), Fin(1.0), Fin(held))] + [Fill(false, Fin(sold), Fin(1.0), Fin(quote))];
            ReplayAll(AsRecords(fs)).sellProceeds < BookOf(fs, 0.0).realizedQuote == quote
  {
    var buy, sell := Fill(true, Fin(held), Fin(1.0), Fin(held)), Fill(false, Fin(sold), Fin(1.0), Fin(quote));
    Snoc([], buy, 0.0);
    Snoc([buy], sell, 0.0);
    assert [] + [buy] == [buy];
    BuyFirst(buy, 0.0);
    OverSell(BookOf([buy], 0.0), ReplayAll(AsRecords([buy])), sell, 0.0);
    ShareIsLess(quote, held, sold);
  }

  lemma Snoc(fs: seq<Fill>, f: Fill, eps: real)
    ensures BookOf(fs + [f], eps) == Trade(BookOf(fs, eps), f, eps)
    ensures ReplayAll(AsRecords(fs + [f])) == ReplayFill(ReplayAll(AsRecords(fs)), AsRecord(f))
  {
    assert (fs + [f])[..|fs|] == fs;
    ReplayOfRecords(fs + [f]);
  }

  lemma SidesDiffer()
    ensures EqIgnoreAsciiCase("buy", "buy") && EqIgnoreAsciiCase("sell", "sell") && !EqIgnoreAsciiCase("sell", "buy")
  {
  }

  lemma ReplayOfRecords(fs: seq<Fill>)
    requires fs != []
    ensures ReplayAll(AsRecords(fs)) == ReplayFill(ReplayAll(AsRecords(fs[..|fs| - 1])), AsRecord(fs[|fs| - 1]))
  {
  }

  lemma AgreeAtTheEnd(fs: seq<Fill>, eps: real)
    requires eps >= 0.0 && AllReconcilable(fs, eps)
    ensures Agree(BookOf(fs, eps), ReplayAll(AsRecords(fs)))
  {
    BookAgreesWithReplayIff(fs, eps);
  }

  /** The average a replay reports is its open cost per unit held, and zero when nothing is. */
  lemma ReconstructedAverage(r: Replay)
    requires ReplayConserves(r)
    ensures var rec := Reconstructed(r);
            Product(rec.avgEntry, rec.openQty) == r.openCost && (rec.openQty == 0.0 ==> rec.avgEntry == 0.0)
  {
    if r.openQty > 0.0 {
      QuotientTimes(r.openCost, r.openQty);
      assert r.openCost / r.openQty == Quotient(r.openCost, r.openQty);
    }
  }

  lemma AverageOfAgreement(b: Book, r: Replay)
    requires BookOk(b) && Priced(b) && ReplayConserves(r) && Agree(b, r) && b.qty > 0.0
    ensures Reconstructed(r).avgEntry == b.avgEntry
  {
    ReconstructedAverage(r);
    SameFactor(Reconstructed(r).avgEntry, b.avgEntry, b.qty);
  }

  /** Where buys are at their price and every fill was reconcilable, it is the book's average entry while open. */
  lemma AveragesAgree(fs: seq<Fill>, eps: real)
    requires eps >= 0.0 && AtPrice(fs) && AllReconcilable(fs, eps) && BookOf(fs, eps).qty > 0.0
    ensures Reconstructed(ReplayAll(AsRecords(fs))).avgEntry == BookOf(fs, eps).avgEntry
  {
    AgreeAtTheEnd(fs, eps);
    BasisIsAverageTimesQuantity(fs, eps);
    BookConservesCash(fs, eps);
    ReplayConservesCash(AsRecords(fs));
    AverageOfAgreement(BookOf(fs, eps), ReplayAll(AsRecords(fs)));
  }

  lemma SameFactor(x: real, y: real, d: real)
    requires d > 0.0 && Product(x, d) == Product(y, d)
    ensures x == y
  {
    assert (x - y) * d == 0.0;
  }

  /** A side counts as a buy or a sell in any mixture of upper and lower case, and as nothing else. */
  lemma SidesAnyCase(side: string)
    ensures EqIgnoreAsciiCase(side, "buy") <==>
              |side| == 3 && side[0] in "bB" && side[1] in "uU" && side[2] in "yY"
    ensures EqIgnoreAsciiCase(side, "sell") <==>
              |side| == 4 && side[0] in "sS" && side[1] in "eE" && side[2] in "lL" && side[3] in "lL"
  {
  }

  /** The reconstruction of a replay reports the book's quantity, basis, proceeds and profit, and its buy cost is
      what the book's buys have spent. */
  predicate Reconciles(b: Book, r: Replay) {
    var rec := Reconstructed(r);
    && rec.openQty == b.qty && rec.openCostBasis == b.costBasis && rec.sellProceeds == b.realizedQuote
    && Some(rec.realized) == b.realizedPnl && rec.buyCost == LifecycleBasis(b)
  }

  lemma AgreementReconciles(b: Book, r: Replay)
    requires BookOk(b) && ReplayConserves(r) && Agree(b, r)
    ensures Reconciles(b, r)
  {
  }

  /** In particular, a history of sound fills with no over-sell and no sell down to dust reconciles. */
  lemma ReconstructionMatchesBook(fs: seq<Fill>, eps: real)
    requires eps >= 0.0 && AllReconcilable(fs, eps)
    ensures Reconciles(BookOf(fs, eps), ReplayAll(AsRecords(fs)))
  {
    AgreeAtTheEnd(fs, eps);
    BookConservesCash(fs, eps);
    ReplayConservesCash(AsRecords(fs));
    AgreementReconciles(BookOf(fs, eps), ReplayAll(AsRecords(fs)));
  }
}
