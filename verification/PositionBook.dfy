/** Average-cost position book behind the daily realized-loss figure.

    One symbol's fills are signed trades: positive quantities buy, negative
    quantities sell.  Money is modelled with exact reals. */
module PositionBook {
  import opened Numbers

  datatype Position = Position(qty: real, avgPrice: real)

  datatype Trade = Trade(qty: real, price: real)

  /** Position after some trades together with the gross PnL they realized. */
  datatype Ledger = Ledger(position: Position, gross: real)

  const FLAT := Position(0.0, 0.0)
  const EPSILON := 0.000000000001

  predicate SameDirection(currentQty: real, signedQty: real) {
    (currentQty > 0.0 && signedQty > 0.0) || (currentQty < 0.0 && signedQty < 0.0)
  }

  predicate IsZero(x: real) {
    Abs(x) <= EPSILON
  }

  function IncreasePosition(p: Position, signedQty: real, price: real): Position {
    var newQty := p.qty + signedQty;
    if IsZero(newQty) then FLAT
    else
      var totalNotional := Abs(p.qty) * p.avgPrice + Abs(signedQty) * price;
      Position(newQty, totalNotional / Abs(newQty))
  }

  function ApplyCloseAndReverse(p: Position, signedQty: real, price: real, closeQty: real): Position {
    var remaining := Abs(p.qty) - closeQty;
    var incoming := Abs(signedQty) - closeQty;
    if incoming > 0.0 then
      Position((if signedQty > 0.0 then 1.0 else -1.0) * incoming, price)
    else if remaining > 0.0 then
      Position((if p.qty > 0.0 then 1.0 else -1.0) * remaining, p.avgPrice)
    else FLAT
  }

  /** PnL of closing a long by selling, or a short by buying. */
  function ClosePnl(p: Position, price: real, closeQty: real): real {
    if p.qty > 0.0 then (price - p.avgPrice) * closeQty else (p.avgPrice - price) * closeQty
  }

  /** One iteration of the loop body for a single symbol, fees aside. */
  function ApplyTrade(l: Ledger, t: Trade): Ledger {
    var p := l.position;
    if SameDirection(p.qty, t.qty) || IsZero(p.qty) then
      Ledger(IncreasePosition(p, t.qty, t.price), l.gross)
    else
      var closeQty := MinReal(Abs(p.qty), Abs(t.qty));
      Ledger(ApplyCloseAndReverse(p, t.qty, t.price, closeQty), l.gross + ClosePnl(p, t.price, closeQty))
  }

  const OPENING := Ledger(FLAT, 0.0)

  function Run(l: Ledger, ts: seq<Trade>): Ledger {
    if ts == [] then l else ApplyTrade(Run(l, ts[..|ts| - 1]), ts[|ts| - 1])
  }

  // ----- Reference quantities that never mention positions -----

  function NetQty(ts: seq<Trade>): real {
    if ts == [] then 0.0 else NetQty(ts[..|ts| - 1]) + ts[|ts| - 1].qty
  }

  /** Cash received minus cash paid. */
  function NetCash(ts: seq<Trade>): real {
    if ts == [] then 0.0 else NetCash(ts[..|ts| - 1]) - ts[|ts| - 1].qty * ts[|ts| - 1].price
  }

  /** `q` is `k` lots. */
  predicate IsLots(q: real, lot: real, k: int) {
    q == k as real * lot
  }

  ghost predicate Multiple(q: real, lot: real) {
    exists k: int :: IsLots(q, lot, k)
  }

  ghost predicate InLots(ts: seq<Trade>, lot: real) {
    forall i :: 0 <= i < |ts| ==> ts[i].qty != 0.0 && Multiple(ts[i].qty, lot)
  }

  /** Index of the trade that opened the position held after `ts`: the last one
      that started from a flat book or turned the sign of the net quantity. */
  function EpisodeStart(ts: seq<Trade>): (e: nat)
    ensures e <= |ts|
    ensures ts != [] ==> e < |ts|
  {
    if ts == [] then 0
    else if SameDirection(NetQty(ts[..|ts| - 1]), NetQty(ts)) then EpisodeStart(ts[..|ts| - 1])
    else |ts| - 1
  }

  // ----- Multiples of a lot -----

  lemma NoLots(lot: real)
    ensures Multiple(0.0, lot)
  {
    assert IsLots(0.0, lot, 0);
  }

  lemma MultipleSum(a: real, b: real, lot: real)
    requires Multiple(a, lot) && Multiple(b, lot)
    ensures Multiple(a + b, lot)
  {
    var i: int :| IsLots(a, lot, i);
    var j: int :| IsLots(b, lot, j);
    assert (i + j) as real == i as real + j as real;
    assert IsLots(a + b, lot, i + j);
  }

  lemma ScaleAtLeast(m: real, lot: real)
    requires m >= 1.0 && lot > 0.0
    ensures m * lot >= lot
  {
    assert (m - 1.0) * lot >= 0.0;
  }

  /** On lots larger than the tolerance, the tolerance test is exactly "flat". */
  lemma ToleranceIsExact(q: real, lot: real)
    requires lot > EPSILON && Multiple(q, lot)
    ensures IsZero(q) <==> q == 0.0
  {
    var k: int :| IsLots(q, lot, k);
    if k >= 1 {
      ScaleAtLeast(k as real, lot);
    } else if k <= -1 {
      ScaleAtLeast(-(k as real), lot);
    }
  }

  // ----- Conservation -----

  /** Everything the book owes to the trades it has seen. */
  ghost predicate Conserved(l: Ledger, ts: seq<Trade>) {
    && l.position.qty == NetQty(ts)
    && l.gross == NetCash(ts) + l.position.qty * l.position.avgPrice
    && (l.position.qty == 0.0 ==> l.position == FLAT)
  }

  lemma IncreaseConserves(l: Ledger, t: Trade)
    requires SameDirection(l.position.qty, t.qty) || l.position == FLAT
    requires !IsZero(l.position.qty + t.qty)
    ensures var l' := ApplyTrade(l, t);
            l'.position.qty == l.position.qty + t.qty
            && l'.position.qty * l'.position.avgPrice == l.position.qty * l.position.avgPrice + t.qty * t.price
            && l'.gross == l.gross
  {
    var p := l.position;
    var n := p.qty + t.qty;
    var total := Abs(p.qty) * p.avgPrice + Abs(t.qty) * t.price;
    var l' := ApplyTrade(l, t);
    assert l'.position == Position(n, total / Abs(n));
    assert Abs(n) * (total / Abs(n)) == total;
    if n > 0.0 {
      assert total == p.qty * p.avgPrice + t.qty * t.price;
    } else {
      assert total == -(p.qty * p.avgPrice) - t.qty * t.price;
      assert n * (total / Abs(n)) == -(Abs(n) * (total / Abs(n)));
    }
  }

  lemma CloseConserves(l: Ledger, t: Trade)
    requires t.qty != 0.0 && l.position.qty != 0.0 && !SameDirection(l.position.qty, t.qty)
    requires !IsZero(l.position.qty)
    ensures var l' := ApplyTrade(l, t);
            l'.position.qty == l.position.qty + t.qty
            && l'.gross - l'.position.qty * l'.position.avgPrice
               == l.gross - l.position.qty * l.position.avgPrice - t.qty * t.price
            && (l'.position.qty == 0.0 ==> l'.position == FLAT)
  {
    var p := l.position;
    var l' := ApplyTrade(l, t);
    if Abs(t.qty) > Abs(p.qty) {
      assert l'.position == Position(p.qty + t.qty, t.price);
    } else if Abs(t.qty) < Abs(p.qty) {
      assert l'.position == Position(p.qty + t.qty, p.avgPrice);
    } else {
      assert l'.position == FLAT;
      assert t.qty == -p.qty;
    }
  }

  lemma StepConserves(l: Ledger, t: Trade)
    requires t.qty != 0.0 && (l.position.qty == 0.0 ==> l.position == FLAT)
    requires IsZero(l.position.qty) <==> l.position.qty == 0.0
    requires IsZero(l.position.qty + t.qty) <==> l.position.qty + t.qty == 0.0
    ensures var l' := ApplyTrade(l, t);
            l'.position.qty == l.position.qty + t.qty
            && l'.gross - l'.position.qty * l'.position.avgPrice
               == l.gross - l.position.qty * l.position.avgPrice - t.qty * t.price
            && (l'.position.qty == 0.0 ==> l'.position == FLAT)
  {
    hide ApplyTrade;
    if SameDirection(l.position.qty, t.qty) || l.position.qty == 0.0 {
      IncreaseConserves(l, t);
    } else {
      CloseConserves(l, t);
    }
  }

  /** Main result: over every stream of trades in lots above the tolerance, the
      quantity held is the net quantity, and realized PnL is net cash flow plus
      the open quantity at its average price. */
  lemma {:induction false} Conservation(ts: seq<Trade>, lot: real)
    requires lot > EPSILON && InLots(ts, lot)
    ensures Conserved(Run(OPENING, ts), ts)
    ensures Multiple(NetQty(ts), lot)
  {
    hide ApplyTrade, IsLots, Multiple;
    if ts == [] {
      NoLots(lot);
    } else {
      var n := |ts| - 1;
      var before, t := ts[..n], ts[n];
      Conservation(before, lot);
      MultipleSum(NetQty(before), t.qty, lot);
      ToleranceIsExact(NetQty(before), lot);
      ToleranceIsExact(NetQty(ts), lot);
      StepConserves(Run(OPENING, before), t);
    }
  }

  /** A flat book has realized exactly its net cash flow. */
  lemma FlatRealizesNetCash(ts: seq<Trade>, lot: real)
    requires lot > EPSILON && InLots(ts, lot) && NetQty(ts) == 0.0
    ensures Run(OPENING, ts) == Ledger(FLAT, NetCash(ts))
  {
    Conservation(ts, lot);
  }

  /** The tolerance is the whole story: a lot size conserves every stream traded
      in it exactly when it is larger than the tolerance. */
  lemma ConservationNeedsLotAboveTolerance(lot: real)
    requires lot > 0.0
    ensures lot > 0.000000000001 <==> (forall ts: seq<Trade> :: InLots(ts, lot) ==> Conserved(Run(OPENING, ts), ts))
  {
    if lot > EPSILON {
      forall ts: seq<Trade> | InLots(ts, lot)
        ensures Conserved(Run(OPENING, ts), ts)
      {
        Conservation(ts, lot);
      }
    } else {
      var t := Trade(lot, 1.0);
      assert IsLots(lot, lot, 1);
      assert InLots([t], lot);
      assert [t][..0] == [];
      assert Run(OPENING, [t]) == ApplyTrade(Run(OPENING, []), t);
      assert NetQty([t]) == NetQty([]) + lot;
      assert !Conserved(Run(OPENING, [t]), [t]);
    }
  }

  // ----- The average price stays inside the prices that built it -----

  /** `lo` and `hi` bound the prices of the trades in `ts[from..]` that go the way of `qty`. */
  ghost predicate Bounds(ts: seq<Trade>, from: nat, qty: real, lo: real, hi: real) {
    forall i :: from <= i < |ts| && SameDirection(qty, ts[i].qty) ==> lo <= ts[i].price <= hi
  }

  lemma QuotientBetween(x: real, s: real, lo: real, hi: real)
    requires s > 0.0 && lo * s <= x <= hi * s
    ensures lo <= x / s <= hi
  {
    assert x / s * s == x;
  }

  lemma WeightedMean(w: real, a: real, v: real, b: real, lo: real, hi: real)
    requires w >= 0.0 && v > 0.0
    requires w > 0.0 ==> lo <= a <= hi
    requires w == 0.0 ==> a == 0.0
    requires lo <= b <= hi
    ensures lo <= (w * a + v * b) / (w + v) <= hi
  {
    if w > 0.0 {
      assert w * (a - lo) >= 0.0 && w * (hi - a) >= 0.0;
    }
    assert v * (b - lo) >= 0.0 && v * (hi - b) >= 0.0;
    QuotientBetween(w * a + v * b, w + v, lo, hi);
  }

  lemma StepKeepsAverageWithin(l: Ledger, t: Trade, lo: real, hi: real)
    requires t.qty != 0.0 && (l.position.qty == 0.0 ==> l.position == FLAT)
    requires IsZero(l.position.qty) <==> l.position.qty == 0.0
    requires l.position.qty + t.qty != 0.0 && !IsZero(l.position.qty + t.qty)
    requires SameDirection(l.position.qty, l.position.qty + t.qty) ==> lo <= l.position.avgPrice <= hi
    requires SameDirection(l.position.qty + t.qty, t.qty) ==> lo <= t.price <= hi
    ensures lo <= ApplyTrade(l, t).position.avgPrice <= hi
  {
    hide ApplyTrade;
    var p := l.position;
    if SameDirection(p.qty, t.qty) || p.qty == 0.0 {
      OpeningShape(l, t);
      WeightedMean(Abs(p.qty), p.avgPrice, Abs(t.qty), t.price, lo, hi);
    } else {
      ClosingShape(l, t);
    }
  }

  /** The average price of an open position lies within the prices of the
      same-direction trades since the position was opened. */
  lemma {:induction false} AverageWithinEpisode(ts: seq<Trade>, lot: real, lo: real, hi: real)
    requires lot > EPSILON && InLots(ts, lot)
    requires NetQty(ts) != 0.0
    requires Bounds(ts, EpisodeStart(ts), NetQty(ts), lo, hi)
    ensures lo <= Run(OPENING, ts).position.avgPrice <= hi
  {
    hide ApplyTrade, IsLots, Multiple;
    var n := |ts| - 1;
    var before, t := ts[..n], ts[n];
    Conservation(before, lot);
    Conservation(ts, lot);
    ToleranceIsExact(NetQty(before), lot);
    ToleranceIsExact(NetQty(ts), lot);
    if SameDirection(NetQty(before), NetQty(ts)) {
      assert Bounds(before, EpisodeStart(before), NetQty(before), lo, hi) by {
        forall i | EpisodeStart(before) <= i < |before| && SameDirection(NetQty(before), before[i].qty)
          ensures lo <= before[i].price <= hi
        {
          assert before[i] == ts[i];
        }
      }
      AverageWithinEpisode(before, lot, lo, hi);
    }
    if SameDirection(NetQty(ts), t.qty) {
      assert SameDirection(NetQty(ts), ts[n].qty);
    }
    StepKeepsAverageWithin(Run(OPENING, before), t, lo, hi);
  }

  // ----- Symmetry and granularity -----

  function Mirror(ts: seq<Trade>): (r: seq<Trade>)
    ensures |r| == |ts|
    ensures forall i :: 0 <= i < |ts| ==> r[i] == Trade(-ts[i].qty, ts[i].price)
  {
    seq(|ts|, i requires 0 <= i < |ts| => Trade(-ts[i].qty, ts[i].price))
  }

  function Opposite(l: Ledger): Ledger {
    Ledger(Position(-l.position.qty, l.position.avgPrice), -l.gross)
  }

  lemma MirrorIncrease(p: Position, q: real, price: real)
    ensures var r := IncreasePosition(p, q, price);
            IncreasePosition(Position(-p.qty, p.avgPrice), -q, price) == Position(-r.qty, r.avgPrice)
  {
    assert Abs(-p.qty) == Abs(p.qty) && Abs(-q) == Abs(q) && Abs(-p.qty + -q) == Abs(p.qty + q);
  }

  lemma MirrorStep(l: Ledger, t: Trade)
    requires t.qty != 0.0
    ensures ApplyTrade(Opposite(l), Trade(-t.qty, t.price)) == Opposite(ApplyTrade(l, t))
  {
    hide IncreasePosition;
    var p := l.position;
    if SameDirection(p.qty, t.qty) || IsZero(p.qty) {
      MirrorIncrease(p, t.qty, t.price);
    } else {
      var c := MinReal(Abs(p.qty), Abs(t.qty));
      assert (t.price - p.avgPrice) * c == -((p.avgPrice - t.price) * c);
    }
  }

  /** Swapping every BUY and SELL negates the position and the gross PnL. */
  lemma {:induction false} MirrorNegates(ts: seq<Trade>)
    requires forall i :: 0 <= i < |ts| ==> ts[i].qty != 0.0
    ensures Run(OPENING, Mirror(ts)) == Opposite(Run(OPENING, ts))
  {
    hide ApplyTrade;
    if ts == [] {
    } else {
      var n := |ts| - 1;
      MirrorNegates(ts[..n]);
      assert Mirror(ts)[..n] == Mirror(ts[..n]);
      MirrorStep(Run(OPENING, ts[..n]), ts[n]);
    }
  }

  lemma {:induction false} RunAppend(l: Ledger, a: seq<Trade>, b: seq<Trade>)
    ensures Run(l, a + b) == Run(Run(l, a), b)
  {
    hide ApplyTrade;
    if b == [] {
      assert a + b == a;
    } else {
      var n := |b| - 1;
      assert (a + b)[..|a| + n] == a + b[..n];
      RunAppend(l, a, b[..n]);
    }
  }

  lemma RunOne(l: Ledger, t: Trade)
    ensures Run(l, [t]) == ApplyTrade(l, t)
  {
    hide ApplyTrade;
    assert [t][..0] == [];
  }

  lemma RunTwo(l: Ledger, t: Trade, u: Trade)
    ensures Run(l, [t, u]) == ApplyTrade(ApplyTrade(l, t), u)
  {
    hide ApplyTrade;
    RunOne(l, t);
    assert [t, u][..1] == [t];
  }

  lemma AverageTwice(w: real, a: real, v1: real, v2: real, price: real)
    requires w >= 0.0 && v1 > 0.0 && v2 > 0.0
    ensures ((w + v1) * ((w * a + v1 * price) / (w + v1)) + v2 * price) / (w + v1 + v2)
         == (w * a + (v1 + v2) * price) / (w + (v1 + v2))
  {
    assert (w + v1) * ((w * a + v1 * price) / (w + v1)) == w * a + v1 * price;
    assert w * a + v1 * price + v2 * price == w * a + (v1 + v2) * price;
  }

  lemma SamePriceAverage(v1: real, v2: real, price: real)
    requires v1 > 0.0 && v2 > 0.0
    ensures (v1 * price + v2 * price) / (v1 + v2) == price
  {
    assert v1 * price + v2 * price == price * (v1 + v2);
    assert price * (v1 + v2) / (v1 + v2) == price;
  }

  /** The zero tests met while applying `q1` and then `q2` to `qty` are exact. */
  ghost predicate ExactAround(qty: real, q1: real, q2: real) {
    && (IsZero(qty) <==> qty == 0.0)
    && (IsZero(qty + q1) <==> qty + q1 == 0.0)
    && (IsZero(qty + q1 + q2) <==> qty + q1 + q2 == 0.0)
  }

  /** Cash effect of trading `qty` at `spread` away from the average price. */
  function Realize(spread: real, qty: real): real {
    -(spread * qty)
  }

  lemma RealizeAdds(spread: real, a: real, b: real)
    ensures Realize(spread, a + b) == Realize(spread, a) + Realize(spread, b)
  {
  }

  lemma PnlIsRealize(p: Position, price: real, qty: real)
    requires SameDirection(p.qty, -qty)
    ensures ClosePnl(p, price, Abs(qty)) == Realize(price - p.avgPrice, qty)
  {
  }

  lemma ClosingShape(l: Ledger, t: Trade)
    requires SameDirection(l.position.qty, -t.qty) && !IsZero(l.position.qty)
    ensures var p := l.position;
            ApplyTrade(l, t) ==
              if Abs(t.qty) > Abs(p.qty) then
                Ledger(Position(p.qty + t.qty, t.price), l.gross + Realize(t.price - p.avgPrice, -p.qty))
              else if Abs(t.qty) < Abs(p.qty) then
                Ledger(Position(p.qty + t.qty, p.avgPrice), l.gross + Realize(t.price - p.avgPrice, t.qty))
              else
                Ledger(FLAT, l.gross + Realize(t.price - p.avgPrice, t.qty))
  {
    hide ClosePnl, Realize;
    var p := l.position;
    if Abs(t.qty) > Abs(p.qty) {
      PnlIsRealize(p, t.price, -p.qty);
      assert Abs(-p.qty) == Abs(p.qty);
    } else {
      PnlIsRealize(p, t.price, t.qty);
    }
  }

  lemma OpeningShape(l: Ledger, t: Trade)
    requires t.qty != 0.0 && !IsZero(l.position.qty + t.qty)
    requires SameDirection(l.position.qty, t.qty) || l.position == FLAT
    ensures var p := l.position;
            ApplyTrade(l, t) ==
              Ledger(Position(p.qty + t.qty,
                              (Abs(p.qty) * p.avgPrice + Abs(t.qty) * t.price) / (Abs(p.qty) + Abs(t.qty))), l.gross)
  {
    assert Abs(l.position.qty + t.qty) == Abs(l.position.qty) + Abs(t.qty);
  }

  lemma SplitIncrease(l: Ledger, q1: real, q2: real, price: real)
    requires SameDirection(q1, q2) && ExactAround(l.position.qty, q1, q2)
    requires SameDirection(l.position.qty, q1) || l.position == FLAT
    ensures ApplyTrade(ApplyTrade(l, Trade(q1, price)), Trade(q2, price)) == ApplyTrade(l, Trade(q1 + q2, price))
  {
    hide ApplyTrade;
    var p := l.position;
    OpeningShape(l, Trade(q1, price));
    OpeningShape(ApplyTrade(l, Trade(q1, price)), Trade(q2, price));
    OpeningShape(l, Trade(q1 + q2, price));
    AverageTwice(Abs(p.qty), p.avgPrice, Abs(q1), Abs(q2), price);
  }

  lemma SplitWithin(l: Ledger, q1: real, q2: real, price: real)
    requires SameDirection(q1, q2) && ExactAround(l.position.qty, q1, q2)
    requires SameDirection(l.position.qty, -q1) && Abs(l.position.qty) > Abs(q1)
    ensures ApplyTrade(ApplyTrade(l, Trade(q1, price)), Trade(q2, price)) == ApplyTrade(l, Trade(q1 + q2, price))
  {
    hide ApplyTrade, Realize;
    var p := l.position;
    var d := price - p.avgPrice;
    ClosingShape(l, Trade(q1, price));
    ClosingShape(ApplyTrade(l, Trade(q1, price)), Trade(q2, price));
    ClosingShape(l, Trade(q1 + q2, price));
    RealizeAdds(d, q1, q2);
    RealizeAdds(d, q1, -(p.qty + q1));
    assert q1 + -(p.qty + q1) == -p.qty;
  }

  lemma SplitAcross(l: Ledger, q1: real, q2: real, price: real)
    requires SameDirection(q1, q2) && ExactAround(l.position.qty, q1, q2)
    requires SameDirection(l.position.qty, -q1) && Abs(l.position.qty) <= Abs(q1)
    ensures ApplyTrade(ApplyTrade(l, Trade(q1, price)), Trade(q2, price)) == ApplyTrade(l, Trade(q1 + q2, price))
  {
    hide ApplyTrade, Realize;
    var p := l.position;
    ClosingShape(l, Trade(q1, price));
    ClosingShape(l, Trade(q1 + q2, price));
    OpeningShape(ApplyTrade(l, Trade(q1, price)), Trade(q2, price));
    if Abs(q1) > Abs(p.qty) {
      SamePriceAverage(Abs(p.qty + q1), Abs(q2), price);
    } else {
      assert Abs(q2) * price / Abs(q2) == price;
    }
  }

  /** Splitting one trade into two consecutive trades at the same price leaves
      the ledger unchanged, whatever comes before and after. */
  lemma SplitTrade(a: seq<Trade>, q1: real, q2: real, price: real, b: seq<Trade>, lot: real)
    requires lot > EPSILON && InLots(a, lot)
    requires SameDirection(q1, q2) && Multiple(q1, lot) && Multiple(q2, lot)
    ensures Run(OPENING, a + [Trade(q1, price), Trade(q2, price)] + b) == Run(OPENING, a + [Trade(q1 + q2, price)] + b)
  {
    hide ApplyTrade, IsLots, Multiple;
    var l := Run(OPENING, a);
    Conservation(a, lot);
    MultipleSum(l.position.qty, q1, lot);
    MultipleSum(l.position.qty + q1, q2, lot);
    ToleranceIsExact(l.position.qty, lot);
    ToleranceIsExact(l.position.qty + q1, lot);
    ToleranceIsExact(l.position.qty + q1 + q2, lot);
    if SameDirection(l.position.qty, q1) || l.position.qty == 0.0 {
      SplitIncrease(l, q1, q2, price);
    } else if Abs(l.position.qty) > Abs(q1) {
      SplitWithin(l, q1, q2, price);
    } else {
      SplitAcross(l, q1, q2, price);
    }
    RunTwo(l, Trade(q1, price), Trade(q2, price));
    RunOne(l, Trade(q1 + q2, price));
    RunAppend(OPENING, a, [Trade(q1, price), Trade(q2, price)]);
    RunAppend(OPENING, a, [Trade(q1 + q2, price)]);
    RunAppend(OPENING, a + [Trade(q1, price), Trade(q2, price)], b);
    RunAppend(OPENING, a + [Trade(q1 + q2, price)], b);
  }
}
