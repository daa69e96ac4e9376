/** What reconciliation picks and writes, in terms of the rows themselves. */
module ReconcileMatches {
  import opened Numbers
  import opened Sequences
  import opened Text
  import opened Reconcile
  import opened ReconcileRuns

  // ----- The newest trade -----

  /** `a` comes before `b` in the order of texts: at the first difference its
      character is smaller, or it ends there. */
  ghost predicate TextBefore(a: string, b: string) {
    exists j :: Differ(a, b, j)
  }

  predicate Differ(a: string, b: string, j: nat) {
    j <= |a| && j < |b| && a[..j] == b[..j] && (j == |a| || a[j] < b[j])
  }

  lemma {:induction false} AtMostIsNotAfter(a: string, b: string)
    requires StringAtMost(a, b)
    ensures !TextBefore(b, a)
  {
    if a == "" {
    } else {
      forall j: nat ensures !Differ(b, a, j) {
        if a[0] == b[0] && 0 < j <= |b| && j < |a| {
          AtMostIsNotAfter(a[1..], b[1..]);
          assert !Differ(b[1..], a[1..], j - 1);
          assert a[..j] == [a[0]] + a[1..][..j - 1];
          assert b[..j] == [b[0]] + b[1..][..j - 1];
        }
      }
    }
  }

  /** A trade time in milliseconds: raw times below ten thousand million are seconds. */
  ghost predicate InMs(raw: int, ms: int) {
    (raw < 10_000_000_000 ==> ms == raw * 1000) && (raw >= 10_000_000_000 ==> ms == raw)
  }

  /** Of the trades of an order the one kept is the latest; among equally late
      ones it has the largest number, and then the last text id. */
  lemma KeptTradeIsLatest(trades: seq<Trade>, id: string, t: Trade, ms: int, bestMs: int)
    requires id != "" && t in trades && t.orderId == id
    ensures BestTrade(trades, id).Some?
    ensures var best := BestTrade(trades, id).value;
      InMs(t.rawTime, ms) && InMs(best.rawTime, bestMs) ==>
        && best in trades && best.orderId == id
        && ms <= bestMs
        && (ms == bestMs ==> t.tradeNumber <= best.tradeNumber)
        && (ms == bestMs && t.tradeNumber == best.tradeNumber ==> !TextBefore(best.tradeId, t.tradeId))
  {
    hide StringAtMost, BestTrade, TextBefore;
    BestTradeIsNewest(trades, id);
    var best := BestTrade(trades, id).value;
    if StringAtMost(t.tradeId, best.tradeId) {
      AtMostIsNotAfter(t.tradeId, best.tradeId);
    }
  }

  /** The same instant in seconds and in milliseconds counts as the same time. */
  lemma ScalesAgree(seconds: int)
    requires 10_000_000 <= seconds < 10_000_000_000
    ensures EpochMs(seconds) == EpochMs(seconds * 1000) == seconds * 1000
  {
  }

  // ----- The symbol fallback -----

  /** `symbol` stands at position `i` of `symbols` and nowhere else. */
  predicate Only(symbols: seq<string>, symbol: string, i: int) {
    && 0 <= i < |symbols| && symbols[i] == symbol
    && forall j :: 0 <= j < |symbols| && j != i ==> symbols[j] != symbol
  }

  function OrderSymbols(orders: seq<Order>): (r: seq<string>)
    ensures |r| == |orders| && forall i :: 0 <= i < |r| ==> r[i] == orders[i].symbol
  {
    seq(|orders|, i requires 0 <= i < |orders| => orders[i].symbol)
  }

  function TradeSymbols(trades: seq<Trade>): (r: seq<string>)
    ensures |r| == |trades| && forall i :: 0 <= i < |r| ==> r[i] == trades[i].symbol
  {
    seq(|trades|, i requires 0 <= i < |trades| => trades[i].symbol)
  }

  /** The positions of a symbol. */
  function Where(symbols: seq<string>, symbol: string): (r: seq<int>)
    ensures forall i :: 0 <= i < |r| ==> 0 <= r[i] < |symbols| && symbols[r[i]] == symbol
  {
    if symbols == [] then []
    else
      var n := |symbols| - 1;
      Where(symbols[..n], symbol) + (if symbols[n] == symbol then [n] else [])
  }

  lemma {:induction false} NoWhere(symbols: seq<string>, symbol: string)
    ensures Where(symbols, symbol) == [] <==> forall j :: 0 <= j < |symbols| ==> symbols[j] != symbol
  {
    if symbols == [] {
    } else {
      var n := |symbols| - 1;
      NoWhere(symbols[..n], symbol);
      assert forall j :: 0 <= j < n ==> symbols[..n][j] == symbols[j];
    }
  }

  lemma {:induction false} OnlyIsWhere(symbols: seq<string>, symbol: string, i: int)
    requires Only(symbols, symbol, i)
    ensures Where(symbols, symbol) == [i]
  {
    var n := |symbols| - 1;
    var before := symbols[..n];
    if i == n {
      NoWhere(before, symbol);
    } else {
      assert symbols[n] != symbol;
      OnlyIsWhere(before, symbol, i);
    }
  }

  lemma {:induction false} WhereIsOnly(symbols: seq<string>, symbol: string)
    requires |Where(symbols, symbol)| == 1
    ensures Only(symbols, symbol, Where(symbols, symbol)[0])
  {
    var n := |symbols| - 1;
    var before := symbols[..n];
    assert forall j :: 0 <= j < n ==> before[j] == symbols[j];
    if symbols[n] == symbol {
      NoWhere(before, symbol);
    } else {
      WhereIsOnly(before, symbol);
    }
  }

  lemma OneWhere(symbols: seq<string>, symbol: string)
    ensures |Where(symbols, symbol)| == 1 ==> Only(symbols, symbol, Where(symbols, symbol)[0])
    ensures forall i :: Only(symbols, symbol, i) ==> Where(symbols, symbol) == [i]
  {
    hide Where, Only;
    if |Where(symbols, symbol)| == 1 {
      WhereIsOnly(symbols, symbol);
    }
    forall i | Only(symbols, symbol, i) ensures Where(symbols, symbol) == [i] {
      OnlyIsWhere(symbols, symbol, i);
    }
  }

  lemma {:induction false} OrdersWhere(orders: seq<Order>, symbol: string)
    ensures var w, own := Where(OrderSymbols(orders), symbol), OrdersOf(orders, symbol);
            |own| == |w| && forall i :: 0 <= i < |w| ==> own[i] == orders[w[i]]
  {
    if orders == [] {
      assert OrderSymbols(orders) == [];
    } else {
      var n := |orders| - 1;
      OrdersWhere(orders[..n], symbol);
      assert OrderSymbols(orders)[..n] == OrderSymbols(orders[..n]);
    }
  }

  lemma {:induction false} TradesWhere(trades: seq<Trade>, symbol: string)
    ensures var w, own := Where(TradeSymbols(trades), symbol), TradesOf(trades, symbol);
            |own| == |w| && forall i :: 0 <= i < |w| ==> own[i] == trades[w[i]]
  {
    if trades == [] {
      assert TradeSymbols(trades) == [];
    } else {
      var n := |trades| - 1;
      TradesWhere(trades[..n], symbol);
      assert TradeSymbols(trades)[..n] == TradeSymbols(trades[..n]);
    }
  }

  /** A record no candidate of which was found resolves by its symbol exactly
      when its request is a hash ("0x..."), it has a symbol, and the symbol has
      exactly one order or exactly one trade; it takes those that are the only
      one, and nothing else. */
  lemma FallbackDecides(r: Record, orders: seq<Order>, trades: seq<Trade>)
    requires !MatchByOrderId(r.orderCandidates, orders, trades).Found()
    requires !MatchByClientId(r.clientCandidates, orders, trades).Found()
    ensures var m := MatchOf(r, orders, trades);
            var eligible :=
              r.symbol != "" && |r.requestId| >= 2 && (r.requestId[..2] == "0x" || r.requestId[..2] == "0X");
      && (m.order.Some? <==> eligible && exists i :: Only(OrderSymbols(orders), r.symbol, i))
      && (m.trade.Some? <==> eligible && exists i :: Only(TradeSymbols(trades), r.symbol, i))
      && (forall i :: m.order.Some? && Only(OrderSymbols(orders), r.symbol, i) ==> m.order.value == orders[i])
      && (forall i :: m.trade.Some? && Only(TradeSymbols(trades), r.symbol, i) ==> m.trade.value == trades[i])
      && (m.Found() ==> m.how == "tx_hash_symbol_fallback" && m.value == r.symbol)
  {
    hide MatchByOrderId, MatchByClientId, OrdersOf, TradesOf, Only, Where;
    OrdersWhere(orders, r.symbol);
    OneWhere(OrderSymbols(orders), r.symbol);
    TradesWhere(trades, r.symbol);
    OneWhere(TradeSymbols(trades), r.symbol);
    NothingFound(r, orders, trades);
  }

  lemma NothingFound(r: Record, orders: seq<Order>, trades: seq<Trade>)
    requires !MatchByOrderId(r.orderCandidates, orders, trades).Found()
    requires !MatchByClientId(r.clientCandidates, orders, trades).Found()
    ensures MatchByOrderId(r.orderCandidates, orders, trades) == NO_MATCH
    ensures MatchByClientId(r.clientCandidates, orders, trades) == NO_MATCH
  {
    NotFoundIsNone(r.orderCandidates, r.clientCandidates, orders, trades);
  }

  lemma {:induction false} NotFoundIsNone(
    ids: seq<string>, clients: seq<string>, orders: seq<Order>, trades: seq<Trade>)
    decreases |ids| + |clients|
    ensures MatchByOrderId(ids, orders, trades).Found() || MatchByOrderId(ids, orders, trades) == NO_MATCH
    ensures MatchByClientId(clients, orders, trades).Found() || MatchByClientId(clients, orders, trades) == NO_MATCH
  {
    if ids == [] && clients == [] {
    } else {
      NotFoundIsNone(if ids == [] then [] else ids[1..], if clients == [] then [] else clients[1..], orders, trades);
    }
  }

  /** Order ids come before client ids, and both before the symbol. */
  lemma MatchPrecedence(r: Record, orders: seq<Order>, trades: seq<Trade>)
    ensures var byId, byClient := MatchByOrderId(r.orderCandidates, orders, trades),
                                  MatchByClientId(r.clientCandidates, orders, trades);
      && (byId.Found() ==> MatchOf(r, orders, trades) == byId)
      && (!byId.Found() && byClient.Found() ==> MatchOf(r, orders, trades) == byClient)
  {
    hide MatchByOrderId, MatchByClientId;
  }

  // ----- What is written -----

  /** A reconciled record names the order and the trade of its match; the order
      is the trade's when none was found, and an unnamed trade leaves the trade
      it knew.  A record without a match stays pending, and notes how many rows
      of its symbol the fallback could not choose between. */
  lemma ReconciledNames(r: Record, orders: seq<Order>, trades: seq<Trade>, now: int)
    requires r.status == Pending
    ensures var m, s := MatchOf(r, orders, trades), Synced(r, orders, trades, now);
      && s.lastSyncAt == Some(now) && s.updatedAt == now
      && (m.order.Some? ==> s.resolvedOrderId == m.order.value.orderId)
      && (m.order.None? && m.trade.Some? ==> s.resolvedOrderId == m.trade.value.orderId)
      && (m.trade.Some? && m.trade.value.tradeId != "" ==> s.resolvedTradeId == m.trade.value.tradeId)
      && (m.trade.None? || m.trade.value.tradeId == "" ==> s.resolvedTradeId == r.resolvedTradeId)
      && (m.Found() ==> s.status == Reconciled && s.resolvedAt == Some(now)
                        && s.note.matchedBy == m.how && s.note.matchedValue == m.value)
      && (!m.Found() ==> s.status == Pending && s.resolvedAt == r.resolvedAt && s.resolvedOrderId == r.resolvedOrderId)
      && (s.requestId, s.operation, s.symbol, s.createdAt) == (r.requestId, r.operation, r.symbol, r.createdAt)
  {
    hide MatchOf, AmbiguityOf;
  }

  /** A request that has an id has one pending record afterwards, which knows what
      was asked for; other records are as they were. */
  lemma CreatedAnswers(records: seq<Record>, s: Submission, now: int)
    requires Strip(s.requestId) != ""
    ensures var id, symbol := Strip(s.requestId), Upper(Strip(s.symbol));
            var after := Created(records, s, now);
            var i := FindRequest(records, s.operation, id);
      && i < |after| && |after| == (if i < |records| then |records| else |records| + 1)
      && after[i].operation == s.operation && after[i].requestId == id && after[i].status == Pending
      && after[i].orderCandidates == s.orderCandidates && after[i].clientCandidates == s.clientCandidates
      && after[i].symbol == (if symbol == "" && i < |records| then records[i].symbol else symbol)
      && after[i].createdAt == (if i < |records| then records[i].createdAt else now)
      && New(after[i]) && after[i].resolvedOrderId == after[i].resolvedTradeId == ""
      && after[i].resolvedAt.None? && after[i].lastSyncAt.None?
      && forall j :: 0 <= j < |records| && j != i ==> after[j] == records[j]
  {
    hide Strip, Upper;
  }

  /** What the symbol fallback could not choose between is counted. */
  lemma AmbiguityCounts(r: Record, orders: seq<Order>, trades: seq<Trade>, now: int)
    requires r.status == Pending && !MatchOf(r, orders, trades).Found() && r.symbol != ""
    requires |r.requestId| >= 2 && (r.requestId[..2] == "0x" || r.requestId[..2] == "0X")
    ensures var own, ownTrades := |Where(OrderSymbols(orders), r.symbol)|, |Where(TradeSymbols(trades), r.symbol)|;
            Synced(r, orders, trades, now).note.ambiguous
            == if own > 0 || ownTrades > 0 then Some((own, ownTrades)) else r.note.ambiguous
  {
    hide MatchOf, OrdersOf, TradesOf, Where;
    OrdersWhere(orders, r.symbol);
    TradesWhere(trades, r.symbol);
  }

  /** A failed sync of a pending record notes the error, and inside a running
      backoff nothing else; outside, the retry time is the delay from now. */
  lemma FailureNotes(r: Record, code: Code, now: int, maxErrors: nat)
    requires maxErrors >= 1 && r.status == Pending
    ensures var running := r.note.nextRetryAt.Some? && now < r.note.nextRetryAt.value;
            var s := SyncFailedFor(r, code, now, maxErrors);
      && s.note.lastCode == Some(code) && s.lastSyncAt == Some(now) && s.note.skipped == running
      && (running ==> s == r.(lastSyncAt := Some(now), updatedAt := now,
                              note := r.note.(lastCode := Some(code), skipped := true)))
      && (!running ==> s.note.errorCount == r.note.errorCount + 1
                       && (code == AuthFailed || code == InvalidPayload <==> s.note.retryAfter.None?)
                       && (s.note.nextRetryAt.Some? <==> s.note.retryAfter.Some?)
                       && (s.note.retryAfter.Some? ==> s.note.nextRetryAt == Some(now + s.note.retryAfter.value))
                       && (s.status == Expired <==> r.note.errorCount + 1 >= maxErrors)
                       && (s.status == Expired ==>
                             s.resolvedAt == Some(now) && s.note.expireReason == Some("sync_error_threshold_reached")))
  {
    hide Pow2;
  }

  /** A record expired for its age says when and why. */
  lemma ExpiryNotes(r: Record, now: int, ttl: int)
    ensures var a := Aged(r, now, ttl);
            if r.status == Pending && r.createdAt <= now - (if ttl >= 1 then ttl else 1) then
              a == r.(status := Expired, lastSyncAt := Some(now), resolvedAt := Some(now), updatedAt := now,
                      note := r.note.(expireReason := Some("pending_ttl_reached")))
            else a == r
  {
  }
}
