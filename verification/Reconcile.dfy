/** Post-trade reconciliation of one account: pending records are matched
    against a sync's orders and trades, or put on backoff when it failed. */
module Reconcile {
  import opened Numbers
  import opened Sequences
  import opened Text

  datatype Status = Pending | Reconciled | Expired

  datatype Code = RateLimited | AuthFailed | UpstreamUnavailable | NetworkError | InvalidPayload | SyncFailed | Unknown

  /** The bookkeeping a record carries in its payload. */
  datatype Note = Note(
    errorCount: nat,
    lastCode: Option<Code>,
    nextRetryAt: Option<int>,
    retryAfter: Option<int>,
    skipped: bool,
    expireReason: Option<string>,
    matchedBy: string,
    matchedValue: string,
    ambiguous: Option<(nat, nat)>)

  datatype Operation = Submit | Cancel

  datatype Record = Record(
    status: Status,
    operation: Operation,
    requestId: string,
    symbol: string,
    orderCandidates: seq<string>,
    clientCandidates: seq<string>,
    resolvedOrderId: string,
    resolvedTradeId: string,
    lastSyncAt: Option<int>,
    resolvedAt: Option<int>,
    createdAt: int,
    updatedAt: int,
    note: Note)

  /** Synced rows; an empty identifier means the row carries none. */
  datatype Order = Order(orderId: string, clientId: string, symbol: string)

  /** `tradeNumber` is the trade id read as a number, or -1. */
  datatype Trade = Trade(orderId: string, symbol: string, tradeId: string, tradeNumber: int, rawTime: int)

  // ----- Recency of trades -----

  predicate StringAtMost(a: string, b: string) {
    a == "" || (b != "" && (a[0] < b[0] || (a[0] == b[0] && StringAtMost(a[1..], b[1..]))))
  }

  /** Trade `a` is at most as recent as `b`: by time, then number, then text. */
  predicate AtMostAsRecent(a: Trade, b: Trade) {
    var s, t := EpochMs(a.rawTime), EpochMs(b.rawTime);
    s < t || (s == t && (a.tradeNumber < b.tradeNumber
                         || (a.tradeNumber == b.tradeNumber && StringAtMost(a.tradeId, b.tradeId))))
  }

  lemma {:induction false} StringsCompare(a: string, b: string)
    ensures StringAtMost(a, b) || StringAtMost(b, a)
  {
    if a != "" && b != "" && a[0] == b[0] {
      StringsCompare(a[1..], b[1..]);
    }
  }

  lemma {:induction false} StringsChain(a: string, b: string, c: string)
    requires StringAtMost(a, b) && StringAtMost(b, c)
    ensures StringAtMost(a, c)
  {
    if a != "" && a[0] == b[0] && b[0] == c[0] {
      StringsChain(a[1..], b[1..], c[1..]);
    }
  }

  lemma RecencyTotal(a: Trade, b: Trade)
    ensures AtMostAsRecent(a, b) || AtMostAsRecent(b, a)
  {
    hide EpochMs;
    StringsCompare(a.tradeId, b.tradeId);
  }

  lemma RecencyChains(a: Trade, b: Trade, c: Trade)
    requires AtMostAsRecent(a, b) && AtMostAsRecent(b, c)
    ensures AtMostAsRecent(a, c)
  {
    hide EpochMs;
    if StringAtMost(a.tradeId, b.tradeId) && StringAtMost(b.tradeId, c.tradeId) {
      StringsChain(a.tradeId, b.tradeId, c.tradeId);
    }
  }

  // ----- Linear scans -----

  function FindOrder(orders: seq<Order>, id: string): Option<Order> {
    if orders == [] || id == "" then None
    else if orders[|orders| - 1].orderId == id then Some(orders[|orders| - 1])
    else FindOrder(orders[..|orders| - 1], id)
  }

  function FindByClient(orders: seq<Order>, id: string): Option<Order> {
    if orders == [] || id == "" then None
    else if orders[|orders| - 1].clientId == id then Some(orders[|orders| - 1])
    else FindByClient(orders[..|orders| - 1], id)
  }

  /** The most recent trade of an order; of equally recent ones the last. */
  function BestTrade(trades: seq<Trade>, id: string): Option<Trade> {
    if trades == [] || id == "" then None
    else
      var n := |trades| - 1;
      var best := BestTrade(trades[..n], id);
      if trades[n].orderId == id && (best.None? || AtMostAsRecent(best.value, trades[n])) then Some(trades[n]) else best
  }

  function OrdersOf(orders: seq<Order>, symbol: string): seq<Order> {
    if orders == [] then []
    else
      var n := |orders| - 1;
      OrdersOf(orders[..n], symbol) + (if orders[n].symbol == symbol then [orders[n]] else [])
  }

  function TradesOf(trades: seq<Trade>, symbol: string): seq<Trade> {
    if trades == [] then []
    else
      var n := |trades| - 1;
      TradesOf(trades[..n], symbol) + (if trades[n].symbol == symbol then [trades[n]] else [])
  }

  /** A found order, a found trade, and how they were found. */
  datatype Match = Match(order: Option<Order>, trade: Option<Trade>, how: string, value: string) {
    predicate Found() {
      order.Some? || trade.Some?
    }
  }

  const NO_MATCH := Match(None, None, "", "")

  function MatchByOrderId(candidates: seq<string>, orders: seq<Order>, trades: seq<Trade>): Match {
    if candidates == [] then NO_MATCH
    else
      var order, trade := FindOrder(orders, candidates[0]), BestTrade(trades, candidates[0]);
      if order.Some? || trade.Some? then Match(order, trade, "order_id_candidate", candidates[0])
      else MatchByOrderId(candidates[1..], orders, trades)
  }

  function MatchByClientId(candidates: seq<string>, orders: seq<Order>, trades: seq<Trade>): Match {
    if candidates == [] then NO_MATCH
    else
      var order := FindByClient(orders, candidates[0]);
      if order.Some? then
        Match(order, BestTrade(trades, order.value.orderId), "client_order_id_candidate", candidates[0])
      else MatchByClientId(candidates[1..], orders, trades)
  }

  /** A request still known only by its transaction hash. */
  predicate IsHash(requestId: string) {
    |requestId| >= 2 && requestId[0] == '0' && (requestId[1] == 'x' || requestId[1] == 'X')
  }

  function MatchBySymbol(symbol: string, orders: seq<Order>, trades: seq<Trade>): Match {
    var own, ownTrades := OrdersOf(orders, symbol), TradesOf(trades, symbol);
    var order := if |own| == 1 then Some(own[0]) else None;
    var trade := if |ownTrades| == 1 then Some(ownTrades[0]) else None;
    if order.Some? || trade.Some? then Match(order, trade, "tx_hash_symbol_fallback", symbol) else NO_MATCH
  }

  function MatchOf(r: Record, orders: seq<Order>, trades: seq<Trade>): Match {
    var byId := MatchByOrderId(r.orderCandidates, orders, trades);
    var byClient := if byId.Found() then byId else MatchByClientId(r.clientCandidates, orders, trades);
    if byClient.Found() || !IsHash(r.requestId) || r.symbol == "" then byClient
    else MatchBySymbol(r.symbol, orders, trades)
  }

  /** The counts noted when the symbol fallback could not choose. */
  function AmbiguityOf(r: Record, orders: seq<Order>, trades: seq<Trade>): Option<(nat, nat)> {
    var own, ownTrades := |OrdersOf(orders, r.symbol)|, |TradesOf(trades, r.symbol)|;
    if !MatchOf(r, orders, trades).Found() && IsHash(r.requestId) && r.symbol != "" && (own > 0 || ownTrades > 0)
    then Some((own, ownTrades)) else r.note.ambiguous
  }

  function Cleared(note: Note): Note {
    note.(errorCount := 0, lastCode := None, nextRetryAt := None, retryAfter := None)
  }

  function OrderIdOf(o: Option<Order>, t: Option<Trade>): string {
    if o.Some? then o.value.orderId else if t.Some? then t.value.orderId else ""
  }

  function TradeIdOf(t: Option<Trade>, known: string): string {
    if t.Some? && t.value.tradeId != "" then t.value.tradeId else known
  }

  /** A pending record after a successful sync. */
  function Synced(r: Record, orders: seq<Order>, trades: seq<Trade>, now: int): Record {
    var m := MatchOf(r, orders, trades);
    var note := Cleared(r.note).(ambiguous := AmbiguityOf(r, orders, trades));
    if !m.Found() then r.(lastSyncAt := Some(now), updatedAt := now, note := note)
    else
      r.(status := Reconciled, lastSyncAt := Some(now), updatedAt := now, resolvedAt := Some(now),
         resolvedOrderId := OrderIdOf(m.order, m.trade),
         resolvedTradeId := TradeIdOf(m.trade, r.resolvedTradeId),
         note := note.(matchedBy := m.how, matchedValue := m.value))
  }

  // ----- Backoff -----

  function Pow2(n: nat): nat {
    if n == 0 then 1 else 2 * Pow2(n - 1)
  }

  /** Seconds to wait after the `attempt`-th counted error; no hint for errors
      an operator has to resolve. */
  function RetryDelay(code: Code, attempt: nat): Option<int> {
    var doubling := Pow2(if attempt >= 1 then attempt - 1 else 0);
    match code
    case AuthFailed => None
    case InvalidPayload => None
    case RateLimited => Some(Min(300, 5 * doubling))
    case UpstreamUnavailable => Some(Min(120, 3 * doubling))
    case NetworkError => Some(Min(120, 3 * doubling))
    case SyncFailed => Some(Min(180, 10 * doubling))
    case Unknown => Some(Min(180, 10 * doubling))
  }

  const TOO_MANY_ERRORS := "sync_error_threshold_reached"

  /** A pending record after a failed sync. */
  function SyncFailedFor(r: Record, code: Code, now: int, maxErrors: nat): Record
    requires maxErrors >= 1
  {
    if r.note.nextRetryAt.Some? && r.note.nextRetryAt.value > now then
      r.(lastSyncAt := Some(now), updatedAt := now, note := r.note.(lastCode := Some(code), skipped := true))
    else
      var count := r.note.errorCount + 1;
      var delay := RetryDelay(code, count);
      var note := r.note.(skipped := false, errorCount := count, lastCode := Some(code), retryAfter := delay,
                          nextRetryAt := if delay.Some? then Some(now + delay.value) else None);
      if count >= maxErrors then
        r.(status := Expired, lastSyncAt := Some(now), updatedAt := now, resolvedAt := Some(now),
           note := note.(expireReason := Some(TOO_MANY_ERRORS)))
      else r.(lastSyncAt := Some(now), updatedAt := now, note := note)
  }

  // ----- Creation and age -----

  /** What a submitted or cancelled order asks to be reconciled; the candidates
      are the identifiers its payload carries. */
  datatype Submission = Submission(
    operation: Operation, requestId: string, symbol: string,
    orderCandidates: seq<string>, clientCandidates: seq<string>)

  const NO_NOTE := Note(0, None, None, None, false, None, "", "", None)

  predicate Answers(r: Record, operation: Operation, id: string) {
    r.operation == operation && r.requestId == id
  }

  /** Position of the record of a request, or the number of records. */
  function FindRequest(records: seq<Record>, operation: Operation, id: string): (i: nat)
    ensures i <= |records|
    ensures i < |records| ==> Answers(records[i], operation, id)
    ensures forall j :: 0 <= j < i ==> !Answers(records[j], operation, id)
  {
    if records == [] || Answers(records[0], operation, id) then 0
    else
      var i := 1 + FindRequest(records[1..], operation, id);
      assert forall j :: 0 < j < |records| ==> records[j] == records[1..][j - 1];
      i
  }

  /** An existing record asked for again: everything starts anew but its age. */
  function Resubmitted(r: Record, s: Submission, now: int): Record {
    var symbol := Upper(Strip(s.symbol));
    r.(status := Pending, symbol := if symbol != "" then symbol else r.symbol,
       orderCandidates := s.orderCandidates, clientCandidates := s.clientCandidates,
       resolvedOrderId := "", resolvedTradeId := "", lastSyncAt := None, resolvedAt := None,
       updatedAt := now, note := NO_NOTE)
  }

  function Opened(s: Submission, now: int): Record {
    Record(Pending, s.operation, Strip(s.requestId), Upper(Strip(s.symbol)), s.orderCandidates, s.clientCandidates,
           "", "", None, None, now, now, NO_NOTE)
  }

  function Created(records: seq<Record>, s: Submission, now: int): seq<Record> {
    var id := Strip(s.requestId);
    var i := FindRequest(records, s.operation, id);
    if id == "" then records
    else if i < |records| then records[i := Resubmitted(records[i], s, now)]
    else records + [Opened(s, now)]
  }

  const TOO_OLD := "pending_ttl_reached"

  /** Settings count as at least one second. */
  function Seconds(setting: int): (n: int)
    ensures n >= 1 && n >= setting
  {
    if setting >= 1 then setting else 1
  }

  predicate Stale(r: Record, now: int, ttl: int) {
    r.status == Pending && r.createdAt <= now - Seconds(ttl)
  }

  function Aged(r: Record, now: int, ttl: int): Record {
    if Stale(r, now, ttl) then
      r.(status := Expired, lastSyncAt := Some(now), resolvedAt := Some(now), updatedAt := now,
         note := r.note.(expireReason := Some(TOO_OLD)))
    else r
  }

  function CountStale(records: seq<Record>, now: int, ttl: int): nat {
    if records == [] then 0
    else
      var n := |records| - 1;
      CountStale(records[..n], now, ttl) + (if Stale(records[n], now, ttl) then 1 else 0)
  }

  predicate Outdated(r: Record, now: int, retention: int) {
    r.status == Expired && r.updatedAt <= now - Seconds(retention)
  }

  function Kept(records: seq<Record>, now: int, retention: int): seq<Record> {
    if records == [] then []
    else
      var n := |records| - 1;
      Kept(records[..n], now, retention) + (if Outdated(records[n], now, retention) then [] else [records[n]])
  }

  /** No two records answer the same request. */
  ghost predicate UniqueRequests(records: seq<Record>) {
    forall i, j :: 0 <= i < j < |records| ==> !Answers(records[j], records[i].operation, records[i].requestId)
  }

  // ----- The service on one account -----

  /** A record after `mark_sync_result`: only pending ones change; with an error
      they back off or expire, without one a linear scan decides their match. */
  function Marked(
    r: Record, orders: seq<Order>, trades: seq<Trade>, syncError: Option<Code>, now: int, maxErrors: nat): Record
    requires maxErrors >= 1
  {
    if r.status != Pending then r
    else if syncError.Some? then SyncFailedFor(r, syncError.value, now, maxErrors)
    else Synced(r, orders, trades, now)
  }

  /** Records gone from pending to reconciled. */
  function Transitions(before: seq<Record>, after: seq<Record>): nat
    requires |before| == |after|
  {
    if before == [] then 0
    else
      var n := |before| - 1;
      Transitions(before[..n], after[..n])
      + (if before[n].status == Pending && after[n].status == Reconciled then 1 else 0)
  }

  class ReconcileService {
    var records: seq<Record>

    ghost predicate Valid()
      reads this
    {
      UniqueRequests(records)
    }

    constructor ()
      ensures Valid() && records == []
    {
      records := [];
    }

    /** `create_pending_record` */
    method CreatePending(s: Submission, now: int)
      requires Valid()
      modifies this
      ensures Valid() && records == Created(old(records), s, now)
    {
      var id := Strip(s.requestId);
      CreatedKeepsUnique(records, s, now);
      if id == "" {
        return;
      }
      var i := FindRequest(records, s.operation, id);
      if i < |records| {
        records := records[i := Resubmitted(records[i], s, now)];
      } else {
        records := records + [Opened(s, now)];
      }
    }

    /** `expire_pending_records`; returns how many it expired. */
    method ExpirePending(now: int, ttl: int) returns (changed: nat)
      requires Valid()
      modifies this
      ensures Valid() && |records| == |old(records)|
      ensures forall i :: 0 <= i < |records| ==> records[i] == Aged(old(records)[i], now, ttl)
      ensures changed == CountStale(old(records), now, ttl)
    {
      hide Stale, Aged, UniqueRequests;
      changed := 0;
      for i := 0 to |records|
        invariant |records| == |old(records)|
        invariant forall j :: 0 <= j < i ==> records[j] == Aged(old(records)[j], now, ttl)
        invariant forall j :: i <= j < |records| ==> records[j] == old(records)[j]
        invariant changed == CountStale(old(records)[..i], now, ttl)
      {
        assert old(records)[..i + 1][..i] == old(records)[..i];
        AgedShape(records[i], now, ttl);
        if Stale(records[i], now, ttl) {
          records := records[i := Aged(records[i], now, ttl)];
          changed := changed + 1;
        }
      }
      assert old(records)[..|records|] == old(records);
      forall i | 0 <= i < |records| ensures SameRequest(old(records)[i], records[i]) {
        AgedShape(old(records)[i], now, ttl);
      }
      SameRequestsUnique(old(records), records);
    }

    /** `prune_expired_records`; returns how many it removed. */
    method PruneExpired(now: int, retention: int) returns (removed: nat)
      requires Valid()
      modifies this
      ensures Valid() && records == Kept(old(records), now, retention)
      ensures removed == |old(records)| - |records|
    {
      hide Outdated;
      var kept := [];
      removed := 0;
      for i := 0 to |records|
        invariant records == old(records)
        invariant kept == Kept(records[..i], now, retention) && removed == i - |kept|
      {
        assert records[..i + 1][..i] == records[..i];
        if Outdated(records[i], now, retention) {
          removed := removed + 1;
        } else {
          kept := kept + [records[i]];
        }
      }
      assert records[..|records|] == records;
      KeptIsExact(records, now, retention);
      records := kept;
    }

    /** `mark_sync_result`; returns how many records it reconciled. */
    method MarkSyncResult(orders: seq<Order>, trades: seq<Trade>, syncError: Option<Code>, now: int, maxErrors: nat)
      returns (reconciled: nat)
      requires maxErrors >= 1 && Valid()
      modifies this
      ensures Valid() && |records| == |old(records)|
      ensures forall i :: 0 <= i < |records| ==>
        records[i] == Marked(old(records)[i], orders, trades, syncError, now, maxErrors)
      ensures reconciled == Transitions(old(records), records)
    {
      hide SyncFailedFor, Synced, Marked, Transitions, UniqueRequests;
      var index := new SyncIndex(orders, trades);
      reconciled := 0;
      ghost var before := records;
      NoTransitions();
      for i := 0 to |records|
        invariant |records| == |before| && before == old(records)
        invariant fresh(index) && index.Indexes(orders, trades)
        invariant forall j :: i <= j < |records| ==> records[j] == before[j]
        invariant forall j :: 0 <= j < i ==>
          records[j] == Marked(before[j], orders, trades, syncError, now, maxErrors)
        invariant reconciled == Transitions(before[..i], records[..i])
      {
        var record := records[i];
        ghost var done := records[..i];
        MarkedAs(record, orders, trades, syncError, now, maxErrors);
        if record.status == Pending {
          if syncError.Some? {
            records := records[i := SyncFailedFor(record, syncError.value, now, maxErrors)];
          } else {
            var resolved := index.Resolve(record, orders, trades, now);
            records := records[i := resolved];
            if resolved.status == Reconciled {
              reconciled := reconciled + 1;
            }
          }
        }
        TransitionsTake(before[..i], done, record, records[i]);
        assert before[..i + 1] == before[..i] + [record] && records[..i + 1] == done + [records[i]];
      }
      assert before[..|records|] == before && records[..|records|] == records;
      forall i | 0 <= i < |records| ensures SameRequest(before[i], records[i]) {
        MarkedKeepsRequest(before[i], orders, trades, syncError, now, maxErrors);
      }
      SameRequestsUnique(before, records);
    }
  }

  predicate SameRequest(r: Record, r': Record) {
    r.operation == r'.operation && r.requestId == r'.requestId
  }

  lemma SameRequestsUnique(before: seq<Record>, after: seq<Record>)
    requires UniqueRequests(before) && |before| == |after|
    requires forall i :: 0 <= i < |before| ==> SameRequest(before[i], after[i])
    ensures UniqueRequests(after)
  {
  }

  lemma AgedShape(r: Record, now: int, ttl: int)
    ensures SameRequest(r, Aged(r, now, ttl))
    ensures !Stale(r, now, ttl) ==> Aged(r, now, ttl) == r
    ensures !Stale(Aged(r, now, ttl), now, ttl)
  {
  }

  lemma MarkedKeepsRequest(
    r: Record, orders: seq<Order>, trades: seq<Trade>, syncError: Option<Code>, now: int, maxErrors: nat)
    requires maxErrors >= 1
    ensures SameRequest(r, Marked(r, orders, trades, syncError, now, maxErrors))
  {
    hide MatchOf, AmbiguityOf, RetryDelay;
  }

  lemma CreatedKeepsUnique(records: seq<Record>, s: Submission, now: int)
    requires UniqueRequests(records)
    ensures UniqueRequests(Created(records, s, now))
  {
    hide Strip, Upper;
  }

  /** Pruning removes exactly the outdated records and keeps the order. */
  lemma {:induction false} KeptIsExact(records: seq<Record>, now: int, retention: int)
    ensures forall r :: r in Kept(records, now, retention) <==>
              r in records
              && !(r.status == Expired && r.updatedAt <= now - (if retention >= 1 then retention else 1))
    ensures UniqueRequests(records) ==> UniqueRequests(Kept(records, now, retention))
  {
    if records == [] {
    } else {
      var n := |records| - 1;
      assert records == records[..n] + [records[n]];
      KeptIsExact(records[..n], now, retention);
      if UniqueRequests(records) {
        forall i, j | 0 <= i < j < n
          ensures !Answers(records[..n][j], records[..n][i].operation, records[..n][i].requestId)
        {
          assert records[..n][j] == records[j] && records[..n][i] == records[i];
        }
        NewRequestUnique(records[..n], Kept(records[..n], now, retention), records[n]);
      }
    }
  }

  lemma NewRequestUnique(before: seq<Record>, kept: seq<Record>, r: Record)
    requires UniqueRequests(before + [r]) && UniqueRequests(kept)
    requires forall x :: x in kept ==> x in before
    ensures UniqueRequests(kept + [r])
  {
    forall i | 0 <= i < |kept| ensures !Answers(r, kept[i].operation, kept[i].requestId) {
      assert kept[i] in before;
      var k :| 0 <= k < |before| && before[k] == kept[i];
      assert (before + [r])[k] == kept[i] && (before + [r])[|before|] == r;
    }
  }

  lemma MarkedAs(r: Record, orders: seq<Order>, trades: seq<Trade>, syncError: Option<Code>, now: int, maxErrors: nat)
    requires maxErrors >= 1
    ensures var m := Marked(r, orders, trades, syncError, now, maxErrors);
            if r.status != Pending then m == r
            else if syncError.Some? then
              m == SyncFailedFor(r, syncError.value, now, maxErrors) && m.status != Reconciled
            else m == Synced(r, orders, trades, now)
  {
    hide Synced;
    if r.status == Pending && syncError.Some? {
      ErrorsDoNotReconcile(r, syncError.value, now, maxErrors);
    }
  }

  lemma NoTransitions()
    ensures Transitions([], []) == 0
  {
  }

  lemma TransitionsTake(before: seq<Record>, after: seq<Record>, r: Record, r': Record)
    requires |before| == |after|
    ensures Transitions(before + [r], after + [r'])
         == Transitions(before, after) + (if r.status == Pending && r'.status == Reconciled then 1 else 0)
  {
    assert (before + [r])[..|before|] == before && (after + [r'])[..|after|] == after;
  }

  lemma ErrorsDoNotReconcile(r: Record, code: Code, now: int, maxErrors: nat)
    requires maxErrors >= 1 && r.status == Pending
    ensures SyncFailedFor(r, code, now, maxErrors).status != Reconciled
  {
    hide RetryDelay;
  }

  lemma OrderScansTake(before: seq<Order>, row: Order)
    ensures forall id :: FindOrder(before + [row], id)
                      == if id != "" && row.orderId == id then Some(row) else FindOrder(before, id)
    ensures forall id :: FindByClient(before + [row], id)
                      == if id != "" && row.clientId == id then Some(row) else FindByClient(before, id)
    ensures forall s :: OrdersOf(before + [row], s)
                     == if row.symbol == s then OrdersOf(before, s) + [row] else OrdersOf(before, s)
  {
    assert (before + [row])[..|before|] == before;
  }

  lemma TradeScansTake(before: seq<Trade>, row: Trade)
    ensures forall id :: BestTrade(before + [row], id)
                      == if id != "" && row.orderId == id
                            && (BestTrade(before, id).None? || AtMostAsRecent(BestTrade(before, id).value, row))
                         then Some(row) else BestTrade(before, id)
    ensures forall s :: TradesOf(before + [row], s)
                     == if row.symbol == s then TradesOf(before, s) + [row] else TradesOf(before, s)
  {
    hide AtMostAsRecent;
    assert (before + [row])[..|before|] == before;
  }

  /** The dictionaries built once per sync. */
  class SyncIndex {
    var orderById: map<string, Order>
    var orderByClientId: map<string, Order>
    var tradeByOrderId: map<string, Trade>
    var symbolOrders: map<string, seq<Order>>
    var symbolTrades: map<string, seq<Trade>>

    function OrderById(id: string): Option<Order>
      reads this`orderById
    {
      if id in orderById then Some(orderById[id]) else None
    }

    function OrderByClientId(id: string): Option<Order>
      reads this`orderByClientId
    {
      if id in orderByClientId then Some(orderByClientId[id]) else None
    }

    function TradeByOrderId(id: string): Option<Trade>
      reads this`tradeByOrderId
    {
      if id in tradeByOrderId then Some(tradeByOrderId[id]) else None
    }

    function SymbolOrders(symbol: string): seq<Order>
      reads this`symbolOrders
    {
      if symbol in symbolOrders then symbolOrders[symbol] else []
    }

    function SymbolTrades(symbol: string): seq<Trade>
      reads this`symbolTrades
    {
      if symbol in symbolTrades then symbolTrades[symbol] else []
    }

    /** Every lookup answers what a scan of the rows would. */
    ghost predicate IndexesOrders(orders: seq<Order>)
      reads this`orderById, this`orderByClientId, this`symbolOrders
    {
      && (forall id :: OrderById(id) == FindOrder(orders, id))
      && (forall id :: OrderByClientId(id) == FindByClient(orders, id))
      && (forall s :: s != "" ==> SymbolOrders(s) == OrdersOf(orders, s))
    }

    ghost predicate IndexesTrades(trades: seq<Trade>)
      reads this`tradeByOrderId, this`symbolTrades
    {
      && (forall id :: TradeByOrderId(id) == BestTrade(trades, id))
      && (forall s :: s != "" ==> SymbolTrades(s) == TradesOf(trades, s))
    }

    ghost predicate Indexes(orders: seq<Order>, trades: seq<Trade>)
      reads this
    {
      IndexesOrders(orders) && IndexesTrades(trades)
    }

    constructor (orders: seq<Order>, trades: seq<Trade>)
      ensures Indexes(orders, trades)
    {
      orderById, orderByClientId, tradeByOrderId, symbolOrders, symbolTrades := map[], map[], map[], map[], map[];
      new;
      for i := 0 to |orders|
        invariant IndexesOrders(orders[..i])
        invariant tradeByOrderId == map[] && symbolTrades == map[]
      {
        AddOrder(orders[i], orders[..i]);
        assert orders[..i] + [orders[i]] == orders[..i + 1];
      }
      assert orders[..|orders|] == orders;
      for i := 0 to |trades|
        invariant IndexesOrders(orders) && IndexesTrades(trades[..i])
      {
        AddTrade(trades[i], trades[..i]);
        assert trades[..i] + [trades[i]] == trades[..i + 1];
      }
      assert trades[..|trades|] == trades;
    }

    method AddOrder(row: Order, ghost before: seq<Order>)
      requires IndexesOrders(before)
      modifies this`orderById, this`orderByClientId, this`symbolOrders
      ensures IndexesOrders(before + [row])
    {
      hide FindOrder, FindByClient, OrdersOf;
      OrderScansTake(before, row);
      if row.orderId != "" {
        orderById := orderById[row.orderId := row];
      }
      if row.clientId != "" {
        orderByClientId := orderByClientId[row.clientId := row];
      }
      if row.symbol != "" {
        symbolOrders := symbolOrders[row.symbol := SymbolOrders(row.symbol) + [row]];
      }
    }

    method AddTrade(row: Trade, ghost before: seq<Trade>)
      requires IndexesTrades(before)
      modifies this`tradeByOrderId, this`symbolTrades
      ensures IndexesTrades(before + [row])
    {
      hide AtMostAsRecent, BestTrade, TradesOf;
      if row.orderId != "" {
        var current := TradeByOrderId(row.orderId);
        if current.None? || AtMostAsRecent(current.value, row) {
          tradeByOrderId := tradeByOrderId[row.orderId := row];
        }
      }
      if row.symbol != "" {
        symbolTrades := symbolTrades[row.symbol := SymbolTrades(row.symbol) + [row]];
      }
      TradeScansTake(before, row);
    }

    /** The matching part of the loop body for one pending record. */
    method Resolve(record: Record, ghost orders: seq<Order>, ghost trades: seq<Trade>, now: int) returns (r: Record)
      requires Indexes(orders, trades)
      ensures r == Synced(record, orders, trades, now)
      ensures r.note.errorCount == 0 && r.note.nextRetryAt.None?
      ensures if MatchOf(record, orders, trades).Found() then r.status == Reconciled else r.status == record.status
    {
      hide FindOrder, FindByClient, BestTrade, OrdersOf, TradesOf;
      var m := NO_MATCH;
      var ambiguous := record.note.ambiguous;
      var i := 0;
      while i < |record.orderCandidates|
        invariant 0 <= i <= |record.orderCandidates| && m == NO_MATCH
        invariant MatchByOrderId(record.orderCandidates, orders, trades)
               == MatchByOrderId(record.orderCandidates[i..], orders, trades)
      {
        var candidate := record.orderCandidates[i];
        assert record.orderCandidates[i..][1..] == record.orderCandidates[i + 1..];
        var order, trade := OrderById(candidate), TradeByOrderId(candidate);
        if order.Some? || trade.Some? {
          m := Match(order, trade, "order_id_candidate", candidate);
          break;
        }
        i := i + 1;
      }
      assert m == MatchByOrderId(record.orderCandidates, orders, trades);
      if !m.Found() {
        i := 0;
        while i < |record.clientCandidates|
          invariant 0 <= i <= |record.clientCandidates| && m == NO_MATCH
          invariant MatchByClientId(record.clientCandidates, orders, trades)
                 == MatchByClientId(record.clientCandidates[i..], orders, trades)
        {
          var candidate := record.clientCandidates[i];
          assert record.clientCandidates[i..][1..] == record.clientCandidates[i + 1..];
          var order := OrderByClientId(candidate);
          if order.Some? {
            m := Match(order, TradeByOrderId(order.value.orderId), "client_order_id_candidate", candidate);
            break;
          }
          i := i + 1;
        }
        assert m == MatchByClientId(record.clientCandidates, orders, trades);
      }
      if !m.Found() && IsHash(record.requestId) && record.symbol != "" {
        var own, ownTrades := SymbolOrders(record.symbol), SymbolTrades(record.symbol);
        var order := if |own| == 1 then Some(own[0]) else None;
        var trade := if |ownTrades| == 1 then Some(ownTrades[0]) else None;
        if order.Some? || trade.Some? {
          m := Match(order, trade, "tx_hash_symbol_fallback", record.symbol);
        } else if own != [] || ownTrades != [] {
          ambiguous := Some((|own|, |ownTrades|));
        }
      }
      assert m == MatchOf(record, orders, trades);
      assert ambiguous == AmbiguityOf(record, orders, trades);
      var note := Cleared(record.note).(ambiguous := ambiguous);
      if !m.Found() {
        return record.(lastSyncAt := Some(now), updatedAt := now, note := note);
      }
      r := record.(
        status := Reconciled, lastSyncAt := Some(now), updatedAt := now, resolvedAt := Some(now),
        resolvedOrderId := OrderIdOf(m.order, m.trade),
        resolvedTradeId := TradeIdOf(m.trade, record.resolvedTradeId),
        note := note.(matchedBy := m.how, matchedValue := m.value));
    }
  }
}
