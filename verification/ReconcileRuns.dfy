/** What reconciliation promises: which rows a match picks, and how long a
    record survives a failing exchange. */
module ReconcileRuns {
  import opened Numbers
  import opened Sequences
  import opened Reconcile
  import opened Text

  // ----- Matching -----

  /** No trade of an order is more recent than the one kept for it. */
  lemma {:induction false} BestTradeIsNewest(trades: seq<Trade>, id: string)
    requires id != ""
    ensures var best := BestTrade(trades, id);
      && (best.None? <==> forall t :: t in trades ==> t.orderId != id)
      && (best.Some? ==> best.value in trades && best.value.orderId == id
                         && forall t :: t in trades && t.orderId == id ==> AtMostAsRecent(t, best.value))
  {
    hide AtMostAsRecent;
    if trades == [] {
    } else {
      var n := |trades| - 1;
      var before, row := BestTrade(trades[..n], id), trades[n];
      assert trades == trades[..n] + [row];
      BestTradeIsNewest(trades[..n], id);
      RecencyTotal(row, row);
      if before.Some? {
        RecencyTotal(before.value, row);
        forall t | t in trades[..n] && t.orderId == id && AtMostAsRecent(before.value, row)
          ensures AtMostAsRecent(t, row)
        {
          RecencyChains(t, before.value, row);
        }
      }
    }
  }

  /** No later trade of the order is at least as recent as the `i`-th. */
  ghost predicate Unbeaten(trades: seq<Trade>, id: string, i: nat)
    requires i < |trades|
  {
    forall j :: i < j < |trades| && trades[j].orderId == id ==> !AtMostAsRecent(trades[i], trades[j])
  }

  /** Of equally recent trades of an order the last synced one is kept. */
  lemma {:induction false} TiesGoToLast(trades: seq<Trade>, id: string) returns (i: nat)
    requires BestTrade(trades, id).Some?
    ensures i < |trades| && trades[i] == BestTrade(trades, id).value && Unbeaten(trades, id, i)
  {
    hide AtMostAsRecent;
    var n, best := |trades| - 1, BestTrade(trades, id).value;
    var before := trades[..n];
    if trades[n].orderId == id
       && (BestTrade(before, id).None? || AtMostAsRecent(BestTrade(before, id).value, trades[n])) {
      i := n;
    } else {
      i := TiesGoToLast(before, id);
      assert forall j :: 0 <= j < n ==> before[j] == trades[j];
    }
  }

  /** The order found by id is the last synced one that carries it. */
  lemma {:induction false} FindOrderFinds(orders: seq<Order>, id: string)
    requires id != ""
    ensures var found := FindOrder(orders, id);
      && (found.None? <==> forall o :: o in orders ==> o.orderId != id)
      && (found.Some? ==> exists i :: 0 <= i < |orders| && orders[i] == found.value && orders[i].orderId == id
                                      && forall j :: i < j < |orders| ==> orders[j].orderId != id)
  {
    if orders == [] {
    } else {
      var n := |orders| - 1;
      assert orders == orders[..n] + [orders[n]];
      FindOrderFinds(orders[..n], id);
      var found := FindOrder(orders, id);
      if found.Some? && orders[n].orderId != id {
        var i :| 0 <= i < n && orders[..n][i] == found.value && orders[..n][i].orderId == id
                 && forall j :: i < j < n ==> orders[..n][j].orderId != id;
        assert orders[i] == found.value;
        assert forall j :: i < j < n ==> orders[..n][j] == orders[j];
      }
    }
  }

  lemma {:induction false} FindByClientFinds(orders: seq<Order>, id: string)
    requires id != ""
    ensures var found := FindByClient(orders, id);
      && (found.None? <==> forall o :: o in orders ==> o.clientId != id)
      && (found.Some? ==> exists i :: 0 <= i < |orders| && orders[i] == found.value && orders[i].clientId == id
                                      && forall j :: i < j < |orders| ==> orders[j].clientId != id)
  {
    if orders == [] {
    } else {
      var n := |orders| - 1;
      assert orders == orders[..n] + [orders[n]];
      FindByClientFinds(orders[..n], id);
      var found := FindByClient(orders, id);
      if found.Some? && orders[n].clientId != id {
        var i :| 0 <= i < n && orders[..n][i] == found.value && orders[..n][i].clientId == id
                 && forall j :: i < j < n ==> orders[..n][j].clientId != id;
        assert orders[i] == found.value;
        assert forall j :: i < j < n ==> orders[..n][j] == orders[j];
      }
    }
  }

  /** Some synced order or trade carries this order id. */
  predicate Carried(id: string, orders: seq<Order>, trades: seq<Trade>) {
    (exists o :: o in orders && o.orderId == id) || (exists t :: t in trades && t.orderId == id)
  }

  /** The order-id search stops at the first candidate carried by a synced row. */
  lemma {:induction false} FirstCarriedCandidate(candidates: seq<string>, orders: seq<Order>, trades: seq<Trade>)
    requires "" !in candidates
    ensures var m := MatchByOrderId(candidates, orders, trades);
      && (m.Found() <==> exists i :: 0 <= i < |candidates| && Carried(candidates[i], orders, trades))
      && (m.Found() ==>
            m.how == "order_id_candidate"
            && m.order == FindOrder(orders, m.value) && m.trade == BestTrade(trades, m.value)
            && exists i :: 0 <= i < |candidates| && candidates[i] == m.value && Carried(m.value, orders, trades)
                           && forall j :: 0 <= j < i ==> !Carried(candidates[j], orders, trades))
  {
    hide AtMostAsRecent, FindOrder, BestTrade, Carried;
    if candidates == [] {
    } else {
      var first, rest := candidates[0], candidates[1..];
      CarriedIsFound(first, orders, trades);
      FirstCarriedCandidate(rest, orders, trades);
      var m := MatchByOrderId(candidates, orders, trades);
      if Carried(first, orders, trades) {
        assert candidates[0] == m.value;
      } else {
        assert forall j :: 0 < j < |candidates| ==> candidates[j] == rest[j - 1];
        if m.Found() {
          var i :| 0 <= i < |rest| && rest[i] == m.value && Carried(m.value, orders, trades)
                   && forall j :: 0 <= j < i ==> !Carried(rest[j], orders, trades);
          assert candidates[i + 1] == m.value;
        }
        if exists i :: 0 <= i < |candidates| && Carried(candidates[i], orders, trades) {
          var i :| 0 <= i < |candidates| && Carried(candidates[i], orders, trades);
          assert Carried(rest[i - 1], orders, trades);
        }
      }
    }
  }

  /** Some synced order carries this client id. */
  predicate ClientCarried(id: string, orders: seq<Order>) {
    exists o :: o in orders && o.clientId == id
  }

  /** The client-id search stops at the first candidate carried by a synced
      order, and takes that order with the newest trade of the order's own id. */
  lemma {:induction false} FirstCarriedClient(candidates: seq<string>, orders: seq<Order>, trades: seq<Trade>)
    requires "" !in candidates
    ensures var m := MatchByClientId(candidates, orders, trades);
      && (m.Found() <==> exists i :: 0 <= i < |candidates| && ClientCarried(candidates[i], orders))
      && (m.Found() ==>
            m.how == "client_order_id_candidate" && m.order.Some? && m.order == FindByClient(orders, m.value)
            && m.trade == BestTrade(trades, m.order.value.orderId)
            && exists i :: 0 <= i < |candidates| && candidates[i] == m.value && ClientCarried(m.value, orders)
                           && forall j :: 0 <= j < i ==> !ClientCarried(candidates[j], orders))
  {
    hide AtMostAsRecent, FindByClient, BestTrade, ClientCarried;
    if candidates == [] {
    } else {
      var first, rest := candidates[0], candidates[1..];
      ClientCarriedIsFound(first, orders);
      FirstCarriedClient(rest, orders, trades);
      var m := MatchByClientId(candidates, orders, trades);
      if ClientCarried(first, orders) {
        assert candidates[0] == m.value;
      } else {
        assert forall j :: 0 < j < |candidates| ==> candidates[j] == rest[j - 1];
        if m.Found() {
          var i :| 0 <= i < |rest| && rest[i] == m.value && ClientCarried(m.value, orders)
                   && forall j :: 0 <= j < i ==> !ClientCarried(rest[j], orders);
          assert candidates[i + 1] == m.value;
        }
        if exists i :: 0 <= i < |candidates| && ClientCarried(candidates[i], orders) {
          var i :| 0 <= i < |candidates| && ClientCarried(candidates[i], orders);
          assert ClientCarried(rest[i - 1], orders);
        }
      }
    }
  }

  lemma ClientCarriedIsFound(id: string, orders: seq<Order>)
    requires id != ""
    ensures ClientCarried(id, orders) <==> FindByClient(orders, id).Some?
  {
    FindByClientFinds(orders, id);
  }

  lemma CarriedIsFound(id: string, orders: seq<Order>, trades: seq<Trade>)
    requires id != ""
    ensures Carried(id, orders, trades) <==> FindOrder(orders, id).Some? || BestTrade(trades, id).Some?
  {
    FindOrderFinds(orders, id);
    BestTradeIsNewest(trades, id);
  }

  /** The hash fallback resolves only from the one order or the one trade of
      the symbol, and only after every candidate failed. */
  lemma FallbackOnlyWhenUnique(r: Record, orders: seq<Order>, trades: seq<Trade>)
    ensures var m := MatchOf(r, orders, trades);
      m.Found() && m.how == "tx_hash_symbol_fallback" ==>
        && IsHash(r.requestId) && r.symbol != "" && m.value == r.symbol
        && (m.order.Some? <==> |OrdersOf(orders, r.symbol)| == 1)
        && (m.trade.Some? <==> |TradesOf(trades, r.symbol)| == 1)
        && (m.order.Some? ==> OrdersOf(orders, r.symbol) == [m.order.value])
        && (m.trade.Some? ==> TradesOf(trades, r.symbol) == [m.trade.value])
        && !MatchByOrderId(r.orderCandidates, orders, trades).Found()
        && !MatchByClientId(r.clientCandidates, orders, trades).Found()
  {
    OtherMatchesNamed(r.orderCandidates, r.clientCandidates, orders, trades);
  }

  lemma {:induction false} OtherMatchesNamed(
    ids: seq<string>, clients: seq<string>, orders: seq<Order>, trades: seq<Trade>)
    decreases |ids| + |clients|
    ensures MatchByOrderId(ids, orders, trades).how in ["", "order_id_candidate"]
    ensures MatchByClientId(clients, orders, trades).how in ["", "client_order_id_candidate"]
  {
    hide FindOrder, FindByClient, BestTrade;
    if ids != [] {
      OtherMatchesNamed(ids[1..], clients, orders, trades);
    } else if clients != [] {
      OtherMatchesNamed(ids, clients[1..], orders, trades);
    }
  }

  // ----- Backoff over the life of a record -----

  datatype Failure = Failure(code: Code, at: int)

  /** What can happen to a record: a failed sync, a successful one, an age
      check, or the same request made again. */
  datatype Op =
    | Fail(f: Failure)
    | Sync(orders: seq<Order>, trades: seq<Trade>, now: int)
    | Age(now: int, ttl: int)
    | Again(s: Submission, now: int)

  function TimeOf(op: Op): int {
    match op
    case Fail(f) => f.at
    case Sync(_, _, now) => now
    case Age(now, _) => now
    case Again(_, now) => now
  }

  predicate Gated(r: Record, at: int) {
    r.note.nextRetryAt.Some? && r.note.nextRetryAt.value > at
  }

  function Lived(r: Record, op: Op, maxErrors: nat): Record
    requires maxErrors >= 1
  {
    match op
    case Fail(f) => Marked(r, [], [], Some(f.code), f.at, maxErrors)
    case Sync(orders, trades, now) => Marked(r, orders, trades, None, now, maxErrors)
    case Age(now, ttl) => Aged(r, now, ttl)
    case Again(s, now) => Resubmitted(r, s, now)
  }

  function Life(r: Record, ops: seq<Op>, maxErrors: nat): Record
    requires maxErrors >= 1
  {
    if ops == [] then r else Lived(Life(r, ops[..|ops| - 1], maxErrors), ops[|ops| - 1], maxErrors)
  }

  /** The failures counted after one more operation: a failure counts unless it
      falls into a backoff window, a success or a new request forgets them. */
  function CountedNext(s: Record, counted: seq<Failure>, op: Op): seq<Failure> {
    match op
    case Fail(f) => if s.status == Pending && !Gated(s, f.at) then counted + [f] else counted
    case Sync(_, _, _) => if s.status == Pending then [] else counted
    case Age(_, _) => counted
    case Again(_, _) => []
  }

  /** The failures counted since the last success or request. */
  function Counted(r: Record, ops: seq<Op>, maxErrors: nat): seq<Failure>
    requires maxErrors >= 1
  {
    if ops == [] then []
    else
      var n := |ops| - 1;
      CountedNext(Life(r, ops[..n], maxErrors), Counted(r, ops[..n], maxErrors), ops[n])
  }

  /** The wait imposed by the `attempt`-th counted failure. */
  function Wait(f: Failure, attempt: nat): (w: int)
    ensures w >= 0
  {
    PowPositive(if attempt >= 1 then attempt - 1 else 0);
    if RetryDelay(f.code, attempt).Some? then RetryDelay(f.code, attempt).value else 0
  }

  lemma PowPositive(n: nat)
    ensures Pow2(n) >= 1
  {
  }

  /** The waits of the first `k` counted failures. */
  function TotalWait(counted: seq<Failure>, k: nat): int
    requires k <= |counted|
  {
    if k == 0 then 0 else TotalWait(counted, k - 1) + Wait(counted[k - 1], k)
  }

  predicate New(r: Record) {
    r.status == Pending && r.note.errorCount == 0 && r.note.nextRetryAt.None? && r.note.expireReason.None?
  }

  predicate Clocked(ops: seq<Op>) {
    forall i, j :: 0 <= i < j < |ops| ==> TimeOf(ops[i]) <= TimeOf(ops[j])
  }

  /** Expired for its errors, not for its age. */
  predicate GaveUp(r: Record) {
    r.status == Expired && r.note.expireReason == Some(TOO_MANY_ERRORS)
  }

  ghost predicate Spaced(counted: seq<Failure>) {
    forall k :: 1 <= k < |counted| ==> counted[k].at >= counted[k - 1].at + Wait(counted[k - 1], k)
  }

  /** Counted failures are as many as the record says, each after the wait the
      previous one imposed, never more than the limit; the record gives up with
      the last one allowed. */
  ghost predicate Paced(s: Record, counted: seq<Failure>, maxErrors: nat) {
    && |counted| == s.note.errorCount <= maxErrors
    && (GaveUp(s) <==> |counted| == maxErrors)
    && (GaveUp(s) ==> counted != [] && s.resolvedAt == Some(counted[|counted| - 1].at))
    && Spaced(counted)
    && (s.status == Pending ==> s.note.expireReason.None?)
    && (s.status == Pending && counted != [] ==>
          var last := counted[|counted| - 1];
          s.note.nextRetryAt
          == if RetryDelay(last.code, |counted|).Some? then Some(last.at + Wait(last, |counted|)) else None)
    && (s.status == Pending && counted == [] ==> s.note.nextRetryAt.None?)
  }

  lemma SpacedNext(counted: seq<Failure>, f: Failure)
    requires Spaced(counted)
    requires counted != [] ==> f.at >= counted[|counted| - 1].at + Wait(counted[|counted| - 1], |counted|)
    ensures Spaced(counted + [f])
  {
    hide Wait;
  }

  lemma FailurePaced(s: Record, counted: seq<Failure>, f: Failure, maxErrors: nat)
    requires maxErrors >= 1 && Paced(s, counted, maxErrors)
    requires counted != [] ==> counted[|counted| - 1].at <= f.at
    ensures Paced(Lived(s, Fail(f), maxErrors), CountedNext(s, counted, Fail(f)), maxErrors)
  {
    hide RetryDelay, Spaced;
    if s.status == Pending && !Gated(s, f.at) {
      SpacedNext(counted, f);
      assert (counted + [f])[|counted|] == f;
    }
  }

  lemma SuccessPaced(s: Record, counted: seq<Failure>, op: Op, maxErrors: nat)
    requires maxErrors >= 1 && Paced(s, counted, maxErrors) && op.Sync?
    ensures Paced(Lived(s, op, maxErrors), CountedNext(s, counted, op), maxErrors)
  {
    hide MatchOf, AmbiguityOf;
  }

  lemma AgePaced(s: Record, counted: seq<Failure>, op: Op, maxErrors: nat)
    requires maxErrors >= 1 && Paced(s, counted, maxErrors) && (op.Age? || op.Again?)
    ensures Paced(Lived(s, op, maxErrors), CountedNext(s, counted, op), maxErrors)
  {
    hide RetryDelay, Wait, Seconds, Upper, Strip;
    assert TOO_OLD[0] != TOO_MANY_ERRORS[0];
  }

  lemma {:induction false} RunPaced(r: Record, ops: seq<Op>, maxErrors: nat)
    requires maxErrors >= 1 && New(r) && Clocked(ops)
    ensures Paced(Life(r, ops, maxErrors), Counted(r, ops, maxErrors), maxErrors)
    ensures forall f :: f in Counted(r, ops, maxErrors) ==> Fail(f) in ops
  {
    hide Paced, Lived;
    if ops == [] {
      NewPaced(r, maxErrors);
    } else {
      var n := |ops| - 1;
      RunPaced(r, ops[..n], maxErrors);
      var s, counted := Life(r, ops[..n], maxErrors), Counted(r, ops[..n], maxErrors);
      assert ops == ops[..n] + [ops[n]];
      match ops[n] {
        case Fail(f) =>
          if counted != [] {
            assert Fail(counted[|counted| - 1]) in ops[..n];
          }
          FailurePaced(s, counted, f, maxErrors);
        case Sync(_, _, _) => SuccessPaced(s, counted, ops[n], maxErrors);
        case Age(_, _) => AgePaced(s, counted, ops[n], maxErrors);
        case Again(_, _) => AgePaced(s, counted, ops[n], maxErrors);
      }
    }
  }

  lemma NewPaced(r: Record, maxErrors: nat)
    requires maxErrors >= 1 && New(r)
    ensures Paced(r, [], maxErrors)
  {
  }

  /** Whatever happens to a record, the same request made again included, it
      keeps the age of its first creation: the next age check expires it exactly
      when it is pending and was first created too long ago. */
  lemma {:induction false} AgeIsFirstCreation(r: Record, ops: seq<Op>, maxErrors: nat, now: int, ttl: int)
    requires maxErrors >= 1
    ensures var s := Life(r, ops, maxErrors);
      && s.createdAt == r.createdAt
      && (s.status == Pending ==>
            (Lived(s, Age(now, ttl), maxErrors).status == Expired
             <==> r.createdAt <= now - (if ttl >= 1 then ttl else 1)))
  {
    hide MatchOf, AmbiguityOf, RetryDelay;
    if ops == [] {
      assert Life(r, ops, maxErrors) == r;
    } else {
      AgeIsFirstCreation(r, ops[..|ops| - 1], maxErrors, now, ttl);
    }
  }

  /** A request made, or made again, starts with a clean record. */
  lemma RequestsStartNew(r: Record, s: Submission, now: int)
    ensures New(Resubmitted(r, s, now)) && New(Opened(s, now))
  {
    hide Strip, Upper;
  }

  lemma {:induction false} WaitsAddUp(counted: seq<Failure>, k: nat)
    requires 1 <= k <= |counted|
    requires Spaced(counted)
    ensures counted[k - 1].at - counted[0].at >= TotalWait(counted, k - 1)
  {
    hide Wait;
    if k > 1 {
      WaitsAddUp(counted, k - 1);
    }
  }

  /** Main result: whatever happens to a record, when it has given up after
      repeated sync errors it had, between the first counted error since its last
      success or request and its expiry, waited out every backoff but the last;
      it counted exactly the limit, and no error inside a backoff window. */
  lemma ExpiryTakesAllWaits(r: Record, ops: seq<Op>, maxErrors: nat)
    requires maxErrors >= 1 && New(r) && Clocked(ops)
    requires GaveUp(Life(r, ops, maxErrors))
    ensures var counted, e := Counted(r, ops, maxErrors), Life(r, ops, maxErrors);
      && |counted| == e.note.errorCount == maxErrors
      && e.resolvedAt == Some(counted[maxErrors - 1].at)
      && counted[maxErrors - 1].at - counted[0].at >= TotalWait(counted, maxErrors - 1)
  {
    hide Spaced, Paced, GaveUp, Life, Counted;
    RunPaced(r, ops, maxErrors);
    PacedToTheEnd(Life(r, ops, maxErrors), Counted(r, ops, maxErrors), maxErrors);
    WaitsAddUp(Counted(r, ops, maxErrors), maxErrors);
  }

  lemma PacedToTheEnd(s: Record, counted: seq<Failure>, maxErrors: nat)
    requires maxErrors >= 1 && Paced(s, counted, maxErrors) && GaveUp(s)
    ensures |counted| == s.note.errorCount == maxErrors && Spaced(counted)
    ensures s.resolvedAt == Some(counted[maxErrors - 1].at)
  {
    hide Spaced;
  }

  /** Base delay and cap of the codes that give a retry hint. */
  function Base(code: Code): nat {
    match code
    case RateLimited => 5
    case UpstreamUnavailable => 3
    case NetworkError => 3
    case SyncFailed => 10
    case Unknown => 10
    case AuthFailed => 0
    case InvalidPayload => 0
  }

  function Cap(code: Code): nat {
    match code
    case RateLimited => 300
    case UpstreamUnavailable => 120
    case NetworkError => 120
    case SyncFailed => 180
    case Unknown => 180
    case AuthFailed => 0
    case InvalidPayload => 0
  }

  function CappedSum(code: Code, k: nat): int {
    if k == 0 then 0 else CappedSum(code, k - 1) + Min(Cap(code), Base(code) * Pow2(k - 1))
  }

  lemma WaitIsCapped(f: Failure, k: nat)
    requires k >= 1
    ensures Wait(f, k) == Min(Cap(f.code), Base(f.code) * Pow2(k - 1))
  {
    hide Pow2;
    PowPositive(k - 1);
  }

  lemma {:induction false} SameCodeWaits(counted: seq<Failure>, code: Code, k: nat)
    requires k <= |counted| && forall i :: 0 <= i < |counted| ==> counted[i].code == code
    ensures TotalWait(counted, k) == CappedSum(code, k)
  {
    hide Wait, Cap, Base;
    if k > 0 {
      SameCodeWaits(counted, code, k - 1);
      WaitIsCapped(counted[k - 1], k);
    }
  }

  /** For one kind of error the time to expiry is at least the capped doubling sum. */
  lemma ExpiryOfOneCode(r: Record, ops: seq<Op>, code: Code, maxErrors: nat)
    requires maxErrors >= 1 && New(r) && Clocked(ops)
    requires forall f: Failure :: Fail(f) in ops ==> f.code == code
    requires GaveUp(Life(r, ops, maxErrors))
    ensures var counted := Counted(r, ops, maxErrors);
      |counted| == maxErrors && counted[maxErrors - 1].at - counted[0].at >= CappedSum(code, maxErrors - 1)
  {
    hide Paced;
    RunPaced(r, ops, maxErrors);
    ExpiryTakesAllWaits(r, ops, maxErrors);
    var counted := Counted(r, ops, maxErrors);
    forall i | 0 <= i < |counted| ensures counted[i].code == code {
      assert counted[i] in counted;
    }
    SameCodeWaits(counted, code, maxErrors - 1);
  }
}
