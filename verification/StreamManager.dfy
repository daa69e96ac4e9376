/** Subscription protocol between one exchange stream manager and its server.

    The manager keeps the symbols it wants, those it believes live, and the
    requests in flight.  After every message it synchronises: it asks for what
    is missing and releases what is no longer wanted.  Acknowledgements follow
    the Binance rules. */
module StreamManager {
  import opened Sequences

  datatype Action = Subscribe | Unsubscribe

  datatype Request = Request(action: Action, symbol: string)

  /** What the manager remembers about its connection. */
  datatype Link = Link(
    desired: set<string>,
    subscribed: set<string>,
    pendingSubscribes: set<string>,
    pendingUnsubscribes: set<string>,
    requests: map<nat, Request>,
    lastId: nat)

  function Send(s: Link, r: Request): Link {
    var s' := s.(requests := s.requests[s.lastId + 1 := r], lastId := s.lastId + 1);
    match r.action
    case Subscribe => s'.(pendingSubscribes := s.pendingSubscribes + {r.symbol})
    case Unsubscribe => s'.(pendingUnsubscribes := s.pendingUnsubscribes + {r.symbol})
  }

  function SendAll(s: Link, action: Action, symbols: seq<string>): Link {
    if symbols == [] then s
    else Send(SendAll(s, action, symbols[..|symbols| - 1]), Request(action, symbols[|symbols| - 1]))
  }

  function ToSubscribe(s: Link): set<string> {
    s.desired - s.subscribed - s.pendingSubscribes
  }

  function ToUnsubscribe(s: Link): set<string> {
    s.subscribed - s.desired - s.pendingUnsubscribes
  }

  /** Nothing is left to ask for or to release. */
  predicate Settled(s: Link) {
    ToSubscribe(s) == {} && ToUnsubscribe(s) == {}
  }

  /** Synchronising with its requests sent in the given order. */
  function Synced(s: Link, subs: seq<string>, unsubs: seq<string>): Link {
    SendAll(SendAll(s, Subscribe, subs), Unsubscribe, unsubs)
  }

  function MarkLive(s: Link, symbol: string): Link {
    var s' := s.(pendingSubscribes := s.pendingSubscribes - {symbol});
    if symbol in s.desired then s'.(subscribed := s.subscribed + {symbol})
    else if symbol in s.subscribed && symbol !in s.pendingUnsubscribes then Send(s', Request(Unsubscribe, symbol))
    else s'
  }

  function MarkUnsubscribed(s: Link, symbol: string): Link {
    s.(pendingUnsubscribes := s.pendingUnsubscribes - {symbol}, subscribed := s.subscribed - {symbol})
  }

  function EmitError(s: Link, symbol: string): Link {
    s.(pendingSubscribes := s.pendingSubscribes - {symbol}, pendingUnsubscribes := s.pendingUnsubscribes - {symbol})
  }

  /** A reply to request `id`.  Any reply whose result is null counts as success. */
  function Reply(s: Link, id: nat, resultNull: bool): Link {
    if id !in s.requests then s
    else
      var Request(action, symbol) := s.requests[id];
      var s' := s.(requests := s.requests - {id});
      if !resultNull then EmitError(s', symbol)
      else match action
        case Subscribe => MarkLive(s', symbol)
        case Unsubscribe => MarkUnsubscribed(s', symbol)
  }

  /** A new connection forgets everything but what is wanted. */
  function Reconnect(s: Link): Link {
    Link(s.desired, {}, {}, {}, map[], s.lastId)
  }

  const IDLE := Link({}, {}, {}, {}, map[], 0)

  // ----- The manager -----

  class ExchangeStreamManager {
    var desired: set<string>
    var subscribed: set<string>
    var pendingSubscribes: set<string>
    var pendingUnsubscribes: set<string>
    var requests: map<nat, Request>
    var requestId: nat

    function State(): Link
      reads this
    {
      Link(desired, subscribed, pendingSubscribes, pendingUnsubscribes, requests, requestId)
    }

    constructor ()
      ensures State() == IDLE
    {
      desired, subscribed, pendingSubscribes, pendingUnsubscribes := {}, {}, {}, {};
      requests, requestId := map[], 0;
    }

    method EnsureSymbol(symbol: string)
      modifies this
      ensures State() == old(State()).(desired := old(desired) + {symbol})
    {
      desired := desired + {symbol};
    }

    method ReleaseSymbol(symbol: string)
      modifies this
      ensures State() == old(State()).(desired := old(desired) - {symbol})
    {
      desired := desired - {symbol};
    }

    method SendSubscribe(symbol: string)
      modifies this
      ensures State() == Send(old(State()), Request(Subscribe, symbol))
    {
      requestId := requestId + 1;
      pendingSubscribes := pendingSubscribes + {symbol};
      requests := requests[requestId := Request(Subscribe, symbol)];
    }

    method SendUnsubscribe(symbol: string)
      modifies this
      ensures State() == Send(old(State()), Request(Unsubscribe, symbol))
    {
      requestId := requestId + 1;
      pendingUnsubscribes := pendingUnsubscribes + {symbol};
      requests := requests[requestId := Request(Unsubscribe, symbol)];
    }

    /** `_sync_subscriptions`, reporting the order in which it sent. */
    method SyncSubscriptions() returns (ghost subs: seq<string>, ghost unsubs: seq<string>)
      modifies this
      ensures Enumerates(subs, ToSubscribe(old(State()))) && Enumerates(unsubs, ToUnsubscribe(old(State())))
      ensures State() == Synced(old(State()), subs, unsubs)
    {
      hide Send;
      var toSubscribe := desired - subscribed - pendingSubscribes;
      var toUnsubscribe := subscribed - desired - pendingUnsubscribes;
      subs, unsubs := [], [];
      while toSubscribe != {}
        invariant toSubscribe <= ToSubscribe(old(State()))
        invariant Enumerates(subs, ToSubscribe(old(State())) - toSubscribe)
        invariant State() == SendAll(old(State()), Subscribe, subs)
        decreases toSubscribe
      {
        var symbol :| symbol in toSubscribe;
        SendSubscribe(symbol);
        assert (subs + [symbol])[..|subs|] == subs;
        subs := subs + [symbol];
        toSubscribe := toSubscribe - {symbol};
      }
      ghost var mid := State();
      while toUnsubscribe != {}
        invariant toUnsubscribe <= ToUnsubscribe(old(State()))
        invariant Enumerates(unsubs, ToUnsubscribe(old(State())) - toUnsubscribe)
        invariant State() == SendAll(mid, Unsubscribe, unsubs)
        decreases toUnsubscribe
      {
        var symbol :| symbol in toUnsubscribe;
        SendUnsubscribe(symbol);
        assert (unsubs + [symbol])[..|unsubs|] == unsubs;
        unsubs := unsubs + [symbol];
        toUnsubscribe := toUnsubscribe - {symbol};
      }
      assert ToSubscribe(old(State())) - toSubscribe == ToSubscribe(old(State()));
      assert ToUnsubscribe(old(State())) - toUnsubscribe == ToUnsubscribe(old(State()));
    }

    method MarkSymbolLive(symbol: string)
      modifies this
      ensures State() == MarkLive(old(State()), symbol)
    {
      pendingSubscribes := pendingSubscribes - {symbol};
      if symbol in desired {
        subscribed := subscribed + {symbol};
        return;
      }
      if symbol in subscribed && symbol !in pendingUnsubscribes {
        SendUnsubscribe(symbol);
      }
    }

    method HandleReply(id: nat, resultNull: bool)
      modifies this
      ensures State() == Reply(old(State()), id, resultNull)
    {
      if id !in requests {
        return;
      }
      var Request(action, symbol) := requests[id];
      requests := requests - {id};
      if resultNull && action == Subscribe {
        MarkSymbolLive(symbol);
      } else if resultNull && action == Unsubscribe {
        pendingUnsubscribes := pendingUnsubscribes - {symbol};
        subscribed := subscribed - {symbol};
      } else {
        pendingSubscribes := pendingSubscribes - {symbol};
        pendingUnsubscribes := pendingUnsubscribes - {symbol};
      }
    }

    method OnConnected()
      modifies this
      ensures State() == Reconnect(old(State()))
    {
      subscribed, pendingSubscribes, pendingUnsubscribes := {}, {}, {};
      requests := map[];
    }
  }

  // ----- What every step keeps -----

  ghost predicate InFlight(s: Link, r: Request) {
    exists id :: id in s.requests && s.requests[id] == r
  }

  /** Only live symbols are being released, only dead ones requested, and every
      pending symbol has its request in flight. */
  ghost predicate Inv(s: Link) {
    && s.pendingUnsubscribes <= s.subscribed
    && s.pendingSubscribes !! s.subscribed
    && (forall x :: x in s.pendingSubscribes ==> InFlight(s, Request(Subscribe, x)))
    && (forall x :: x in s.pendingUnsubscribes ==> InFlight(s, Request(Unsubscribe, x)))
    && (forall id :: id in s.requests ==> id <= s.lastId)
  }

  lemma SendKeepsInv(s: Link, r: Request)
    requires Inv(s)
    requires r.action == Subscribe ==> r.symbol !in s.subscribed
    requires r.action == Unsubscribe ==> r.symbol in s.subscribed
    ensures Inv(Send(s, r))
  {
    var s' := Send(s, r);
    assert s'.requests[s'.lastId] == r;
    forall q | InFlight(s, q) ensures InFlight(s', q) {
      var id :| id in s.requests && s.requests[id] == q;
      assert s'.requests[id] == q;
    }
  }

  lemma {:induction false} SendAllKeepsInv(s: Link, action: Action, symbols: seq<string>)
    requires Inv(s)
    requires forall x :: x in symbols ==> if action == Subscribe then x !in s.subscribed else x in s.subscribed
    ensures Inv(SendAll(s, action, symbols))
    ensures SendAll(s, action, symbols).subscribed == s.subscribed
    ensures SendAll(s, action, symbols).desired == s.desired
  {
    hide Inv;
    if symbols == [] {
    } else {
      var n := |symbols| - 1;
      SendAllKeepsInv(s, action, symbols[..n]);
      SendKeepsInv(SendAll(s, action, symbols[..n]), Request(action, symbols[n]));
    }
  }

  lemma SyncKeepsInv(s: Link, subs: seq<string>, unsubs: seq<string>)
    requires Inv(s) && Enumerates(subs, ToSubscribe(s)) && Enumerates(unsubs, ToUnsubscribe(s))
    ensures Inv(Synced(s, subs, unsubs))
    ensures Synced(s, subs, unsubs).desired == s.desired
    ensures Synced(s, subs, unsubs).subscribed == s.subscribed
  {
    hide Inv;
    SendAllKeepsInv(s, Subscribe, subs);
    SendAllKeepsInv(SendAll(s, Subscribe, subs), Unsubscribe, unsubs);
  }

  lemma {:induction false} SendAllPends(s: Link, action: Action, symbols: seq<string>)
    ensures var s' := SendAll(s, action, symbols);
      && s'.pendingSubscribes == s.pendingSubscribes + (if action == Subscribe then set x | x in symbols else {})
      && s'.pendingUnsubscribes == s.pendingUnsubscribes + (if action == Unsubscribe then set x | x in symbols else {})
      && s'.desired == s.desired && s'.subscribed == s.subscribed
  {
    if symbols == [] {
    } else {
      var n := |symbols| - 1;
      assert symbols == symbols[..n] + [symbols[n]];
      SendAllPends(s, action, symbols[..n]);
    }
  }

  /** After synchronising, nothing is left to send. */
  lemma SyncSettles(s: Link, subs: seq<string>, unsubs: seq<string>)
    requires Enumerates(subs, ToSubscribe(s)) && Enumerates(unsubs, ToUnsubscribe(s))
    ensures Settled(Synced(s, subs, unsubs))
  {
    SendAllPends(s, Subscribe, subs);
    SendAllPends(SendAll(s, Subscribe, subs), Unsubscribe, unsubs);
  }

  lemma DropRequestKeepsFlight(s: Link, id: nat, r: Request)
    requires id in s.requests && s.requests[id] != r && InFlight(s, r)
    ensures InFlight(s.(requests := s.requests - {id}), r)
  {
    var j :| j in s.requests && s.requests[j] == r;
    assert j in s.requests - {id};
  }

  lemma MarkLiveKeepsInv(s: Link, symbol: string)
    requires Inv(s)
    ensures Inv(MarkLive(s, symbol))
  {
    var s' := s.(pendingSubscribes := s.pendingSubscribes - {symbol});
    assert forall q :: InFlight(s, q) ==> InFlight(s', q);
    assert Inv(s');
    if symbol in s.desired {
      assert forall q :: InFlight(s, q) ==> InFlight(MarkLive(s, symbol), q);
    } else if symbol in s.subscribed && symbol !in s.pendingUnsubscribes {
      SendKeepsInv(s', Request(Unsubscribe, symbol));
    }
  }

  /** Dropping a request together with its symbol's pending mark. */
  lemma DropKeepsInv(s: Link, id: nat)
    requires Inv(s) && id in s.requests
    ensures var Request(action, symbol) := s.requests[id];
            var s' := s.(requests := s.requests - {id});
            && Inv(EmitError(s', symbol))
            && (action == Subscribe ==> Inv(s'.(pendingSubscribes := s.pendingSubscribes - {symbol})))
            && (action == Unsubscribe ==> Inv(MarkUnsubscribed(s', symbol)))
  {
    var Request(action, symbol) := s.requests[id];
    var s' := s.(requests := s.requests - {id});
    forall r | r != s.requests[id] && InFlight(s, r) ensures InFlight(s', r) {
      DropRequestKeepsFlight(s, id, r);
    }
    FlightOnlyReadsRequests(s', EmitError(s', symbol));
    FlightOnlyReadsRequests(s', s'.(pendingSubscribes := s.pendingSubscribes - {symbol}));
    FlightOnlyReadsRequests(s', MarkUnsubscribed(s', symbol));
  }

  lemma FlightOnlyReadsRequests(s: Link, t: Link)
    requires s.requests == t.requests
    ensures forall r :: InFlight(s, r) <==> InFlight(t, r)
  {
  }

  lemma ReplyKeepsInv(s: Link, id: nat, resultNull: bool)
    requires Inv(s)
    ensures Inv(Reply(s, id, resultNull))
  {
    if id in s.requests {
      hide Inv;
      DropKeepsInv(s, id);
      var Request(action, symbol) := s.requests[id];
      var s' := s.(requests := s.requests - {id});
      if resultNull && action == Subscribe {
        MarkLiveKeepsInv(s'.(pendingSubscribes := s.pendingSubscribes - {symbol}), symbol);
        assert s.pendingSubscribes - {symbol} - {symbol} == s.pendingSubscribes - {symbol};
      }
    }
  }

  /** Everything that can happen to a manager. */
  datatype Step =
    | Want(symbol: string)
    | Drop(symbol: string)
    | Sync(subs: seq<string>, unsubs: seq<string>)
    | Answer(id: nat, resultNull: bool)
    | TradeSeen(symbol: string)
    | Connected

  ghost predicate Enabled(s: Link, step: Step) {
    step.Sync? ==> Enumerates(step.subs, ToSubscribe(s)) && Enumerates(step.unsubs, ToUnsubscribe(s))
  }

  function Next(s: Link, step: Step): Link {
    match step
    case Want(x) => s.(desired := s.desired + {x})
    case Drop(x) => s.(desired := s.desired - {x})
    case Sync(subs, unsubs) => Synced(s, subs, unsubs)
    case Answer(id, resultNull) => Reply(s, id, resultNull)
    case TradeSeen(x) => MarkLive(s, x)
    case Connected => Reconnect(s)
  }

  function After(s: Link, steps: seq<Step>): Link {
    if steps == [] then s else Next(After(s, steps[..|steps| - 1]), steps[|steps| - 1])
  }

  ghost predicate Possible(s: Link, steps: seq<Step>) {
    forall i :: 0 <= i < |steps| ==> Enabled(After(s, steps[..i]), steps[i])
  }

  /** Over every run, the pending sets stay consistent with the live set and
      with the requests in flight. */
  lemma {:induction false} InvAlways(steps: seq<Step>)
    requires Possible(IDLE, steps)
    ensures Inv(After(IDLE, steps))
  {
    if steps == [] {
    } else {
      var n := |steps| - 1;
      var s := After(IDLE, steps[..n]);
      forall i | 0 <= i < n ensures Enabled(After(IDLE, steps[..n][..i]), steps[..n][i]) {
        assert steps[..n][..i] == steps[..i];
      }
      InvAlways(steps[..n]);
      assert Enabled(s, steps[n]);
      StepKeepsInv(s, steps[n]);
    }
  }

  lemma StepKeepsInv(s: Link, step: Step)
    requires Inv(s) && Enabled(s, step)
    ensures Inv(Next(s, step))
  {
    match step {
      case Want(x) => FlightOnlyReadsRequests(s, Next(s, step));
      case Drop(x) => FlightOnlyReadsRequests(s, Next(s, step));
      case Sync(subs, unsubs) => SyncKeepsInv(s, subs, unsubs);
      case Answer(id, resultNull) => ReplyKeepsInv(s, id, resultNull);
      case TradeSeen(x) => MarkLiveKeepsInv(s, x);
      case Connected =>
    }
  }
}
