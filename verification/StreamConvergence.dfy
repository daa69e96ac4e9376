/** What the subscription protocol reaches, and how it relates to the set of
    symbols the server is really streaming. */
module StreamConvergence {
  import opened Sequences
  import opened StreamManager

  // ----- A measure that every acknowledgement shrinks -----

  /** Releases in flight for symbols wanted again: each costs one more request. */
  function Stale(s: Link): set<nat> {
    set id | id in s.requests && s.requests[id].action == Unsubscribe && s.requests[id].symbol in s.desired
  }

  function Measure(s: Link): nat {
    |s.requests| + |Stale(s)|
  }

  lemma {:induction false} ListsSize(xs: seq<string>, symbols: set<string>)
    requires Enumerates(xs, symbols)
    ensures |xs| == |symbols|
  {
    if xs == [] {
      assert symbols == {};
    } else {
      var n := |xs| - 1;
      assert xs == xs[..n] + [xs[n]];
      ListsSize(xs[..n], symbols - {xs[n]});
    }
  }

  lemma ListsAtMostOne(xs: seq<string>, symbols: set<string>, x: string)
    requires Enumerates(xs, symbols) && symbols <= {x}
    ensures xs == if symbols == {} then [] else [x]
  {
    ListsSize(xs, symbols);
    if symbols != {} {
      assert symbols == {x};
      assert xs[0] in xs;
    }
  }

  lemma DropShrinks(s: Link, id: nat)
    requires id in s.requests
    ensures var s' := s.(requests := s.requests - {id});
            Measure(s') == Measure(s) - (if id in Stale(s) then 2 else 1)
  {
    var s' := s.(requests := s.requests - {id});
    assert s'.requests.Keys == s.requests.Keys - {id};
    assert |s'.requests| == |s'.requests.Keys| && |s.requests| == |s.requests.Keys|;
    assert Stale(s') == Stale(s) - {id};
  }

  lemma OneSubscribeCosts(s: Link, x: string)
    requires forall id :: id in s.requests ==> id <= s.lastId
    ensures Measure(Send(s, Request(Subscribe, x))) == Measure(s) + 1
  {
    var s' := Send(s, Request(Subscribe, x));
    FreshKeyAdds(s.requests, s.lastId + 1, Request(Subscribe, x));
    forall id ensures id in Stale(s') <==> id in Stale(s) {
    }
    assert Stale(s') == Stale(s);
  }

  lemma FreshKeyAdds(m: map<nat, Request>, id: nat, r: Request)
    requires id !in m
    ensures |m[id := r]| == |m| + 1
  {
    assert m[id := r].Keys == m.Keys + {id};
    assert |m[id := r]| == |m[id := r].Keys| && |m| == |m.Keys|;
  }

  /** What is left to send after one acknowledgement from a settled state. */
  lemma AckLeaves(s: Link, id: nat)
    requires Inv(s) && Settled(s) && id in s.requests
    ensures var Request(action, symbol) := s.requests[id];
            var t := Reply(s, id, true);
            && ToUnsubscribe(t) == {} && t.requests == s.requests - {id} && t.desired == s.desired
            && (forall j :: j in t.requests ==> j <= t.lastId)
            && ToSubscribe(t) <= (if id in Stale(s) then {symbol} else {})
  {
    var Request(action, symbol) := s.requests[id];
    var t := Reply(s, id, true);
    assert symbol !in ToUnsubscribe(s);
    forall x | x in ToSubscribe(t) ensures x == symbol && id in Stale(s) {
      assert x !in ToSubscribe(s);
    }
    forall x | x in t.subscribed ensures x in t.desired || x in t.pendingUnsubscribes {
      assert x !in ToUnsubscribe(s);
    }
  }

  lemma OneUnsubscribeCosts(s: Link, x: string)
    requires x !in s.desired && forall id :: id in s.requests ==> id <= s.lastId
    ensures Measure(Send(s, Request(Unsubscribe, x))) == Measure(s) + 1
  {
    var s' := Send(s, Request(Unsubscribe, x));
    FreshKeyAdds(s.requests, s.lastId + 1, Request(Unsubscribe, x));
    assert Stale(s') == Stale(s);
  }

  /** What is left to send after one refusal from a settled state: at most the
      refused symbol, once. */
  lemma RefusalLeaves(s: Link, id: nat)
    requires Inv(s) && Settled(s) && id in s.requests
    ensures var symbol, t := s.requests[id].symbol, Reply(s, id, false);
            && t.requests == s.requests - {id} && t.desired == s.desired
            && (forall j :: j in t.requests ==> j <= t.lastId)
            && ToSubscribe(t) <= {symbol} && ToUnsubscribe(t) <= {symbol}
            && (ToSubscribe(t) == {} || ToUnsubscribe(t) == {})
            && (ToUnsubscribe(t) != {} ==> symbol !in t.desired)
  {
    var symbol, t := s.requests[id].symbol, Reply(s, id, false);
    forall x | x in ToSubscribe(t) || x in ToUnsubscribe(t) ensures x == symbol {
      assert x !in ToSubscribe(s) && x !in ToUnsubscribe(s);
    }
  }

  /** A message handled, followed by a synchronisation: a request in flight
      acknowledged with a null result, a request refused, a trade, or nothing.
      A reply to no request in flight is ignored, whatever it carries. */
  datatype Round =
    | Ack(id: nat, subs: seq<string>, unsubs: seq<string>)
    | Refused(id: nat, subs: seq<string>, unsubs: seq<string>)
    | Seen(symbol: string, subs: seq<string>, unsubs: seq<string>)
    | Woken(subs: seq<string>, unsubs: seq<string>)

  function Handled(s: Link, r: Round): Link {
    match r
    case Ack(id, _, _) => Reply(s, id, true)
    case Refused(id, _, _) => Reply(s, id, false)
    case Seen(x, _, _) => MarkLive(s, x)
    case Woken(_, _) => s
  }

  ghost predicate CanRound(s: Link, r: Round) {
    && (r.Ack? ==> r.id in s.requests)
    && Enumerates(r.subs, ToSubscribe(Handled(s, r)))
    && Enumerates(r.unsubs, ToUnsubscribe(Handled(s, r)))
  }

  function Rounded(s: Link, r: Round): Link {
    Synced(Handled(s, r), r.subs, r.unsubs)
  }

  lemma AckShrinks(s: Link, r: Round)
    requires Inv(s) && Settled(s) && r.Ack? && CanRound(s, r)
    ensures Measure(Rounded(s, r)) < Measure(s)
  {
    hide Inv, Settled, Reply, Measure, Stale;
    var t := Handled(s, r);
    var x := s.requests[r.id].symbol;
    AckLeaves(s, r.id);
    DropShrinks(s, r.id);
    MeasureReads(s.(requests := s.requests - {r.id}), t);
    ListsAtMostOne(r.subs, ToSubscribe(t), x);
    ListsAtMostOne(r.unsubs, ToUnsubscribe(t), x);
    if r.subs != [] {
      OneSend(t, Request(Subscribe, x));
      OneSubscribeCosts(t, x);
    }
  }

  /** A refused request makes room for at most one new request. */
  lemma RefusalDoesNotGrow(s: Link, r: Round)
    requires Inv(s) && Settled(s) && r.Refused? && r.id in s.requests && CanRound(s, r)
    ensures Measure(Rounded(s, r)) <= Measure(s)
  {
    hide Inv, Settled, Reply, Measure, Stale;
    var t := Handled(s, r);
    var x := s.requests[r.id].symbol;
    RefusalLeaves(s, r.id);
    DropShrinks(s, r.id);
    MeasureReads(s.(requests := s.requests - {r.id}), t);
    ListsAtMostOne(r.subs, ToSubscribe(t), x);
    ListsAtMostOne(r.unsubs, ToUnsubscribe(t), x);
    if r.subs != [] {
      OneSend(t, Request(Subscribe, x));
      OneSubscribeCosts(t, x);
    } else if r.unsubs != [] {
      OneSend(t, Request(Unsubscribe, x));
      OneUnsubscribeCosts(t, x);
    }
  }

  lemma OneSend(s: Link, r: Request)
    ensures SendAll(s, r.action, [r.symbol]) == Send(s, r)
  {
    assert [r.symbol][..0] == [];
  }

  lemma OtherRoundsKeepRequests(s: Link, r: Round)
    requires Inv(s) && Settled(s) && CanRound(s, r)
    requires !r.Ack? && (r.Refused? ==> r.id !in s.requests)
    ensures Rounded(s, r).requests == s.requests && Rounded(s, r).desired == s.desired
  {
    var t := Handled(s, r);
    assert ToSubscribe(t) == {} && ToUnsubscribe(t) == {} && t.requests == s.requests by {
      forall x ensures x !in ToSubscribe(t) && x !in ToUnsubscribe(t) && t.requests == s.requests {
        assert x !in ToSubscribe(s) && x !in ToUnsubscribe(s);
        if r.Seen? {
          assert r.symbol !in ToUnsubscribe(s);
        }
      }
    }
    ListsAtMostOne(r.subs, {}, "");
    ListsAtMostOne(r.unsubs, {}, "");
  }

  lemma RoundKeeps(s: Link, r: Round)
    requires Inv(s) && Settled(s) && CanRound(s, r)
    ensures Inv(Rounded(s, r)) && Settled(Rounded(s, r)) && Rounded(s, r).desired == s.desired
    ensures Measure(Rounded(s, r)) + (if r.Ack? then 1 else 0) <= Measure(s)
  {
    hide Inv, Settled, Measure;
    var t := Handled(s, r);
    HandledKeeps(s, r);
    SyncKeepsInv(t, r.subs, r.unsubs);
    SyncSettles(t, r.subs, r.unsubs);
    if r.Ack? {
      AckShrinks(s, r);
    } else if r.Refused? && r.id in s.requests {
      RefusalDoesNotGrow(s, r);
    } else {
      OtherRoundsKeepRequests(s, r);
      MeasureReads(s, Rounded(s, r));
    }
  }

  lemma HandledKeeps(s: Link, r: Round)
    requires Inv(s)
    ensures Inv(Handled(s, r)) && Handled(s, r).desired == s.desired
  {
    match r {
      case Ack(id, _, _) => ReplyKeepsInv(s, id, true);
      case Refused(id, _, _) => ReplyKeepsInv(s, id, false);
      case Seen(x, _, _) => MarkLiveKeepsInv(s, x);
      case Woken(_, _) =>
    }
  }

  lemma MeasureReads(s: Link, t: Link)
    requires s.requests == t.requests && s.desired == t.desired
    ensures Measure(s) == Measure(t)
  {
    assert Stale(s) == Stale(t);
  }

  function RoundsFrom(s: Link, rs: seq<Round>): Link {
    if rs == [] then s else Rounded(RoundsFrom(s, rs[..|rs| - 1]), rs[|rs| - 1])
  }

  ghost predicate CanRounds(s: Link, rs: seq<Round>) {
    rs == [] || (CanRounds(s, rs[..|rs| - 1]) && CanRound(RoundsFrom(s, rs[..|rs| - 1]), rs[|rs| - 1]))
  }

  function Acks(rs: seq<Round>): nat {
    if rs == [] then 0 else Acks(rs[..|rs| - 1]) + (if rs[|rs| - 1].Ack? then 1 else 0)
  }

  /** Nothing pending, and live is exactly what is wanted. */
  predicate Converged(s: Link) {
    s.subscribed == s.desired && s.pendingSubscribes == {} && s.pendingUnsubscribes == {} && s.requests == map[]
  }

  lemma NothingInFlight(s: Link)
    requires Inv(s) && Settled(s) && s.requests == map[]
    ensures Converged(s)
  {
    forall x ensures x !in s.pendingSubscribes && x !in s.pendingUnsubscribes {
      assert !InFlight(s, Request(Subscribe, x)) && !InFlight(s, Request(Unsubscribe, x));
    }
    forall x ensures x in s.subscribed <==> x in s.desired {
      assert x !in ToSubscribe(s) && x !in ToUnsubscribe(s);
    }
  }

  lemma NoMeasureNoRequests(s: Link)
    requires Measure(s) == 0
    ensures s.requests == map[]
  {
    assert |s.requests| == 0;
  }

  /** Main result: with the wanted set fixed, acknowledgements, refusals, trades
      and wake-ups in any order spend at most `Measure(s)` acknowledgements; whenever no
      request is left, and at the latest when that many were received, live is
      exactly what is wanted with nothing pending. */
  lemma {:induction false} Converges(s: Link, rs: seq<Round>)
    requires Inv(s) && Settled(s) && CanRounds(s, rs)
    ensures var e := RoundsFrom(s, rs);
      && e.desired == s.desired && Inv(e) && Settled(e)
      && Acks(rs) + Measure(e) <= Measure(s)
      && (e.requests == map[] ==> Converged(e))
      && (Acks(rs) == Measure(s) ==> Converged(e))
  {
    hide Inv, Settled, Measure, CanRound, Rounded;
    if rs == [] {
    } else {
      var n := |rs| - 1;
      Converges(s, rs[..n]);
      RoundKeeps(RoundsFrom(s, rs[..n]), rs[n]);
    }
    var e := RoundsFrom(s, rs);
    if e.requests == map[] {
      NothingInFlight(e);
    }
    if Acks(rs) == Measure(s) {
      NoMeasureNoRequests(e);
      NothingInFlight(e);
    }
  }

  /** A trade or a confirmation makes a wanted symbol live; a live one no longer
      wanted is being released at once, and one never live is left alone. */
  lemma LiveOrReleased(s: Link, x: string)
    requires Inv(s)
    ensures var t := MarkLive(s, x);
      && x !in t.pendingSubscribes
      && (x in s.desired ==> x in t.subscribed && t.requests == s.requests)
      && (x !in s.desired && x in s.subscribed ==>
            x in t.pendingUnsubscribes && InFlight(t, Request(Unsubscribe, x)))
      && (x !in s.desired && x !in s.subscribed ==> x !in t.subscribed && t.requests == s.requests)
      && t.subscribed - {x} == s.subscribed - {x} && t.desired == s.desired
  {
    MarkLiveKeepsInv(s, x);
  }

  // ----- Wishes and reconnections -----

  /** Everything that can happen to a running manager, each followed by a
      synchronisation: a message, a wish or its end, a new connection. */
  datatype Event =
    | Message(r: Round)
    | Wish(symbol: string, subs: seq<string>, unsubs: seq<string>)
    | Unwish(symbol: string, subs: seq<string>, unsubs: seq<string>)
    | Connection(subs: seq<string>, unsubs: seq<string>)

  function Changed(s: Link, e: Event): Link {
    match e
    case Message(r) => Handled(s, r)
    case Wish(x, _, _) => Next(s, Want(x))
    case Unwish(x, _, _) => Next(s, Drop(x))
    case Connection(_, _) => Next(s, Connected)
  }

  function SubsOf(e: Event): seq<string> {
    match e
    case Message(r) => r.subs
    case Wish(_, subs, _) => subs
    case Unwish(_, subs, _) => subs
    case Connection(subs, _) => subs
  }

  function UnsubsOf(e: Event): seq<string> {
    match e
    case Message(r) => r.unsubs
    case Wish(_, _, unsubs) => unsubs
    case Unwish(_, _, unsubs) => unsubs
    case Connection(_, unsubs) => unsubs
  }

  ghost predicate CanHappen(s: Link, e: Event) {
    && (e.Message? && e.r.Ack? ==> e.r.id in s.requests)
    && Enumerates(SubsOf(e), ToSubscribe(Changed(s, e)))
    && Enumerates(UnsubsOf(e), ToUnsubscribe(Changed(s, e)))
  }

  function Happened(s: Link, e: Event): Link {
    Synced(Changed(s, e), SubsOf(e), UnsubsOf(e))
  }

  function Lived(es: seq<Event>): Link {
    if es == [] then IDLE else Happened(Lived(es[..|es| - 1]), es[|es| - 1])
  }

  ghost predicate CanLive(es: seq<Event>) {
    es == [] || (CanLive(es[..|es| - 1]) && CanHappen(Lived(es[..|es| - 1]), es[|es| - 1]))
  }

  /** The symbols wished for and not given up since, whatever messages and
      connections came between. */
  function Wished(es: seq<Event>): set<string> {
    if es == [] then {}
    else
      var before := Wished(es[..|es| - 1]);
      match es[|es| - 1]
      case Wish(x, _, _) => before + {x}
      case Unwish(x, _, _) => before - {x}
      case Message(_) => before
      case Connection(_, _) => before
  }

  lemma HappenedKeeps(s: Link, e: Event)
    requires Inv(s) && CanHappen(s, e)
    ensures Inv(Happened(s, e)) && Settled(Happened(s, e)) && Happened(s, e).desired == Changed(s, e).desired
  {
    hide Settled;
    assert Inv(Changed(s, e)) by {
      match e {
        case Message(r) => HandledKeeps(s, r);
        case Wish(x, _, _) => StepKeepsInv(s, Want(x));
        case Unwish(x, _, _) => StepKeepsInv(s, Drop(x));
        case Connection(_, _) => StepKeepsInv(s, Connected);
      }
    }
    SyncKeepsInv(Changed(s, e), SubsOf(e), UnsubsOf(e));
    SyncSettles(Changed(s, e), SubsOf(e), UnsubsOf(e));
  }

  /** Over every run, connections lost and made included, the manager wants
      exactly what was wished for. */
  lemma {:induction false} LivedWants(es: seq<Event>)
    requires CanLive(es)
    ensures Inv(Lived(es)) && Settled(Lived(es)) && Lived(es).desired == Wished(es)
  {
    hide Inv, Settled, Enumerates;
    if es == [] {
      IdleSettled();
    } else {
      var n := |es| - 1;
      LivedWants(es[..n]);
      var s, e := Lived(es[..n]), es[n];
      HappenedKeeps(s, e);
      if e.Message? {
        HandledKeeps(s, e.r);
      }
    }
  }

  lemma IdleSettled()
    ensures Inv(IDLE) && Settled(IDLE)
  {
  }

  /** Main result over reconnections: after any run, as soon as nothing is in
      flight, and at the latest when as many acknowledgements came in as the
      measure says, live is exactly what was wished for, with nothing pending. */
  lemma WishesComeTrue(es: seq<Event>, rs: seq<Round>)
    requires CanLive(es) && CanRounds(Lived(es), rs)
    ensures var e := RoundsFrom(Lived(es), rs);
      && e.desired == Wished(es)
      && (e.requests == map[] || Acks(rs) == Measure(Lived(es)) ==>
            e.subscribed == Wished(es) && e.pendingSubscribes == {} && e.pendingUnsubscribes == {})
  {
    hide Inv, Settled, Measure, CanRounds, RoundsFrom;
    LivedWants(es);
    Converges(Lived(es), rs);
  }

  /** A new connection asks, once each, for exactly the symbols wanted before it,
      and releases none; a reply to a request of an earlier one is ignored. */
  lemma ConnectionAsksAgain(s: Link, subs: seq<string>, unsubs: seq<string>, late: nat, resultNull: bool)
    requires Inv(s) && CanHappen(s, Connection(subs, unsubs))
    ensures var e := Happened(s, Connection(subs, unsubs));
      && e.desired == s.desired && e.subscribed == {} && e.pendingUnsubscribes == {}
      && e.pendingSubscribes == s.desired && unsubs == [] && Enumerates(subs, s.desired)
      && (forall x :: x in s.desired ==> InFlight(e, Request(Subscribe, x)))
      && (forall id :: id in e.requests ==>
            id > s.lastId && e.requests[id].action == Subscribe && e.requests[id].symbol in s.desired)
      && (late <= s.lastId ==> Reply(e, late, resultNull) == e)
  {
    hide Enumerates, Inv;
    var r := Reconnect(s);
    assert ToSubscribe(r) == s.desired && ToUnsubscribe(r) == {};
    ListsAtMostOne(unsubs, {}, "");
    SendAllPends(r, Subscribe, subs);
    HappenedKeeps(s, Connection(subs, unsubs));
    SentAfter(r, subs);
    EnumeratesMembers(subs, s.desired);
    var e := Happened(s, Connection(subs, unsubs));
    assert SendAll(SendAll(r, Subscribe, subs), Unsubscribe, []) == SendAll(r, Subscribe, subs);
    PendingInFlight(e);
  }

  lemma EnumeratesMembers(xs: seq<string>, symbols: set<string>)
    requires Enumerates(xs, symbols)
    ensures (set x | x in xs) == symbols
    ensures forall x :: x in xs <==> x in symbols
  {
  }

  lemma PendingInFlight(s: Link)
    requires Inv(s)
    ensures forall x :: x in s.pendingSubscribes ==> InFlight(s, Request(Subscribe, x))
  {
  }

  /** Requests are numbered after all earlier ones. */
  lemma {:induction false} SentAfter(s: Link, symbols: seq<string>)
    requires s.requests == map[]
    ensures var e := SendAll(s, Subscribe, symbols);
      && e.lastId >= s.lastId
      && forall id :: id in e.requests ==>
           id > s.lastId && e.requests[id].action == Subscribe && e.requests[id].symbol in symbols
  {
    if symbols == [] {
    } else {
      var n := |symbols| - 1;
      SentAfter(s, symbols[..n]);
      assert symbols == symbols[..n] + [symbols[n]];
    }
  }

  // ----- The server's side -----

  /** A manager and the symbols its connection is really streaming. */
  datatype System = System(link: Link, server: set<string>)

  datatype Move =
    | Local(step: Step)
    | Replied(id: nat, resultNull: bool, accepted: bool)
    | Traded(symbol: string)
    | NewConnection

  ghost predicate CanMove(y: System, m: Move) {
    match m
    case Local(step) => (step.Want? || step.Drop? || step.Sync?) && Enabled(y.link, step)
    case Replied(_, resultNull, accepted) => accepted ==> resultNull
    case Traded(x) => x in y.server
    case NewConnection => true
  }

  function Served(y: System, m: Move): System {
    match m
    case Local(step) => y.(link := Next(y.link, step))
    case Replied(id, resultNull, accepted) =>
      System(Reply(y.link, id, resultNull),
             if !accepted || id !in y.link.requests then y.server
             else if y.link.requests[id].action == Subscribe then y.server + {y.link.requests[id].symbol}
             else y.server - {y.link.requests[id].symbol})
    case Traded(x) => y.(link := MarkLive(y.link, x))
    case NewConnection => System(Reconnect(y.link), {})
  }

  /** A rejection that carries a null result reads as a success. */
  predicate Misread(y: System, m: Move) {
    && m.Replied? && !m.accepted && m.resultNull && m.id in y.link.requests
    && y.link.requests[m.id].action == Subscribe
    && y.link.requests[m.id].symbol in y.link.desired
    && y.link.requests[m.id].symbol !in y.server
  }

  /** The manager keeps believing only in what the server streams exactly when
      the move is not a subscription refused with a null result. */
  lemma BeliefStep(y: System, m: Move)
    requires CanMove(y, m) && y.link.subscribed <= y.server
    ensures Served(y, m).link.subscribed <= Served(y, m).server <==> !Misread(y, m)
  {
    match m {
      case Local(step) =>
        if step.Sync? {
          SendAllPends(y.link, Subscribe, step.subs);
          SendAllPends(SendAll(y.link, Subscribe, step.subs), Unsubscribe, step.unsubs);
        }
      case Replied(id, resultNull, accepted) =>
      case Traded(x) =>
      case NewConnection =>
    }
  }

  /** A subscription confirmed after the symbol was released: the manager does
      not record it and sends no release. */
  predicate Forgets(y: System, m: Move) {
    && m.Replied? && m.accepted && m.id in y.link.requests
    && y.link.requests[m.id].action == Subscribe
    && y.link.requests[m.id].symbol !in y.link.desired
    && y.link.requests[m.id].symbol !in y.link.subscribed
  }

  /** A refused release that carries a null result. */
  predicate Overlooks(y: System, m: Move) {
    && m.Replied? && !m.accepted && m.resultNull && m.id in y.link.requests
    && y.link.requests[m.id].action == Unsubscribe
    && y.link.requests[m.id].symbol in y.server
  }

  /** Live stays exactly what the server streams unless a reply is misread, a
      late confirmation is forgotten or a refused release is overlooked; each of
      these does break it. */
  lemma AgreementStep(y: System, m: Move)
    requires CanMove(y, m) && y.link.subscribed == y.server
    ensures Served(y, m).link.subscribed == Served(y, m).server
            <==> !Misread(y, m) && !Forgets(y, m) && !Overlooks(y, m)
  {
    match m {
      case Local(step) =>
        if step.Sync? {
          SendAllPends(y.link, Subscribe, step.subs);
          SendAllPends(SendAll(y.link, Subscribe, step.subs), Unsubscribe, step.unsubs);
        }
      case Replied(id, resultNull, accepted) =>
        if id in y.link.requests {
          assert y.link.requests[id].symbol in y.server + {y.link.requests[id].symbol};
        }
      case Traded(x) => assert y.server + {x} == y.server;
      case NewConnection =>
    }
  }

  function Moved(y: System, ms: seq<Move>): System {
    if ms == [] then y else Served(Moved(y, ms[..|ms| - 1]), ms[|ms| - 1])
  }

  const UNCONNECTED := System(IDLE, {})

  ghost predicate Plain(y: System, ms: seq<Move>) {
    forall i :: 0 <= i < |ms| ==>
      var z := Moved(y, ms[..i]);
      CanMove(z, ms[i]) && !Misread(z, ms[i]) && !Forgets(z, ms[i]) && !Overlooks(z, ms[i])
  }

  /** Over every run without such replies, live is exactly what the server streams. */
  lemma {:induction false} AgreementAlways(ms: seq<Move>)
    requires Plain(UNCONNECTED, ms)
    ensures var y := Moved(UNCONNECTED, ms); y.link.subscribed == y.server
  {
    if ms == [] {
    } else {
      var n := |ms| - 1;
      forall i | 0 <= i < n
        ensures var z := Moved(UNCONNECTED, ms[..n][..i]);
                CanMove(z, ms[..n][i])
                && !Misread(z, ms[..n][i]) && !Forgets(z, ms[..n][i]) && !Overlooks(z, ms[..n][i])
      {
        assert ms[..n][..i] == ms[..i];
      }
      AgreementAlways(ms[..n]);
      AgreementStep(Moved(UNCONNECTED, ms[..n]), ms[n]);
    }
  }

  /** A symbol released before its subscription is confirmed: the manager ends
      converged with nothing wanted while the server keeps streaming. */
  lemma ReleasedBeforeConfirmed(x: string)
    ensures var ms := [Local(Want(x)), Local(Sync([x], [])), Local(Drop(x)), Replied(1, true, true)];
      && (forall i :: 0 <= i < |ms| ==> CanMove(Moved(UNCONNECTED, ms[..i]), ms[i]))
      && Converged(Moved(UNCONNECTED, ms).link) && Settled(Moved(UNCONNECTED, ms).link)
      && Moved(UNCONNECTED, ms).server == {x}
  {
    var ms := [Local(Want(x)), Local(Sync([x], [])), Local(Drop(x)), Replied(1, true, true)];
    assert ms[..4] == ms && ms[..4][..3] == ms[..3] && ms[..3][..2] == ms[..2] && ms[..2][..1] == ms[..1];
    assert ms[..1][..0] == [] && ms[..0] == [];
    var y1 := Served(UNCONNECTED, ms[0]);
    assert y1 == System(IDLE.(desired := {x}), {}) && Moved(UNCONNECTED, ms[..1]) == y1;
    assert ToSubscribe(y1.link) == {x} && ToUnsubscribe(y1.link) == {};
    OneSend(y1.link, Request(Subscribe, x));
    var y2 := Served(y1, ms[1]);
    assert y2.link == Send(y1.link, Request(Subscribe, x));
    assert y2.link == Link({x}, {}, {x}, {}, map[1 := Request(Subscribe, x)], 1);
    assert Moved(UNCONNECTED, ms[..2]) == y2;
    var y3 := Served(y2, ms[2]);
    assert y3.link == Link({}, {}, {x}, {}, map[1 := Request(Subscribe, x)], 1);
    assert Moved(UNCONNECTED, ms[..3]) == y3;
    var y4 := Served(y3, ms[3]);
    assert y4.link == Link({}, {}, {}, {}, map[], 1);
    assert Moved(UNCONNECTED, ms) == y4;
  }
}
