/** Who listens to which market stream, and what that asks of the exchange
    connections.  Private and public listeners have a pair of tables each;
    together they decide which symbols the managers want.  The order in which a
    set is visited is a parameter. */
module SubscriptionRegistry {
  import opened MarketSymbols
  import opened Sequences

  /** A private connection: user and connection number. */
  type PrivateId = (int, int)

  datatype Interval = M1 | M5 | M15 | H1

  datatype Market = Market(exchange: Exchange, marketType: MarketType, isTestnet: bool)

  datatype SymbolKey = SymbolKey(market: Market, symbol: string)

  datatype StreamKey = StreamKey(market: Market, symbol: string, interval: Interval)

  datatype Health = Health(status: string, message: string)

  const CONNECTING := Health("connecting", "")

  function SymbolKeyOf(k: StreamKey): SymbolKey {
    SymbolKey(k.market, k.symbol)
  }

  // ----- Tables of non-empty sets -----

  /** `v` is listed under `k`. */
  predicate Lists<K, V>(m: map<K, set<V>>, k: K, v: V) {
    k in m && v in m[k]
  }

  ghost predicate NoneEmpty<K, V>(m: map<K, set<V>>) {
    forall k :: k in m ==> m[k] != {}
  }

  function Added<K, V>(m: map<K, set<V>>, k: K, v: V): map<K, set<V>> {
    m[k := (if k in m then m[k] else {}) + {v}]
  }

  /** `v` taken from the set of `k`; a set left empty goes with its key. */
  function Discarded<K, V>(m: map<K, set<V>>, k: K, v: V): map<K, set<V>> {
    if k !in m then m
    else if m[k] - {v} == {} then m - {k}
    else m[k := m[k] - {v}]
  }

  lemma AddedLists<K, V>(m: map<K, set<V>>, k: K, v: V)
    ensures forall a, b :: Lists(Added(m, k, v), a, b) <==> Lists(m, a, b) || (a == k && b == v)
    ensures NoneEmpty(m) ==> NoneEmpty(Added(m, k, v))
  {
  }

  lemma DiscardedLists<K, V>(m: map<K, set<V>>, k: K, v: V)
    ensures forall a, b :: Lists(Discarded(m, k, v), a, b) <==> Lists(m, a, b) && !(a == k && b == v)
    ensures NoneEmpty(m) ==> NoneEmpty(Discarded(m, k, v))
  {
    forall a, b ensures Lists(Discarded(m, k, v), a, b) <==> Lists(m, a, b) && !(a == k && b == v) {
      if k in m && a == k {
        assert b in m[k] && b != v ==> b in m[k] - {v};
      }
    }
  }

  // ----- Who listens, and what follows from it -----

  /** The symbols of keys with at least one listener, at any interval. */
  function Heard<C>(subscribers: map<StreamKey, set<C>>): set<SymbolKey> {
    set k | k in subscribers && subscribers[k] != {} :: SymbolKeyOf(k)
  }

  lemma HeardWhenListed<C>(m: map<StreamKey, set<C>>, s: SymbolKey)
    ensures s in Heard(m) <==> exists k, c :: Lists(m, k, c) && SymbolKeyOf(k) == s
  {
    if s in Heard(m) {
      var k :| k in m && m[k] != {} && SymbolKeyOf(k) == s;
      var c :| c in m[k];
      assert Lists(m, k, c);
    }
  }

  lemma HeardAdded<C>(m: map<StreamKey, set<C>>, key: StreamKey, c: C)
    ensures Heard(Added(m, key, c)) == Heard(m) + {SymbolKeyOf(key)}
  {
    var added := Added(m, key, c);
    assert c in added[key];
    forall s | s in Heard(m) ensures s in Heard(added) {
      var k :| k in m && m[k] != {} && SymbolKeyOf(k) == s;
      assert k in added && added[k] != {};
    }
  }

  lemma HeardDiscarded<C>(m: map<StreamKey, set<C>>, key: StreamKey, c: C)
    ensures Heard(Discarded(m, key, c)) <= Heard(m) <= Heard(Discarded(m, key, c)) + {SymbolKeyOf(key)}
  {
    var left := Discarded(m, key, c);
    forall s | s in Heard(left) ensures s in Heard(m) {
      var k :| k in left && left[k] != {} && SymbolKeyOf(k) == s;
      assert k in m && m[k] != {};
    }
    forall s | s in Heard(m) && s != SymbolKeyOf(key) ensures s in Heard(left) {
      var k :| k in m && m[k] != {} && SymbolKeyOf(k) == s;
      assert k in left && left[k] != {};
    }
  }

  /** Each manager wants exactly the symbols heard. */
  ghost predicate Follows(heard: set<SymbolKey>, managers: map<Market, set<string>>) {
    forall m, s :: Lists(managers, m, s) <==> SymbolKey(m, s) in heard
  }

  function Renamed(s: SymbolKey): Normalized {
    Normalize(s.market.exchange, s.market.marketType, s.symbol)
  }

  /** The symbol is non-empty and normalizing it again changes nothing. */
  predicate Normal(s: SymbolKey) {
    s.symbol != "" && Renamed(s) == Symbol(s.symbol)
  }

  /** A manager asked for or rid of the symbol raises. */
  predicate Nameless(s: SymbolKey) {
    Renamed(s).Missing?
  }

  /** Letting go of `own` would let go of another symbol somebody listens to,
      the one `own` normalizes to. */
  predicate Misdirected(own: SymbolKey, heard: set<SymbolKey>) {
    var n := Renamed(own);
    own !in heard && n.Symbol? && n.text != own.symbol && SymbolKey(own.market, n.text) in heard
  }

  ghost predicate Spelled(heard: set<SymbolKey>) {
    forall s :: s in heard ==> Normal(s)
  }

  ghost predicate NormalOnly(managers: map<Market, set<string>>) {
    forall m, s :: Lists(managers, m, s) ==> Normal(SymbolKey(m, s))
  }

  /** Some symbol a client sent was normalized to this one. */
  ghost predicate FromClient(s: SymbolKey) {
    exists sent :: Normalize(s.market.exchange, s.market.marketType, sent) == Symbol(s.symbol)
  }

  ghost predicate FromClients(heard: set<SymbolKey>) {
    forall s :: s in heard ==> FromClient(s)
  }

  // ----- Pairs of tables -----

  /** What a connection's own table lists, the listeners' table lists too; the
      latter may also list connections that are gone. */
  ghost predicate Covers<C(!new)>(streams: map<C, set<StreamKey>>, subscribers: map<StreamKey, set<C>>) {
    && NoneEmpty(streams) && NoneEmpty(subscribers)
    && forall c, k :: Lists(streams, c, k) ==> Lists(subscribers, k, c)
  }

  /** Both tables of a pair describe the same subscriptions, with no empty sets. */
  ghost predicate Inverse<C(!new)>(streams: map<C, set<StreamKey>>, subscribers: map<StreamKey, set<C>>) {
    && NoneEmpty(streams) && NoneEmpty(subscribers)
    && forall c, k :: Lists(streams, c, k) <==> Lists(subscribers, k, c)
  }

  lemma PairAdded<C(!new)>(
    streams: map<C, set<StreamKey>>, subscribers: map<StreamKey, set<C>>, c: C, key: StreamKey)
    ensures Covers(streams, subscribers) ==> Covers(Added(streams, c, key), Added(subscribers, key, c))
    ensures Inverse(streams, subscribers) ==> Inverse(Added(streams, c, key), Added(subscribers, key, c))
  {
    hide Lists, Added, NoneEmpty;
    AddedLists(streams, c, key);
    AddedLists(subscribers, key, c);
  }

  lemma PairDiscarded<C(!new)>(
    streams: map<C, set<StreamKey>>, subscribers: map<StreamKey, set<C>>, c: C, key: StreamKey)
    ensures Covers(streams, subscribers) ==> Covers(Discarded(streams, c, key), Discarded(subscribers, key, c))
    ensures Inverse(streams, subscribers) ==> Inverse(Discarded(streams, c, key), Discarded(subscribers, key, c))
  {
    hide Lists, Discarded, NoneEmpty;
    DiscardedLists(streams, c, key);
    DiscardedLists(subscribers, key, c);
  }

  /** `subscribers` with `c` taken from the sets of `keys`. */
  function Dropped<C>(subscribers: map<StreamKey, set<C>>, c: C, keys: set<StreamKey>): map<StreamKey, set<C>> {
    map k | k in subscribers && (k in keys ==> subscribers[k] - {c} != {})
      :: if k in keys then subscribers[k] - {c} else subscribers[k]
  }

  lemma DroppedLists<C>(m: map<StreamKey, set<C>>, c: C, keys: set<StreamKey>)
    ensures forall k, d :: Lists(Dropped(m, c, keys), k, d) <==> Lists(m, k, d) && !(d == c && k in keys)
  {
    forall k, d ensures Lists(Dropped(m, c, keys), k, d) <==> Lists(m, k, d) && !(d == c && k in keys) {
      if Lists(m, k, d) && d != c {
        assert d in m[k] - {c};
      }
    }
  }

  lemma DroppedOneMore<C>(m: map<StreamKey, set<C>>, c: C, keys: set<StreamKey>, key: StreamKey)
    ensures Discarded(Dropped(m, c, keys), key, c) == Dropped(m, c, keys + {key})
  {
    var before, after := Dropped(m, c, keys), Dropped(m, c, keys + {key});
    if key in before {
      assert before[key] - {c} == m[key] - {c};
    }
  }

  lemma DroppedNone<C>(m: map<StreamKey, set<C>>, c: C)
    ensures Dropped(m, c, {}) == m
  {
  }

  /** Dropping more keys leaves no more symbols heard. */
  lemma HeardDropped<C>(m: map<StreamKey, set<C>>, c: C, keys: set<StreamKey>, more: set<StreamKey>)
    requires keys <= more
    ensures Heard(Dropped(m, c, more)) <= Heard(Dropped(m, c, keys))
  {
    hide Dropped, Heard;
    DroppedLists(m, c, keys);
    DroppedLists(m, c, more);
    forall s | s in Heard(Dropped(m, c, more)) ensures s in Heard(Dropped(m, c, keys)) {
      HeardWhenListed(Dropped(m, c, more), s);
      HeardWhenListed(Dropped(m, c, keys), s);
      var k, d :| Lists(Dropped(m, c, more), k, d) && SymbolKeyOf(k) == s;
      assert Lists(Dropped(m, c, keys), k, d);
    }
  }

  /** A connection that is gone from its own table is gone from the other exactly
      when all of its keys were dropped. */
  lemma InverseWhenAllDropped<C(!new)>(
    streams: map<C, set<StreamKey>>, subscribers: map<StreamKey, set<C>>, c: C, order: seq<StreamKey>, done: nat)
    requires Inverse(streams, subscribers) && done <= |order|
    requires Enumerates(order, ListOf(streams, c))
    ensures Inverse(streams - {c}, Dropped(subscribers, c, Members(order[..done]))) <==> done == |order|
  {
    hide Dropped;
    var left := Dropped(subscribers, c, Members(order[..done]));
    DroppedLists(subscribers, c, Members(order[..done]));
    assert NoneEmpty(left) by { DroppedNoneEmpty(subscribers, c, Members(order[..done])); }
    if done < |order| {
      assert order[done] in order;
      assert Lists(subscribers, order[done], c);
      assert order[done] !in order[..done];
      assert Lists(left, order[done], c) && !Lists(streams - {c}, c, order[done]);
    } else {
      assert order[..done] == order;
      forall d, k ensures Lists(streams - {c}, d, k) <==> Lists(left, k, d) {
        assert Lists(streams, d, k) <==> Lists(subscribers, k, d);
      }
    }
  }

  lemma DroppedNoneEmpty<C>(m: map<StreamKey, set<C>>, c: C, keys: set<StreamKey>)
    requires NoneEmpty(m)
    ensures NoneEmpty(Dropped(m, c, keys))
  {
  }

  function ListOf<K, V>(m: map<K, set<V>>, k: K): set<V> {
    if k in m then m[k] else {}
  }

  // ----- What the managers keep -----

  /** Normalizing `own` gives `s` on market `m`. */
  predicate Into(own: SymbolKey, m: Market, s: string) {
    own.market == m && Renamed(own) == Symbol(s)
  }

  /** The managers are rid of exactly what the symbols of `gone` normalize to. */
  ghost predicate LetGo(before: map<Market, set<string>>, after: map<Market, set<string>>, gone: set<SymbolKey>) {
    forall m, s :: Lists(after, m, s) <==> Lists(before, m, s) && !exists own :: own in gone && Into(own, m, s)
  }

  /** The symbols of `keys` nobody listens to any more. */
  function Gone(keys: set<StreamKey>, heard: set<SymbolKey>): set<SymbolKey> {
    set k | k in keys && SymbolKeyOf(k) !in heard :: SymbolKeyOf(k)
  }

  lemma GoneStep(keys: set<StreamKey>, key: StreamKey, before: set<SymbolKey>, after: set<SymbolKey>)
    requires after <= before <= after + {SymbolKeyOf(key)}
    ensures Gone(keys + {key}, after)
         == Gone(keys, before) + (if SymbolKeyOf(key) in after then {} else {SymbolKeyOf(key)})
  {
  }

  lemma LetGoTwice(
    a: map<Market, set<string>>, b: map<Market, set<string>>, c: map<Market, set<string>>,
    gone: set<SymbolKey>, more: set<SymbolKey>)
    requires LetGo(a, b, gone) && LetGo(b, c, more)
    ensures LetGo(a, c, gone + more)
  {
    hide Lists, Into;
    forall m, s
      ensures Lists(c, m, s) <==> Lists(a, m, s) && !exists own :: own in gone + more && Into(own, m, s)
    {
      assert forall own :: own in gone + more <==> own in gone || own in more;
    }
  }

  /** From the symbols heard, managers and health entries at the start of a
      disconnect to those after the keys `visited` were removed. */
  ghost predicate Shrunk(
    heard0: set<SymbolKey>, managers0: map<Market, set<string>>, health0: map<SymbolKey, Health>,
    heard: set<SymbolKey>, managers: map<Market, set<string>>, health: map<SymbolKey, Health>,
    visited: set<StreamKey>)
  {
    && heard0 == heard + Gone(visited, heard)
    && LetGo(managers0, managers, Gone(visited, heard))
    && health == health0 - Gone(visited, heard)
  }

  lemma ShrunkStep(
    heard0: set<SymbolKey>, managers0: map<Market, set<string>>, health0: map<SymbolKey, Health>,
    heard: set<SymbolKey>, managers: map<Market, set<string>>, health: map<SymbolKey, Health>,
    heard': set<SymbolKey>, managers': map<Market, set<string>>, health': map<SymbolKey, Health>,
    visited: set<StreamKey>, key: StreamKey)
    requires Shrunk(heard0, managers0, health0, heard, managers, health, visited)
    requires SymbolKeyOf(key) in heard0 && heard' <= heard <= heard' + {SymbolKeyOf(key)}
    requires LetGo(managers, managers', if SymbolKeyOf(key) in heard' then {} else {SymbolKeyOf(key)})
    requires health' == if SymbolKeyOf(key) in heard' then health else health - {SymbolKeyOf(key)}
    ensures Shrunk(heard0, managers0, health0, heard', managers', health', visited + {key})
  {
    hide LetGo, Gone, SymbolKeyOf;
    GoneStep(visited, key, heard, heard');
    LetGoTwice(managers0, managers, managers', Gone(visited, heard),
               if SymbolKeyOf(key) in heard' then {} else {SymbolKeyOf(key)});
  }

  /** Nameless symbols of the keys visited are still heard. */
  ghost predicate Unharmed(visited: set<StreamKey>, heard: set<SymbolKey>) {
    forall k :: k in visited && Nameless(SymbolKeyOf(k)) ==> SymbolKeyOf(k) in heard
  }

  lemma UnharmedStep(visited: set<StreamKey>, key: StreamKey, heard: set<SymbolKey>, heard': set<SymbolKey>)
    requires Unharmed(visited, heard) && heard' <= heard <= heard' + {SymbolKeyOf(key)}
    requires SymbolKeyOf(key) in heard' || !Nameless(SymbolKeyOf(key))
    ensures Unharmed(visited + {key}, heard')
  {
    hide Nameless;
  }

  /** Managers that followed and hold only normal symbols follow only normal ones. */
  lemma FollowedAreNormal(heard: set<SymbolKey>, managers: map<Market, set<string>>)
    requires Follows(heard, managers) && NormalOnly(managers)
    ensures Spelled(heard)
  {
    hide Normal;
    forall s | s in heard ensures Normal(s) {
      assert Lists(managers, s.market, s.symbol);
    }
  }

  /** Letting go of symbols nobody hears any more keeps the managers in step. */
  lemma LetGoFollows(
    heard: set<SymbolKey>, left: set<SymbolKey>, gone: set<SymbolKey>,
    before: map<Market, set<string>>, after: map<Market, set<string>>)
    requires Follows(heard, before) && Spelled(heard) && LetGo(before, after, gone)
    requires heard == left + gone && left !! gone
    ensures Follows(left, after)
  {
    hide Renamed;
    forall m, s | SymbolKey(m, s) in heard
      ensures SymbolKey(m, s) in gone <==> exists own :: own in gone && Into(own, m, s)
    {
      if SymbolKey(m, s) in gone {
        assert Into(SymbolKey(m, s), m, s);
      }
    }
  }

  /** Letting go of one symbol keeps them in step unless it is misdirected. */
  lemma ReleaseFollows(
    heard: set<SymbolKey>, left: set<SymbolKey>, own: SymbolKey,
    before: map<Market, set<string>>, after: map<Market, set<string>>)
    requires Follows(heard, before) && Spelled(heard)
    requires left <= heard <= left + {own} && LetGo(before, after, if own in left then {} else {own})
    ensures Follows(left, after) <==> !Misdirected(own, left)
  {
    hide Renamed;
    var n := Renamed(own);
    if own in left {
      assert forall m, s :: Lists(after, m, s) <==> Lists(before, m, s);
    } else {
      assert own in heard ==> n == Symbol(own.symbol);
      forall m, s ensures Lists(after, m, s) <==> Lists(before, m, s) && !Into(own, m, s) {
        assert Into(own, m, s) ==> own in {own};
      }
      if Misdirected(own, left) {
        assert Into(own, own.market, n.text);
        assert !Lists(after, own.market, n.text);
      } else {
        forall m, s ensures Lists(after, m, s) <==> SymbolKey(m, s) in left {
          assert SymbolKey(m, s) in heard && SymbolKey(m, s) != own ==> SymbolKey(m, s) in left;
        }
      }
    }
  }

  /** Asking for one symbol more keeps them in step exactly when it is normal. */
  lemma WantFollows(
    heard: set<SymbolKey>, own: SymbolKey, before: map<Market, set<string>>, after: map<Market, set<string>>)
    requires Follows(heard, before) && NormalOnly(before) && NormalOnly(after)
    requires forall m, s :: Lists(after, m, s) <==> Lists(before, m, s) || Into(own, m, s)
    ensures Follows(heard + {own}, after) <==> Normal(own)
  {
    hide Renamed;
    if Normal(own) {
      assert forall m, s :: Into(own, m, s) <==> SymbolKey(m, s) == own;
    } else {
      assert !Lists(after, own.market, own.symbol);
    }
  }

  // ----- The service -----

  /** Outcome of a call: the key it was about, or the error it raised. */
  datatype Outcome = Done(key: StreamKey) | NoSymbol

  class MarketDataService {
    var connectionStreams: map<PrivateId, set<StreamKey>>
    var streamSubscribers: map<StreamKey, set<PrivateId>>
    var publicConnectionStreams: map<int, set<StreamKey>>
    var publicStreamSubscribers: map<StreamKey, set<int>>
    var symbolHealth: map<SymbolKey, Health>
    var managers: map<Market, set<string>>

    /** Symbols with a private or a public listener at some interval. */
    function Listened(): set<SymbolKey>
      reads this`streamSubscribers, this`publicStreamSubscribers
    {
      Heard(streamSubscribers) + Heard(publicStreamSubscribers)
    }

    /** Each manager wants exactly the symbols somebody listens to. */
    ghost predicate Followed()
      reads this`streamSubscribers, this`publicStreamSubscribers, this`managers
    {
      Follows(Listened(), managers)
    }

    ghost predicate PrivateInverse()
      reads this`connectionStreams, this`streamSubscribers
    {
      Inverse(connectionStreams, streamSubscribers)
    }

    ghost predicate PublicInverse()
      reads this`publicConnectionStreams, this`publicStreamSubscribers
    {
      Inverse(publicConnectionStreams, publicStreamSubscribers)
    }

    /** What every run keeps, also through calls that raise. */
    ghost predicate Sound()
      reads this
    {
      && Covers(connectionStreams, streamSubscribers)
      && Covers(publicConnectionStreams, publicStreamSubscribers)
      && FromClients(Listened()) && NormalOnly(managers)
      && Listened() <= symbolHealth.Keys
    }

    /** The tables of both pairs are mutual inverses, and the managers follow. */
    ghost predicate Valid()
      reads this
    {
      Sound() && PrivateInverse() && PublicInverse() && Followed()
    }

    constructor ()
      ensures Valid() && managers == map[]
      ensures connectionStreams == map[] && streamSubscribers == map[]
      ensures publicConnectionStreams == map[] && publicStreamSubscribers == map[]
    {
      connectionStreams, streamSubscribers := map[], map[];
      publicConnectionStreams, publicStreamSubscribers := map[], map[];
      symbolHealth := map[];
      managers := map[];
    }

    method EnsureManager(market: Market)
      modifies this`managers
      ensures market in managers
      ensures forall m, s :: Lists(managers, m, s) <==> old(Lists(managers, m, s))
    {
      if market !in managers {
        managers := managers[market := {}];
      }
    }

    /** `ensure_symbol` on the market's manager, which normalizes once more. */
    method EnsureSymbol(own: SymbolKey) returns (raised: bool)
      requires NormalOnly(managers) && FromClient(own)
      modifies this`managers
      ensures NormalOnly(managers)
      ensures raised == Nameless(own)
      ensures forall m, s :: Lists(managers, m, s) <==> old(Lists(managers, m, s)) || Into(own, m, s)
    {
      hide Renamed;
      SecondIsNormal(own);
      EnsureManager(own.market);
      var n := Renamed(own);
      raised := n.Missing?;
      if n.Symbol? {
        managers := managers[own.market := managers[own.market] + {n.text}];
      }
    }

    /** `release_symbol`, likewise. */
    method ReleaseSymbol(own: SymbolKey) returns (raised: bool)
      modifies this`managers
      ensures raised == Nameless(own)
      ensures LetGo(old(managers), managers, {own})
    {
      hide Renamed;
      EnsureManager(own.market);
      var n := Renamed(own);
      raised := n.Missing?;
      if n.Symbol? {
        managers := managers[own.market := managers[own.market] - {n.text}];
      }
      forall m, s ensures (exists x :: x in {own} && Into(x, m, s)) <==> Into(own, m, s) {
        assert Into(own, m, s) ==> own in {own};
      }
    }

    /** The common end of subscribing: the health entry is made before the
        manager is asked. */
    method Want(own: SymbolKey) returns (raised: bool)
      requires NormalOnly(managers) && FromClient(own)
      modifies this`symbolHealth, this`managers
      ensures NormalOnly(managers)
      ensures raised == Nameless(own)
      ensures symbolHealth == map[own := Health("connecting", "")] + old(symbolHealth)
      ensures forall m, s :: Lists(managers, m, s) <==> old(Lists(managers, m, s)) || Into(own, m, s)
    {
      hide Renamed;
      if own !in symbolHealth {
        symbolHealth := symbolHealth[own := CONNECTING];
      }
      raised := EnsureSymbol(own);
    }

    /** `subscribe`.  The tables are written before the manager is asked, so a
        symbol that normalizes to nothing is recorded and then raises. */
    method Subscribe(userId: int, connectionId: int, market: Market, symbol: string, interval: Interval)
      returns (r: Outcome)
      requires Sound()
      modifies this
      ensures Sound()
      ensures var n := Normalize(market.exchange, market.marketType, symbol);
        && (n.Missing? ==> r == NoSymbol && unchanged(this))
        && (n.Symbol? ==>
              var key := StreamKey(market, n.text, interval);
              var own := SymbolKeyOf(key);
              && r == (if Nameless(own) then NoSymbol else Done(key))
              && connectionStreams == Added(old(connectionStreams), (userId, connectionId), key)
              && streamSubscribers == Added(old(streamSubscribers), key, (userId, connectionId))
              && symbolHealth == map[own := CONNECTING] + old(symbolHealth)
              && unchanged(this`publicConnectionStreams, this`publicStreamSubscribers)
              && (forall m, s :: Lists(managers, m, s) <==> old(Lists(managers, m, s)) || Into(own, m, s))
              && (old(PrivateInverse()) ==> PrivateInverse())
              && (old(Followed()) ==> (Followed() <==> Lasting(n.text)))
              && (Plain(symbol) ==> (Lasting(n.text) <==> n.text != "") && (r.Done? <==> n.text != "")))
    {
      hide Normalize, Plain, Added, Inverse, Covers, Follows, Heard;
      var n := Normalize(market.exchange, market.marketType, symbol);
      if n.Missing? {
        return NoSymbol;
      }
      var key, c := StreamKey(market, n.text, interval), (userId, connectionId);
      var own := SymbolKeyOf(key);
      assert FromClient(own);
      NormalWhenLasting(own, symbol);
      PairAdded(connectionStreams, streamSubscribers, c, key);
      HeardAdded(streamSubscribers, key, c);
      connectionStreams := Added(connectionStreams, c, key);
      streamSubscribers := Added(streamSubscribers, key, c);
      var raised := Want(own);
      r := if raised then NoSymbol else Done(key);
      assert Listened() == old(Listened()) + {own};
      if old(Followed()) {
        WantFollows(old(Listened()), own, old(managers), managers);
      }
    }

    /** `subscribe_public`, in the same order. */
    method SubscribePublic(connectionId: int, market: Market, symbol: string, interval: Interval)
      returns (r: Outcome)
      requires Sound()
      modifies this
      ensures Sound()
      ensures var n := Normalize(market.exchange, market.marketType, symbol);
        && (n.Missing? ==> r == NoSymbol && unchanged(this))
        && (n.Symbol? ==>
              var key := StreamKey(market, n.text, interval);
              var own := SymbolKeyOf(key);
              && r == (if Nameless(own) then NoSymbol else Done(key))
              && publicConnectionStreams == Added(old(publicConnectionStreams), connectionId, key)
              && publicStreamSubscribers == Added(old(publicStreamSubscribers), key, connectionId)
              && symbolHealth == map[own := CONNECTING] + old(symbolHealth)
              && unchanged(this`connectionStreams, this`streamSubscribers)
              && (forall m, s :: Lists(managers, m, s) <==> old(Lists(managers, m, s)) || Into(own, m, s))
              && (old(PublicInverse()) ==> PublicInverse())
              && (old(Followed()) ==> (Followed() <==> Lasting(n.text)))
              && (Plain(symbol) ==> (Lasting(n.text) <==> n.text != "") && (r.Done? <==> n.text != "")))
    {
      hide Normalize, Plain, Added, Inverse, Covers, Follows, Heard;
      var n := Normalize(market.exchange, market.marketType, symbol);
      if n.Missing? {
        return NoSymbol;
      }
      var key, c := StreamKey(market, n.text, interval), connectionId;
      var own := SymbolKeyOf(key);
      assert FromClient(own);
      NormalWhenLasting(own, symbol);
      PairAdded(publicConnectionStreams, publicStreamSubscribers, c, key);
      HeardAdded(publicStreamSubscribers, key, c);
      publicConnectionStreams := Added(publicConnectionStreams, c, key);
      publicStreamSubscribers := Added(publicStreamSubscribers, key, c);
      var raised := Want(own);
      r := if raised then NoSymbol else Done(key);
      assert Listened() == old(Listened()) + {own};
      if old(Followed()) {
        WantFollows(old(Listened()), own, old(managers), managers);
      }
    }

    /** The common end of removing: when nobody, private or public, listens to
        the symbol any more, its health entry goes and the manager lets it go. */
    method Release(own: SymbolKey) returns (raised: bool)
      modifies this`symbolHealth, this`managers
      ensures symbolHealth == if own in Listened() then old(symbolHealth) else old(symbolHealth) - {own}
      ensures LetGo(old(managers), managers, if own in Listened() then {} else {own})
      ensures raised <==> own !in Listened() && Nameless(own)
    {
      hide Renamed, Heard;
      raised := false;
      if own !in Heard(streamSubscribers) && own !in Heard(publicStreamSubscribers) {
        symbolHealth := symbolHealth - {own};
        raised := ReleaseSymbol(own);
      }
    }

    /** `_remove_subscription` */
    method RemoveSubscription(c: PrivateId, key: StreamKey) returns (raised: bool)
      requires Sound()
      modifies this
      ensures Sound()
      ensures connectionStreams == Discarded(old(connectionStreams), c, key)
      ensures streamSubscribers == Discarded(old(streamSubscribers), key, c)
      ensures unchanged(this`publicConnectionStreams, this`publicStreamSubscribers)
      ensures Listened() <= old(Listened()) <= Listened() + {SymbolKeyOf(key)}
      ensures symbolHealth
           == if SymbolKeyOf(key) in Listened() then old(symbolHealth) else old(symbolHealth) - {SymbolKeyOf(key)}
      ensures LetGo(old(managers), managers, if SymbolKeyOf(key) in Listened() then {} else {SymbolKeyOf(key)})
      ensures raised <==> SymbolKeyOf(key) !in Listened() && Nameless(SymbolKeyOf(key))
    {
      hide Nameless, Discarded, Covers, Heard, LetGo, NormalOnly, FromClients;
      HeardDiscarded(streamSubscribers, key, c);
      PairDiscarded(connectionStreams, streamSubscribers, c, key);
      streamSubscribers := Discarded(streamSubscribers, key, c);
      connectionStreams := Discarded(connectionStreams, c, key);
      raised := Release(SymbolKeyOf(key));
      StillSound(old(Listened()), Listened(), old(managers), managers,
                 if SymbolKeyOf(key) in Listened() then {} else {SymbolKeyOf(key)});
    }

    /** `_remove_public_subscription` */
    method RemovePublicSubscription(c: int, key: StreamKey) returns (raised: bool)
      requires Sound()
      modifies this
      ensures Sound()
      ensures publicConnectionStreams == Discarded(old(publicConnectionStreams), c, key)
      ensures publicStreamSubscribers == Discarded(old(publicStreamSubscribers), key, c)
      ensures unchanged(this`connectionStreams, this`streamSubscribers)
      ensures Listened() <= old(Listened()) <= Listened() + {SymbolKeyOf(key)}
      ensures symbolHealth
           == if SymbolKeyOf(key) in Listened() then old(symbolHealth) else old(symbolHealth) - {SymbolKeyOf(key)}
      ensures LetGo(old(managers), managers, if SymbolKeyOf(key) in Listened() then {} else {SymbolKeyOf(key)})
      ensures raised <==> SymbolKeyOf(key) !in Listened() && Nameless(SymbolKeyOf(key))
    {
      hide Nameless, Discarded, Covers, Heard, LetGo, NormalOnly, FromClients;
      HeardDiscarded(publicStreamSubscribers, key, c);
      PairDiscarded(publicConnectionStreams, publicStreamSubscribers, c, key);
      publicStreamSubscribers := Discarded(publicStreamSubscribers, key, c);
      publicConnectionStreams := Discarded(publicConnectionStreams, c, key);
      raised := Release(SymbolKeyOf(key));
      StillSound(old(Listened()), Listened(), old(managers), managers,
                 if SymbolKeyOf(key) in Listened() then {} else {SymbolKeyOf(key)});
    }

    /** `unsubscribe` */
    method Unsubscribe(userId: int, connectionId: int, market: Market, symbol: string, interval: Interval)
      returns (r: Outcome)
      requires Sound()
      modifies this
      ensures Sound()
      ensures var n := Normalize(market.exchange, market.marketType, symbol);
        && (n.Missing? ==> r == NoSymbol && unchanged(this))
        && (n.Symbol? ==>
              var key := StreamKey(market, n.text, interval);
              var own := SymbolKeyOf(key);
              && r == (if own !in Listened() && Nameless(own) then NoSymbol else Done(key))
              && connectionStreams == Discarded(old(connectionStreams), (userId, connectionId), key)
              && streamSubscribers == Discarded(old(streamSubscribers), key, (userId, connectionId))
              && symbolHealth == (if own in Listened() then old(symbolHealth) else old(symbolHealth) - {own})
              && unchanged(this`publicConnectionStreams, this`publicStreamSubscribers)
              && LetGo(old(managers), managers, if own in Listened() then {} else {own})
              && (old(PrivateInverse()) ==> PrivateInverse())
              && (old(Followed()) ==> (Followed() <==> !Misdirected(own, old(Listened()))))
              && (Plain(symbol) ==> !Misdirected(own, old(Listened()))))
    {
      hide Normalize, Plain, Discarded, Inverse, Covers, Follows, Heard;
      var n := Normalize(market.exchange, market.marketType, symbol);
      if n.Missing? {
        return NoSymbol;
      }
      var key, c := StreamKey(market, n.text, interval), (userId, connectionId);
      var own := SymbolKeyOf(key);
      NormalWhenLasting(own, symbol);
      PairDiscarded(connectionStreams, streamSubscribers, c, key);
      var raised := RemoveSubscription(c, key);
      r := if raised then NoSymbol else Done(key);
      if old(Followed()) {
        FollowedAreNormal(old(Listened()), old(managers));
        ReleaseFollows(old(Listened()), Listened(), own, old(managers), managers);
        MisdirectedBefore(own, old(Listened()), Listened());
      }
    }

    /** `unsubscribe_public` */
    method UnsubscribePublic(connectionId: int, market: Market, symbol: string, interval: Interval)
      returns (r: Outcome)
      requires Sound()
      modifies this
      ensures Sound()
      ensures var n := Normalize(market.exchange, market.marketType, symbol);
        && (n.Missing? ==> r == NoSymbol && unchanged(this))
        && (n.Symbol? ==>
              var key := StreamKey(market, n.text, interval);
              var own := SymbolKeyOf(key);
              && r == (if own !in Listened() && Nameless(own) then NoSymbol else Done(key))
              && publicConnectionStreams == Discarded(old(publicConnectionStreams), connectionId, key)
              && publicStreamSubscribers == Discarded(old(publicStreamSubscribers), key, connectionId)
              && symbolHealth == (if own in Listened() then old(symbolHealth) else old(symbolHealth) - {own})
              && unchanged(this`connectionStreams, this`streamSubscribers)
              && LetGo(old(managers), managers, if own in Listened() then {} else {own})
              && (old(PublicInverse()) ==> PublicInverse())
              && (old(Followed()) ==> (Followed() <==> !Misdirected(own, old(Listened()))))
              && (Plain(symbol) ==> !Misdirected(own, old(Listened()))))
    {
      hide Normalize, Plain, Discarded, Inverse, Covers, Follows, Heard;
      var n := Normalize(market.exchange, market.marketType, symbol);
      if n.Missing? {
        return NoSymbol;
      }
      var key, c := StreamKey(market, n.text, interval), connectionId;
      var own := SymbolKeyOf(key);
      NormalWhenLasting(own, symbol);
      PairDiscarded(publicConnectionStreams, publicStreamSubscribers, c, key);
      var raised := RemovePublicSubscription(c, key);
      r := if raised then NoSymbol else Done(key);
      if old(Followed()) {
        FollowedAreNormal(old(Listened()), old(managers));
        ReleaseFollows(old(Listened()), Listened(), own, old(managers), managers);
        MisdirectedBefore(own, old(Listened()), Listened());
      }
    }

    /** `unsubscribe_connection`.  The connection's own table goes first; then its
        keys are removed in the order given, and the first that raises ends the
        call: the connection stays listed under the keys after it. */
    method UnsubscribeConnection(userId: int, connectionId: int, order: seq<StreamKey>)
      returns (raised: bool, ghost done: nat)
      requires Sound() && Enumerates(order, ListOf(connectionStreams, (userId, connectionId)))
      modifies this
      ensures Sound()
      ensures done <= |order| && connectionStreams == old(connectionStreams) - {(userId, connectionId)}
      ensures streamSubscribers == Dropped(old(streamSubscribers), (userId, connectionId), Members(order[..done]))
      ensures unchanged(this`publicConnectionStreams, this`publicStreamSubscribers)
      ensures symbolHealth == old(symbolHealth) - Gone(Members(order[..done]), Listened())
      ensures LetGo(old(managers), managers, Gone(Members(order[..done]), Listened()))
      ensures var left := Dropped(old(streamSubscribers), (userId, connectionId), Members(order));
              raised <==> Strands(order, Heard(left) + Heard(publicStreamSubscribers))
      ensures if raised then done > 0 && Nameless(SymbolKeyOf(order[done - 1])) else done == |order|
      ensures old(PrivateInverse()) ==> (PrivateInverse() <==> done == |order|)
      ensures old(Followed()) ==> Followed() && !raised
    {
      hide Nameless, Discarded, Covers, Heard, Dropped, Gone, Inverse, Follows, Shrunk, Unharmed;
      hide Enumerates, FromClients, NormalOnly;
      var c := (userId, connectionId);
      ghost var subscribers, others := streamSubscribers, Heard(publicStreamSubscribers);
      ghost var heard0, managers0, health0 := Listened(), managers, symbolHealth;
      connectionStreams := connectionStreams - {c};
      PairWithout(old(connectionStreams), streamSubscribers, c);
      KeysAreHeard(old(connectionStreams), streamSubscribers, c, order);
      DisconnectStarts(streamSubscribers, c, order, heard0, managers, symbolHealth);
      raised := false;
      var i := 0;
      while i < |order| && !raised
        invariant i <= |order| && Sound() && connectionStreams == old(connectionStreams) - {c}
        invariant streamSubscribers == Dropped(subscribers, c, Members(order[..i]))
        invariant unchanged(this`publicConnectionStreams, this`publicStreamSubscribers)
        invariant Shrunk(heard0, managers0, health0, Listened(), managers, symbolHealth, Members(order[..i]))
        invariant if raised then i > 0 && Nameless(SymbolKeyOf(order[i - 1]))
                                 && SymbolKeyOf(order[i - 1]) !in Listened()
                  else Unharmed(Members(order[..i]), Listened())
        decreases |order| - i
      {
        var key := order[i];
        ghost var visited, heard, wanted, health := Members(order[..i]), Listened(), managers, symbolHealth;
        MembersSnoc(order, i);
        DroppedOneMore(subscribers, c, visited, key);
        NothingToDiscard(connectionStreams, c, key);
        raised := RemoveSubscription(c, key);
        ShrunkStep(heard0, managers0, health0, heard, wanted, health, Listened(), managers, symbolHealth, visited, key);
        if !raised {
          UnharmedStep(visited, key, heard, Listened());
        }
        i := i + 1;
      }
      done := i;
      assert Listened() == Heard(Dropped(subscribers, c, Members(order[..done]))) + others;
      DisconnectEnds(subscribers, others, c, order, done, raised);
      if old(PrivateInverse()) {
        InverseWhenAllDropped(old(connectionStreams), subscribers, c, order, done);
      }
      ShrunkFollows(heard0, managers0, health0, Listened(), managers, symbolHealth, order[..done]);
      if raised {
        NothingNamed(SymbolKeyOf(order[done - 1]));
      }
    }

    /** `unsubscribe_public_connection`, likewise. */
    method UnsubscribePublicConnection(connectionId: int, order: seq<StreamKey>)
      returns (raised: bool, ghost done: nat)
      requires Sound() && Enumerates(order, ListOf(publicConnectionStreams, connectionId))
      modifies this
      ensures Sound()
      ensures done <= |order| && publicConnectionStreams == old(publicConnectionStreams) - {connectionId}
      ensures publicStreamSubscribers == Dropped(old(publicStreamSubscribers), connectionId, Members(order[..done]))
      ensures unchanged(this`connectionStreams, this`streamSubscribers)
      ensures symbolHealth == old(symbolHealth) - Gone(Members(order[..done]), Listened())
      ensures LetGo(old(managers), managers, Gone(Members(order[..done]), Listened()))
      ensures var left := Dropped(old(publicStreamSubscribers), connectionId, Members(order));
              raised <==> Strands(order, Heard(left) + Heard(streamSubscribers))
      ensures if raised then done > 0 && Nameless(SymbolKeyOf(order[done - 1])) else done == |order|
      ensures old(PublicInverse()) ==> (PublicInverse() <==> done == |order|)
      ensures old(Followed()) ==> Followed() && !raised
    {
      hide Nameless, Discarded, Covers, Heard, Dropped, Gone, Inverse, Follows, Shrunk, Unharmed;
      hide Enumerates, FromClients, NormalOnly;
      var c := connectionId;
      ghost var subscribers, others := publicStreamSubscribers, Heard(streamSubscribers);
      ghost var heard0, managers0, health0 := Listened(), managers, symbolHealth;
      publicConnectionStreams := publicConnectionStreams - {c};
      PairWithout(old(publicConnectionStreams), publicStreamSubscribers, c);
      KeysAreHeard(old(publicConnectionStreams), publicStreamSubscribers, c, order);
      DisconnectStarts(publicStreamSubscribers, c, order, heard0, managers, symbolHealth);
      raised := false;
      var i := 0;
      while i < |order| && !raised
        invariant i <= |order| && Sound() && publicConnectionStreams == old(publicConnectionStreams) - {c}
        invariant publicStreamSubscribers == Dropped(subscribers, c, Members(order[..i]))
        invariant unchanged(this`connectionStreams, this`streamSubscribers)
        invariant Shrunk(heard0, managers0, health0, Listened(), managers, symbolHealth, Members(order[..i]))
        invariant if raised then i > 0 && Nameless(SymbolKeyOf(order[i - 1]))
                                 && SymbolKeyOf(order[i - 1]) !in Listened()
                  else Unharmed(Members(order[..i]), Listened())
        decreases |order| - i
      {
        var key := order[i];
        ghost var visited, heard, wanted, health := Members(order[..i]), Listened(), managers, symbolHealth;
        MembersSnoc(order, i);
        DroppedOneMore(subscribers, c, visited, key);
        NothingToDiscard(publicConnectionStreams, c, key);
        raised := RemovePublicSubscription(c, key);
        ShrunkStep(heard0, managers0, health0, heard, wanted, health, Listened(), managers, symbolHealth, visited, key);
        if !raised {
          UnharmedStep(visited, key, heard, Listened());
        }
        i := i + 1;
      }
      done := i;
      assert Listened() == Heard(Dropped(subscribers, c, Members(order[..done]))) + others;
      DisconnectEnds(subscribers, others, c, order, done, raised);
      if old(PublicInverse()) {
        InverseWhenAllDropped(old(publicConnectionStreams), subscribers, c, order, done);
      }
      ShrunkFollows(heard0, managers0, health0, Listened(), managers, symbolHealth, order[..done]);
      if raised {
        NothingNamed(SymbolKeyOf(order[done - 1]));
      }
    }

    /** `apply_runtime_config` of a started service: the managers are replaced
        and asked again, in the order given, for every symbol somebody listens
        to.  The first that raises ends the call. */
    method ApplyRuntimeConfig(order: seq<SymbolKey>) returns (raised: bool, ghost done: nat)
      requires Sound() && Enumerates(order, Listened())
      modifies this`managers
      ensures Sound()
      ensures raised <==> exists own :: own in Listened() && Nameless(own)
      ensures done <= |order| && (!raised ==> done == |order|)
      ensures raised ==> done < |order| && Nameless(order[done])
      ensures forall own :: own in order[..done] ==> !Nameless(own)
      ensures forall m, s :: Lists(managers, m, s) <==> exists own :: own in order[..done] && Into(own, m, s)
      ensures Followed() <==> Spelled(Listened())
    {
      hide Renamed, Heard, Covers;
      managers := map[];
      var i := 0;
      raised := false;
      while i < |order|
        invariant 0 <= i <= |order| && NormalOnly(managers)
        invariant forall own :: own in order[..i] ==> !Nameless(own)
        invariant forall m, s :: Lists(managers, m, s) <==> exists own :: own in order[..i] && Into(own, m, s)
      {
        assert order[i] in order;
        assert order[..i + 1] == order[..i] + [order[i]];
        ghost var before := managers;
        raised := EnsureSymbol(order[i]);
        if raised {
          break;
        }
        AskedOneMore(before, managers, order[..i], order[i]);
        i := i + 1;
      }
      done := i;
      if raised {
        assert order[i] in order;
        NothingNamed(order[i]);
        assert forall m, s :: Lists(managers, m, s) <==> exists own :: own in order[..i] && Into(own, m, s);
        assert !Normal(order[i]);
      } else {
        assert order[..i] == order;
      }
      ReloadFollows(Listened(), managers, order[..done], raised);
    }

    /** `update_symbol_status`, which can also name a symbol nobody listens to;
        a symbol coming back to life asks for a backfill. */
    method UpdateSymbolStatus(s: SymbolKey, health: Health) returns (backfill: bool)
      requires Sound()
      modifies this`symbolHealth
      ensures Sound() && (Valid() <==> old(Valid()))
      ensures symbolHealth == old(symbolHealth)[s := health]
      ensures backfill <==> health.status == "live" && s in old(symbolHealth)
                            && old(symbolHealth)[s].status in ["stale", "reconnecting", "error"]
    {
      hide Normalize, Heard, Inverse, Covers;
      if s in symbolHealth && symbolHealth[s] == health {
        return false;
      }
      backfill := health.status == "live" && s in symbolHealth
                  && symbolHealth[s].status in ["stale", "reconnecting", "error"];
      symbolHealth := symbolHealth[s := health];
    }
  }

  lemma EmptyMissing(market: Market)
    ensures Normalize(market.exchange, market.marketType, "") == Missing
  {
    assert Clean("") == "";
  }

  /** A normalized symbol is normal exactly when something is left of it, with
      no white space at its ends; a plain symbol has none. */
  lemma NormalWhenLasting(own: SymbolKey, symbol: string)
    requires Normalize(own.market.exchange, own.market.marketType, symbol) == Symbol(own.symbol)
    ensures Normal(own) <==> Lasting(own.symbol)
    ensures Plain(symbol) ==> (Lasting(own.symbol) <==> own.symbol != "")
    ensures own.symbol == "" ==> Nameless(own)
  {
    hide Normalize, Plain;
    EmptyMissing(own.market);
    NormalizeIdempotent(own.market.exchange, own.market.marketType, symbol);
    if Plain(symbol) {
      PlainLasts(own.market.exchange, own.market.marketType, symbol);
    }
  }

  /** What a client's symbol normalizes to a second time is normal. */
  lemma SecondIsNormal(own: SymbolKey)
    requires FromClient(own)
    ensures forall m, s :: Into(own, m, s) ==> Normal(SymbolKey(m, s))
  {
    hide Normalize;
    var sent :| Normalize(own.market.exchange, own.market.marketType, sent) == Symbol(own.symbol);
    SecondIsLast(own.market.exchange, own.market.marketType, sent);
  }

  /** Some key of `order` is nameless and its symbol no longer heard. */
  ghost predicate Strands(order: seq<StreamKey>, heard: set<SymbolKey>) {
    exists k :: k in order && Nameless(SymbolKeyOf(k)) && SymbolKeyOf(k) !in heard
  }

  lemma StillSound(
    heard: set<SymbolKey>, left: set<SymbolKey>, before: map<Market, set<string>>, after: map<Market, set<string>>,
    gone: set<SymbolKey>)
    requires FromClients(heard) && left <= heard && NormalOnly(before) && LetGo(before, after, gone)
    ensures FromClients(left) && NormalOnly(after)
  {
    hide FromClient, Normal;
  }

  lemma PairWithout<C(!new)>(streams: map<C, set<StreamKey>>, subscribers: map<StreamKey, set<C>>, c: C)
    requires Covers(streams, subscribers)
    ensures Covers(streams - {c}, subscribers)
  {
    assert forall d, k :: Lists(streams - {c}, d, k) ==> Lists(streams, d, k);
  }

  lemma DisconnectStarts<C>(
    subscribers: map<StreamKey, set<C>>, c: C, order: seq<StreamKey>,
    heard: set<SymbolKey>, managers: map<Market, set<string>>, health: map<SymbolKey, Health>)
    ensures subscribers == Dropped(subscribers, c, Members(order[..0]))
    ensures Shrunk(heard, managers, health, heard, managers, health, Members(order[..0]))
    ensures Unharmed(Members(order[..0]), heard)
  {
    assert Members(order[..0]) == {};
    assert Gone({}, heard) == {};
  }

  lemma MembersSnoc<T>(xs: seq<T>, i: nat)
    requires i < |xs|
    ensures Members(xs[..i + 1]) == Members(xs[..i]) + {xs[i]}
  {
    assert xs[..i + 1] == xs[..i] + [xs[i]];
  }

  /** A connection's keys are listened to, by itself. */
  lemma KeysAreHeard<C(!new)>(
    streams: map<C, set<StreamKey>>, subscribers: map<StreamKey, set<C>>, c: C, order: seq<StreamKey>)
    requires Covers(streams, subscribers) && Enumerates(order, ListOf(streams, c))
    ensures forall i :: 0 <= i < |order| ==> SymbolKeyOf(order[i]) in Heard(subscribers)
  {
    hide Heard;
    forall i | 0 <= i < |order| ensures SymbolKeyOf(order[i]) in Heard(subscribers) {
      assert order[i] in order;
      assert Lists(streams, c, order[i]);
      HeardWhenListed(subscribers, SymbolKeyOf(order[i]));
    }
  }

  /** Managers in step stay in step through a disconnect, which cannot raise. */
  lemma ShrunkFollows(
    heard0: set<SymbolKey>, managers0: map<Market, set<string>>, health0: map<SymbolKey, Health>,
    heard: set<SymbolKey>, managers: map<Market, set<string>>, health: map<SymbolKey, Health>,
    visited: seq<StreamKey>)
    requires Shrunk(heard0, managers0, health0, heard, managers, health, Members(visited))
    requires NormalOnly(managers0)
    ensures health == health0 - Gone(Members(visited), heard)
    ensures LetGo(managers0, managers, Gone(Members(visited), heard))
    ensures Follows(heard0, managers0) ==> Spelled(heard0) && Follows(heard, managers)
  {
    hide Follows, LetGo, NormalOnly, Spelled;
    if Follows(heard0, managers0) {
      FollowedAreNormal(heard0, managers0);
      LetGoFollows(heard0, heard, Gone(Members(visited), heard), managers0, managers);
    }
  }

  /** The call raises exactly when some key strands the rest. */
  lemma DisconnectEnds<C>(
    subscribers: map<StreamKey, set<C>>, others: set<SymbolKey>, c: C, order: seq<StreamKey>, done: nat, raised: bool)
    requires done <= |order|
    requires var heard := Heard(Dropped(subscribers, c, Members(order[..done]))) + others;
      if raised then
        done > 0 && Nameless(SymbolKeyOf(order[done - 1])) && SymbolKeyOf(order[done - 1]) !in heard
      else
        done == |order| && Unharmed(Members(order[..done]), heard)
    ensures raised <==> Strands(order, Heard(Dropped(subscribers, c, Members(order))) + others)
  {
    hide Heard, Dropped, Nameless;
    if raised {
      HeardDropped(subscribers, c, Members(order[..done]), Members(order));
      assert order[done - 1] in order;
    } else {
      assert order[..done] == order;
    }
  }

  lemma AskedOneMore(
    before: map<Market, set<string>>, after: map<Market, set<string>>, asked: seq<SymbolKey>, own: SymbolKey)
    requires forall m, s :: Lists(before, m, s) <==> exists x :: x in asked && Into(x, m, s)
    requires forall m, s :: Lists(after, m, s) <==> Lists(before, m, s) || Into(own, m, s)
    ensures forall m, s :: Lists(after, m, s) <==> exists x :: x in asked + [own] && Into(x, m, s)
  {
    hide Into, Lists;
    forall m, s ensures Lists(after, m, s) <==> exists x :: x in asked + [own] && Into(x, m, s) {
      assert own in asked + [own];
    }
  }

  lemma NothingNamed(own: SymbolKey)
    requires Nameless(own)
    ensures !Normal(own) && forall m, s :: !Into(own, m, s)
  {
  }

  /** Reloaded managers are in step exactly when every symbol heard is normal. */
  lemma ReloadFollows(
    heard: set<SymbolKey>, managers: map<Market, set<string>>, asked: seq<SymbolKey>, raised: bool)
    requires NormalOnly(managers)
    requires forall m, s :: Lists(managers, m, s) <==> exists own :: own in asked && Into(own, m, s)
    requires if raised then exists own :: own in heard && Nameless(own)
             else forall own :: own in heard <==> own in asked
    ensures Follows(heard, managers) <==> Spelled(heard)
  {
    hide Renamed, Lists;
    if Follows(heard, managers) {
      FollowedAreNormal(heard, managers);
    }
    if Spelled(heard) && !raised {
      forall m, s ensures Lists(managers, m, s) <==> SymbolKey(m, s) in heard {
        if SymbolKey(m, s) in heard {
          assert Into(SymbolKey(m, s), m, s);
        }
      }
    }
  }

  lemma MisdirectedBefore(own: SymbolKey, before: set<SymbolKey>, after: set<SymbolKey>)
    requires Spelled(before) && after <= before <= after + {own}
    ensures Misdirected(own, before) <==> Misdirected(own, after)
  {
    hide Normalize;
  }

  /** Unsubscribing a symbol nobody can have subscribed takes another's away. */
  lemma TabTakesAnother(market: Market)
    requires market.exchange == Binance
    ensures Normalize(market.exchange, market.marketType, "/\tA") == Symbol("\tA")
    ensures Misdirected(SymbolKey(market, "\tA"), {SymbolKey(market, "A")})
  {
    hide Normalize;
    TabNeedsTwoPasses(market.marketType);
    assert "\tA" != "A";
  }

  lemma NothingToDiscard<K, V>(m: map<K, set<V>>, k: K, v: V)
    requires k !in m
    ensures Discarded(m, k, v) == m
  {
  }

  // ----- A lone dash -----

  /** A public client subscribes a plain Binance symbol and then "-", which raises. */
  method SubscribeThenDash(connectionId: int, market: Market, symbol: string, interval: Interval)
    returns (service: MarketDataService, key: StreamKey, dash: StreamKey)
    requires market.exchange == Binance && Plain(symbol)
    requires Normalize(market.exchange, market.marketType, symbol).Symbol?
    requires Normalize(market.exchange, market.marketType, symbol).text != ""
    ensures fresh(service) && service.Sound() && service.PublicInverse() && !service.Followed()
    ensures key != dash && key.market == dash.market == market
    ensures Normal(SymbolKeyOf(key)) && Nameless(SymbolKeyOf(dash))
    ensures service.connectionStreams == map[] && service.streamSubscribers == map[]
    ensures service.publicConnectionStreams == map[connectionId := {key, dash}]
    ensures service.publicStreamSubscribers == map[key := {connectionId}, dash := {connectionId}]
  {
    hide Normalize, Plain, Inverse, Covers, Follows, Added;
    var text := Normalize(market.exchange, market.marketType, symbol).text;
    key, dash := StreamKey(market, text, interval), StreamKey(market, "", interval);
    NormalWhenLasting(SymbolKeyOf(key), symbol);
    DashVanishes(market.marketType);
    NormalWhenLasting(SymbolKeyOf(dash), "-");
    service := new MarketDataService();
    var first := service.SubscribePublic(connectionId, market, symbol, interval);
    var second := service.SubscribePublic(connectionId, market, "-", interval);
    AddedTwice(connectionId, key, dash);
  }

  lemma AddedTwice<C>(c: C, key: StreamKey, dash: StreamKey)
    requires key != dash
    ensures Added(Added(map[], c, key), c, dash) == map[c := {key, dash}]
    ensures Added(Added(map[], key, c), dash, c) == map[key := {c}, dash := {c}]
  {
    var keys: set<StreamKey>, listeners: set<C> := {}, {};
    assert keys + {key} == {key} && {key} + {dash} == {key, dash} && listeners + {c} == {c};
    assert Added(map[], c, key) == map[c := {key}];
    assert Added(map[], key, c) == map[key := {c}];
  }

  /** An input: when that client leaves and the dash is visited first, the call
      raises and the client stays listed under the symbol it had subscribed. */
  method DashThenDisconnect(connectionId: int, market: Market, symbol: string, interval: Interval)
    returns (service: MarketDataService, key: StreamKey)
    requires market.exchange == Binance && Plain(symbol)
    requires Normalize(market.exchange, market.marketType, symbol).Symbol?
    requires Normalize(market.exchange, market.marketType, symbol).text != ""
    ensures fresh(service) && service.Sound() && !service.PublicInverse()
    ensures connectionId !in service.publicConnectionStreams
    ensures service.publicStreamSubscribers == map[key := {connectionId}]
  {
    hide Normalize, Plain, Inverse, Covers, Follows, Nameless, Normal;
    var dash;
    service, key, dash := SubscribeThenDash(connectionId, market, symbol, interval);
    var order := [dash, key];
    var subscribers := service.publicStreamSubscribers;
    assert Enumerates(order, ListOf(service.publicConnectionStreams, connectionId));
    assert Members(order) == {dash, key};
    assert Dropped(subscribers, connectionId, {dash, key}) == map[];
    NothingNamedNormal(SymbolKeyOf(key));
    assert order[0] in order;
    var raised, done := service.UnsubscribePublicConnection(connectionId, order);
    assert done == 1 && order[..1] == [dash] && Members([dash]) == {dash};
  }

  /** An input: when the configuration is reloaded and the dash comes first, the
      call raises and no manager wants the symbol that is listened to. */
  method DashThenReload(connectionId: int, market: Market, symbol: string, interval: Interval)
    returns (service: MarketDataService, key: StreamKey)
    requires market.exchange == Binance && Plain(symbol)
    requires Normalize(market.exchange, market.marketType, symbol).Symbol?
    requires Normalize(market.exchange, market.marketType, symbol).text != ""
    ensures fresh(service) && service.Sound() && SymbolKeyOf(key) in service.Listened()
    ensures forall m, s :: !Lists(service.managers, m, s)
  {
    hide Normalize, Plain, Inverse, Covers, Follows, Nameless, Normal;
    var dash;
    service, key, dash := SubscribeThenDash(connectionId, market, symbol, interval);
    var order := [SymbolKeyOf(dash), SymbolKeyOf(key)];
    NothingNamedNormal(SymbolKeyOf(key));
    HeardInTwo(service.publicStreamSubscribers, key, dash, connectionId);
    var raised, done := service.ApplyRuntimeConfig(order);
    assert done == 0;
  }

  lemma NothingNamedNormal(own: SymbolKey)
    ensures Normal(own) ==> !Nameless(own)
  {
  }

  lemma HeardInTwo<C>(m: map<StreamKey, set<C>>, key: StreamKey, dash: StreamKey, c: C)
    requires m == map[key := {c}, dash := {c}]
    ensures Heard(m) == {SymbolKeyOf(key), SymbolKeyOf(dash)}
  {
    assert c in m[key] && c in m[dash];
  }
}
