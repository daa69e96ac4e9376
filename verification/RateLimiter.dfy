/** In-memory limiter of failed authentication attempts: a sliding window per
    key, a lockout, and a bounded key table.  Times are microseconds. */
module RateLimiter {
  import opened Sequences

  datatype KeyState = KeyState(failures: seq<int>, lockUntil: Option<int>)

  /** The key table; `order` is the dictionary's insertion order. */
  datatype Table = Table(states: map<string, KeyState>, order: seq<string>)

  const SECOND := 1_000_000

  function AtLeastOne(n: int): (r: int)
    ensures r >= 1
  {
    if n >= 1 then n else 1
  }

  /** Limits in clock ticks: attempts allowed, window and lockout length. */
  datatype Limits = Limits(attempts: nat, window: int, lockout: int) {
    predicate Valid() {
      attempts >= 1 && window >= 1 && lockout >= 1
    }
  }

  /** The settings a caller passes; each counts as at least one. */
  datatype Settings = Settings(maxAttempts: int, windowSeconds: int, lockoutSeconds: int) {
    function ToLimits(): (r: Limits)
      ensures r.Valid()
      ensures r.lockout >= r.window <==> AtLeastOne(lockoutSeconds) >= AtLeastOne(windowSeconds)
    {
      Limits(AtLeastOne(maxAttempts), AtLeastOne(windowSeconds) * SECOND, AtLeastOne(lockoutSeconds) * SECOND)
    }
  }

  /** The first position from `i` on whose failure is not before `cutoff`. */
  function PruneFrom(failures: seq<int>, cutoff: int, i: nat): (k: nat)
    requires i <= |failures|
    decreases |failures| - i
    ensures i <= k <= |failures|
    ensures forall j :: i <= j < k ==> failures[j] < cutoff
    ensures k < |failures| ==> failures[k] >= cutoff
  {
    if i < |failures| && failures[i] < cutoff then PruneFrom(failures, cutoff, i + 1) else i
  }

  /** `failures` without its leading entries before `cutoff`. */
  function Pruned(failures: seq<int>, cutoff: int): seq<int> {
    failures[PruneFrom(failures, cutoff, 0)..]
  }

  function RemainingSeconds(until: int, now: int): int {
    AtLeastOne((until - now) / SECOND)
  }

  lemma WholeSeconds(seconds: int, now: int)
    requires seconds >= 1
    ensures RemainingSeconds(now + seconds * SECOND, now) == seconds
  {
  }

  // ----- One key -----

  /** The key's entry after a check, and whether it is blocked. */
  function CheckKey(v: Option<KeyState>, window: int, now: int): (Option<KeyState>, Option<int>) {
    if v.None? then (None, None)
    else
      var failures := Pruned(v.value.failures, now - window);
      var lock := v.value.lockUntil;
      if lock.Some? && lock.value > now then (Some(KeyState(failures, lock)), Some(RemainingSeconds(lock.value, now)))
      else if failures == [] then (None, None)
      else (Some(KeyState(failures, None)), None)
  }

  function EntryOr(v: Option<KeyState>): KeyState {
    if v.Some? then v.value else KeyState([], None)
  }

  /** The key's entry after a registered failure. */
  function FailKey(v: Option<KeyState>, p: Limits, now: int): KeyState {
    var s := EntryOr(v);
    var failures := Pruned(s.failures, now - p.window) + [now];
    if |failures| >= p.attempts then KeyState([], Some(now + p.lockout)) else KeyState(failures, s.lockUntil)
  }

  // ----- The key table -----

  function Lookup(t: Table, key: string): Option<KeyState> {
    if key in t.states then Some(t.states[key]) else None
  }

  function Without(order: seq<string>, key: string): (r: seq<string>)
    ensures forall k :: k in r <==> k in order && k != key
    ensures key !in order ==> r == order
  {
    if order == [] then []
    else (if order[0] == key then [] else [order[0]]) + Without(order[1..], key)
  }

  function Pop(t: Table, key: string): Table {
    Table(t.states - {key}, Without(t.order, key))
  }

  function Put(t: Table, key: string, s: KeyState): Table {
    Table(t.states[key := s], if key in t.states then t.order else t.order + [key])
  }

  predicate Idle(s: KeyState) {
    s.failures == [] && s.lockUntil.None?
  }

  ghost predicate TableValid(t: Table) {
    Distinct(t.order) && forall k :: k in t.states <==> k in t.order
  }

  /** The first pass of a trim: idle keys go, oldest first, until the table fits. */
  function DropIdle(t: Table, keys: seq<string>, maxKeys: nat): Table
    decreases |keys|
  {
    if keys == [] then t
    else
      var t' := if keys[0] in t.states && Idle(t.states[keys[0]]) then Pop(t, keys[0]) else t;
      if |t'.order| <= maxKeys then t' else DropIdle(t', keys[1..], maxKeys)
  }

  /** The second pass: the oldest keys go until the table fits. */
  function EvictOldest(t: Table, maxKeys: nat): Table
    requires Distinct(t.order)
    decreases |t.order|
  {
    if |t.order| <= maxKeys then t
    else
      WithoutFirst(t.order);
      EvictOldest(Pop(t, t.order[0]), maxKeys)
  }

  function Trimmed(t: Table, maxKeys: nat): Table
    requires Distinct(t.order)
  {
    if |t.order| <= maxKeys then t
    else
      DropIdleKeeps(t, t.order, maxKeys);
      EvictOldest(DropIdle(t, t.order, maxKeys), maxKeys)
  }

  lemma {:induction false} WithoutShrinks(order: seq<string>, key: string)
    requires Distinct(order)
    ensures Distinct(Without(order, key))
    ensures |Without(order, key)| == |order| - (if key in order then 1 else 0)
  {
    if order == [] {
    } else {
      var first, rest := order[0], order[1..];
      assert order == [first] + rest && Distinct(rest) && first !in rest;
      WithoutShrinks(rest, key);
      ConsDistinct(first, Without(rest, key));
    }
  }

  lemma ConsDistinct(first: string, rest: seq<string>)
    requires Distinct(rest)
    ensures first !in rest ==> Distinct([first] + rest)
  {
  }

  lemma WithoutFirst(order: seq<string>)
    requires order != [] && Distinct(order)
    ensures Without(order, order[0]) == order[1..]
  {
    assert order[0] !in order[1..];
  }

  /** A part of a table: some keys gone, the others as they were. */
  ghost predicate Part(u: Table, t: Table) {
    && (forall k :: k in u.states ==> k in t.states && u.states[k] == t.states[k])
    && |u.order| <= |t.order|
  }

  lemma PopKeeps(t: Table, key: string)
    requires Distinct(t.order)
    ensures Distinct(Pop(t, key).order) && Part(Pop(t, key), t)
    ensures TableValid(t) ==> TableValid(Pop(t, key))
  {
    WithoutShrinks(t.order, key);
  }

  lemma PopValid(t: Table, key: string)
    requires TableValid(t)
    ensures TableValid(Pop(t, key))
  {
    PopKeeps(t, key);
  }

  lemma {:induction false} DropIdleKeeps(t: Table, keys: seq<string>, maxKeys: nat)
    requires Distinct(t.order)
    decreases |keys|
    ensures Distinct(DropIdle(t, keys, maxKeys).order) && Part(DropIdle(t, keys, maxKeys), t)
    ensures TableValid(t) ==> TableValid(DropIdle(t, keys, maxKeys))
    ensures forall k :: k in t.states && !Idle(t.states[k]) ==> k in DropIdle(t, keys, maxKeys).states
    ensures |DropIdle(t, keys, maxKeys).order| <= maxKeys
            || forall k :: k in keys && k in DropIdle(t, keys, maxKeys).states
                           ==> !Idle(DropIdle(t, keys, maxKeys).states[k])
  {
    hide Distinct, Idle;
    if keys == [] {
    } else {
      PopKeeps(t, keys[0]);
      var t' := if keys[0] in t.states && Idle(t.states[keys[0]]) then Pop(t, keys[0]) else t;
      DropIdleKeeps(t', keys[1..], maxKeys);
      assert keys == [keys[0]] + keys[1..];
    }
  }

  lemma {:induction false} EvictOldestKeeps(t: Table, maxKeys: nat)
    requires Distinct(t.order)
    decreases |t.order|
    ensures var r := EvictOldest(t, maxKeys);
            Distinct(r.order) && |r.order| <= maxKeys && Part(r, t) && (TableValid(t) ==> TableValid(r))
  {
    hide TableValid, Pop, Distinct;
    if |t.order| > maxKeys {
      PopFirst(t);
      EvictOldestKeeps(Pop(t, t.order[0]), maxKeys);
    }
  }

  lemma PopFirst(t: Table)
    requires Distinct(t.order) && t.order != []
    ensures var u := Pop(t, t.order[0]);
            && Distinct(u.order) && u.order == t.order[1..] && Part(u, t)
            && (TableValid(t) ==> TableValid(u))
  {
    WithoutFirst(t.order);
    PopKeeps(t, t.order[0]);
  }

  /** The keys an eviction keeps are the most recently added ones. */
  lemma {:induction false} EvictionKeepsNewest(t: Table, maxKeys: nat)
    requires Distinct(t.order)
    decreases |t.order|
    ensures EvictOldest(t, maxKeys).order == LastN(t.order, maxKeys)
  {
    hide Pop, Distinct;
    if |t.order| > maxKeys {
      PopFirst(t);
      EvictionKeepsNewest(Pop(t, t.order[0]), maxKeys);
    }
  }

  lemma SameKeysValid(t: Table, u: Table)
    requires TableValid(t) && t.order == u.order && t.states.Keys == u.states.Keys
    ensures TableValid(u)
  {
    assert forall k :: k in u.states <==> k in t.states.Keys;
  }

  /** A trim leaves at most `maxKeys` keys, untouched; a key still counting
      failures or locked goes only once no idle key is left. */
  lemma TrimBounds(t: Table, maxKeys: nat)
    requires TableValid(t)
    ensures var r := Trimmed(t, maxKeys);
      && TableValid(r) && |r.order| <= maxKeys && Part(r, t)
      && (|t.order| <= maxKeys ==> r == t)
      && ((exists k :: k in t.states && !Idle(t.states[k]) && k !in r.states) ==>
            forall k :: k in r.states ==> !Idle(r.states[k]))
  {
    if |t.order| > maxKeys {
      DropIdleKeeps(t, t.order, maxKeys);
      EvictOldestKeeps(DropIdle(t, t.order, maxKeys), maxKeys);
    }
  }

  function Checked(t: Table, key: string, window: int, now: int): Table {
    match CheckKey(Lookup(t, key), window, now).0
    case Some(s) => Put(t, key, s)
    case None => if key in t.states then Pop(t, key) else t
  }

  function Failed(t: Table, key: string, p: Limits, now: int, maxKeys: nat): Table
    requires TableValid(t)
  {
    PutKeeps(t, key, FailKey(Lookup(t, key), p, now));
    Trimmed(Put(t, key, FailKey(Lookup(t, key), p, now)), maxKeys)
  }

  lemma PutKeeps(t: Table, key: string, s: KeyState)
    requires TableValid(t)
    ensures TableValid(Put(t, key, s))
  {
  }

  // ----- The limiter -----

  class InMemoryRateLimiter {
    var states: map<string, KeyState>
    var order: seq<string>
    const maxKeys: nat

    function State(): Table
      reads this
    {
      Table(states, order)
    }

    ghost predicate Valid()
      reads this
    {
      TableValid(State())
    }

    constructor (maxKeys: nat)
      ensures Valid() && State() == Table(map[], []) && this.maxKeys == maxKeys
    {
      states, order := map[], [];
      this.maxKeys := maxKeys;
    }

    /** `_prune_failures`. */
    static method PruneFailures(failures: seq<int>, now: int, window: int) returns (r: seq<int>)
      ensures r == Pruned(failures, now - window)
    {
      var cutoff := now - window;
      r := failures;
      ghost var k := 0;
      while r != [] && r[0] < cutoff
        invariant 0 <= k <= |failures| && r == failures[k..]
        invariant PruneFrom(failures, cutoff, k) == PruneFrom(failures, cutoff, 0)
      {
        k := k + 1;
        r := r[1..];
      }
    }

    /** `check_blocked`: the seconds left on a lock, or none. */
    method CheckBlocked(key: string, windowSeconds: int, now: int) returns (blocked: Option<int>)
      requires Valid()
      modifies this
      ensures Valid()
      ensures State() == Checked(old(State()), key, AtLeastOne(windowSeconds) * SECOND, now)
      ensures blocked == CheckKey(Lookup(old(State()), key), AtLeastOne(windowSeconds) * SECOND, now).1
    {
      hide TableValid, Pruned, AtLeastOne, RemainingSeconds, Without;
      if key !in states {
        return None;
      }
      var state := states[key];
      var window := AtLeastOne(windowSeconds) * SECOND;
      PopValid(State(), key);
      var failures := PruneFailures(state.failures, now, window);
      if state.lockUntil.Some? && state.lockUntil.value > now {
        SameKeysValid(State(), Table(states[key := KeyState(failures, state.lockUntil)], order));
        states := states[key := KeyState(failures, state.lockUntil)];
        return Some(RemainingSeconds(state.lockUntil.value, now));
      }
      if failures == [] {
        states := states - {key};
        order := Without(order, key);
      } else {
        SameKeysValid(State(), Table(states[key := KeyState(failures, None)], order));
        states := states[key := KeyState(failures, None)];
      }
      blocked := None;
    }

    /** `register_failure`: the seconds of a new lock, or none. */
    method RegisterFailure(key: string, settings: Settings, now: int) returns (locked: Option<int>)
      requires Valid()
      modifies this
      ensures Valid() && |order| <= maxKeys
      ensures State() == Failed(old(State()), key, settings.ToLimits(), now, maxKeys)
      ensures locked == if FailKey(Lookup(old(State()), key), settings.ToLimits(), now).failures == []
                        then Some(AtLeastOne(settings.lockoutSeconds)) else None
    {
      hide TableValid, Pruned, AtLeastOne, Trimmed, Distinct, RemainingSeconds;
      var p := settings.ToLimits();
      WholeSeconds(AtLeastOne(settings.lockoutSeconds), now);
      PutKeeps(State(), key, FailKey(Lookup(State(), key), p, now));
      TrimBounds(Put(State(), key, FailKey(Lookup(State(), key), p, now)), maxKeys);
      var state := if key in states then states[key] else KeyState([], None);
      if key !in states {
        order := order + [key];
      }
      var failures := PruneFailures(state.failures, now, p.window);
      failures := failures + [now];
      if |failures| >= p.attempts {
        states := states[key := KeyState([], Some(now + p.lockout))];
        TrimIfNeeded();
        return Some(RemainingSeconds(now + p.lockout, now));
      }
      states := states[key := KeyState(failures, state.lockUntil)];
      TrimIfNeeded();
      locked := None;
    }

    method RegisterSuccess(key: string)
      requires Valid()
      modifies this
      ensures Valid() && State() == Pop(old(State()), key)
    {
      PopKeeps(State(), key);
      states := states - {key};
      order := Without(order, key);
    }

    /** `_trim_if_needed`. */
    method TrimIfNeeded()
      requires Distinct(order)
      modifies this
      ensures State() == Trimmed(old(State()), maxKeys)
    {
      if |order| <= maxKeys {
        return;
      }
      var keys := order;
      ghost var start := State();
      DropIdleKeeps(start, keys, maxKeys);
      var i := 0;
      while i < |keys|
        invariant 0 <= i <= |keys|
        invariant Distinct(order) && |order| > maxKeys
        invariant DropIdle(start, keys, maxKeys) == DropIdle(State(), keys[i..], maxKeys)
      {
        PopKeeps(State(), keys[i]);
        if keys[i] in states && Idle(states[keys[i]]) {
          order := Without(order, keys[i]);
          states := states - {keys[i]};
        }
        assert keys[i..][1..] == keys[i + 1..];
        if |order| <= maxKeys {
          return;
        }
        i := i + 1;
      }
      while |order| > maxKeys
        invariant Distinct(order)
        invariant EvictOldest(State(), maxKeys) == EvictOldest(DropIdle(start, keys, maxKeys), maxKeys)
      {
        PopKeeps(State(), order[0]);
        WithoutFirst(order);
        var firstKey := order[0];
        order := Without(order, firstKey);
        states := states - {firstKey};
      }
    }
  }
}
