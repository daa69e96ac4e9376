/** Bounds over whole runs of the rate limiter. */
module RateWindows {
  import opened Sequences
  import opened RateLimiter

  // ----- One key between resets -----

  /** What a caller does with a key: look, or attempt and fail if not blocked. */
  datatype Op = Check(at: int) | Attempt(at: int)

  /** The key's entry, and the times of all failures registered so far. */
  datatype Trail = Trail(entry: Option<KeyState>, registered: seq<int>, now: int)

  const FRESH := None

  function Did(s: Trail, op: Op, p: Limits): Trail {
    var (entry, blocked) := CheckKey(s.entry, p.window, op.at);
    if op.Check? || blocked.Some? then Trail(entry, s.registered, op.at)
    else Trail(Some(FailKey(entry, p, op.at)), s.registered + [op.at], op.at)
  }

  function DidAll(start: int, ops: seq<Op>, p: Limits): Trail {
    if ops == [] then Trail(FRESH, [], start) else Did(DidAll(start, ops[..|ops| - 1], p), ops[|ops| - 1], p)
  }

  /** The clock does not run backwards. */
  predicate Clocked(start: int, ops: seq<Op>) {
    && (ops != [] ==> start <= ops[0].at)
    && (forall i, j :: 0 <= i < j < |ops| ==> ops[i].at <= ops[j].at)
  }

  predicate Sorted(times: seq<int>) {
    forall i, j :: 0 <= i < j < |times| ==> times[i] <= times[j]
  }

  /** No window holds more than the allowed number of registered failures:
      a failure and the one `attempts` places later are a window apart. */
  predicate Spread(times: seq<int>, attempts: int, window: int)
    requires attempts >= 1
  {
    forall i :: 0 <= i < |times| - attempts ==> times[i + attempts] - times[i] >= window
  }

  function CountWithin(times: seq<int>, from: int, until: int): nat {
    if times == [] then 0
    else CountWithin(times[..|times| - 1], from, until) + (if from <= times[|times| - 1] < until then 1 else 0)
  }

  /** The times at or after `cutoff`. */
  function NotBefore(times: seq<int>, cutoff: int): seq<int> {
    if times == [] then []
    else
      var n := |times| - 1;
      NotBefore(times[..n], cutoff) + (if times[n] >= cutoff then [times[n]] else [])
  }

  function Stored(entry: Option<KeyState>): seq<int> {
    if entry.Some? then entry.value.failures else []
  }

  function LockOf(entry: Option<KeyState>): Option<int> {
    if entry.Some? then entry.value.lockUntil else None
  }

  /** The stored failures are the newest registered ones, in time order, and
      fewer than the limit. */
  ghost predicate HoldsNewest(s: Trail, p: Limits) {
    var stored, n := Stored(s.entry), |s.registered|;
    && |stored| <= n && stored == s.registered[n - |stored|..]
    && |stored| < p.attempts
    && Sorted(s.registered)
    && (forall i :: 0 <= i < n ==> s.registered[i] <= s.now)
  }

  /** Besides, every other registered failure has left the window, or will have
      left it when the current lock ends. */
  ghost predicate Inv(s: Trail, p: Limits) {
    var stored, lock, n := Stored(s.entry), LockOf(s.entry), |s.registered|;
    && HoldsNewest(s, p)
    && (forall i :: 0 <= i < n - |stored| ==>
          s.registered[i] + p.window <= s.now
          || (lock.Some? && s.registered[i] + p.window <= lock.value))
    && Spread(s.registered, p.attempts, p.window)
  }

  /** A check prunes the stored failures, and clears a lock that has ended. */
  lemma CheckPrunes(v: Option<KeyState>, window: int, now: int)
    ensures var (entry, blocked) := CheckKey(v, window, now);
            && Stored(entry) == Pruned(Stored(v), now - window)
            && LockOf(entry) == (if blocked.Some? then LockOf(v) else None)
            && (blocked.Some? <==> LockOf(v).Some? && LockOf(v).value > now)
  {
    hide RemainingSeconds, PruneFrom;
    if v.None? {
      assert PruneFrom([], now - window, 0) == 0;
    }
  }

  lemma CheckKeeps(s: Trail, p: Limits, now: int)
    requires p.Valid() && Inv(s, p) && s.now <= now
    ensures var (entry, blocked) := CheckKey(s.entry, p.window, now);
            && Inv(Trail(entry, s.registered, now), p)
            && (blocked.None? ==> LockOf(entry).None?)
  {
    hide CheckKey, Pruned, Stored, LockOf, Spread;
    CheckPrunes(s.entry, p.window, now);
    PruneKeeps(Stored(s.entry), s.registered, p, now);
  }

  /** Pruning stored failures, the newest of all those registered. */
  lemma PruneKeeps(stored: seq<int>, registered: seq<int>, p: Limits, now: int)
    requires |stored| <= |registered| && stored == registered[|registered| - |stored|..]
    requires Sorted(registered)
    ensures var failures := Pruned(stored, now - p.window);
            var n := |registered|;
            && |failures| <= |stored| && failures == registered[n - |failures|..]
            && forall i :: n - |stored| <= i < n - |failures| ==> registered[i] + p.window <= now
  {
    var k := PruneFrom(stored, now - p.window, 0);
    var lost := |registered| - |stored|;
    assert forall j :: 0 <= j < k ==> stored[j] == registered[lost + j];
    forall i | lost <= i < lost + k ensures registered[i] + p.window <= now {
      assert stored[i - lost] < now - p.window;
    }
  }

  /** A registered failure joins what the window still holds, or locks the key
      and empties it. */
  lemma FailStores(v: Option<KeyState>, p: Limits, now: int)
    requires LockOf(v).None?
    ensures var entry, held := Some(FailKey(v, p, now)), Pruned(Stored(v), now - p.window) + [now];
            if |held| >= p.attempts then Stored(entry) == [] && LockOf(entry) == Some(now + p.lockout)
            else Stored(entry) == held && LockOf(entry).None?
  {
    hide Pruned;
  }

  lemma RegisterKeeps(s: Trail, p: Limits)
    requires p.Valid() && p.lockout >= p.window
    requires Inv(s, p) && LockOf(s.entry).None?
    ensures Inv(Trail(Some(FailKey(s.entry, p, s.now)), s.registered + [s.now], s.now), p)
  {
    hide Pruned, FailKey, Stored, LockOf, Spread, Sorted;
    var failures := Pruned(Stored(s.entry), s.now - p.window);
    RegisterHolds(s, p);
    PruneKeeps(Stored(s.entry), s.registered, p, s.now);
    FailStores(s.entry, p, s.now);
    GrownSpread(s.registered, s.now, |failures|, p);
  }

  lemma GrownSpread(registered: seq<int>, now: int, stored: nat, p: Limits)
    requires p.Valid() && stored < p.attempts && stored <= |registered|
    requires Spread(registered, p.attempts, p.window)
    requires forall i :: 0 <= i < |registered| - stored ==> registered[i] + p.window <= now
    ensures Spread(registered + [now], p.attempts, p.window)
  {
  }

  lemma CheckHolds(s: Trail, p: Limits, now: int)
    requires p.Valid() && HoldsNewest(s, p) && s.now <= now
    ensures HoldsNewest(Trail(CheckKey(s.entry, p.window, now).0, s.registered, now), p)
  {
    hide CheckKey, Pruned, Stored, LockOf;
    CheckPrunes(s.entry, p.window, now);
    PruneKeeps(Stored(s.entry), s.registered, p, now);
  }

  lemma RegisterHolds(s: Trail, p: Limits)
    requires p.Valid() && HoldsNewest(s, p) && LockOf(s.entry).None?
    ensures HoldsNewest(Trail(Some(FailKey(s.entry, p, s.now)), s.registered + [s.now], s.now), p)
  {
    hide Pruned, FailKey, Stored, LockOf;
    var failures := Pruned(Stored(s.entry), s.now - p.window);
    var n, grown := |s.registered|, s.registered + [s.now];
    PruneKeeps(Stored(s.entry), s.registered, p, s.now);
    FailStores(s.entry, p, s.now);
    assert grown[n - |failures|..] == failures + [s.now];
    assert grown[n + 1..] == [];
  }

  /** Over every clocked run, whatever the lockout, the stored failures are the
      newest registered ones, in time order, and fewer than the limit. */
  lemma {:induction false} StoredAreNewest(start: int, ops: seq<Op>, p: Limits)
    requires p.Valid() && Clocked(start, ops)
    ensures HoldsNewest(DidAll(start, ops, p), p)
    ensures DidAll(start, ops, p).now == if ops == [] then start else ops[|ops| - 1].at
  {
    hide HoldsNewest, CheckKey, FailKey;
    if ops == [] {
      FreshHolds(start, p);
    } else {
      var n := |ops| - 1;
      StoredAreNewest(start, ops[..n], p);
      var s, now := DidAll(start, ops[..n], p), ops[n].at;
      CheckHolds(s, p, now);
      CheckPrunes(s.entry, p.window, now);
      var (entry, blocked) := CheckKey(s.entry, p.window, now);
      if ops[n].Attempt? && blocked.None? {
        RegisterHolds(Trail(entry, s.registered, now), p);
      }
    }
  }

  /** With a lockout of at least the window the rest has left it. */
  lemma {:induction false} TrailInv(start: int, ops: seq<Op>, p: Limits)
    requires p.Valid() && p.lockout >= p.window && Clocked(start, ops)
    ensures Inv(DidAll(start, ops, p), p)
    ensures DidAll(start, ops, p).now == if ops == [] then start else ops[|ops| - 1].at
  {
    hide Inv, CheckKey, FailKey;
    if ops == [] {
      FreshInv(start, p);
    } else {
      var n := |ops| - 1;
      TrailInv(start, ops[..n], p);
      var s, now := DidAll(start, ops[..n], p), ops[n].at;
      CheckKeeps(s, p, now);
      var (entry, blocked) := CheckKey(s.entry, p.window, now);
      if ops[n].Attempt? && blocked.None? {
        RegisterKeeps(Trail(entry, s.registered, now), p);
      }
    }
  }

  lemma FreshHolds(start: int, p: Limits)
    requires p.Valid()
    ensures HoldsNewest(Trail(FRESH, [], start), p)
  {
    var none: seq<int> := [];
    assert none[0..] == none;
  }

  lemma FreshInv(start: int, p: Limits)
    requires p.Valid()
    ensures Inv(Trail(FRESH, [], start), p)
  {
    hide HoldsNewest;
    FreshHolds(start, p);
    assert Stored(FRESH) == [];
  }

  lemma {:induction false} SpreadBounds(times: seq<int>, attempts: nat, window: int, from: int)
    requires attempts >= 1 && Sorted(times) && Spread(times, attempts, window)
    ensures CountWithin(times, from, from + window) <= attempts
  {
    if |times| <= attempts {
      CountAtMost(times, from, from + window);
    } else {
      var n := |times| - 1;
      assert Spread(times[..n], attempts, window);
      SpreadBounds(times[..n], attempts, window, from);
      if from <= times[n] < from + window {
        assert times[n - attempts] < from;
        CountSuffix(times[..n], n - attempts, from, from + window);
      }
    }
  }

  lemma {:induction false} CountAtMost(times: seq<int>, from: int, until: int)
    ensures CountWithin(times, from, until) <= |times|
  {
    if times == [] {
    } else {
      CountAtMost(times[..|times| - 1], from, until);
    }
  }

  /** When entry `k` is before `from`, only the entries after it count. */
  lemma {:induction false} CountSuffix(times: seq<int>, k: nat, from: int, until: int)
    requires k < |times| && Sorted(times) && times[k] < from
    ensures CountWithin(times, from, until) <= |times| - 1 - k
  {
    var n := |times| - 1;
    if k < n {
      CountSuffix(times[..n], k, from, until);
    } else {
      NoneWithin(times, from, until);
    }
  }

  lemma {:induction false} NoneWithin(times: seq<int>, from: int, until: int)
    requires forall i :: 0 <= i < |times| ==> times[i] < from
    ensures CountWithin(times, from, until) == 0
  {
    if times == [] {
    } else {
      NoneWithin(times[..|times| - 1], from, until);
    }
  }

  /** Main result: with a lockout no shorter than the window, any half-open
      interval one window long holds at most the allowed number of registered
      failures of a key, between two resets of that key. */
  lemma WindowBound(start: int, ops: seq<Op>, p: Limits, from: int)
    requires p.Valid() && p.lockout >= p.window && Clocked(start, ops)
    ensures CountWithin(DidAll(start, ops, p).registered, from, from + p.window) <= p.attempts
  {
    hide DidAll;
    TrailInv(start, ops, p);
    SpreadBounds(DidAll(start, ops, p).registered, p.attempts, p.window, from);
  }

  // ----- The condition is exact -----

  /** `k` failing attempts at one instant. */
  function Burst(k: nat): (r: seq<Op>)
    ensures |r| == k && forall i :: 0 <= i < k ==> r[i] == Attempt(0)
  {
    seq(k, i => Attempt(0))
  }

  function Zeros(k: nat): (r: seq<int>)
    ensures |r| == k && forall i :: 0 <= i < k ==> r[i] == 0
  {
    seq(k, i => 0)
  }

  lemma PrunedZeros(k: nat, cutoff: int)
    requires cutoff <= 0
    ensures Pruned(Zeros(k), cutoff) == Zeros(k)
  {
    if k > 0 {
      assert Zeros(k)[0] == 0;
    }
  }

  lemma {:induction false} BurstTrail(k: nat, p: Limits)
    requires p.Valid() && k <= p.attempts
    ensures DidAll(0, Burst(k), p)
         == Trail(if k == 0 then None
                  else if k == p.attempts then Some(KeyState([], Some(p.lockout)))
                  else Some(KeyState(Zeros(k), None)), Zeros(k), 0)
  {
    hide Did;
    if k == 0 {
      assert Zeros(0) == [];
    } else {
      assert Burst(k)[..k - 1] == Burst(k - 1);
      BurstTrail(k - 1, p);
      BurstStep(k - 1, p);
    }
  }

  lemma BurstStep(k: nat, p: Limits)
    requires p.Valid() && k < p.attempts
    ensures Did(Trail(if k == 0 then None else Some(KeyState(Zeros(k), None)), Zeros(k), 0), Attempt(0), p)
         == Trail(if k + 1 == p.attempts then Some(KeyState([], Some(p.lockout)))
                  else Some(KeyState(Zeros(k + 1), None)), Zeros(k + 1), 0)
  {
    hide Pruned, RemainingSeconds;
    PrunedZeros(k, 0 - p.window);
    PrunedZeros(0, 0 - p.window);
    assert Zeros(0) == [];
    assert Zeros(k) + [0] == Zeros(k + 1);
    assert k > 0 ==> Zeros(k) != [];
  }

  lemma {:induction false} CountZeros(k: nat, until: int)
    requires until > 0
    ensures CountWithin(Zeros(k), 0, until) == k
  {
    if k > 0 {
      assert Zeros(k)[..k - 1] == Zeros(k - 1);
      CountZeros(k - 1, until);
    }
  }

  /** With a shorter lockout one more failure fits in the window. */
  lemma ShortLockoutLeaks(p: Limits)
    requires p.Valid() && p.lockout < p.window
    ensures var ops := Burst(p.attempts) + [Attempt(p.lockout)];
      && Clocked(0, ops)
      && CountWithin(DidAll(0, ops, p).registered, 0, p.window) == p.attempts + 1
  {
    hide Did;
    var k := p.attempts;
    var ops := Burst(k) + [Attempt(p.lockout)];
    assert ops[..|ops| - 1] == Burst(k);
    BurstTrail(k, p);
    AfterShortLock(k, p);
    assert (Zeros(k) + [p.lockout])[..k] == Zeros(k);
    CountZeros(k, p.window);
  }

  lemma AfterShortLock(k: nat, p: Limits)
    ensures Did(Trail(Some(KeyState([], Some(p.lockout))), Zeros(k), 0), Attempt(p.lockout), p).registered
         == Zeros(k) + [p.lockout]
  {
    hide FailKey, CheckKey;
    EndedLockClears(p.window, p.lockout);
  }

  lemma EndedLockClears(window: int, now: int)
    ensures CheckKey(Some(KeyState([], Some(now))), window, now) == (None, None)
  {
    hide RemainingSeconds;
    assert PruneFrom([], now - window, 0) == 0;
  }

  /** The run keeps the bound in the interval starting at `from`. */
  predicate BoundHolds(p: Limits, start: int, ops: seq<Op>, from: int) {
    CountWithin(DidAll(start, ops, p).registered, from, from + p.window) <= p.attempts
  }

  /** The bound holds over every run exactly when the lockout is at least as
      long as the window. */
  lemma WindowBoundIffLongLockout(p: Limits)
    requires p.Valid()
    ensures p.lockout >= p.window <==>
              forall start, ops, from :: Clocked(start, ops) ==> BoundHolds(p, start, ops, from)
  {
    hide DidAll;
    if p.lockout >= p.window {
      forall start, ops, from | Clocked(start, ops) ensures BoundHolds(p, start, ops, from) {
        WindowBound(start, ops, p, from);
      }
    } else {
      ShortLockoutLeaks(p);
      assert !BoundHolds(p, 0, Burst(p.attempts) + [Attempt(p.lockout)], 0);
    }
  }

  /** In the settings' own terms. */
  lemma SettingsBound(s: Settings)
    ensures AtLeastOne(s.lockoutSeconds) >= AtLeastOne(s.windowSeconds) <==>
              forall start, ops, from :: Clocked(start, ops) ==> BoundHolds(s.ToLimits(), start, ops, from)
  {
    WindowBoundIffLongLockout(s.ToLimits());
  }

  // ----- The whole table -----

  datatype Call =
    | Looked(key: string, window: int, at: int)
    | Failure(key: string, p: Limits, at: int)
    | Success(key: string)

  function Called(t: Table, c: Call, maxKeys: nat): Table
    requires TableValid(t)
  {
    match c
    case Looked(key, window, at) => Checked(t, key, window, at)
    case Failure(key, p, at) => Failed(t, key, p, at, maxKeys)
    case Success(key) => Pop(t, key)
  }

  /** The table is its keys: a look or a success touches its own key alone; a
      failure moves its own key by one step, and a trim can only drop keys. */
  lemma TableFollowsKeys(t: Table, c: Call, maxKeys: nat, k: string)
    requires TableValid(t)
    ensures var before, after := Lookup(t, k), Lookup(Called(t, c, maxKeys), k);
      match c
      case Looked(key, window, at) => after == if k == key then CheckKey(before, window, at).0 else before
      case Success(key) => after == if k == key then None else before
      case Failure(key, p, at) =>
        var moved := if k == key then Some(FailKey(before, p, at)) else before;
        (after == moved || after.None?) && (|t.order| < maxKeys ==> after == moved)
  {
    hide RemainingSeconds, Pruned, FailKey, Trimmed;
    match c {
      case Looked(key, window, at) =>
      case Failure(key, p, at) =>
        PutKeeps(t, key, FailKey(Lookup(t, key), p, at));
        TrimBounds(Put(t, key, FailKey(Lookup(t, key), p, at)), maxKeys);
      case Success(key) =>
    }
  }

  lemma CallKeeps(t: Table, c: Call, maxKeys: nat)
    requires TableValid(t) && |t.order| <= maxKeys
    ensures TableValid(Called(t, c, maxKeys)) && |Called(t, c, maxKeys).order| <= maxKeys
  {
    hide RemainingSeconds, Pruned, FailKey, Trimmed;
    match c {
      case Looked(key, window, at) =>
        PopKeeps(t, key);
      case Failure(key, p, at) =>
        PutKeeps(t, key, FailKey(Lookup(t, key), p, at));
        TrimBounds(Put(t, key, FailKey(Lookup(t, key), p, at)), maxKeys);
      case Success(key) => PopKeeps(t, key);
    }
  }

  ghost predicate Reached(calls: seq<Call>, maxKeys: nat, t: Table) {
    if calls == [] then t == Table(map[], [])
    else exists before: Table :: TableValid(before) && Reached(calls[..|calls| - 1], maxKeys, before)
                                 && t == Called(before, calls[|calls| - 1], maxKeys)
  }

  /** Whatever is called, the key table never exceeds its bound. */
  lemma {:induction false} TableBounded(calls: seq<Call>, maxKeys: nat, t: Table)
    requires Reached(calls, maxKeys, t)
    ensures TableValid(t) && |t.order| <= maxKeys
  {
    hide Called, TableValid;
    if calls == [] {
      EmptyTableValid();
    } else {
      var before :| TableValid(before) && Reached(calls[..|calls| - 1], maxKeys, before)
                    && t == Called(before, calls[|calls| - 1], maxKeys);
      TableBounded(calls[..|calls| - 1], maxKeys, before);
      CallKeeps(before, calls[|calls| - 1], maxKeys);
    }
  }

  lemma EmptyTableValid()
    ensures TableValid(Table(map[], []))
  {
  }

  // ----- One key of a busy table -----

  /** What is known of key `k` while anybody calls the limiter: the failures
      registered since its last success or eviction and how many of them there
      were when it was last locked, when it was last called about, whether it was
      checked and found free since its last failure, and whether the run was
      possible. */
  datatype Watch = Watch(
    table: Table, registered: seq<int>, locked: nat, touched: int, now: int, checked: bool, possible: bool)

  /** How many failures count after one more at `at`, given those before it and
      how many of them an earlier lock settled; and so, how many are settled. */
  function Settled(registered: seq<int>, locked: nat, at: int, p: Limits): nat
    requires locked <= |registered|
  {
    if |NotBefore(registered[locked..], at - p.window)| + 1 >= p.attempts then |registered| + 1 else locked
  }

  /** A trim dropped the key. */
  predicate Evicts(t: Table, c: Call, after: Table, k: string) {
    c.Failure? && (c.key == k || Lookup(t, k).Some?) && Lookup(after, k).None?
  }

  /** One call: the clock does not run backwards, and callers of `k` use the
      limits `p` and register a failure only after a check that let them pass. */
  function Watched1(w: Watch, c: Call, k: string, p: Limits, maxKeys: nat): (w': Watch)
    requires TableValid(w.table) && w.locked <= |w.registered|
    ensures w'.locked <= |w'.registered|
  {
    var t := Called(w.table, c, maxKeys);
    match c
    case Looked(key, window, at) =>
      var passed := CheckKey(Lookup(w.table, k), window, at).1.None?;
      w.(table := t, touched := if key == k then at else w.touched, now := at,
         checked := if key == k then passed else w.checked,
         possible := w.possible && w.now <= at && (key == k ==> window == p.window))
    case Failure(key, limits, at) =>
      var v := w.(table := t, now := at, checked := w.checked && key != k,
                  possible := w.possible && w.now <= at && (key == k ==> w.checked && limits == p));
      if Evicts(w.table, c, t, k) then v.(registered := [], locked := 0, touched := at)
      else if key == k then
        v.(registered := w.registered + [at], locked := Settled(w.registered, w.locked, at, p), touched := at)
      else v
    case Success(key) =>
      if key == k then w.(table := t, registered := [], locked := 0, touched := w.now) else w.(table := t)
  }

  function Watched(start: int, calls: seq<Call>, k: string, p: Limits, maxKeys: nat): (w: Watch)
    ensures TableValid(w.table) && |w.table.order| <= maxKeys && w.locked <= |w.registered|
  {
    EmptyTableValid();
    if calls == [] then Watch(Table(map[], []), [], 0, start, start, false, true)
    else
      var n := |calls| - 1;
      var w := Watched(start, calls[..n], k, p, maxKeys);
      CallKeeps(w.table, calls[n], maxKeys);
      Watched1(w, calls[n], k, p, maxKeys)
  }

  ghost predicate WatchInv(w: Watch, k: string, p: Limits) {
    && Inv(Trail(Lookup(w.table, k), w.registered, w.now), p)
    && (w.checked ==> LockOf(Lookup(w.table, k)).None?)
  }

  /** Time alone takes nothing back. */
  lemma InvLater(s: Trail, p: Limits, now: int)
    requires p.Valid() && Inv(s, p) && s.now <= now
    ensures Inv(s.(now := now), p)
  {
  }

  lemma Watched1Keeps(w: Watch, c: Call, k: string, p: Limits, maxKeys: nat)
    requires p.Valid() && p.lockout >= p.window
    requires TableValid(w.table) && w.locked <= |w.registered| && WatchInv(w, k, p)
    requires Watched1(w, c, k, p, maxKeys).possible
    ensures WatchInv(Watched1(w, c, k, p, maxKeys), k, p)
  {
    hide Inv, CheckKey, FailKey, Called, TableValid, Lookup;
    TableFollowsKeys(w.table, c, maxKeys, k);
    var before := Trail(Lookup(w.table, k), w.registered, w.now);
    NothingLocked();
    match c {
      case Looked(key, window, at) =>
        InvLater(before, p, at);
        CheckKeeps(before, p, at);
      case Failure(key, limits, at) =>
        InvLater(before, p, at);
        FreshInv(at, p);
        if key == k {
          RegisterKeeps(before.(now := at), p);
        }
      case Success(key) =>
        FreshInv(w.now, p);
    }
  }

  lemma NothingLocked()
    ensures LockOf(None).None?
  {
  }

  lemma {:induction false} WatchedInv(start: int, calls: seq<Call>, k: string, p: Limits, maxKeys: nat)
    requires p.Valid() && p.lockout >= p.window
    requires Watched(start, calls, k, p, maxKeys).possible
    ensures WatchInv(Watched(start, calls, k, p, maxKeys), k, p)
  {
    hide WatchInv, Called, TableValid;
    if calls == [] {
      EmptyWatch(start, k, p);
    } else {
      var n := |calls| - 1;
      WatchedInv(start, calls[..n], k, p, maxKeys);
      Watched1Keeps(Watched(start, calls[..n], k, p, maxKeys), calls[n], k, p, maxKeys);
    }
  }

  lemma EmptyWatch(start: int, k: string, p: Limits)
    requires p.Valid()
    ensures WatchInv(Watch(Table(map[], []), [], 0, start, start, false, true), k, p)
  {
    FreshInv(start, p);
  }

  /** Main result on the table: in every run of calls, whatever happens to other
      keys, no window holds more than the limit of the failures a key registered
      between two of its resets and evictions. */
  lemma TableWindowBound(start: int, calls: seq<Call>, k: string, p: Limits, maxKeys: nat, from: int)
    requires p.Valid() && p.lockout >= p.window
    requires Watched(start, calls, k, p, maxKeys).possible
    ensures CountWithin(Watched(start, calls, k, p, maxKeys).registered, from, from + p.window) <= p.attempts
  {
    hide Watched;
    WatchedInv(start, calls, k, p, maxKeys);
    SpreadBounds(Watched(start, calls, k, p, maxKeys).registered, p.attempts, p.window, from);
  }
}
