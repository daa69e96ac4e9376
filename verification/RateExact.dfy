/** The limiter locks and lets through exactly as a record of every failure
    would: failures outside the window, or settled by an earlier lock, stop
    counting, and a lock lasts as long as it is set to. */
module RateExact {
  import opened Sequences
  import opened RateLimiter
  import opened RateWindows

  // ----- Reference: every failure remembered -----

  /** All failures registered, and how many of them the last lock settled. */
  datatype Past = Past(registered: seq<int>, locked: nat, now: int)

  /** A lock runs from the failure that completed it. */
  predicate Locked(h: Past, at: int, lockout: int)
    requires h.locked <= |h.registered|
  {
    h.locked > 0 && at < h.registered[h.locked - 1] + lockout
  }

  function Remembered(h: Past, op: Op, attempts: int, window: int, lockout: int): (r: Past)
    requires h.locked <= |h.registered|
    ensures r.locked <= |r.registered|
  {
    if op.Check? || Locked(h, op.at, lockout) then h.(now := op.at)
    else
      var counted := |NotBefore(h.registered[h.locked..], op.at - window)| + 1;
      Past(h.registered + [op.at], if counted >= attempts then |h.registered| + 1 else h.locked, op.at)
  }

  function RememberedAll(start: int, ops: seq<Op>, attempts: int, window: int, lockout: int): (h: Past)
    ensures h.locked <= |h.registered|
  {
    if ops == [] then Past([], 0, start)
    else Remembered(RememberedAll(start, ops[..|ops| - 1], attempts, window, lockout), ops[|ops| - 1],
                    attempts, window, lockout)
  }

  // ----- Pruning a sorted list -----

  lemma {:induction false} AllNotBefore(times: seq<int>, cutoff: int)
    requires forall i :: 0 <= i < |times| ==> times[i] >= cutoff
    ensures NotBefore(times, cutoff) == times
  {
    if times == [] {
    } else {
      AllNotBefore(times[..|times| - 1], cutoff);
    }
  }

  lemma {:induction false} NoneNotBefore(times: seq<int>, cutoff: int)
    requires forall i :: 0 <= i < |times| ==> times[i] < cutoff
    ensures NotBefore(times, cutoff) == []
  {
    if times == [] {
    } else {
      NoneNotBefore(times[..|times| - 1], cutoff);
    }
  }

  lemma {:induction false} NotBeforeAppend(a: seq<int>, b: seq<int>, cutoff: int)
    ensures NotBefore(a + b, cutoff) == NotBefore(a, cutoff) + NotBefore(b, cutoff)
  {
    if b == [] {
      assert a + b == a;
    } else {
      var n := |b| - 1;
      assert (a + b)[..|a| + n] == a + b[..n];
      NotBeforeAppend(a, b[..n], cutoff);
    }
  }

  /** Dropping leading times before the cutoff drops all of them. */
  lemma PrunedIsNotBefore(times: seq<int>, cutoff: int)
    requires Sorted(times)
    ensures Pruned(times, cutoff) == NotBefore(times, cutoff)
  {
    hide NotBefore, PruneFrom;
    var k := PruneFrom(times, cutoff, 0);
    assert times == times[..k] + times[k..];
    assert forall i :: k <= i < |times| ==> times[i] >= times[k] >= cutoff;
    NotBeforeAppend(times[..k], times[k..], cutoff);
    NoneNotBefore(times[..k], cutoff);
    AllNotBefore(times[k..], cutoff);
  }

  lemma {:induction false} NotBeforeTwice(times: seq<int>, early: int, late: int)
    requires early <= late
    ensures NotBefore(NotBefore(times, early), late) == NotBefore(times, late)
  {
    if times == [] {
    } else {
      var n := |times| - 1;
      NotBeforeTwice(times[..n], early, late);
      NotBeforeAppend(NotBefore(times[..n], early), if times[n] >= early then [times[n]] else [], late);
    }
  }

  lemma {:induction false} NotBeforeSorted(times: seq<int>, cutoff: int)
    requires Sorted(times)
    ensures Sorted(NotBefore(times, cutoff))
    ensures forall t :: t in NotBefore(times, cutoff) ==> t in times
  {
    if times == [] {
    } else {
      var n := |times| - 1;
      NotBeforeSorted(times[..n], cutoff);
      assert forall t :: t in times[..n] ==> t <= times[n];
      var kept := NotBefore(times[..n], cutoff);
      forall i | 0 <= i < |kept| ensures kept[i] <= times[n] {
        assert kept[i] in kept;
      }
    }
  }

  // ----- One entry against the record -----

  /** The entry as last touched: it stores the failures since the last lock that
      were then in the window, and holds the lock if it was then running. */
  ghost predicate Matches(entry: Option<KeyState>, h: Past, p: Limits) {
    && h.locked <= |h.registered| && Sorted(h.registered)
    && (forall i :: 0 <= i < |h.registered| ==> h.registered[i] <= h.now)
    && Stored(entry) == NotBefore(h.registered[h.locked..], h.now - p.window)
    && LockOf(entry) == (if Locked(h, h.now, p.lockout) then Some(h.registered[h.locked - 1] + p.lockout) else None)
  }

  lemma PruneMatches(stored: seq<int>, times: seq<int>, early: int, late: int)
    requires Sorted(times) && early <= late && stored == NotBefore(times, early)
    ensures Pruned(stored, late) == NotBefore(times, late)
  {
    NotBeforeSorted(times, early);
    PrunedIsNotBefore(stored, late);
    NotBeforeTwice(times, early, late);
  }

  /** A check answers as the record does, and the entry matches as of now. */
  lemma CheckMatches(entry: Option<KeyState>, h: Past, p: Limits, at: int)
    requires p.Valid() && Matches(entry, h, p) && h.now <= at
    ensures var (next, blocked) := CheckKey(entry, p.window, at);
      && Matches(next, h.(now := at), p)
      && (blocked.Some? <==> Locked(h, at, p.lockout))
  {
    hide CheckKey, Pruned, NotBefore, Stored, LockOf;
    CheckPrunes(entry, p.window, at);
    assert Sorted(h.registered[h.locked..]);
    PruneMatches(Stored(entry), h.registered[h.locked..], h.now - p.window, at - p.window);
  }

  /** A failure locks exactly when the record counts enough of them. */
  lemma FailMatches(entry: Option<KeyState>, h: Past, p: Limits, at: int)
    requires p.Valid() && Matches(entry, h, p) && h.now <= at && !Locked(h, at, p.lockout) && LockOf(entry).None?
    ensures Matches(Some(FailKey(entry, p, at)),
                    Past(h.registered + [at], Settled(h.registered, h.locked, at, p), at), p)
  {
    hide FailKey, Pruned, NotBefore, Stored, LockOf;
    var times, cutoff := h.registered[h.locked..], at - p.window;
    assert Sorted(times);
    PruneMatches(Stored(entry), times, h.now - p.window, cutoff);
    FailStores(entry, p, at);
    var grown := h.registered + [at];
    var held := NotBefore(times, cutoff) + [at];
    NotBeforeAppend(times, [at], cutoff);
    AllNotBefore([at], cutoff);
    AllNotBefore([], cutoff);
    if |held| >= p.attempts {
      assert grown[|grown|..] == [];
    } else {
      assert grown[h.locked..] == times + [at];
      assert h.locked > 0 ==> grown[h.locked - 1] == h.registered[h.locked - 1];
    }
  }

  /** Main result: over every clocked run of checks and attempts the limiter
      registers the failures, and blocks at the times, that the record of every
      failure says: an attempt is blocked exactly while a lock runs, and a lock
      starts exactly when the failures since the last one that are no older than
      the window reach the limit. */
  lemma {:induction false} LimiterRemembers(start: int, ops: seq<Op>, p: Limits)
    requires p.Valid() && Clocked(start, ops)
    ensures var s, h := DidAll(start, ops, p), RememberedAll(start, ops, p.attempts, p.window, p.lockout);
      && s.registered == h.registered && s.now == h.now && Matches(s.entry, h, p)
      && h.now == if ops == [] then start else ops[|ops| - 1].at
  {
    hide Matches, CheckKey, FailKey;
    if ops == [] {
      NothingRemembered(start, p);
    } else {
      var n := |ops| - 1;
      LimiterRemembers(start, ops[..n], p);
      var s, h := DidAll(start, ops[..n], p), RememberedAll(start, ops[..n], p.attempts, p.window, p.lockout);
      var at := ops[n].at;
      CheckMatches(s.entry, h, p, at);
      var (entry, blocked) := CheckKey(s.entry, p.window, at);
      if ops[n].Attempt? && blocked.None? {
        UnlockedEntry(entry, h.(now := at), p);
        FailMatches(entry, h.(now := at), p, at);
      }
    }
  }

  lemma UnlockedEntry(entry: Option<KeyState>, h: Past, p: Limits)
    requires Matches(entry, h, p) && !Locked(h, h.now, p.lockout)
    ensures LockOf(entry).None?
  {
    hide LockOf;
  }

  lemma NothingRemembered(start: int, p: Limits)
    ensures Matches(FRESH, Past([], 0, start), p)
  {
    var none: seq<int> := [];
    assert none[0..] == none;
    assert NotBefore(none, start - p.window) == [];
  }

  /** In the settings' own terms: seconds, each setting at least one.  A blocked
      caller is told the whole seconds left, at least one. */
  lemma SettingsDecide(start: int, ops: seq<Op>, s: Settings, at: int)
    requires Clocked(start, ops) && start <= at && forall i :: 0 <= i < |ops| ==> ops[i].at <= at
    ensures var attempts := if s.maxAttempts >= 1 then s.maxAttempts else 1;
            var window := (if s.windowSeconds >= 1 then s.windowSeconds else 1) * 1_000_000;
            var lockout := (if s.lockoutSeconds >= 1 then s.lockoutSeconds else 1) * 1_000_000;
            var h := RememberedAll(start, ops, attempts, window, lockout);
            var blocked := CheckKey(DidAll(start, ops, s.ToLimits()).entry, window, at).1;
      && DidAll(start, ops, s.ToLimits()).registered == h.registered
      && (blocked.Some? <==> h.locked > 0 && at < h.registered[h.locked - 1] + lockout)
      && (blocked.Some? ==>
            var left := h.registered[h.locked - 1] + lockout - at;
            blocked.value >= 1 && left < (blocked.value + 1) * 1_000_000
            && (blocked.value > 1 ==> blocked.value * 1_000_000 <= left))
  {
    hide CheckKey, RemainingSeconds, DidAll, RememberedAll;
    var p := s.ToLimits();
    LimiterRemembers(start, ops, p);
    var h := RememberedAll(start, ops, p.attempts, p.window, p.lockout);
    CheckMatches(DidAll(start, ops, p).entry, h, p, at);
    BlockedFor(DidAll(start, ops, p).entry, p.window, at);
    if Locked(h, at, p.lockout) {
      LockEnds(DidAll(start, ops, p).entry, h, p);
      SecondsLeft(h.registered[h.locked - 1] + p.lockout, at);
    }
  }

  lemma LockEnds(entry: Option<KeyState>, h: Past, p: Limits)
    requires Matches(entry, h, p) && Locked(h, h.now, p.lockout)
    ensures LockOf(entry) == Some(h.registered[h.locked - 1] + p.lockout)
  {
    hide LockOf;
  }

  lemma BlockedFor(entry: Option<KeyState>, window: int, at: int)
    ensures var blocked := CheckKey(entry, window, at).1;
            blocked.Some? ==> LockOf(entry).Some? && blocked.value == RemainingSeconds(LockOf(entry).value, at)
  {
    hide RemainingSeconds, Pruned;
  }

  lemma SecondsLeft(until: int, now: int)
    requires until > now
    ensures var r := RemainingSeconds(until, now);
      && r >= 1 && until - now < (r + 1) * 1_000_000 && (r > 1 ==> r * 1_000_000 <= until - now)
  {
  }

  // ----- The table -----

  /** The record of a watched key. */
  function PastOf(w: Watch): Past {
    Past(w.registered, w.locked, w.touched)
  }

  ghost predicate WatchMatches(w: Watch, k: string, p: Limits) {
    && w.touched <= w.now
    && Matches(Lookup(w.table, k), PastOf(w), p)
    && (w.checked ==> w.locked > 0 ==> w.registered[w.locked - 1] + p.lockout <= w.now)
    && (w.checked ==> LockOf(Lookup(w.table, k)).None?)
  }

  lemma Watched1Matches(w: Watch, c: Call, k: string, p: Limits, maxKeys: nat)
    requires p.Valid() && TableValid(w.table) && w.locked <= |w.registered| && WatchMatches(w, k, p)
    requires Watched1(w, c, k, p, maxKeys).possible
    ensures WatchMatches(Watched1(w, c, k, p, maxKeys), k, p)
  {
    hide CheckKey, FailKey, Called, TableValid, Lookup, Matches, Settled, LockOf;
    TableFollowsKeys(w.table, c, maxKeys, k);
    var entry := Lookup(w.table, k);
    NothingLocked();
    match c {
      case Looked(key, window, at) =>
        if key == k {
          CheckMatches(entry, PastOf(w), p, at);
          CheckPrunes(entry, p.window, at);
        }
      case Failure(key, limits, at) =>
        NothingRemembered(at, p);
        if key == k {
          FailMatches(entry, PastOf(w), p, at);
        }
      case Success(key) =>
        NothingRemembered(w.now, p);
    }
  }

  lemma {:induction false} WatchedMatches(start: int, calls: seq<Call>, k: string, p: Limits, maxKeys: nat)
    requires p.Valid() && Watched(start, calls, k, p, maxKeys).possible
    ensures WatchMatches(Watched(start, calls, k, p, maxKeys), k, p)
  {
    hide WatchMatches, Called, TableValid;
    if calls == [] {
      EmptyWatchMatches(start, k, p);
    } else {
      var n := |calls| - 1;
      WatchedMatches(start, calls[..n], k, p, maxKeys);
      Watched1Matches(Watched(start, calls[..n], k, p, maxKeys), calls[n], k, p, maxKeys);
    }
  }

  lemma EmptyWatchMatches(start: int, k: string, p: Limits)
    ensures WatchMatches(Watch(Table(map[], []), [], 0, start, start, false, true), k, p)
  {
    NothingRemembered(start, p);
  }

  /** Main result on the table: in every run of calls, whatever happens to other
      keys, a check of a key blocks exactly while the lock runs that the failures
      registered since its last reset or eviction completed, counting only those
      since the lock before and no older than the window. */
  lemma TableRemembers(start: int, calls: seq<Call>, k: string, p: Limits, maxKeys: nat, at: int)
    requires p.Valid() && Watched(start, calls, k, p, maxKeys).possible
    requires Watched(start, calls, k, p, maxKeys).now <= at
    ensures var w := Watched(start, calls, k, p, maxKeys);
            CheckKey(Lookup(w.table, k), p.window, at).1.Some?
            <==> w.locked > 0 && at < w.registered[w.locked - 1] + p.lockout
  {
    hide CheckKey, Watched, Matches;
    WatchedMatches(start, calls, k, p, maxKeys);
    var w := Watched(start, calls, k, p, maxKeys);
    CheckMatches(Lookup(w.table, k), PastOf(w), p, at);
  }
}
