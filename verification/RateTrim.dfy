/** Which keys a trim of the limiter's table drops. */
module RateTrim {
  import opened Numbers
  import opened Sequences
  import opened RateLimiter
  import opened RateWindows

  /** Keys with no failure stored and no lock. */
  function Quiet(t: Table): set<string> {
    set k | k in t.states && t.states[k].failures == [] && t.states[k].lockUntil == None
  }

  /** The keys of `order` that are in `kept`, in order. */
  function Among(order: seq<string>, kept: set<string>): seq<string> {
    if order == [] then [] else (if order[0] in kept then [order[0]] else []) + Among(order[1..], kept)
  }

  lemma RestOthers(keys: seq<string>)
    requires keys != [] && Distinct(keys)
    ensures Distinct(keys[1..]) && forall j :: j in keys[1..] ==> j in keys && j != keys[0]
  {
    forall j | j in keys[1..] ensures j in keys && j != keys[0] {
      var i :| 0 <= i < |keys| - 1 && keys[1..][i] == j;
      assert keys[i + 1] == j;
    }
  }

  lemma {:induction false} AmongMembers(order: seq<string>, kept: set<string>)
    ensures forall k :: k in Among(order, kept) <==> k in order && k in kept
  {
    if order == [] {
    } else {
      AmongMembers(order[1..], kept);
      assert order == [order[0]] + order[1..];
    }
  }

  lemma {:induction false} AmongOthers(order: seq<string>, kept: set<string>, key: string)
    requires key !in order
    ensures Among(order, kept - {key}) == Among(order, kept)
  {
    if order == [] {
    } else {
      assert order[0] in order;
      AmongOthers(order[1..], kept, key);
    }
  }

  lemma {:induction false} AmongAll(order: seq<string>, kept: set<string>)
    requires forall k :: k in order ==> k in kept
    ensures Among(order, kept) == order
  {
    if order == [] {
    } else {
      assert order[0] in order;
      AmongAll(order[1..], kept);
    }
  }

  lemma {:induction false} WithoutAmong(order: seq<string>, kept: set<string>, key: string)
    ensures Without(Among(order, kept), key) == Among(order, kept - {key})
  {
    if order == [] {
    } else {
      var rest := Among(order[1..], kept);
      WithoutAmong(order[1..], kept, key);
      if order[0] in kept {
        assert ([order[0]] + rest)[1..] == rest;
      } else {
        assert [] + rest == rest;
      }
    }
  }

  /** The first `n` kept keys are older than the other kept ones. */
  lemma {:induction false} FirstAmong(order: seq<string>, kept: set<string>, n: nat)
    requires Distinct(order) && n <= |Among(order, kept)|
    ensures forall i, j :: 0 <= i < j < |order| && order[i] in kept && order[j] in Among(order, kept)[..n] ==>
              order[i] in Among(order, kept)[..n]
  {
    if order == [] || n == 0 {
    } else {
      var k, rest := order[0], order[1..];
      RestOthers(order);
      AmongMembers(rest, kept);
      var m := if k in kept then n - 1 else n;
      FirstAmong(rest, kept, m);
      assert Among(order, kept)[..n] == (if k in kept then [k] else []) + Among(rest, kept)[..m];
      forall i, j | 0 <= i < j < |order| && order[i] in kept && order[j] in Among(order, kept)[..n]
        ensures order[i] in Among(order, kept)[..n]
      {
        assert order[j] == rest[j - 1] && order[j] != k;
        if i > 0 {
          assert order[i] == rest[i - 1];
        }
      }
    }
  }

  // ----- The two passes -----

  lemma FromValid(t: Table)
    requires TableValid(t)
    ensures Distinct(t.order) && t.states.Keys == Members(t.order)
    ensures forall k :: k in t.order ==> k in t.states.Keys
  {
  }

  lemma QuietPops(t: Table, k: string)
    requires TableValid(t) && k in Quiet(t)
    ensures k in t.states && Idle(t.states[k])
    ensures var u := Pop(t, k);
      && TableValid(u) && u.states.Keys == t.states.Keys - {k} && |u.order| == |t.order| - 1
      && Quiet(u) == Quiet(t) - {k} && u.order == Without(t.order, k)
  {
    PopValid(t, k);
    WithoutShrinks(t.order, k);
  }

  lemma NotQuietStays(t: Table, k: string)
    requires k !in Quiet(t)
    ensures !(k in t.states && Idle(t.states[k]))
  {
  }

  lemma AmongCons(order: seq<string>, kept: set<string>)
    requires order != []
    ensures Among(order, kept)
         == if order[0] in kept then [order[0]] + Among(order[1..], kept) else Among(order[1..], kept)
  {
  }

  lemma MembersCons(k: string, keys: seq<string>, n: nat)
    requires 1 <= n <= |keys| + 1
    ensures Members(([k] + keys)[..n]) == {k} + Members(keys[..n - 1])
  {
    assert ([k] + keys)[..n] == [k] + keys[..n - 1];
  }

  lemma MembersNone(keys: seq<string>)
    ensures Members(keys[..0]) == {}
  {
  }

  /** The first pass drops the first quiet keys, as many as needed or as there
      are, and keeps the order of the others. */
  lemma {:induction false} DropIdleExact(t: Table, keys: seq<string>, maxKeys: nat, base: seq<string>)
    requires TableValid(t) && Distinct(keys) && |t.order| > maxKeys
    requires t.order == Among(base, t.states.Keys)
    decreases |keys|
    ensures var quiet, r := Among(keys, Quiet(t)), DropIdle(t, keys, maxKeys);
            var n := Min(|quiet|, |t.order| - maxKeys);
            && r.states.Keys == t.states.Keys - Members(quiet[..n]) && |r.order| == |t.order| - n
            && r.order == Among(base, r.states.Keys)
  {
    hide TableValid, Quiet, Idle, Without, Distinct, Members, Among, Pop;
    if keys == [] {
      NothingAmong(Quiet(t));
      MembersNone([]);
    } else {
      var k, rest := keys[0], keys[1..];
      RestOthers(keys);
      AmongCons(keys, Quiet(t));
      var quiet := Among(rest, Quiet(t));
      if k in Quiet(t) {
        var u := Pop(t, k);
        QuietPops(t, k);
        WithoutAmong(base, t.states.Keys, k);
        AmongOthers(rest, Quiet(t), k);
        MembersCons(k, quiet, Min(|quiet| + 1, |t.order| - maxKeys));
        if |u.order| <= maxKeys {
          MembersNone(quiet);
        } else {
          DropIdleExact(u, rest, maxKeys, base);
        }
      } else {
        NotQuietStays(t, k);
        DropIdleExact(t, rest, maxKeys, base);
      }
    }
  }

  lemma NothingAmong(kept: set<string>)
    ensures Among([], kept) == []
  {
  }

  lemma PopDrops(t: Table, k: string)
    ensures Pop(t, k).states.Keys == t.states.Keys - {k}
  {
  }

  lemma {:induction false} EvictOldestExact(t: Table, maxKeys: nat)
    requires TableValid(t) && |t.order| >= maxKeys
    decreases |t.order|
    ensures Distinct(t.order)
    ensures var r := EvictOldest(t, maxKeys);
            |r.order| == maxKeys && r.states.Keys == t.states.Keys - Members(t.order[..|t.order| - maxKeys])
  {
    hide TableValid, Pop, Distinct, Members;
    FromValid(t);
    if |t.order| == maxKeys {
      MembersNone(t.order);
    } else {
      var k, n := t.order[0], |t.order| - maxKeys;
      PopFirst(t);
      PopDrops(t, k);
      assert t.order == [k] + t.order[1..];
      MembersCons(k, t.order[1..], n);
      EvictOldestExact(Pop(t, k), maxKeys);
    }
  }

  /** `key` was dropped: it is in the table before and not after. */
  predicate Dropped(before: Table, after: Table, key: string) {
    key in before.states && key !in after.states
  }

  /** Main result: a trim leaves `maxKeys` keys, or all when there were no more.
      A quiet key is dropped only with every older quiet one, and a key counting
      failures or locked only with every quiet key and every older one. */
  lemma TrimDrops(t: Table, maxKeys: nat)
    requires TableValid(t)
    ensures Distinct(t.order)
    ensures var r, order := Trimmed(t, maxKeys), t.order;
      && |r.order| == Min(|order|, maxKeys)
      && (forall i, j :: 0 <= i < j < |order| && Dropped(t, r, order[j]) && order[j] in Quiet(t) && order[i] in Quiet(t)
            ==> Dropped(t, r, order[i]))
      && (forall i, j :: 0 <= i < |order| && 0 <= j < |order| && Dropped(t, r, order[j]) && order[j] !in Quiet(t)
            && (order[i] in Quiet(t) || i < j)
            ==> Dropped(t, r, order[i]))
  {
    hide TableValid, Quiet, Trimmed, Dropped, Members;
    FromValid(t);
    if |t.order| <= maxKeys {
      NothingTrimmed(t, maxKeys);
    } else {
      AmongAll(t.order, t.states.Keys);
      DropIdleExact(t, t.order, maxKeys, t.order);
      if |Among(t.order, Quiet(t))| >= |t.order| - maxKeys {
        QuietDropped(t, maxKeys);
      } else {
        OthersDropped(t, maxKeys);
      }
    }
  }

  lemma NothingTrimmed(t: Table, maxKeys: nat)
    requires Distinct(t.order) && |t.order| <= maxKeys
    ensures Trimmed(t, maxKeys) == t && forall k :: !Dropped(t, t, k)
  {
  }

  /** Enough quiet keys: the oldest of them go. */
  lemma QuietDropped(t: Table, maxKeys: nat)
    requires TableValid(t) && Distinct(t.order) && |t.order| > maxKeys
    requires var quiet, u := Among(t.order, Quiet(t)), DropIdle(t, t.order, maxKeys);
      && |quiet| >= |t.order| - maxKeys && |u.order| == maxKeys
      && u.states.Keys == t.states.Keys - Members(quiet[..|t.order| - maxKeys])
    ensures var r, order := Trimmed(t, maxKeys), t.order;
      && |r.order| == maxKeys && (forall k :: Dropped(t, r, k) ==> k in Quiet(t))
      && (forall i, j :: 0 <= i < j < |order| && Dropped(t, r, order[j]) && order[i] in Quiet(t)
            ==> Dropped(t, r, order[i]))
  {
    hide TableValid, Quiet, Among;
    var quiet, n := Among(t.order, Quiet(t)), |t.order| - maxKeys;
    assert Trimmed(t, maxKeys) == DropIdle(t, t.order, maxKeys);
    AmongMembers(t.order, Quiet(t));
    FirstAmong(t.order, Quiet(t), n);
    FromValid(t);
    assert forall k :: Dropped(t, Trimmed(t, maxKeys), k) <==> k in quiet[..n];
  }

  /** Too few quiet keys: all of them go, and the oldest others. */
  lemma OthersDropped(t: Table, maxKeys: nat)
    requires TableValid(t) && Distinct(t.order) && |t.order| > maxKeys
    requires var quiet, u := Among(t.order, Quiet(t)), DropIdle(t, t.order, maxKeys);
      && |quiet| < |t.order| - maxKeys && |u.order| == |t.order| - |quiet|
      && u.states.Keys == t.states.Keys - Members(quiet[..|quiet|]) && u.order == Among(t.order, u.states.Keys)
    ensures var r, order := Trimmed(t, maxKeys), t.order;
      && |r.order| == maxKeys && (forall k :: k in t.states && k in Quiet(t) ==> Dropped(t, r, k))
      && (forall i, j :: 0 <= i < j < |order| && Dropped(t, r, order[j]) && order[j] !in Quiet(t)
            ==> Dropped(t, r, order[i]))
  {
    hide TableValid, Quiet, Among;
    var quiet, u := Among(t.order, Quiet(t)), DropIdle(t, t.order, maxKeys);
    assert quiet[..|quiet|] == quiet;
    DropIdleKeeps(t, t.order, maxKeys);
    EvictOldestExact(u, maxKeys);
    AmongMembers(t.order, Quiet(t));
    FromValid(t);
    AmongMembers(t.order, u.states.Keys);
    FirstAmong(t.order, u.states.Keys, |u.order| - maxKeys);
    var r, gone := Trimmed(t, maxKeys), u.order[..|u.order| - maxKeys];
    assert r == EvictOldest(u, maxKeys);
    assert forall k :: Dropped(t, r, k) <==> k in quiet || k in gone;
  }

  // ----- Places -----

  lemma {:induction false} AmongSuffix(order: seq<string>, n: nat)
    requires Distinct(order) && n <= |order|
    ensures Among(order, Members(order[n..])) == order[n..]
  {
    if n == 0 {
      assert order[0..] == order;
      AmongAll(order, Members(order));
    } else {
      var k, rest := order[0], order[1..];
      RestOthers(order);
      assert order[n..] == rest[n - 1..];
      assert forall j :: j in rest[n - 1..] ==> j in rest;
      AmongSuffix(rest, n - 1);
    }
  }

  lemma {:induction false} AmongTwice(order: seq<string>, kept: set<string>, fewer: set<string>)
    requires fewer <= kept
    ensures Among(Among(order, kept), fewer) == Among(order, fewer)
  {
    if order == [] {
    } else {
      AmongTwice(order[1..], kept, fewer);
      var rest := Among(order[1..], kept);
      assert order[0] in kept ==> ([order[0]] + rest)[1..] == rest;
      assert [] + rest == rest && [] + Among(order[1..], fewer) == Among(order[1..], fewer);
    }
  }

  lemma EvictKeepsPlaces(t: Table, maxKeys: nat)
    requires TableValid(t)
    ensures var r := EvictOldest(t, maxKeys);
            r.order == Among(t.order, r.states.Keys) && r.states.Keys <= t.states.Keys
  {
    hide TableValid;
    FromValid(t);
    EvictOldestKeeps(t, maxKeys);
    EvictionKeepsNewest(t, maxKeys);
    var r := EvictOldest(t, maxKeys);
    FromValid(r);
    var n := |t.order| - |r.order|;
    assert r.order == t.order[n..];
    AmongSuffix(t.order, n);
  }

  /** A trim keeps the keys that stay in their places. */
  lemma TrimKeepsPlaces(t: Table, maxKeys: nat)
    requires TableValid(t)
    ensures Trimmed(t, maxKeys).order == Among(t.order, Trimmed(t, maxKeys).states.Keys)
  {
    hide TableValid;
    FromValid(t);
    AmongAll(t.order, t.states.Keys);
    if |t.order| > maxKeys {
      DropIdleExact(t, t.order, maxKeys, t.order);
      DropIdleKeeps(t, t.order, maxKeys);
      var u := DropIdle(t, t.order, maxKeys);
      EvictKeepsPlaces(u, maxKeys);
      AmongTwice(t.order, u.states.Keys, EvictOldest(u, maxKeys).states.Keys);
    }
  }

  lemma {:induction false} AmongAppend(a: seq<string>, b: seq<string>, kept: set<string>)
    ensures Among(a + b, kept) == Among(a, kept) + Among(b, kept)
  {
    if a == [] {
      assert a + b == b;
    } else {
      assert (a + b)[1..] == a[1..] + b;
      AmongAppend(a[1..], b, kept);
    }
  }

  /** Every call leaves the keys that stay in their places, and puts a new key
      last: the age of a key is when it was entered, not when it was last used. */
  lemma CallKeepsPlaces(t: Table, c: Call, maxKeys: nat)
    requires TableValid(t)
    ensures var r, grown := Called(t, c, maxKeys), if c.key in t.states then t.order else t.order + [c.key];
            r.order == Among(grown, r.states.Keys)
  {
    hide RemainingSeconds, Pruned, FailKey, CheckKey, Trimmed;
    FromValid(t);
    AmongAll(t.order, t.states.Keys);
    WithoutAmong(t.order, t.states.Keys, c.key);
    AmongAppend(t.order, [c.key], t.states.Keys);
    match c {
      case Looked(key, window, at) => LookKeepsPlaces(t, key, window, at);
      case Failure(key, p, at) =>
        PutKeeps(t, key, FailKey(Lookup(t, key), p, at));
        TrimKeepsPlaces(Put(t, key, FailKey(Lookup(t, key), p, at)), maxKeys);
      case Success(key) => PopKeepsPlaces(t, key);
    }
  }

  lemma PopKeepsPlaces(t: Table, key: string)
    requires TableValid(t)
    ensures Pop(t, key).order == Among(if key in t.states then t.order else t.order + [key], Pop(t, key).states.Keys)
  {
    FromValid(t);
    AmongAll(t.order, t.states.Keys);
    WithoutAmong(t.order, t.states.Keys, key);
    AmongAppend(t.order, [key], t.states.Keys - {key});
    assert Among([key], t.states.Keys - {key}) == [] by {
      NothingAmong(t.states.Keys - {key});
    }
  }

  lemma CheckNothing(window: int, at: int)
    ensures CheckKey(None, window, at).0 == None
  {
  }

  lemma LookKeepsPlaces(t: Table, key: string, window: int, at: int)
    requires TableValid(t)
    ensures var r := Checked(t, key, window, at);
            r.order == Among(if key in t.states then t.order else t.order + [key], r.states.Keys)
  {
    hide TableValid, CheckKey, Among, Pop;
    FromValid(t);
    AmongAll(t.order, t.states.Keys);
    PopKeepsPlaces(t, key);
    if key !in t.states {
      CheckNothing(window, at);
      AmongAppend(t.order, [key], t.states.Keys);
      AmongCons([key], t.states.Keys);
      assert [key][1..] == [];
      NothingAmong(t.states.Keys);
    } else if CheckKey(Lookup(t, key), window, at).0.Some? {
      var s := CheckKey(Lookup(t, key), window, at).0.value;
      assert t.states[key := s].Keys == t.states.Keys;
    }
  }
}
