/** REST candles merged into a live cache: seeding, backfill after a reconnect,
    and runs that mix ticks, merges and resizes. */
module CandleRest {
  import opened Numbers
  import opened Sequences
  import opened Candles
  import opened CandleRuns

  datatype RestCandle = RestCandle(time: int, open: real, high: real, low: real, close: real, volume: real)

  function Seeded(r: RestCandle, nowBucket: int): Candle {
    Candle(r.time, r.open, r.high, r.low, r.close, MaxReal(r.volume, 0.0), r.time < nowBucket, RestSeed)
  }

  function ByTime(cache: seq<Candle>): map<int, Candle> {
    if cache == [] then map[]
    else ByTime(cache[..|cache| - 1])[cache[|cache| - 1].time := cache[|cache| - 1]]
  }

  /** One REST candle laid over the cache: times not after zero are ignored, and
      a candle built from live trades is kept. */
  function Overlay1(byTime: map<int, Candle>, r: RestCandle, nowBucket: int): map<int, Candle> {
    if r.time <= 0 || (r.time in byTime && byTime[r.time].source == Ws) then byTime
    else byTime[r.time := Seeded(r, nowBucket)]
  }

  function Overlay(byTime: map<int, Candle>, rest: seq<RestCandle>, nowBucket: int): map<int, Candle> {
    if rest == [] then byTime
    else Overlay1(Overlay(byTime, rest[..|rest| - 1], nowBucket), rest[|rest| - 1], nowBucket)
  }

  ghost predicate IsNewest(k: int, keys: set<int>) {
    k in keys && forall j :: j in keys ==> j <= k
  }

  lemma {:induction false} NewestExists(keys: set<int>)
    requires keys != {}
    ensures exists k :: IsNewest(k, keys)
  {
    SomeMember(keys);
    var k :| k in keys;
    if keys == {k} {
      assert IsNewest(k, keys);
    } else {
      NewestExists(keys - {k});
      var m :| IsNewest(m, keys - {k});
      var n := if m >= k then m else k;
      forall j | j in keys ensures j <= n {
        assert j == k || j in keys - {k};
      }
      assert IsNewest(n, keys);
    }
  }

  ghost function Newest(keys: set<int>): (k: int)
    requires keys != {}
    ensures IsNewest(k, keys)
  {
    NewestExists(keys);
    var k :| IsNewest(k, keys);
    k
  }

  /** The candles of `m` sorted by time. */
  ghost function Sorted(m: map<int, Candle>): (r: seq<Candle>)
    ensures |r| == |m|
    decreases m.Keys
  {
    if m.Keys == {} then []
    else
      var k := Newest(m.Keys);
      assert (m - {k}).Keys == m.Keys - {k};
      Sorted(m - {k}) + [m[k]]
  }

  ghost function Merge(cache: seq<Candle>, maxlen: nat, rest: seq<RestCandle>, nowBucket: int): seq<Candle> {
    if rest == [] then cache else LastN(Sorted(Overlay(ByTime(cache), rest, nowBucket)), maxlen)
  }

  // ----- Sorting a dictionary of candles -----

  ghost predicate Keyed(m: map<int, Candle>) {
    forall k :: k in m ==> m[k].time == k
  }

  /** `r` is `m` sorted by time: ascending, and exactly its candles. */
  ghost predicate IsSorting(r: seq<Candle>, m: map<int, Candle>) {
    TimesAscend(r) && forall d :: d in r <==> d.time in m && m[d.time] == d
  }

  lemma AscendingSnoc(r: seq<Candle>, c: Candle)
    requires TimesAscend(r) && forall d :: d in r ==> d.time < c.time
    ensures TimesAscend(r + [c])
  {
    assert forall i :: 0 <= i < |r| ==> r[i] in r;
  }

  /** Appending the newest candle of a dictionary to its sorted rest sorts it. */
  lemma SortingSnoc(r: seq<Candle>, m: map<int, Candle>, k: int)
    requires Keyed(m) && IsNewest(k, m.Keys) && IsSorting(r, m - {k})
    ensures Keyed(m - {k}) && IsSorting(r + [m[k]], m)
  {
    assert forall d :: d in r ==> d.time in m.Keys && d.time != k;
    AscendingSnoc(r, m[k]);
  }

  lemma {:induction false} SortedSorts(m: map<int, Candle>)
    requires Keyed(m)
    ensures IsSorting(Sorted(m), m)
    decreases m.Keys
  {
    if m.Keys == {} {
      assert Sorted(m) == [];
    } else {
      hide IsSorting, IsNewest;
      var k := Newest(m.Keys);
      assert (m - {k}).Keys == m.Keys - {k} && k in m by {
        NewestIn(m.Keys);
      }
      SortedSorts(m - {k});
      SortingSnoc(Sorted(m - {k}), m, k);
    }
  }

  lemma NewestIn(keys: set<int>)
    requires keys != {}
    ensures Newest(keys) in keys
  {
  }

  /** Inserts one candle into a list sorted by time. */
  method InsertByTime(sorted: seq<Candle>, c: Candle) returns (r: seq<Candle>)
    requires TimesAscend(sorted) && forall d :: d in sorted ==> d.time != c.time
    ensures TimesAscend(r)
    ensures forall d :: d in r <==> d == c || d in sorted
  {
    var i := |sorted|;
    while i > 0 && sorted[i - 1].time > c.time
      invariant 0 <= i <= |sorted|
      invariant i < |sorted| ==> c.time < sorted[i].time
    {
      i := i - 1;
    }
    InsertedAscends(sorted, i, c);
    r := sorted[..i] + [c] + sorted[i..];
  }

  lemma AscendingJoin(a: seq<Candle>, b: seq<Candle>)
    requires TimesAscend(a) && TimesAscend(b)
    requires a != [] && b != [] ==> a[|a| - 1].time < b[0].time
    ensures TimesAscend(a + b)
  {
  }

  lemma InsertedAscends(sorted: seq<Candle>, i: nat, c: Candle)
    requires TimesAscend(sorted) && i <= |sorted| && forall d :: d in sorted ==> d.time != c.time
    requires i > 0 ==> sorted[i - 1].time <= c.time
    requires i < |sorted| ==> c.time < sorted[i].time
    ensures TimesAscend(sorted[..i] + [c] + sorted[i..])
    ensures forall d :: d in sorted[..i] + [c] + sorted[i..] <==> d == c || d in sorted
  {
    assert sorted == sorted[..i] + sorted[i..];
    if i > 0 {
      assert sorted[i - 1] in sorted;
    }
    AscendingSnoc(sorted[..i], c);
    AscendingJoin(sorted[..i] + [c], sorted[i..]);
  }

  lemma BothEmpty(a: seq<Candle>, b: seq<Candle>)
    requires forall d :: d in a <==> d in b
    ensures a == [] <==> b == []
  {
    if a != [] {
      assert a[0] in a;
    }
    if b != [] {
      assert b[0] in b;
    }
  }

  lemma {:induction false} SortingUnique(a: seq<Candle>, b: seq<Candle>)
    requires TimesAscend(a) && TimesAscend(b)
    requires forall d :: d in a <==> d in b
    ensures a == b
  {
    BothEmpty(a, b);
    if a == [] {
    } else {
      assert a[|a| - 1] in b;
      var n, k := |a| - 1, |b| - 1;
      assert b[k] in a;
      LastIsNewest(a, b[k]);
      LastIsNewest(b, a[n]);
      var i :| 0 <= i < |b| && b[i] == a[n];
      assert a[n] == b[k];
      WithoutLast(a);
      WithoutLast(b);
      forall d ensures d in a[..n] <==> d in b[..k] {
        assert d in a <==> d in b;
      }
      SortingUnique(a[..n], b[..k]);
    }
  }

  lemma LastIsNewest(a: seq<Candle>, c: Candle)
    requires TimesAscend(a) && c in a
    ensures c.time <= a[|a| - 1].time
  {
  }

  lemma WithoutLast(a: seq<Candle>)
    requires a != [] && TimesAscend(a)
    ensures TimesAscend(a[..|a| - 1])
    ensures forall d :: d in a[..|a| - 1] <==> d in a && d != a[|a| - 1]
  {
    assert a == a[..|a| - 1] + [a[|a| - 1]];
  }

  /** `sorted(by_time.values(), key=time)`. */
  method SortByTime(m: map<int, Candle>) returns (r: seq<Candle>)
    requires Keyed(m)
    ensures r == Sorted(m)
  {
    r := [];
    var keys := m.Keys;
    while keys != {}
      invariant keys <= m.Keys
      invariant TimesAscend(r)
      invariant forall d :: d in r <==> d.time in m.Keys - keys && m[d.time] == d
      decreases keys
    {
      SomeMember(keys);
      var k :| k in keys;
      r := InsertByTime(r, m[k]);
      keys := keys - {k};
    }
    SortedSorts(m);
    SortingUnique(r, Sorted(m));
  }

  /** `_merge_rest_seed` on the cache of one stream key.  `nowBucket` is the
      bucket of the current time. */
  method MergeRestSeed(cache: CandleCache, candles: seq<RestCandle>, nowBucket: int, reconnectMode: bool)
    returns (inserted: seq<Candle>)
    modifies cache`entries
    ensures cache.entries == Merge(old(cache.entries), cache.maxlen, candles, nowBucket)
    ensures inserted == Returned(old(cache.entries), cache.maxlen, candles, nowBucket, reconnectMode)
  {
    if candles == [] {
      return [];
    }
    var previousLatestTime := LatestTime(cache.entries);
    var byTime := ByTime(cache.entries);
    ByTimeKeyed(cache.entries);
    for i := 0 to |candles|
      invariant byTime == Overlay(ByTime(cache.entries), candles[..i], nowBucket) && Keyed(byTime)
      invariant cache.entries == old(cache.entries)
    {
      assert candles[..i + 1][..i] == candles[..i];
      var entry := Seeded(candles[i], nowBucket);
      if entry.time <= 0 {
        continue;
      }
      if entry.time !in byTime {
        byTime := byTime[entry.time := entry];
        continue;
      }
      if byTime[entry.time].source == Ws {
        continue;
      }
      byTime := byTime[entry.time := entry];
    }
    assert candles[..|candles|] == candles;
    var merged := SortByTime(byTime);
    cache.entries := LastN(merged, cache.maxlen);
    if !reconnectMode || previousLatestTime <= 0 {
      return [];
    }
    inserted := Since(cache.entries, previousLatestTime);
  }

  /** What a merge returns for publishing: after a reconnect, its candles from
      the previous latest time on, if there was one. */
  ghost function Returned(
    cache: seq<Candle>, maxlen: nat, rest: seq<RestCandle>, nowBucket: int, reconnectMode: bool): seq<Candle>
  {
    if rest == [] || !reconnectMode || LatestTime(cache) <= 0 then []
    else Since(Merge(cache, maxlen, rest, nowBucket), LatestTime(cache))
  }

  function LatestTime(cache: seq<Candle>): int {
    if cache == [] then 0 else cache[|cache| - 1].time
  }

  /** The candles from `time` on, in order. */
  function Since(cache: seq<Candle>, time: int): (r: seq<Candle>)
    ensures forall c :: c in r <==> c in cache && c.time >= time
  {
    if cache == [] then []
    else
      var n := |cache| - 1;
      assert cache == cache[..n] + [cache[n]];
      Since(cache[..n], time) + (if cache[n].time >= time then [cache[n]] else [])
  }

  lemma ByTimeKeyed(cache: seq<Candle>)
    ensures Keyed(ByTime(cache))
    ensures forall t :: t in ByTime(cache) <==> exists i :: 0 <= i < |cache| && cache[i].time == t
    ensures TimesAscend(cache) ==> forall i :: 0 <= i < |cache| ==> ByTime(cache)[cache[i].time] == cache[i]
  {
    hide ByTime, TimesAscend;
    ByTimeTimes(cache);
    if TimesAscend(cache) {
      ByTimeLooksUp(cache);
    }
  }

  lemma {:induction false} ByTimeTimes(cache: seq<Candle>)
    ensures Keyed(ByTime(cache))
    ensures forall t :: t in ByTime(cache) <==> exists i :: 0 <= i < |cache| && cache[i].time == t
  {
    if cache == [] {
      assert ByTime(cache) == map[];
    } else {
      var n := |cache| - 1;
      ByTimeTimes(cache[..n]);
      assert forall i :: 0 <= i < n ==> cache[..n][i] == cache[i];
      forall t ensures t in ByTime(cache) <==> exists i :: 0 <= i < |cache| && cache[i].time == t {
        if t in ByTime(cache[..n]) {
          var i :| 0 <= i < n && cache[..n][i].time == t;
          assert cache[i].time == t;
        }
      }
    }
  }

  lemma {:induction false} ByTimeLooksUp(cache: seq<Candle>)
    requires TimesAscend(cache)
    ensures forall i :: 0 <= i < |cache| ==> cache[i].time in ByTime(cache) && ByTime(cache)[cache[i].time] == cache[i]
  {
    if cache == [] {
      assert ByTime(cache) == map[];
    } else {
      var n := |cache| - 1;
      ByTimeLooksUp(cache[..n]);
      assert forall i :: 0 <= i < n ==> cache[..n][i] == cache[i];
    }
  }

  // ----- What a merge holds at each time -----

  /** The last usable REST candle of a time. */
  function LastRest(rest: seq<RestCandle>, time: int): Option<RestCandle> {
    if rest == [] || time <= 0 then None
    else if rest[|rest| - 1].time == time then Some(rest[|rest| - 1])
    else LastRest(rest[..|rest| - 1], time)
  }

  /** The candle of `time` once `rest` is laid over `byTime`: live candles win
      over REST, REST wins over earlier REST. */
  ghost function Expected(byTime: map<int, Candle>, rest: seq<RestCandle>, nowBucket: int, time: int): Option<Candle> {
    if time in byTime && byTime[time].source == Ws then Some(byTime[time])
    else match LastRest(rest, time)
      case Some(r) => Some(Seeded(r, nowBucket))
      case None => if time in byTime then Some(byTime[time]) else None
  }

  lemma {:induction false} OverlayHolds(byTime: map<int, Candle>, rest: seq<RestCandle>, nowBucket: int, time: int)
    requires Keyed(byTime)
    ensures Keyed(Overlay(byTime, rest, nowBucket))
    ensures var m := Overlay(byTime, rest, nowBucket);
            Expected(byTime, rest, nowBucket, time) == if time in m then Some(m[time]) else None
  {
    if rest == [] {
    } else {
      var n := |rest| - 1;
      OverlayHolds(byTime, rest[..n], nowBucket, time);
    }
  }

  // ----- The newest `n` candles of a dictionary -----

  ghost function NewestOf(m: map<int, Candle>, n: nat): seq<Candle>
    decreases n
  {
    if n == 0 || m.Keys == {} then []
    else NewestOf(m - {Newest(m.Keys)}, n - 1) + [m[Newest(m.Keys)]]
  }

  lemma {:induction false} NewestOfSorted(m: map<int, Candle>, n: nat)
    ensures LastN(Sorted(m), n) == NewestOf(m, n)
    decreases n
  {
    if n != 0 && m.Keys != {} {
      var k := Newest(m.Keys);
      assert (m - {k}).Keys == m.Keys - {k};
      NewestOfSorted(m - {k}, n - 1);
    }
  }

  lemma {:induction false} NewestOfMembers(m: map<int, Candle>, n: nat)
    requires Keyed(m)
    ensures forall c :: c in NewestOf(m, n) ==> c.time in m && m[c.time] == c
    decreases n
  {
    if n != 0 && m.Keys != {} {
      NewestOfMembers(m - {Newest(m.Keys)}, n - 1);
    }
  }

  /** A smaller dictionary that still has the newest `n` has the same newest `n`. */
  lemma {:induction false} NewestOfSub(m: map<int, Candle>, sub: map<int, Candle>, n: nat)
    requires Keyed(m) && Keyed(sub) && sub.Keys <= m.Keys
    requires forall c :: c in NewestOf(m, n) ==> c.time in sub && sub[c.time] == c
    ensures NewestOf(sub, n) == NewestOf(m, n)
    decreases n
  {
    if n != 0 && m.Keys != {} {
      var k := Newest(m.Keys);
      assert m[k] in NewestOf(m, n);
      assert k in sub && Newest(sub.Keys) == k;
      NewestOfMembers(m - {k}, n - 1);
      forall c | c in NewestOf(m - {k}, n - 1) ensures c.time in sub - {k} && (sub - {k})[c.time] == c {
        assert c in NewestOf(m, n);
      }
      NewestOfSub(m - {k}, sub - {k}, n - 1);
    }
  }

  // ----- Main results on merging -----

  /** A merge leaves the times strictly ascending and within the bound. */
  lemma MergeAscends(cache: seq<Candle>, maxlen: nat, rest: seq<RestCandle>, nowBucket: int)
    requires TimesAscend(cache) && |cache| <= maxlen
    ensures var r := Merge(cache, maxlen, rest, nowBucket);
            TimesAscend(r) && |r| <= maxlen
  {
    ByTimeKeyed(cache);
    OverlayHolds(ByTime(cache), rest, nowBucket, 0);
    SortedSorts(Overlay(ByTime(cache), rest, nowBucket));
  }

  /** The times a merge chooses from: those cached and the positive REST times. */
  ghost predicate OfUnion(cache: seq<Candle>, rest: seq<RestCandle>, time: int) {
    (exists c :: c in cache && c.time == time) || LastRest(rest, time).Some?
  }

  /** A merge holds, at each surviving time, the live candle if there was one,
      else the last REST candle, else what was cached; and it drops a time of
      the union only when it is full of newer ones. */
  lemma MergeHoldsNewestUnion(cache: seq<Candle>, maxlen: nat, rest: seq<RestCandle>, nowBucket: int, time: int)
    requires maxlen >= 1 && rest != [] && TimesAscend(cache)
    ensures var r := Merge(cache, maxlen, rest, nowBucket);
      && (forall c :: c in r && c.time == time ==>
            OfUnion(cache, rest, time) && Expected(ByTime(cache), rest, nowBucket, time) == Some(c))
      && (OfUnion(cache, rest, time) ==>
            (exists c :: c in r && c.time == time) || (|r| == maxlen && time < r[0].time))
  {
    hide Expected, Merge, LastRest;
    var byTime := ByTime(cache);
    var m := Overlay(byTime, rest, nowBucket);
    ByTimeKeyed(cache);
    OverlayHolds(byTime, rest, nowBucket, time);
    MergeKeepsNewest(cache, maxlen, rest, nowBucket);
    UnionIsOverlay(cache, rest, nowBucket, time);
  }

  lemma UnionIsOverlay(cache: seq<Candle>, rest: seq<RestCandle>, nowBucket: int, time: int)
    ensures OfUnion(cache, rest, time) <==> time in Overlay(ByTime(cache), rest, nowBucket)
  {
    ByTimeKeyed(cache);
    OverlayHolds(ByTime(cache), rest, nowBucket, time);
    if time in ByTime(cache) {
      var i :| 0 <= i < |cache| && cache[i].time == time;
      assert cache[i] in cache;
    }
  }

  lemma MergeKeepsNewest(cache: seq<Candle>, maxlen: nat, rest: seq<RestCandle>, nowBucket: int)
    requires maxlen >= 1 && rest != []
    ensures var m, r := Overlay(ByTime(cache), rest, nowBucket), Merge(cache, maxlen, rest, nowBucket);
      && TimesAscend(r)
      && (forall c :: c in r ==> c.time in m && m[c.time] == c)
      && (forall t :: t in m ==> m[t] in r || (|r| == maxlen && t < r[0].time))
      && (forall t :: t in m ==> m[t].time == t)
  {
    var m := Overlay(ByTime(cache), rest, nowBucket);
    ByTimeKeyed(cache);
    OverlayHolds(ByTime(cache), rest, nowBucket, 0);
    SortedSorts(m);
    TailOfSorting(Sorted(m), maxlen, m);
  }

  lemma TailOfSorting(sorted: seq<Candle>, n: nat, m: map<int, Candle>)
    requires n >= 1 && IsSorting(sorted, m) && Keyed(m)
    ensures var r := LastN(sorted, n);
      && TimesAscend(r)
      && (forall c :: c in r ==> c.time in m && m[c.time] == c)
      && (forall t :: t in m ==> m[t] in r || (|r| == n && t < r[0].time))
  {
    hide LastN;
    TailAscends(sorted, n);
    forall t | t in m ensures m[t] in LastN(sorted, n) || (|LastN(sorted, n)| == n && t < LastN(sorted, n)[0].time) {
      TailOrDropped(sorted, n, m[t]);
    }
  }

  lemma TailAscends(sorted: seq<Candle>, n: nat)
    requires TimesAscend(sorted)
    ensures TimesAscend(LastN(sorted, n))
    ensures forall c :: c in LastN(sorted, n) ==> c in sorted
  {
    var lost := |sorted| - |LastN(sorted, n)|;
    assert LastN(sorted, n) == sorted[lost..];
  }

  lemma TailOrDropped(sorted: seq<Candle>, n: nat, c: Candle)
    requires n >= 1 && TimesAscend(sorted) && c in sorted
    ensures c in LastN(sorted, n) || (|LastN(sorted, n)| == n && c.time < LastN(sorted, n)[0].time)
  {
    var r := LastN(sorted, n);
    var i :| 0 <= i < |sorted| && sorted[i] == c;
    var lost := |sorted| - |r|;
    if i >= lost {
      assert r[i - lost] == c;
    }
  }

  /** A candle built from live trades is never overwritten by a merge. */
  lemma LiveCandlesSurvive(cache: seq<Candle>, maxlen: nat, rest: seq<RestCandle>, nowBucket: int, c: Candle, d: Candle)
    requires maxlen >= 1 && TimesAscend(cache)
    requires c in cache && c.source == Ws
    requires d in Merge(cache, maxlen, rest, nowBucket) && d.time == c.time
    ensures d == c
  {
    if rest != [] {
      MergeHoldsNewestUnion(cache, maxlen, rest, nowBucket, c.time);
      ByTimeKeyed(cache);
    }
  }

  /** Merging the same REST candles again changes nothing. */
  lemma MergeIdempotent(cache: seq<Candle>, maxlen: nat, rest: seq<RestCandle>, nowBucket: int)
    requires maxlen >= 1 && TimesAscend(cache)
    ensures var r := Merge(cache, maxlen, rest, nowBucket);
            Merge(r, maxlen, rest, nowBucket) == r
  {
    if rest != [] {
      var m := Overlay(ByTime(cache), rest, nowBucket);
      var r := Merge(cache, maxlen, rest, nowBucket);
      var m' := Overlay(ByTime(r), rest, nowBucket);
      ByTimeKeyed(cache);
      ByTimeKeyed(r);
      OverlayHolds(ByTime(cache), rest, nowBucket, 0);
      OverlayHolds(ByTime(r), rest, nowBucket, 0);
      SortedSorts(m);
      NewestOfSorted(m, maxlen);
      NewestOfSorted(m', maxlen);
      forall t ensures t in m' ==> t in m {
        RemergeAgrees(cache, maxlen, rest, nowBucket, t);
      }
      forall c | c in r ensures c.time in m' && m'[c.time] == c {
        RemergeAgrees(cache, maxlen, rest, nowBucket, c.time);
      }
      NewestOfSub(m, m', maxlen);
    }
  }

  lemma RemergeAgrees(cache: seq<Candle>, maxlen: nat, rest: seq<RestCandle>, nowBucket: int, t: int)
    requires maxlen >= 1 && rest != [] && TimesAscend(cache)
    ensures var m := Overlay(ByTime(cache), rest, nowBucket);
            var r := Merge(cache, maxlen, rest, nowBucket);
            var m' := Overlay(ByTime(r), rest, nowBucket);
            && (t in m' ==> t in m)
            && (forall c :: c in r && c.time == t ==> t in m' && m'[t] == c)
  {
    hide Merge, Overlay, LastRest;
    var r := Merge(cache, maxlen, rest, nowBucket);
    MergeKeepsNewest(cache, maxlen, rest, nowBucket);
    ByTimeKeyed(cache);
    ByTimeKeyed(r);
    OverlayHolds(ByTime(cache), rest, nowBucket, t);
    OverlayHolds(ByTime(r), rest, nowBucket, t);
  }

  /** A reconnect does not publish candles of this time: it is older than the
      previous latest one, or there was none. */
  ghost predicate Unpublished(cache: seq<Candle>, time: int) {
    (exists c :: c in cache && c.time > time) || (forall c :: c in cache ==> c.time <= 0)
  }

  lemma UnpublishedIsBefore(cache: seq<Candle>, time: int)
    requires TimesAscend(cache)
    ensures Unpublished(cache, time) <==> LatestTime(cache) <= 0 || time < LatestTime(cache)
  {
    if cache != [] {
      assert cache[|cache| - 1] in cache;
      forall c | c in cache ensures c.time <= LatestTime(cache) {
        LastIsNewest(cache, c);
      }
    }
  }

  /** After a reconnect a subscriber who showed the old cache shows the merged
      one exactly when no unpublished candle is news to it: what REST fills in or
      corrects before the previous latest time is never published. */
  lemma ReconnectCatchesUp(
    cache: seq<Candle>, maxlen: nat, rest: seq<RestCandle>, nowBucket: int, view: map<int, Candle>)
    requires TimesAscend(cache) && |cache| <= maxlen && Shows(view, cache)
    ensures var r := Merge(cache, maxlen, rest, nowBucket);
            var view' := Publish(view, Returned(cache, maxlen, rest, nowBucket, true));
            && (forall c :: c in r && !Unpublished(cache, c.time) ==> c.time in view' && view'[c.time] == c)
            && (Shows(view', r) <==>
                  forall c :: c in r && Unpublished(cache, c.time) ==> c.time in view && view[c.time] == c)
  {
    hide Merge, Publish, Since, TimesAscend, Unpublished, LatestTime;
    var r := Merge(cache, maxlen, rest, nowBucket);
    forall time ensures Unpublished(cache, time) <==> LatestTime(cache) <= 0 || time < LatestTime(cache) {
      UnpublishedIsBefore(cache, time);
    }
    var published := Returned(cache, maxlen, rest, nowBucket, true);
    MergeAscends(cache, maxlen, rest, nowBucket);
    SinceAscends(r, LatestTime(cache));
    if rest == [] || LatestTime(cache) <= 0 {
      assert Publish(view, published) == view by { PublishNothing(view); }
      assert rest == [] ==> r == cache by { MergeNothing(cache, maxlen, nowBucket); }
    } else {
      PublishesAll(view, published);
    }
    forall c | c in r && Unpublished(cache, c.time)
      ensures var view' := Publish(view, published);
              (c.time in view' <==> c.time in view) && (c.time in view ==> view'[c.time] == view[c.time])
    {
      PublishesNoOther(view, published, c.time);
    }
  }

  /** The same on the inputs: of every time of the union before the previous
      latest one with fewer than `maxlen` newer times, the subscriber has to show
      what live candles, REST rows and cached candles, in that order, say. */
  lemma ReconnectOnInputs(
    cache: seq<Candle>, maxlen: nat, rest: seq<RestCandle>, nowBucket: int, view: map<int, Candle>)
    requires TimesAscend(cache) && 1 <= maxlen && |cache| <= maxlen && Shows(view, cache)
    ensures Shows(Publish(view, Returned(cache, maxlen, rest, nowBucket, true)), Merge(cache, maxlen, rest, nowBucket))
      <==> forall time :: OfUnion(cache, rest, time) && |Newer(cache, rest, time)| < maxlen && Unpublished(cache, time)
             ==> time in view && Expected(ByTime(cache), rest, nowBucket, time) == Some(view[time])
  {
    hide Merge, Publish, Returned, TimesAscend, Expected, OfUnion, Newer, Unpublished, Shows;
    var r := Merge(cache, maxlen, rest, nowBucket);
    ReconnectCatchesUp(cache, maxlen, rest, nowBucket, view);
    forall time
      ensures OfUnion(cache, rest, time) && |Newer(cache, rest, time)| < maxlen
              <==> exists c :: c in r && c.time == time
      ensures forall c :: c in r && c.time == time ==> Expected(ByTime(cache), rest, nowBucket, time) == Some(c)
    {
      MergedIff(cache, maxlen, rest, nowBucket, time);
    }
  }

  /** The times above `time` a merge chooses from. */
  function Newer(cache: seq<Candle>, rest: seq<RestCandle>, time: int): set<int> {
    (set c | c in cache && c.time > time :: c.time) + (set r | r in rest && r.time > 0 && r.time > time :: r.time)
  }

  lemma {:induction false} LastRestExists(rest: seq<RestCandle>, time: int)
    ensures LastRest(rest, time).Some? <==> time > 0 && exists r :: r in rest && r.time == time
  {
    if rest == [] {
      assert LastRest(rest, time).None?;
    } else {
      var n := |rest| - 1;
      assert rest == rest[..n] + [rest[n]];
      LastRestExists(rest[..n], time);
    }
  }

  lemma NewerOfUnion(cache: seq<Candle>, rest: seq<RestCandle>, time: int)
    ensures forall t :: t in Newer(cache, rest, time) <==> OfUnion(cache, rest, t) && t > time
  {
    forall t ensures t in Newer(cache, rest, time) <==> OfUnion(cache, rest, t) && t > time {
      LastRestExists(rest, t);
    }
  }

  function TimesOf(cs: seq<Candle>): set<int> {
    set c | c in cs :: c.time
  }

  lemma {:induction false} TimesCount(cs: seq<Candle>)
    requires TimesAscend(cs)
    ensures |TimesOf(cs)| == |cs|
  {
    if cs == [] {
      assert TimesOf(cs) == {};
    } else {
      var n := |cs| - 1;
      TimesCount(cs[..n]);
      assert cs == cs[..n] + [cs[n]];
      assert TimesOf(cs) == TimesOf(cs[..n]) + {cs[n].time};
      assert cs[n].time !in TimesOf(cs[..n]);
    }
  }

  lemma SubsetCount(a: set<int>, b: set<int>)
    requires a <= b
    ensures |a| <= |b|
  {
    assert b == a + (b - a);
  }

  /** A time of the union survives the merge exactly when fewer than `maxlen` are
      newer, and it then holds the expected candle. */
  lemma MergedIff(cache: seq<Candle>, maxlen: nat, rest: seq<RestCandle>, nowBucket: int, time: int)
    requires TimesAscend(cache) && 1 <= maxlen && |cache| <= maxlen
    ensures var r := Merge(cache, maxlen, rest, nowBucket);
      && (OfUnion(cache, rest, time) && |Newer(cache, rest, time)| < maxlen <==> exists c :: c in r && c.time == time)
      && (forall c :: c in r && c.time == time ==> Expected(ByTime(cache), rest, nowBucket, time) == Some(c))
  {
    hide Expected, TimesAscend, Newer, OfUnion, Merge;
    var r, newer := Merge(cache, maxlen, rest, nowBucket), Newer(cache, rest, time);
    NewerOfUnion(cache, rest, time);
    MergeAscends(cache, maxlen, rest, nowBucket);
    if rest == [] {
      MergeNothing(cache, maxlen, nowBucket);
      NothingMerged(cache, nowBucket, time);
    } else {
      MergeHoldsNewestUnion(cache, maxlen, rest, nowBucket, time);
    }
    if c :| c in r && c.time == time {
      NewerKept(cache, maxlen, rest, nowBucket, c);
    } else if OfUnion(cache, rest, time) {
      forall t | t in TimesOf(r) ensures t in newer {
        KeptIsUnion(cache, maxlen, rest, nowBucket, t);
        FirstIsOldest(r, t);
      }
      TimesCount(r);
      SubsetCount(TimesOf(r), newer);
    }
  }

  lemma FirstIsOldest(r: seq<Candle>, t: int)
    requires TimesAscend(r) && t in TimesOf(r)
    ensures r != [] && r[0].time <= t
  {
  }

  lemma NothingMerged(cache: seq<Candle>, nowBucket: int, time: int)
    requires TimesAscend(cache)
    ensures OfUnion(cache, [], time) <==> exists c :: c in cache && c.time == time
    ensures forall c :: c in cache && c.time == time ==> Expected(ByTime(cache), [], nowBucket, time) == Some(c)
  {
    ByTimeKeyed(cache);
  }

  lemma KeptIsUnion(cache: seq<Candle>, maxlen: nat, rest: seq<RestCandle>, nowBucket: int, t: int)
    requires TimesAscend(cache) && 1 <= maxlen && t in TimesOf(Merge(cache, maxlen, rest, nowBucket))
    ensures OfUnion(cache, rest, t)
  {
    hide Expected, Merge;
    if rest == [] {
      MergeNothing(cache, maxlen, nowBucket);
    } else {
      MergeHoldsNewestUnion(cache, maxlen, rest, nowBucket, t);
    }
  }

  /** Everything newer than a kept candle is kept, so there is less of it than
      the cache holds. */
  lemma NewerKept(cache: seq<Candle>, maxlen: nat, rest: seq<RestCandle>, nowBucket: int, c: Candle)
    requires TimesAscend(cache) && 1 <= maxlen && |cache| <= maxlen
    requires c in Merge(cache, maxlen, rest, nowBucket)
    ensures OfUnion(cache, rest, c.time) && |Newer(cache, rest, c.time)| < maxlen
  {
    hide Expected, TimesAscend, Newer, OfUnion, Merge;
    var r, newer := Merge(cache, maxlen, rest, nowBucket), Newer(cache, rest, c.time);
    MergeAscends(cache, maxlen, rest, nowBucket);
    KeptIsUnion(cache, maxlen, rest, nowBucket, c.time);
    NewerOfUnion(cache, rest, c.time);
    FirstIsOldest(r, c.time);
    forall t | t in newer ensures t in TimesOf(r) - {c.time} {
      if rest == [] {
        MergeNothing(cache, maxlen, nowBucket);
        NothingMerged(cache, nowBucket, t);
      } else {
        MergeHoldsNewestUnion(cache, maxlen, rest, nowBucket, t);
      }
    }
    TimesCount(r);
    SubsetCount(newer, TimesOf(r) - {c.time});
  }

  lemma PublishNothing(view: map<int, Candle>)
    ensures Publish(view, []) == view
  {
  }

  lemma MergeNothing(cache: seq<Candle>, maxlen: nat, nowBucket: int)
    ensures Merge(cache, maxlen, [], nowBucket) == cache
  {
  }

  /** Main result on rows: a merged candle is the live one of its time if there
      was one; else the last usable REST row of its time, with its prices, its
      volume if positive, and closed when its time is before the current bucket;
      else the cached one. */
  lemma MergedCandleIs(
    cache: seq<Candle>, maxlen: nat, rest: seq<RestCandle>, nowBucket: int, c: Candle)
    requires TimesAscend(cache) && 1 <= maxlen && rest != [] && c in Merge(cache, maxlen, rest, nowBucket)
    ensures if exists d :: d in cache && d.time == c.time && d.source == Ws then c in cache
            else if exists i :: LastRow(rest, c.time, i) then
              exists i :: LastRow(rest, c.time, i) && Seeds(rest[i], nowBucket, c)
            else c in cache
  {
    hide Merge, Expected, TimesAscend;
    MergeHoldsNewestUnion(cache, maxlen, rest, nowBucket, c.time);
    ExpectedIs(cache, rest, nowBucket, c.time);
  }

  /** Row `i` is the last usable row of `time`. */
  ghost predicate LastRow(rest: seq<RestCandle>, time: int, i: int) {
    && 0 <= i < |rest| && rest[i].time == time > 0
    && forall j :: i < j < |rest| ==> rest[j].time != time
  }

  predicate Seeds(row: RestCandle, nowBucket: int, c: Candle) {
    && c.time == row.time && c.open == row.open && c.high == row.high && c.low == row.low && c.close == row.close
    && c.volume == (if row.volume > 0.0 then row.volume else 0.0)
    && (c.closed <==> row.time < nowBucket) && c.source == RestSeed
  }

  lemma {:induction false} LastRestIs(rest: seq<RestCandle>, time: int)
    ensures LastRest(rest, time).None? ==> forall i :: !LastRow(rest, time, i)
    ensures LastRest(rest, time).Some? ==>
              exists i :: LastRow(rest, time, i) && LastRest(rest, time).value == rest[i]
  {
    if rest == [] || time <= 0 {
    } else {
      var n := |rest| - 1;
      if rest[n].time == time {
        assert LastRow(rest, time, n);
      } else {
        LastRestIs(rest[..n], time);
        assert forall i :: 0 <= i < n ==> rest[..n][i] == rest[i];
        forall i ensures LastRow(rest, time, i) <==> LastRow(rest[..n], time, i) {
        }
        if i :| LastRow(rest[..n], time, i) && LastRest(rest[..n], time) == Some(rest[..n][i]) {
          assert LastRow(rest, time, i);
        }
      }
    }
  }

  lemma ExpectedIs(cache: seq<Candle>, rest: seq<RestCandle>, nowBucket: int, time: int)
    requires TimesAscend(cache)
    ensures var expected := Expected(ByTime(cache), rest, nowBucket, time);
      expected.Some? ==>
        if exists d :: d in cache && d.time == time && d.source == Ws then expected.value in cache
        else if exists i :: LastRow(rest, time, i) then
          exists i :: LastRow(rest, time, i) && Seeds(rest[i], nowBucket, expected.value)
        else expected.value in cache
  {
    hide LastRest, LastRow;
    ByTimeKeyed(cache);
    LastRestIs(rest, time);
    if d :| d in cache && d.time == time {
      var k :| 0 <= k < |cache| && cache[k] == d;
      assert ByTime(cache)[time] == d;
      forall e | e in cache && e.time == time ensures e == d {
        var l :| 0 <= l < |cache| && cache[l] == e;
      }
    }
  }

  /** A gap that REST fills before the previous latest time stays unseen by
      every subscriber that did not show it, as long as the merge keeps it. */
  lemma FilledGapUnseen(
    cache: seq<Candle>, maxlen: nat, rest: seq<RestCandle>, nowBucket: int, view: map<int, Candle>, time: int)
    requires TimesAscend(cache) && 1 <= maxlen && |cache| <= maxlen && Shows(view, cache)
    requires LastRest(rest, time).Some? && time < LatestTime(cache) && time !in view
    ensures var r := Merge(cache, maxlen, rest, nowBucket);
            var view' := Publish(view, Returned(cache, maxlen, rest, nowBucket, true));
            (!Shows(view', r) && time !in view') || (|r| == maxlen && time < r[0].time)
  {
    hide Merge, Publish, Since, TimesAscend, Shows, Expected, Unpublished;
    UnpublishedIsBefore(cache, time);
    var r := Merge(cache, maxlen, rest, nowBucket);
    assert rest != [];
    MergeHoldsNewestUnion(cache, maxlen, rest, nowBucket, time);
    ReconnectCatchesUp(cache, maxlen, rest, nowBucket, view);
    MergeAscends(cache, maxlen, rest, nowBucket);
    SinceAscends(r, LatestTime(cache));
    PublishesNoOther(view, Returned(cache, maxlen, rest, nowBucket, true), time);
  }

  /** An input: the minute between two live candles is filled in and not shown. */
  lemma MinuteStaysUnseen(first: Candle, last: Candle, row: RestCandle, nowBucket: int)
    requires first.time == 60 && row.time == 120 && last.time == 180
    ensures var cache, rest := [first, last], [row];
            var view' := Publish(ByTime(cache), Returned(cache, 10, rest, nowBucket, true));
            Shows(ByTime(cache), cache) && !Shows(view', Merge(cache, 10, rest, nowBucket)) && 120 !in view'
  {
    var cache, rest := [first, last], [row];
    var m := Overlay(ByTime(cache), rest, nowBucket);
    ByTimeKeyed(cache);
    assert LastRest(rest, 120) == Some(row);
    assert cache[0] == first && cache[1] == last;
    FilledGapUnseen(cache, 10, rest, nowBucket, ByTime(cache), 120);
    MinuteKeys(first, last, row, nowBucket);
  }

  lemma MinuteKeys(first: Candle, last: Candle, row: RestCandle, nowBucket: int)
    requires first.time == 60 && row.time == 120 && last.time == 180
    ensures |Overlay(ByTime([first, last]), [row], nowBucket)| <= 3
  {
    assert [first, last][..1] == [first] && [first][..0] == [];
    assert [row][..0] == [];
    assert ByTime([first]) == map[60 := first];
    assert ByTime([first, last]) == map[60 := first, 180 := last];
    assert Overlay(ByTime([first, last]), [row], nowBucket)
        == map[60 := first, 180 := last, 120 := Seeded(row, nowBucket)];
  }

  lemma {:induction false} SinceAscends(cache: seq<Candle>, time: int)
    requires TimesAscend(cache)
    ensures TimesAscend(Since(cache, time))
  {
    if cache == [] {
    } else {
      var n := |cache| - 1;
      SinceAscends(cache[..n], time);
      WithoutLast(cache);
      forall d | d in Since(cache[..n], time) ensures d.time < cache[n].time {
        assert d in cache[..n];
      }
      AscendingSnoc(Since(cache[..n], time), cache[n]);
    }
  }

  lemma {:induction false} PublishesAll(view: map<int, Candle>, cs: seq<Candle>)
    requires TimesAscend(cs)
    ensures forall c :: c in cs ==> c.time in Publish(view, cs) && Publish(view, cs)[c.time] == c
  {
    if cs == [] {
    } else {
      var n := |cs| - 1;
      PublishesAll(view, cs[..n]);
      assert cs == cs[..n] + [cs[n]];
    }
  }

  lemma {:induction false} PublishesNoOther(view: map<int, Candle>, cs: seq<Candle>, time: int)
    requires forall c :: c in cs ==> c.time != time
    ensures time in Publish(view, cs) <==> time in view
    ensures time in view ==> Publish(view, cs)[time] == view[time]
  {
    if cs == [] {
    } else {
      var n := |cs| - 1;
      assert cs == cs[..n] + [cs[n]];
      PublishesNoOther(view, cs[..n], time);
    }
  }

  // ----- Mixed runs -----

  datatype Op = Trade(t: Tick) | Rest(candles: seq<RestCandle>, nowBucket: int) | Resize(size: Bound)

  type Bound = n: nat | n >= 1 witness 1

  datatype State = State(cache: seq<Candle>, maxlen: Bound)

  ghost function Do(s: State, op: Op): State {
    match op
    case Trade(t) => s.(cache := Apply(s.cache, s.maxlen, t))
    case Rest(candles, nowBucket) => s.(cache := Merge(s.cache, s.maxlen, candles, nowBucket))
    case Resize(size) => State(LastN(s.cache, size), size)
  }

  ghost function DoAll(s: State, ops: seq<Op>): State {
    if ops == [] then s else Do(DoAll(s, ops[..|ops| - 1]), ops[|ops| - 1])
  }

  lemma TickAscends(cache: seq<Candle>, maxlen: Bound, t: Tick)
    requires TimesAscend(cache) && |cache| <= maxlen
    ensures TimesAscend(Apply(cache, maxlen, t)) && |Apply(cache, maxlen, t)| <= maxlen
  {
    if cache == [] || cache[|cache| - 1].time < t.bucket {
      OpeningShape(cache, maxlen, t);
    }
  }

  /** Whatever mix of ticks, merges and resizes a cache goes through, its times
      strictly ascend and its bound holds. */
  lemma {:induction false} MixedRunsAscend(maxlen: Bound, ops: seq<Op>)
    ensures var s := DoAll(State([], maxlen), ops);
            TimesAscend(s.cache) && |s.cache| <= s.maxlen
  {
    if ops == [] {
    } else {
      var n := |ops| - 1;
      MixedRunsAscend(maxlen, ops[..n]);
      var s := DoAll(State([], maxlen), ops[..n]);
      match ops[n] {
        case Trade(t) => TickAscends(s.cache, s.maxlen, t);
        case Rest(candles, nowBucket) => MergeAscends(s.cache, s.maxlen, candles, nowBucket);
        case Resize(size) =>
      }
    }
  }
}
