/** Whole-run properties of the candle cache: shape of the candles, bounded
    caches against larger ones, and what subscribers can rebuild. */
module CandleRuns {
  import opened Sequences
  import opened Candles

  // ----- Shape -----

  predicate Ordered(c: Candle) {
    c.low <= c.open <= c.high && c.low <= c.close <= c.high && c.volume >= 0.0
  }

  predicate TimesAscend(cache: seq<Candle>) {
    forall i, j :: 0 <= i < j < |cache| ==> cache[i].time < cache[j].time
  }

  lemma {:induction false} PricesWithin(ts: seq<Tick>)
    requires ts != []
    ensures forall i :: 0 <= i < |ts| ==> Lowest(ts) <= ts[i].price <= Highest(ts)
  {
    if |ts| > 1 {
      var n := |ts| - 1;
      PricesWithin(ts[..n]);
      assert forall i :: 0 <= i < n ==> ts[i] == ts[..n][i];
    }
  }

  lemma BarOrdered(time: int, own: seq<Tick>, closed: bool)
    requires own != []
    ensures Ordered(Bar(time, own, closed))
  {
    PricesWithin(own);
  }

  /** Times strictly ascend, prices are ordered within each candle, and exactly
      the candles before the newest are closed. */
  lemma CandlesWellFormed(ts: seq<Tick>, maxlen: nat)
    requires maxlen >= 1
    ensures var cache := Run([], maxlen, ts);
            && |cache| <= maxlen && TimesAscend(cache)
            && forall i :: 0 <= i < |cache| ==> Ordered(cache[i]) && cache[i].closed == (i < |cache| - 1)
  {
    hide Bar, Ordered, Records, InBucket, IsBar;
    CacheIsRecordBars(ts, maxlen);
    RecordsAscend(ts);
    var cache, times := Run([], maxlen, ts), LastN(Records(ts), maxlen);
    forall i | 0 <= i < |cache|
      ensures Ordered(cache[i]) && cache[i].closed == (i < |cache| - 1) && cache[i].time == times[i]
    {
      IsBarOrdered(cache[i], times[i], ts, i < |cache| - 1);
    }
  }

  lemma IsBarOrdered(c: Candle, time: int, ts: seq<Tick>, closed: bool)
    requires IsBar(c, time, ts, closed)
    ensures Ordered(c) && c.closed == closed && c.time == time
  {
    BarOrdered(time, InBucket(ts, time), closed);
  }

  // ----- A small cache is the tail of a large one -----

  lemma FindLastInTail(cache: seq<Candle>, k: nat, time: int)
    requires k <= |cache|
    ensures var tail := cache[|cache| - k..];
            var i, j := FindLast(cache, time), FindLast(tail, time);
            if i < |cache| && i >= |cache| - k then j == i - (|cache| - k) else j == k
  {
    var tail := cache[|cache| - k..];
    assert forall m :: 0 <= m < k ==> tail[m] == cache[|cache| - k + m];
    var i, j := FindLast(cache, time), FindLast(tail, time);
    if j < k {
      assert cache[|cache| - k + j].time == time;
    }
    if i < |cache| && i >= |cache| - k {
      assert tail[i - (|cache| - k)].time == time;
    }
  }

  lemma TailCommutesLate(cache: seq<Candle>, k: nat, maxlen: nat, t: Tick)
    requires 1 <= k <= maxlen && cache != [] && t.bucket < cache[|cache| - 1].time
    ensures LastN(Apply(cache, maxlen, t), k) == Apply(LastN(cache, k), k, t)
  {
    hide Absorb, Apply, FindLast;
    var tail := LastN(cache, k);
    assert tail == cache[|cache| - |tail|..];
    LastNEndsAlike(cache, k);
    FindLastInTail(cache, |tail|, t.bucket);
    LateApply(cache, maxlen, t);
    LateApply(tail, k, t);
    var i := FindLast(cache, t.bucket);
    if i < |cache| {
      LastNOfUpdate(cache, i, Absorb(cache[i], t), k);
    }
  }

  lemma LateApply(cache: seq<Candle>, maxlen: nat, t: Tick)
    requires cache != [] && t.bucket < cache[|cache| - 1].time
    ensures var i := FindLast(cache, t.bucket);
            Apply(cache, maxlen, t) == if i < |cache| then cache[i := Absorb(cache[i], t)] else cache
  {
  }

  lemma TailCommutesLatest(cache: seq<Candle>, k: nat, maxlen: nat, t: Tick)
    requires 1 <= k <= maxlen && (cache != [] ==> t.bucket >= cache[|cache| - 1].time)
    ensures LastN(Apply(cache, maxlen, t), k) == Apply(LastN(cache, k), k, t)
  {
    hide Absorb, Fresh;
    if cache == [] {
      TailOfAppend(cache, Fresh(t), k, maxlen);
    } else {
      var n := |cache| - 1;
      var latest := cache[n];
      LastNOfUpdate(cache, n, Absorb(latest, t).(closed := false), k);
      LastNOfUpdate(cache, n, latest.(closed := true, source := Ws), k);
      TailOfAppend(cache[n := latest.(closed := true, source := Ws)], Fresh(t), k, maxlen);
    }
  }

  /** Keeping the last `k` candles commutes with applying any tick. */
  lemma TailCommutes(cache: seq<Candle>, k: nat, maxlen: nat, t: Tick)
    requires 1 <= k <= maxlen
    ensures LastN(Apply(cache, maxlen, t), k) == Apply(LastN(cache, k), k, t)
  {
    hide Apply, LastN;
    if cache != [] && t.bucket < cache[|cache| - 1].time {
      TailCommutesLate(cache, k, maxlen, t);
    } else {
      TailCommutesLatest(cache, k, maxlen, t);
    }
  }

  lemma TailOfAppend<T>(s: seq<T>, x: T, k: nat, n: nat)
    requires 1 <= k <= n
    ensures LastN(Append(s, x, n), k) == Append(LastN(s, k), x, k)
  {
    LastNOfLastN(s + [x], k, n);
    LastNOfAppend(s, x, k);
  }

  /** Over any ticks from any start, a cache bounded by `k` is the last `k`
      candles of a cache bounded by `maxlen >= k`. */
  lemma {:induction false} SmallCacheIsTail(cache: seq<Candle>, k: nat, maxlen: nat, ts: seq<Tick>)
    requires 1 <= k <= maxlen
    ensures LastN(Run(cache, maxlen, ts), k) == Run(LastN(cache, k), k, ts)
  {
    hide Apply, LastN;
    if ts == [] {
    } else {
      var n := |ts| - 1;
      SmallCacheIsTail(cache, k, maxlen, ts[..n]);
      TailCommutes(Run(cache, maxlen, ts[..n]), k, maxlen, ts[n]);
    }
  }

  lemma {:induction false} RunAppend(cache: seq<Candle>, maxlen: nat, a: seq<Tick>, b: seq<Tick>)
    ensures Run(cache, maxlen, a + b) == Run(Run(cache, maxlen, a), maxlen, b)
  {
    hide Apply;
    if b == [] {
      assert a + b == a;
    } else {
      var n := |b| - 1;
      assert (a + b)[..|a| + n] == a + b[..n];
      RunAppend(cache, maxlen, a, b[..n]);
    }
  }

  /** Shrinking a cache mid-run is indistinguishable from having started small. */
  lemma ShrinkMidRun(maxlen: nat, k: nat, before: seq<Tick>, after: seq<Tick>)
    requires 1 <= k <= maxlen
    ensures Run(LastN(Run([], maxlen, before), k), k, after) == Run([], k, before + after)
  {
    SmallCacheIsTail([], k, maxlen, before);
    RunAppend([], k, before, after);
  }

  // ----- Subscribers see every change -----

  /** A subscriber's picture: the last candle published for each time. */
  function Publish(view: map<int, Candle>, emitted: seq<Candle>): map<int, Candle> {
    if emitted == [] then view
    else Publish(view, emitted[..|emitted| - 1])[emitted[|emitted| - 1].time := emitted[|emitted| - 1]]
  }

  function Published(maxlen: nat, ts: seq<Tick>): map<int, Candle> {
    if ts == [] then map[]
    else
      var n := |ts| - 1;
      Publish(Published(maxlen, ts[..n]), Emitted(Run([], maxlen, ts[..n]), maxlen, ts[n]))
  }

  ghost predicate Shows(view: map<int, Candle>, cache: seq<Candle>) {
    forall i :: 0 <= i < |cache| ==> cache[i].time in view && view[cache[i].time] == cache[i]
  }

  lemma PublishOne(view: map<int, Candle>, c: Candle)
    ensures Publish(view, [c]) == view[c.time := c]
  {
    assert [c][..0] == [];
  }

  lemma PublishTwo(view: map<int, Candle>, c: Candle, d: Candle)
    ensures Publish(view, [c, d]) == view[c.time := c][d.time := d]
  {
    assert [c, d][..1] == [c];
    PublishOne(view, c);
  }

  lemma ShowsStep(view: map<int, Candle>, cache: seq<Candle>, maxlen: nat, t: Tick)
    requires 1 <= maxlen && |cache| <= maxlen && TimesAscend(cache) && Shows(view, cache)
    ensures Shows(Publish(view, Emitted(cache, maxlen, t)), Apply(cache, maxlen, t))
  {
    if cache == [] {
      PublishOne(view, Fresh(t));
    } else {
      var n := |cache| - 1;
      var latest := cache[n];
      if latest.time == t.bucket {
        PublishOne(view, Absorb(latest, t).(closed := false));
      } else if latest.time < t.bucket {
        PublishTwo(view, latest.(closed := true, source := Ws), Fresh(t));
        OpeningShape(cache, maxlen, t);
        ShowsOpening(view, cache, maxlen, t);
      } else {
        var i := FindLast(cache, t.bucket);
        if i < |cache| {
          PublishOne(view, Absorb(cache[i], t));
        }
      }
    }
  }

  lemma ShowsOpening(view: map<int, Candle>, cache: seq<Candle>, maxlen: nat, t: Tick)
    requires 1 <= maxlen && |cache| <= maxlen && TimesAscend(cache) && Shows(view, cache)
    requires cache != [] && cache[|cache| - 1].time < t.bucket
    ensures var latest := cache[|cache| - 1].(closed := true, source := Ws);
            Shows(view[latest.time := latest][t.bucket := Fresh(t)], Apply(cache, maxlen, t))
  {
    hide Apply;
    OpeningShape(cache, maxlen, t);
  }

  /** Whoever applies the published candles by time, from the start of the
      stream, holds every candle of the cache exactly as cached. */
  lemma {:induction false} SubscribersShowCache(maxlen: nat, ts: seq<Tick>)
    requires maxlen >= 1
    ensures Shows(Published(maxlen, ts), Run([], maxlen, ts))
  {
    hide Apply, Emitted, Publish;
    if ts == [] {
    } else {
      var n := |ts| - 1;
      SubscribersShowCache(maxlen, ts[..n]);
      CandlesWellFormed(ts[..n], maxlen);
      ShowsStep(Published(maxlen, ts[..n]), Run([], maxlen, ts[..n]), maxlen, ts[n]);
    }
  }
}
