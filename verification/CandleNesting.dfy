/** Agreement between the candles of nested intervals fed the same trades: a
    coarse bucket is `m` fine buckets long. */
module CandleNesting {
  import opened Numbers
  import opened Sequences
  import opened Candles
  import opened CandleRuns
  import opened CandleIntervals

  // ----- Nested buckets -----

  lemma FloorBounds(x: int, d: int)
    requires d > 0
    ensures x / d * d <= x < x / d * d + d
  {
    assert x == x / d * d + x % d;
  }

  lemma NextMultiple(a: int, b: int, d: int)
    requires d > 0 && a < b
    ensures a * d + d <= b * d
  {
    assert (b - a - 1) * d >= 0;
    assert (b - a - 1) * d == b * d - a * d - d;
  }

  lemma QuotientsAgree(x: int, d: int, q: int, r: int)
    requires d > 0 && q * d <= x < q * d + d && r * d <= x < r * d + d
    ensures q == r
  {
    if q < r {
      NextMultiple(q, r, d);
    } else if r < q {
      NextMultiple(r, q, d);
    }
  }

  lemma FloorUnique(x: int, d: int, q: int)
    requires d > 0 && q * d <= x < q * d + d
    ensures x / d == q
  {
    FloorBounds(x, d);
    QuotientsAgree(x, d, q, x / d);
  }

  lemma FloorLeast(x: int, d: int, k: int)
    requires d > 0 && k * d <= x
    ensures k * d <= x / d * d
  {
    FloorBounds(x, d);
    var q := x / d;
    if q < k {
      NextMultiple(q, k, d);
    }
  }

  /** A coarse bucket is a union of fine buckets: a timestamp's coarse bucket is
      found from its fine bucket alone. */
  lemma BucketsNest(timestampMs: int, fine: nat, m: nat)
    requires fine > 0 && m > 0
    ensures fine * m > 0
    ensures var b, c := BucketStart(timestampMs, fine), fine * m;
            BucketStart(timestampMs, c) == b / c * c
  {
    var c := fine * m;
    assert c > 0;
    var x := if timestampMs / 1000 >= 0 then timestampMs / 1000 else 0;
    var b, q := x / fine * fine, x / c;
    FloorBounds(x, c);
    FloorBounds(x, fine);
    assert q * c == q * m * fine;
    FloorLeast(x, fine, q * m);
    FloorUnique(b, c, q);
  }

  /** `time` lies in the bucket of `seconds` seconds starting at `start`. */
  predicate Inside(time: int, start: int, seconds: Seconds) {
    start <= time < start + seconds
  }

  lemma InsideIsCoarseBucket(timestampMs: int, fine: nat, m: nat, otherMs: int)
    requires fine > 0 && m > 0
    ensures fine * m > 0
    ensures var c := fine * m;
            BucketStart(timestampMs, c) == BucketStart(otherMs, c)
            <==> Inside(BucketStart(timestampMs, fine), BucketStart(otherMs, c), c)
  {
    BucketsNest(timestampMs, fine, m);
    var c, b := fine * m, BucketStart(timestampMs, fine);
    FloorBounds(b, c);
    var x := if otherMs / 1000 >= 0 then otherMs / 1000 else 0;
    assert BucketStart(otherMs, c) == x / c * c;
    if Inside(b, BucketStart(otherMs, c), c) {
      FloorUnique(b, c, x / c);
    }
  }

  // ----- Ticks of a bucket by index -----

  lemma ExtremesTake(own: seq<Tick>, t: Tick)
    ensures Lowest(own + [t]) == if own == [] then t.price else MinReal(Lowest(own), t.price)
    ensures Highest(own + [t]) == if own == [] then t.price else MaxReal(Highest(own), t.price)
  {
    assert (own + [t])[..|own|] == own;
  }

  lemma {:induction false} BucketByIndex(ts: seq<Tick>, bucket: int)
    ensures InBucket(ts, bucket) != [] <==> exists k :: 0 <= k < |ts| && ts[k].bucket == bucket
    ensures InBucket(ts, bucket) != [] ==>
              forall k :: 0 <= k < |ts| && ts[k].bucket == bucket ==>
                Lowest(InBucket(ts, bucket)) <= ts[k].price <= Highest(InBucket(ts, bucket))
  {
    if ts == [] {
    } else {
      var n := |ts| - 1;
      var before := ts[..n];
      BucketByIndex(before, bucket);
      assert forall k :: 0 <= k < n ==> before[k] == ts[k];
      ExtremesTake(InBucket(before, bucket), ts[n]);
      assert InBucket(before, bucket) + [] == InBucket(before, bucket);
    }
  }

  lemma {:induction false} ExtremesAttained(ts: seq<Tick>, bucket: int) returns (lo: nat, hi: nat)
    requires InBucket(ts, bucket) != []
    ensures lo < |ts| && ts[lo].bucket == bucket && ts[lo].price == Lowest(InBucket(ts, bucket))
    ensures hi < |ts| && ts[hi].bucket == bucket && ts[hi].price == Highest(InBucket(ts, bucket))
  {
    var n := |ts| - 1;
    var before := ts[..n];
    lo, hi := n, n;
    ExtremesTake(InBucket(before, bucket), ts[n]);
    assert InBucket(before, bucket) + [] == InBucket(before, bucket);
    if InBucket(before, bucket) == [] {
    } else {
      var l, h := ExtremesAttained(before, bucket);
      if ts[n].bucket != bucket {
        lo, hi := l, h;
      } else {
        lo := if Lowest(InBucket(before, bucket)) <= ts[n].price then l else n;
        hi := if Highest(InBucket(before, bucket)) >= ts[n].price then h else n;
      }
    }
  }

  lemma {:induction false} EndsByIndex(ts: seq<Tick>, bucket: int) returns (first: nat, last: nat)
    requires InBucket(ts, bucket) != []
    ensures var own := InBucket(ts, bucket);
            && first < |ts| && ts[first].bucket == bucket && ts[first] == own[0]
            && last < |ts| && ts[last].bucket == bucket && ts[last] == own[|own| - 1]
    ensures forall k :: 0 <= k < |ts| && ts[k].bucket == bucket ==> first <= k <= last
  {
    var n := |ts| - 1;
    var before := ts[..n];
    assert forall k :: 0 <= k < n ==> before[k] == ts[k];
    BucketByIndex(before, bucket);
    first, last := n, n;
    if InBucket(before, bucket) == [] {
    } else {
      first, last := EndsByIndex(before, bucket);
      if ts[n].bucket == bucket {
        last := n;
      }
    }
  }

  // ----- Containment -----

  lemma CandleIsItsBar(maxlen: nat, ts: seq<Tick>, i: nat)
    requires maxlen >= 1 && i < |Run([], maxlen, ts)|
    ensures var c := Run([], maxlen, ts)[i];
            InBucket(ts, c.time) != [] && c == Bar(c.time, InBucket(ts, c.time), c.closed)
  {
    CacheIsRecordBars(ts, maxlen);
    var times := LastN(Records(ts), maxlen);
    assert IsBar(Run([], maxlen, ts)[i], times[i], ts, i < |times| - 1);
  }

  /** A retained candle inside a retained larger candle stays within its range. */
  lemma RangeContained(trades: seq<TradeTick>, fine: nat, m: nat, n: nat, n': nat, i: nat, j: nat)
    requires fine > 0 && m > 0 && n >= 1 && n' >= 1 && fine * m > 0
    requires i < |Run([], n, Ticks(trades, fine))| && j < |Run([], n', Ticks(trades, fine * m))|
    requires Inside(Run([], n, Ticks(trades, fine))[i].time, Run([], n', Ticks(trades, fine * m))[j].time, fine * m)
    ensures var c, d := Run([], n, Ticks(trades, fine))[i], Run([], n', Ticks(trades, fine * m))[j];
            d.low <= c.low && c.high <= d.high
  {
    hide Run, Apply, InBucket;
    var coarse := fine * m;
    var ts, us := Ticks(trades, fine), Ticks(trades, coarse);
    var c, d := Run([], n, ts)[i], Run([], n', us)[j];
    CandleIsItsBar(n, ts, i);
    CandleIsItsBar(n', us, j);
    var lo, hi := ExtremesAttained(ts, c.time);
    var k, _ := EndsByIndex(us, d.time);
    InsideIsCoarseBucket(trades[lo].tsMs, fine, m, trades[k].tsMs);
    InsideIsCoarseBucket(trades[hi].tsMs, fine, m, trades[k].tsMs);
    assert us[lo].bucket == d.time && us[hi].bucket == d.time;
    BucketByIndex(us, d.time);
  }

  // ----- Volume -----

  /** Traded size of one bucket of an interval. */
  function TradedIn(trades: seq<TradeTick>, seconds: Seconds, bucket: int): real {
    Traded(InBucket(Ticks(trades, seconds), bucket))
  }

  function SumTraded(trades: seq<TradeTick>, seconds: Seconds, buckets: seq<int>): real {
    if buckets == [] then 0.0
    else SumTraded(trades, seconds, buckets[..|buckets| - 1]) + TradedIn(trades, seconds, buckets[|buckets| - 1])
  }

  lemma TradedTakes(trades: seq<TradeTick>, trade: TradeTick, seconds: Seconds, bucket: int)
    ensures TradedIn(trades + [trade], seconds, bucket)
         == TradedIn(trades, seconds, bucket)
            + (if BucketStart(trade.tsMs, seconds) == bucket then MaxReal(trade.size, 0.0) else 0.0)
  {
    var ts, t := Ticks(trades, seconds), TickAt(trade, seconds);
    assert Ticks(trades + [trade], seconds) == ts + [t];
    TickTakesBucket(ts, t, bucket);
    assert (InBucket(ts, bucket) + [t])[..|InBucket(ts, bucket)|] == InBucket(ts, bucket);
  }

  lemma {:induction false} SumTakes(trades: seq<TradeTick>, trade: TradeTick, seconds: Seconds, buckets: seq<int>)
    requires Ascending(buckets)
    ensures SumTraded(trades + [trade], seconds, buckets)
         == SumTraded(trades, seconds, buckets)
            + (if BucketStart(trade.tsMs, seconds) in buckets then MaxReal(trade.size, 0.0) else 0.0)
  {
    hide TradedIn, BucketStart;
    if buckets == [] {
    } else {
      var n := |buckets| - 1;
      assert buckets == buckets[..n] + [buckets[n]];
      SumTakes(trades, trade, seconds, buckets[..n]);
      TradedTakes(trades, trade, seconds, buckets[n]);
    }
  }

  lemma {:induction false} NothingTraded(seconds: Seconds, buckets: seq<int>)
    ensures SumTraded([], seconds, buckets) == 0.0
  {
    if buckets == [] {
    } else {
      NothingTraded(seconds, buckets[..|buckets| - 1]);
    }
  }

  /** Every trade of coarse bucket `start` falls in one of `buckets`. */
  predicate Covers(trades: seq<TradeTick>, fine: Seconds, m: Seconds, start: int, buckets: seq<int>) {
    assert fine * m > 0;
    forall k :: 0 <= k < |trades| && BucketStart(trades[k].tsMs, fine * m) == start ==>
      BucketStart(trades[k].tsMs, fine) in buckets
  }

  /** Distinct fine buckets of one coarse bucket trade at most what the coarse
      bucket trades, and exactly that when they cover its trades. */
  lemma {:induction false} FineVolumes(
    trades: seq<TradeTick>, fine: Seconds, m: Seconds, start: int, buckets: seq<int>)
    requires Ascending(buckets)
    requires fine * m > 0
    requires forall i :: 0 <= i < |buckets| ==> buckets[i] / (fine * m) * (fine * m) == start
    ensures SumTraded(trades, fine, buckets) <= TradedIn(trades, fine * m, start)
    ensures Covers(trades, fine, m, start, buckets) ==>
              SumTraded(trades, fine, buckets) == TradedIn(trades, fine * m, start)
  {
    hide TradedIn, SumTraded, BucketStart;
    if trades == [] {
      NothingTraded(fine, buckets);
      NothingTraded(fine * m, [start]);
      TradedNothing(fine * m, start);
    } else {
      var n := |trades| - 1;
      var before, trade := trades[..n], trades[n];
      assert trades == before + [trade];
      FineVolumes(before, fine, m, start, buckets);
      SumTakes(before, trade, fine, buckets);
      TradedTakes(before, trade, fine * m, start);
      BucketsNest(trade.tsMs, fine, m);
    }
  }

  lemma TradedNothing(seconds: Seconds, bucket: int)
    ensures TradedIn([], seconds, bucket) == 0.0
  {
  }

  // ----- The retained fine candles of one coarse candle -----

  function Within(cache: seq<Candle>, start: int, seconds: Seconds): (r: seq<Candle>)
    ensures forall c :: c in r <==> c in cache && Inside(c.time, start, seconds)
  {
    if cache == [] then []
    else
      var c := cache[|cache| - 1];
      assert cache == cache[..|cache| - 1] + [c];
      Within(cache[..|cache| - 1], start, seconds) + (if Inside(c.time, start, seconds) then [c] else [])
  }

  function Times(cs: seq<Candle>): (r: seq<int>)
    ensures |r| == |cs| && forall i :: 0 <= i < |cs| ==> r[i] == cs[i].time
  {
    seq(|cs|, i requires 0 <= i < |cs| => cs[i].time)
  }

  function VolumeOf(cs: seq<Candle>): real {
    if cs == [] then 0.0 else VolumeOf(cs[..|cs| - 1]) + cs[|cs| - 1].volume
  }

  function HighOf(cs: seq<Candle>): (h: real)
    requires cs != []
    ensures forall c :: c in cs ==> c.high <= h
    ensures exists c :: c in cs && c.high == h
  {
    var c := cs[|cs| - 1];
    assert cs == cs[..|cs| - 1] + [c];
    if |cs| == 1 then c.high else MaxReal(HighOf(cs[..|cs| - 1]), c.high)
  }

  function LowOf(cs: seq<Candle>): (l: real)
    requires cs != []
    ensures forall c :: c in cs ==> l <= c.low
    ensures exists c :: c in cs && c.low == l
  {
    var c := cs[|cs| - 1];
    assert cs == cs[..|cs| - 1] + [c];
    if |cs| == 1 then c.low else MinReal(LowOf(cs[..|cs| - 1]), c.low)
  }

  /** Consecutive candles merged into one. */
  function Merged(time: int, cs: seq<Candle>, closed: bool): Candle
    requires cs != []
  {
    Candle(time, cs[0].open, HighOf(cs), LowOf(cs), cs[|cs| - 1].close, VolumeOf(cs), closed, Ws)
  }

  lemma {:induction false} WithinAscends(cache: seq<Candle>, start: int, seconds: Seconds)
    requires TimesAscend(cache)
    ensures TimesAscend(Within(cache, start, seconds))
  {
    if cache == [] {
    } else {
      var n := |cache| - 1;
      WithinAscends(cache[..n], start, seconds);
      var kept := Within(cache[..n], start, seconds);
      forall i | 0 <= i < |kept| ensures kept[i].time < cache[n].time {
        assert kept[i] in cache[..n];
      }
    }
  }

  /** `small` and `big` are the caches of a fine and a coarse interval after the
      same trades, whatever their bounds. */
  datatype Pair = Pair(trades: seq<TradeTick>, fine: Seconds, m: Seconds, smallSize: Seconds, bigSize: Seconds) {
    function Coarse(): Seconds {
      assert fine * m > 0;
      fine * m
    }

    function Small(): seq<Candle> {
      Run([], smallSize, Ticks(trades, fine))
    }

    function Big(): seq<Candle> {
      Run([], bigSize, Ticks(trades, Coarse()))
    }

    /** The retained fine candles inside coarse candle `j`. */
    function Inner(j: nat): seq<Candle>
      requires j < |Big()|
    {
      Within(Small(), Big()[j].time, Coarse())
    }

    /** Trades arrived in time order. */
    predicate InOrder() {
      forall i, k :: 0 <= i < k < |trades| ==> trades[i].tsMs <= trades[k].tsMs
    }

    /** Every fine candle traded inside coarse candle `j` is retained. */
    predicate RetainsInner(j: nat)
      requires j < |Big()|
    {
      forall k :: 0 <= k < |trades| && BucketStart(trades[k].tsMs, Coarse()) == Big()[j].time ==>
        BucketStart(trades[k].tsMs, fine) in Times(Inner(j))
    }
  }

  /** What a retained candle is, in terms of the trades. */
  lemma CandleOfTrades(trades: seq<TradeTick>, seconds: Seconds, maxlen: Seconds, i: nat)
    requires i < |Run([], maxlen, Ticks(trades, seconds))|
    ensures var ts := Ticks(trades, seconds);
            var c := Run([], maxlen, ts)[i];
            var own := InBucket(ts, c.time);
            && own != [] && c == Bar(c.time, own, c.closed)
            && c.volume == TradedIn(trades, seconds, c.time)
  {
    hide Run;
    CandleIsItsBar(maxlen, Ticks(trades, seconds), i);
  }

  /** A fine candle lies inside a coarse one exactly when its bucket is part of
      the coarse bucket. */
  lemma InnerBucket(p: Pair, j: nat, c: Candle)
    requires j < |p.Big()| && c in p.Small() && Inside(c.time, p.Big()[j].time, p.Coarse())
    ensures c.time / p.Coarse() * p.Coarse() == p.Big()[j].time
  {
    hide Run, InBucket, BucketStart;
    var ts, us := Ticks(p.trades, p.fine), Ticks(p.trades, p.Coarse());
    var i :| 0 <= i < |p.Small()| && p.Small()[i] == c;
    CandleIsItsBar(p.smallSize, ts, i);
    CandleIsItsBar(p.bigSize, us, j);
    var a, _ := EndsByIndex(ts, c.time);
    var b, _ := EndsByIndex(us, p.Big()[j].time);
    InsideIsCoarseBucket(p.trades[a].tsMs, p.fine, p.m, p.trades[b].tsMs);
    BucketsNest(p.trades[a].tsMs, p.fine, p.m);
  }

  lemma {:induction false} VolumesAreTraded(p: Pair, cs: seq<Candle>)
    requires forall c :: c in cs ==> c in p.Small()
    ensures VolumeOf(cs) == SumTraded(p.trades, p.fine, Times(cs))
  {
    hide Run, TradedIn;
    if cs == [] {
    } else {
      var n := |cs| - 1;
      assert cs == cs[..n] + [cs[n]];
      VolumesAreTraded(p, cs[..n]);
      assert Times(cs)[..n] == Times(cs[..n]);
      assert cs[n] in p.Small();
      var i :| 0 <= i < |p.Small()| && p.Small()[i] == cs[n];
      CandleOfTrades(p.trades, p.fine, p.smallSize, i);
    }
  }

  /** The volumes of the retained candles inside a larger candle sum to at most
      its volume, and exactly to it when none of them is missing. */
  lemma VolumesContained(p: Pair, j: nat)
    requires j < |p.Big()|
    ensures VolumeOf(p.Inner(j)) <= p.Big()[j].volume
    ensures p.RetainsInner(j) ==> VolumeOf(p.Inner(j)) == p.Big()[j].volume
  {
    hide Run, TradedIn, BucketStart, SumTraded;
    var inner, start := p.Inner(j), p.Big()[j].time;
    CandlesWellFormed(Ticks(p.trades, p.fine), p.smallSize);
    WithinAscends(p.Small(), start, p.Coarse());
    VolumesAreTraded(p, inner);
    CandleOfTrades(p.trades, p.Coarse(), p.bigSize, j);
    forall i | 0 <= i < |inner| ensures Times(inner)[i] / p.Coarse() * p.Coarse() == start {
      assert inner[i] in inner;
      InnerBucket(p, j, inner[i]);
    }
    FineVolumes(p.trades, p.fine, p.m, start, Times(inner));
  }

  /** Every retained candle inside a larger candle stays within its range. */
  lemma RangesContained(p: Pair, j: nat)
    requires j < |p.Big()|
    ensures forall c :: c in p.Inner(j) ==> p.Big()[j].low <= c.low && c.high <= p.Big()[j].high
  {
    hide Run;
    forall c | c in p.Inner(j) ensures p.Big()[j].low <= c.low && c.high <= p.Big()[j].high {
      var i :| 0 <= i < |p.Small()| && p.Small()[i] == c;
      RangeContained(p.trades, p.fine, p.m, p.smallSize, p.bigSize, i, j);
    }
  }

  /** The fine candle of any trade of a coarse candle that retains them all. */
  lemma InnerOfTrade(p: Pair, j: nat, k: nat) returns (i: nat)
    requires j < |p.Big()| && p.RetainsInner(j)
    requires k < |p.trades| && BucketStart(p.trades[k].tsMs, p.Coarse()) == p.Big()[j].time
    ensures i < |p.Inner(j)| && p.Inner(j)[i].time == BucketStart(p.trades[k].tsMs, p.fine)
    ensures p.Inner(j)[i].low <= p.trades[k].price <= p.Inner(j)[i].high
  {
    hide Run, BucketStart;
    var inner := p.Inner(j);
    var b := BucketStart(p.trades[k].tsMs, p.fine);
    assert b in Times(inner);
    i :| 0 <= i < |inner| && Times(inner)[i] == b;
    assert inner[i] in inner;
    var q :| 0 <= q < |p.Small()| && p.Small()[q] == inner[i];
    CandleOfTrades(p.trades, p.fine, p.smallSize, q);
    BucketByIndex(Ticks(p.trades, p.fine), b);
    assert Ticks(p.trades, p.fine)[k].bucket == b;
  }

  /** With none of its candles missing, a larger candle has their extreme
      prices and their total volume, in whatever order the trades came. */
  lemma ExtremesMerge(p: Pair, j: nat)
    requires j < |p.Big()| && p.RetainsInner(j)
    ensures var d, inner := p.Big()[j], p.Inner(j);
            inner != [] && d.high == HighOf(inner) && d.low == LowOf(inner) && d.volume == VolumeOf(inner)
  {
    hide Run, BucketStart, VolumeOf;
    var d, inner, us := p.Big()[j], p.Inner(j), Ticks(p.trades, p.Coarse());
    RangesContained(p, j);
    VolumesContained(p, j);
    CandleOfTrades(p.trades, p.Coarse(), p.bigSize, j);
    var lo, hi := ExtremesAttained(us, d.time);
    var l := InnerOfTrade(p, j, lo);
    var h := InnerOfTrade(p, j, hi);
    assert inner[l] in inner && inner[h] in inner;
  }

  /** A fine candle's first and last trades are among the coarse candle's. */
  lemma EndsInside(p: Pair, j: nat, i: nat) returns (first: nat, last: nat)
    requires j < |p.Big()| && i < |p.Inner(j)|
    ensures first < |p.trades| && last < |p.trades|
    ensures var c := p.Inner(j)[i];
            && c.time == BucketStart(p.trades[first].tsMs, p.fine) == BucketStart(p.trades[last].tsMs, p.fine)
            && c.open == p.trades[first].price && c.close == p.trades[last].price
            && BucketStart(p.trades[first].tsMs, p.Coarse()) == p.Big()[j].time
            && BucketStart(p.trades[last].tsMs, p.Coarse()) == p.Big()[j].time
            && forall k :: 0 <= k < |p.trades| && BucketStart(p.trades[k].tsMs, p.fine) == c.time ==> first <= k <= last
  {
    hide Run, BucketStart;
    var c, ts := p.Inner(j)[i], Ticks(p.trades, p.fine);
    assert c in p.Inner(j);
    var q :| 0 <= q < |p.Small()| && p.Small()[q] == c;
    CandleOfTrades(p.trades, p.fine, p.smallSize, q);
    first, last := EndsByIndex(ts, c.time);
    assert ts[first].bucket == c.time && ts[last].bucket == c.time;
    InnerBucket(p, j, c);
    BucketsNest(p.trades[first].tsMs, p.fine, p.m);
    BucketsNest(p.trades[last].tsMs, p.fine, p.m);
    forall k | 0 <= k < |p.trades| && BucketStart(p.trades[k].tsMs, p.fine) == c.time
      ensures first <= k <= last
    {
      assert ts[k].bucket == c.time;
    }
  }

  lemma BucketsMonotone(a: int, b: int, seconds: Seconds)
    requires a <= b
    ensures BucketStart(a, seconds) <= BucketStart(b, seconds)
  {
    var x := if a / 1000 >= 0 then a / 1000 else 0;
    var y := if b / 1000 >= 0 then b / 1000 else 0;
    FloorBounds(x, seconds);
    FloorLeast(y, seconds, x / seconds);
  }

  /** The first trade of a coarse candle opens its first fine candle, and the
      last trade closes the last one. */
  lemma EndsAgree(p: Pair, j: nat)
    requires j < |p.Big()| && p.RetainsInner(j) && p.InOrder()
    requires p.Inner(j) != [] && TimesAscend(p.Inner(j))
    ensures p.Big()[j].open == p.Inner(j)[0].open
    ensures p.Big()[j].close == p.Inner(j)[|p.Inner(j)| - 1].close
  {
    hide Run, BucketStart, Within, TradedIn;
    var d, inner, us := p.Big()[j], p.Inner(j), Ticks(p.trades, p.Coarse());
    CandleOfTrades(p.trades, p.Coarse(), p.bigSize, j);
    var n := |inner| - 1;
    var first, last := EndsByIndex(us, d.time);
    assert us[first].bucket == d.time && us[last].bucket == d.time;
    var a := InnerOfTrade(p, j, first);
    var z := InnerOfTrade(p, j, last);
    var f, _ := EndsInside(p, j, 0);
    var _, l := EndsInside(p, j, n);
    assert us[f].bucket == d.time && us[l].bucket == d.time;
    BucketsMonotone(p.trades[first].tsMs, p.trades[f].tsMs, p.fine);
    BucketsMonotone(p.trades[l].tsMs, p.trades[last].tsMs, p.fine);
    assert a == 0 && z == n;
    assert f == first && l == last;
  }

  /** For trades in time order with no candle missing, a larger candle is the
      exact merge of the candles inside it. */
  lemma ExactMerge(p: Pair, j: nat)
    requires j < |p.Big()| && p.RetainsInner(j) && p.InOrder()
    ensures p.Inner(j) != []
    ensures p.Big()[j] == Merged(p.Big()[j].time, p.Inner(j), p.Big()[j].closed)
  {
    hide Run, BucketStart, VolumeOf, HighOf, LowOf, TradedIn, Bar, Within, InBucket, Pair.RetainsInner, Pair.InOrder;
    ExtremesMerge(p, j);
    CandlesWellFormed(Ticks(p.trades, p.fine), p.smallSize);
    WithinAscends(p.Small(), p.Big()[j].time, p.Coarse());
    EndsAgree(p, j);
    CandleOfTrades(p.trades, p.Coarse(), p.bigSize, j);
    BarIsWs(p.Big()[j].time, InBucket(Ticks(p.trades, p.Coarse()), p.Big()[j].time), p.Big()[j].closed);
  }

  lemma BarIsWs(time: int, own: seq<Tick>, closed: bool)
    requires own != []
    ensures Bar(time, own, closed).source == Ws
  {
  }

  // ----- When nothing is missing -----

  lemma {:induction false} OrderedBucketsAreRecords(ts: seq<Tick>, k: nat)
    requires k < |ts|
    requires forall i, j :: 0 <= i < j < |ts| ==> ts[i].bucket <= ts[j].bucket
    ensures ts[k].bucket in Records(ts)
  {
    var n := |ts| - 1;
    if k < n {
      OrderedBucketsAreRecords(ts[..n], k);
    } else if !SetsRecord(ts, n) {
      var i :| 0 <= i < n && ts[i].bucket >= ts[n].bucket;
      OrderedBucketsAreRecords(ts[..n], i);
    }
  }

  lemma LateRecordsRetained(records: seq<int>, n: nat, b: int)
    requires n >= 1 && Ascending(records) && b in records
    requires |LastN(records, n)| < n || LastN(records, n)[0] <= b
    ensures b in LastN(records, n)
  {
    var i :| 0 <= i < |records| && records[i] == b;
    var lost := |records| - |LastN(records, n)|;
    assert LastN(records, n)[i - lost] == b;
  }

  /** For trades in time order, no inner candle is missing as long as the fine
      cache has never been full or still reaches back to the coarse bucket's start. */
  lemma OrderedRetains(p: Pair, j: nat)
    requires j < |p.Big()| && p.InOrder()
    requires |p.Small()| < p.smallSize || p.Small()[0].time <= p.Big()[j].time
    ensures p.RetainsInner(j)
  {
    hide Run, BucketStart, Records, LastN, IsBar;
    var ts, start := Ticks(p.trades, p.fine), p.Big()[j].time;
    var records := Records(ts);
    CacheIsRecordBars(ts, p.smallSize);
    RecordsAscend(ts);
    var times := LastN(records, p.smallSize);
    forall i | 0 <= i < |times| ensures p.Small()[i].time == times[i] {
      IsBarFields(p.Small()[i], times[i], ts, i < |times| - 1);
    }
    forall k | 0 <= k < |p.trades| && BucketStart(p.trades[k].tsMs, p.Coarse()) == start
      ensures BucketStart(p.trades[k].tsMs, p.fine) in Times(p.Inner(j))
    {
      var b := BucketStart(p.trades[k].tsMs, p.fine);
      forall i, i' | 0 <= i < i' < |ts| ensures ts[i].bucket <= ts[i'].bucket {
        BucketsMonotone(p.trades[i].tsMs, p.trades[i'].tsMs, p.fine);
      }
      assert ts[k].bucket == b;
      OrderedBucketsAreRecords(ts, k);
      InsideIsCoarseBucket(p.trades[k].tsMs, p.fine, p.m, p.trades[k].tsMs);
      LateRecordsRetained(records, p.smallSize, b);
      var i :| 0 <= i < |times| && times[i] == b;
      var c := p.Small()[i];
      assert c in p.Inner(j);
      var q :| 0 <= q < |p.Inner(j)| && p.Inner(j)[q] == c;
      assert Times(p.Inner(j))[q] == b;
    }
  }
}
