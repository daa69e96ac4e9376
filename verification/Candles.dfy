/** OHLCV candle cache of one stream key: trade ticks folded into time buckets. */
module Candles {
  import opened Numbers
  import opened Sequences

  datatype Source = Ws | RestSeed

  datatype Candle = Candle(
    time: int, open: real, high: real, low: real, close: real, volume: real, closed: bool, source: Source)

  /** A tick as one cache sees it: the bucket it falls in, its price and size. */
  datatype Tick = Tick(bucket: int, price: real, size: real)

  type Seconds = n: nat | n > 0 witness 60

  /** Start of the bucket of `seconds` seconds holding a millisecond timestamp. */
  function BucketStart(timestampMs: int, seconds: Seconds): int {
    var timestampSeconds := if timestampMs / 1000 >= 0 then timestampMs / 1000 else 0;
    timestampSeconds / seconds * seconds
  }

  function Fresh(t: Tick): Candle {
    Candle(t.bucket, t.price, t.price, t.price, t.price, MaxReal(t.size, 0.0), false, Ws)
  }

  /** A tick folded into the candle of its bucket. */
  function Absorb(c: Candle, t: Tick): Candle {
    c.(high := MaxReal(c.high, t.price), low := MinReal(c.low, t.price), close := t.price,
       volume := MaxReal(c.volume + MaxReal(t.size, 0.0), 0.0), source := Ws)
  }

  /** Position of the newest candle with this time, or `|cache|`. */
  function FindLast(cache: seq<Candle>, time: int): (i: nat)
    ensures i <= |cache|
    ensures i < |cache| ==> cache[i].time == time
    ensures i < |cache| ==> forall j :: i < j < |cache| ==> cache[j].time != time
    ensures i == |cache| ==> forall j :: 0 <= j < |cache| ==> cache[j].time != time
  {
    if cache == [] then 0
    else
      var n := |cache| - 1;
      if cache[n].time == time then n
      else
        var i := FindLast(cache[..n], time);
        assert forall j :: 0 <= j < n ==> cache[..n][j] == cache[j];
        if i == n then |cache| else i
  }

  /** The cache after one tick. */
  function Apply(cache: seq<Candle>, maxlen: nat, t: Tick): (r: seq<Candle>) {
    if cache == [] then Append(cache, Fresh(t), maxlen)
    else
      var n := |cache| - 1;
      var latest := cache[n];
      if latest.time == t.bucket then cache[n := Absorb(latest, t).(closed := false)]
      else if latest.time < t.bucket then
        Append(cache[n := latest.(closed := true, source := Ws)], Fresh(t), maxlen)
      else
        var i := FindLast(cache, t.bucket);
        if i < |cache| then cache[i := Absorb(cache[i], t)] else cache
  }

  /** Copies of the candles a tick changed or created, in the order published. */
  function Emitted(cache: seq<Candle>, maxlen: nat, t: Tick): (r: seq<Candle>) {
    if cache == [] then [Fresh(t)]
    else
      var n := |cache| - 1;
      var latest := cache[n];
      if latest.time == t.bucket then [Absorb(latest, t).(closed := false)]
      else if latest.time < t.bucket then [latest.(closed := true, source := Ws), Fresh(t)]
      else
        var i := FindLast(cache, t.bucket);
        if i < |cache| then [Absorb(cache[i], t)] else []
  }

  function Run(cache: seq<Candle>, maxlen: nat, ts: seq<Tick>): seq<Candle> {
    if ts == [] then cache else Apply(Run(cache, maxlen, ts[..|ts| - 1]), maxlen, ts[|ts| - 1])
  }

  /** The deque of one stream key.  Its candles never leave it: readers and
      subscribers get copies, so a sequence of values is the whole state. */
  class CandleCache {
    var entries: seq<Candle>
    var maxlen: nat

    constructor (maxlen: nat)
      ensures this.maxlen == maxlen && entries == []
    {
      this.maxlen := maxlen;
      entries := [];
    }

    /** `_apply_trade_to_cache`: folds one trade in and returns the candles to publish. */
    method ApplyTrade(bucket: int, price: real, size: real) returns (emitted: seq<Candle>)
      modifies this`entries
      ensures entries == Apply(old(entries), maxlen, Tick(bucket, price, size))
      ensures emitted == Emitted(old(entries), maxlen, Tick(bucket, price, size))
    {
      ghost var t := Tick(bucket, price, size);
      emitted := [];
      var volume := MaxReal(size, 0.0);
      if entries == [] {
        var entry := Candle(bucket, price, price, price, price, volume, false, Ws);
        entries := Append(entries, entry, maxlen);
        return [entry];
      }
      var n := |entries| - 1;
      var latest := entries[n];
      if latest.time == bucket {
        latest := latest.(high := MaxReal(latest.high, price), low := MinReal(latest.low, price), close := price,
                          volume := MaxReal(latest.volume + volume, 0.0), closed := false, source := Ws);
        entries := entries[n := latest];
        return [latest];
      }
      if latest.time < bucket {
        latest := latest.(closed := true, source := Ws);
        var nextEntry := Candle(bucket, price, price, price, price, volume, false, Ws);
        entries := Append(entries[n := latest], nextEntry, maxlen);
        return [latest, nextEntry];
      }
      var i := |entries|;
      while i > 0
        invariant 0 <= i <= |entries|
        invariant entries == old(entries) && emitted == []
        invariant forall j :: i <= j < |entries| ==> entries[j].time != bucket
      {
        i := i - 1;
        var existing := entries[i];
        if existing.time == bucket {
          existing := existing.(
            high := MaxReal(existing.high, price), low := MinReal(existing.low, price), close := price,
            volume := MaxReal(existing.volume + volume, 0.0), source := Ws);
          assert i == FindLast(entries, bucket);
          entries := entries[i := existing];
          return [existing];
        }
      }
    }

    /** `_resize_caches_locked`: a new bound, keeping the newest candles. */
    method Resize(newMaxlen: nat)
      requires newMaxlen >= 1
      modifies this
      ensures maxlen == newMaxlen && entries == LastN(old(entries), newMaxlen)
    {
      entries := if |entries| <= newMaxlen then entries else entries[|entries| - newMaxlen..];
      maxlen := newMaxlen;
    }
  }

  // ----- Reference: the arrival-order bar of a bucket over all of its ticks -----

  function InBucket(ts: seq<Tick>, bucket: int): seq<Tick> {
    if ts == [] then []
    else
      var t := ts[|ts| - 1];
      InBucket(ts[..|ts| - 1], bucket) + (if t.bucket == bucket then [t] else [])
  }

  function Highest(ts: seq<Tick>): real
    requires ts != []
  {
    if |ts| == 1 then ts[0].price else MaxReal(Highest(ts[..|ts| - 1]), ts[|ts| - 1].price)
  }

  function Lowest(ts: seq<Tick>): real
    requires ts != []
  {
    if |ts| == 1 then ts[0].price else MinReal(Lowest(ts[..|ts| - 1]), ts[|ts| - 1].price)
  }

  /** Traded size; a negative size counts as zero. */
  function Traded(ts: seq<Tick>): (v: real)
    ensures v >= 0.0
  {
    if ts == [] then 0.0 else Traded(ts[..|ts| - 1]) + MaxReal(ts[|ts| - 1].size, 0.0)
  }

  /** First, highest, lowest and last price and total size of some ticks. */
  function Bar(time: int, ts: seq<Tick>, closed: bool): Candle
    requires ts != []
  {
    Candle(time, ts[0].price, Highest(ts), Lowest(ts), ts[|ts| - 1].price, Traded(ts), closed, Ws)
  }

  /** Tick `i` falls in a bucket later than every bucket before it. */
  predicate SetsRecord(ts: seq<Tick>, i: nat)
    requires i < |ts|
  {
    forall j :: 0 <= j < i ==> ts[j].bucket < ts[i].bucket
  }

  /** The record buckets, in order. */
  function Records(ts: seq<Tick>): (r: seq<int>)
    ensures r == [] <==> ts == []
  {
    if ts == [] then []
    else
      var n := |ts| - 1;
      Records(ts[..n]) + (if SetsRecord(ts, n) then [ts[n].bucket] else [])
  }

  /** What a cache of `maxlen` candles should hold after `ts`: the bars of the
      last `maxlen` record buckets, all closed but the newest. */
  ghost predicate HoldsRecordBars(cache: seq<Candle>, maxlen: nat, ts: seq<Tick>) {
    var times := LastN(Records(ts), maxlen);
    && |cache| == |times|
    && forall i :: 0 <= i < |cache| ==> IsBar(cache[i], times[i], ts, i < |cache| - 1)
  }

  /** `c` is the bar of bucket `time` over `ts`. */
  ghost predicate IsBar(c: Candle, time: int, ts: seq<Tick>, closed: bool) {
    InBucket(ts, time) != [] && c == Bar(time, InBucket(ts, time), closed)
  }

  function NewestRecord(ts: seq<Tick>): int
    requires ts != []
  {
    Records(ts)[|Records(ts)| - 1]
  }

  predicate Ascending(times: seq<int>) {
    forall i, j :: 0 <= i < j < |times| ==> times[i] < times[j]
  }

  lemma {:induction false} NewestIsLatest(ts: seq<Tick>)
    requires ts != []
    ensures exists j :: 0 <= j < |ts| && ts[j].bucket == NewestRecord(ts)
    ensures forall j :: 0 <= j < |ts| ==> ts[j].bucket <= NewestRecord(ts)
  {
    var n := |ts| - 1;
    var before := ts[..n];
    assert forall j :: 0 <= j < n ==> before[j] == ts[j];
    if SetsRecord(ts, n) {
      assert ts[n].bucket == NewestRecord(ts);
    } else {
      NewestIsLatest(before);
      assert NewestRecord(ts) == NewestRecord(before);
      var j :| 0 <= j < n && before[j].bucket == NewestRecord(before);
      assert ts[j].bucket == NewestRecord(ts);
    }
  }

  lemma {:induction false} RecordsAscend(ts: seq<Tick>)
    ensures Ascending(Records(ts))
  {
    if ts == [] {
    } else {
      var n := |ts| - 1;
      RecordsAscend(ts[..n]);
      if SetsRecord(ts, n) && n > 0 {
        NewestIsLatest(ts[..n]);
        var j :| 0 <= j < n && ts[..n][j].bucket == NewestRecord(ts[..n]);
        assert ts[j].bucket < ts[n].bucket;
      }
    }
  }

  lemma {:induction false} RecordsTraded(ts: seq<Tick>, bucket: int)
    requires bucket in Records(ts)
    ensures InBucket(ts, bucket) != []
  {
    var n := |ts| - 1;
    if bucket in Records(ts[..n]) {
      RecordsTraded(ts[..n], bucket);
    }
  }

  lemma {:induction false} InBucketEmpty(ts: seq<Tick>, bucket: int)
    requires forall j :: 0 <= j < |ts| ==> ts[j].bucket != bucket
    ensures InBucket(ts, bucket) == []
  {
    if ts == [] {
    } else {
      InBucketEmpty(ts[..|ts| - 1], bucket);
    }
  }

  lemma BarAbsorbs(time: int, own: seq<Tick>, t: Tick, closed: bool)
    requires own != []
    ensures Bar(time, own + [t], closed) == Absorb(Bar(time, own, closed), t)
  {
    assert (own + [t])[..|own|] == own;
  }

  lemma BarOfOne(t: Tick)
    ensures Bar(t.bucket, [t], false) == Fresh(t)
  {
    assert [t][..|[t]| - 1] == [];
    assert Traded([t]) == Traded([]) + MaxReal(t.size, 0.0);
  }

  lemma TickTakesBucket(ts: seq<Tick>, t: Tick, bucket: int)
    ensures InBucket(ts + [t], bucket)
         == if t.bucket == bucket then InBucket(ts, bucket) + [t] else InBucket(ts, bucket)
  {
    assert (ts + [t])[..|ts|] == ts;
  }

  lemma RecordsTake(ts: seq<Tick>, t: Tick)
    ensures Records(ts + [t])
         == if ts == [] || t.bucket > NewestRecord(ts) then Records(ts) + [t.bucket] else Records(ts)
  {
    assert (ts + [t])[..|ts|] == ts;
    assert forall j :: 0 <= j < |ts| ==> (ts + [t])[j] == ts[j];
    if ts != [] {
      NewestIsLatest(ts);
      var j :| 0 <= j < |ts| && ts[j].bucket == NewestRecord(ts);
      if t.bucket <= NewestRecord(ts) {
        assert (ts + [t])[j].bucket >= t.bucket;
        assert !SetsRecord(ts + [t], |ts|);
      } else {
        assert SetsRecord(ts + [t], |ts|);
      }
    }
  }

  function Closing(cache: seq<Candle>): (r: seq<Candle>)
    ensures |r| == |cache|
    ensures forall i :: 0 <= i < |r| ==>
              r[i] == if i < |r| - 1 then cache[i] else cache[i].(closed := true, source := Ws)
  {
    var n := |cache| - 1;
    if cache == [] then [] else cache[n := cache[n].(closed := true, source := Ws)]
  }

  /** Opening a bucket closes the newest candle and may push out the oldest. */
  lemma OpeningShape(cache: seq<Candle>, maxlen: nat, t: Tick)
    requires 1 <= maxlen && |cache| <= maxlen
    requires cache != [] ==> cache[|cache| - 1].time < t.bucket
    ensures var r := Apply(cache, maxlen, t);
            var lost := if |cache| < maxlen then 0 else 1;
            && |r| == |cache| + 1 - lost && r[|r| - 1] == Fresh(t)
            && forall i :: 0 <= i < |r| - 1 ==>
                 r[i] == if i < |r| - 2 then cache[i + lost] else cache[i + lost].(closed := true, source := Ws)
  {
    hide Fresh;
    var closing := Closing(cache);
    assert Apply(cache, maxlen, t) == Append(closing, Fresh(t), maxlen);
    assert LastN(closing, maxlen) == closing;
    AppendShift(closing, Fresh(t), maxlen);
  }

  /** A tick of a bucket already seen changes at most the candle of that bucket. */
  lemma LateShape(cache: seq<Candle>, maxlen: nat, t: Tick)
    requires cache != [] && t.bucket <= cache[|cache| - 1].time
    requires forall i, j :: 0 <= i < j < |cache| ==> cache[i].time < cache[j].time
    requires !cache[|cache| - 1].closed
    ensures var r := Apply(cache, maxlen, t);
            && |r| == |cache|
            && forall i :: 0 <= i < |r| ==>
                 r[i] == if cache[i].time == t.bucket then Absorb(cache[i], t) else cache[i]
  {
  }

  lemma IsBarFields(c: Candle, time: int, ts: seq<Tick>, closed: bool)
    requires IsBar(c, time, ts, closed)
    ensures c.time == time && c.closed == closed
    ensures IsBar(c.(closed := true, source := Ws), time, ts, true)
  {
  }

  lemma OtherBucketKeepsBar(c: Candle, time: int, ts: seq<Tick>, closed: bool, t: Tick)
    requires IsBar(c, time, ts, closed) && t.bucket != time
    ensures IsBar(c, time, ts + [t], closed)
  {
    TickTakesBucket(ts, t, time);
  }

  lemma SameBucketExtendsBar(c: Candle, time: int, ts: seq<Tick>, closed: bool, t: Tick)
    requires IsBar(c, time, ts, closed) && t.bucket == time
    ensures IsBar(Absorb(c, t), time, ts + [t], closed)
  {
    TickTakesBucket(ts, t, time);
    BarAbsorbs(time, InBucket(ts, time), t, closed);
  }

  lemma FreshIsBar(ts: seq<Tick>, t: Tick)
    requires ts == [] || t.bucket > NewestRecord(ts)
    ensures IsBar(Fresh(t), t.bucket, ts + [t], false)
  {
    if ts != [] {
      NewestIsLatest(ts);
    }
    InBucketEmpty(ts, t.bucket);
    TickTakesBucket(ts, t, t.bucket);
    BarOfOne(t);
  }

  lemma RetainedBarCloses(c: Candle, time: int, ts: seq<Tick>, closed: bool, t: Tick)
    requires IsBar(c, time, ts, closed)
    requires ts == [] || t.bucket > NewestRecord(ts)
    ensures closed ==> IsBar(c, time, ts + [t], true)
    ensures IsBar(c.(closed := true, source := Ws), time, ts + [t], true)
  {
    hide NewestRecord;
    IsBarFields(c, time, ts, closed);
    if ts != [] {
      NewestIsLatest(ts);
    }
    if t.bucket == time {
      InBucketEmpty(ts, time);
      assert false;
    }
    OtherBucketKeepsBar(c.(closed := true, source := Ws), time, ts, true, t);
    if closed {
      OtherBucketKeepsBar(c, time, ts, true, t);
    }
  }

  /** A tick that opens a new record bucket. */
  lemma RecordStep(cache: seq<Candle>, maxlen: nat, ts: seq<Tick>, t: Tick)
    requires maxlen >= 1 && HoldsRecordBars(cache, maxlen, ts)
    requires ts == [] || t.bucket > NewestRecord(ts)
    ensures HoldsRecordBars(Apply(cache, maxlen, t), maxlen, ts + [t])
  {
    hide Apply, Records, IsBar, Fresh, LastN;
    RecordsTake(ts, t);
    var times, times' := LastN(Records(ts), maxlen), LastN(Records(ts + [t]), maxlen);
    AppendShift(Records(ts), t.bucket, maxlen);
    if cache != [] {
      IsBarFields(cache[|cache| - 1], times[|cache| - 1], ts, false);
      LastNEndsAlike(Records(ts), maxlen);
    }
    OpeningShape(cache, maxlen, t);
    var cache' := Apply(cache, maxlen, t);
    FreshIsBar(ts, t);
    assert cache'[|cache'| - 1] == Fresh(t) && times'[|cache'| - 1] == t.bucket;
    forall i | 0 <= i < |cache'| - 1
      ensures IsBar(cache'[i], times'[i], ts + [t], true)
    {
      var k := i + if |cache| < maxlen then 0 else 1;
      RetainedBarCloses(cache[k], times[k], ts, k < |cache| - 1, t);
      assert cache'[i] == cache[k] || cache'[i] == cache[k].(closed := true, source := Ws);
      assert times'[i] == times[k];
    }
  }

  /** A tick of the newest bucket or of an older one. */
  lemma LateStep(cache: seq<Candle>, maxlen: nat, ts: seq<Tick>, t: Tick)
    requires maxlen >= 1 && HoldsRecordBars(cache, maxlen, ts)
    requires ts != [] && t.bucket <= NewestRecord(ts)
    ensures HoldsRecordBars(Apply(cache, maxlen, t), maxlen, ts + [t])
  {
    hide Apply, Records, IsBar;
    RecordsAscend(ts);
    RecordsTake(ts, t);
    var times := LastN(Records(ts), maxlen);
    forall i | 0 <= i < |cache| ensures cache[i].time == times[i] && cache[i].closed == (i < |cache| - 1) {
      IsBarFields(cache[i], times[i], ts, i < |cache| - 1);
    }
    LateShape(cache, maxlen, t);
    var cache' := Apply(cache, maxlen, t);
    forall i | 0 <= i < |cache'|
      ensures IsBar(cache'[i], times[i], ts + [t], i < |cache'| - 1)
    {
      if times[i] == t.bucket {
        SameBucketExtendsBar(cache[i], times[i], ts, i < |cache'| - 1, t);
      } else {
        OtherBucketKeepsBar(cache[i], times[i], ts, i < |cache'| - 1, t);
      }
    }
  }

  lemma NothingHeld(maxlen: nat)
    ensures HoldsRecordBars([], maxlen, [])
  {
  }

  /** Main result: after any ticks, late ones included, the cache holds exactly
      the last `maxlen` record buckets, each with the arrival-order bar of all
      of its ticks; exactly the candles before the newest are closed. */
  lemma {:induction false} CacheIsRecordBars(ts: seq<Tick>, maxlen: nat)
    requires maxlen >= 1
    ensures HoldsRecordBars(Run([], maxlen, ts), maxlen, ts)
  {
    hide Apply, HoldsRecordBars;
    NothingHeld(maxlen);
    if ts == [] {
    } else {
      var n := |ts| - 1;
      var before, t := ts[..n], ts[n];
      CacheIsRecordBars(before, maxlen);
      assert ts == before + [t];
      if before == [] || t.bucket > NewestRecord(before) {
        RecordStep(Run([], maxlen, before), maxlen, before, t);
      } else {
        LateStep(Run([], maxlen, before), maxlen, before, t);
      }
    }
  }
}
