/** Candles in terms of the clock: the interval a candle's time names is the one
    its trades were made in. */
module CandleClock {
  import opened Numbers
  import opened Candles
  import opened CandleIntervals
  import opened CandleNesting

  /** The time of a trade lies in the interval of `seconds` from `start`.  Times
      before the epoch count as the epoch. */
  predicate Within(timestampMs: int, start: int, seconds: Seconds) {
    start * 1000 <= (if timestampMs >= 0 then timestampMs else 0) < (start + seconds) * 1000
  }

  /** A bucket starts on a multiple of its length and holds its timestamp. */
  lemma BucketHoldsItsTime(timestampMs: int, seconds: Seconds)
    ensures var b := BucketStart(timestampMs, seconds);
      && b % seconds == 0 && b >= 0
      && (timestampMs >= 0 ==> b * 1000 <= timestampMs < (b + seconds) * 1000)
      && (timestampMs < 0 ==> b == 0)
  {
    var s := if timestampMs / 1000 >= 0 then timestampMs / 1000 else 0;
    FloorBounds(s, seconds);
    FloorMultiple(s / seconds, seconds);
  }

  lemma FloorMultiple(q: int, d: int)
    requires d > 0
    ensures q * d % d == 0
  {
    FloorUnique(q * d, d, q);
  }

  /** Within a bucket's interval is within the bucket. */
  lemma WithinIsBucket(timestampMs: int, otherMs: int, seconds: Seconds)
    ensures BucketStart(otherMs, seconds) == BucketStart(timestampMs, seconds)
            <==> Within(otherMs, BucketStart(timestampMs, seconds), seconds)
  {
    hide BucketStart;
    BucketHoldsItsTime(timestampMs, seconds);
    BucketHoldsItsTime(otherMs, seconds);
    var b, c := BucketStart(timestampMs, seconds), BucketStart(otherMs, seconds);
    if Within(otherMs, b, seconds) {
      SameMultiple(b, c, seconds);
    }
  }

  lemma SameMultiple(b: int, c: int, d: int)
    requires d > 0 && b % d == 0 && c % d == 0 && b < c + d && c < b + d
    ensures b == c
  {
    var p, q := b / d, c / d;
    assert b == p * d && c == q * d;
    if p < q {
      NextMultiple(p, q, d);
    } else if q < p {
      NextMultiple(q, p, d);
    }
  }

  /** Size traded in an interval; negative sizes count as none. */
  function VolumeIn(trades: seq<TradeTick>, start: int, seconds: Seconds): real {
    if trades == [] then 0.0
    else
      var t := trades[|trades| - 1];
      VolumeIn(trades[..|trades| - 1], start, seconds)
      + (if Within(t.tsMs, start, seconds) && t.size > 0.0 then t.size else 0.0)
  }

  lemma {:induction false} VolumeIsTraded(trades: seq<TradeTick>, timestampMs: int, seconds: Seconds)
    ensures var b := BucketStart(timestampMs, seconds);
            VolumeIn(trades, b, seconds) == TradedIn(trades, seconds, b)
  {
    hide BucketStart, Within, TradedIn;
    var b := BucketStart(timestampMs, seconds);
    if trades == [] {
      TradedNothing(seconds, b);
    } else {
      var n := |trades| - 1;
      assert trades == trades[..n] + [trades[n]];
      VolumeIsTraded(trades[..n], timestampMs, seconds);
      TradedTakes(trades[..n], trades[n], seconds, b);
      WithinIsBucket(timestampMs, trades[n].tsMs, seconds);
    }
  }

  /** Main result: after any trades, late ones included, every cached candle of a
      live interval starts on a multiple of the interval, opens and closes at the
      prices of the first and the last trade to arrive of those made within it,
      reaches exactly from the lowest to the highest of their prices, and holds
      their volume. */
  lemma CandleIsItsInterval(trades: seq<TradeTick>, seconds: Seconds, maxlen: Seconds, i: nat)
    returns (first: nat, last: nat, lo: nat, hi: nat)
    requires seconds in [60, 300, 900, 3600]
    requires i < |At(FedAll(maxlen, trades), seconds)|
    ensures first < |trades| && last < |trades| && lo < |trades| && hi < |trades|
    ensures var c := At(FedAll(maxlen, trades), seconds)[i];
      && c.time % seconds == 0
      && Within(trades[first].tsMs, c.time, seconds) && c.open == trades[first].price
      && Within(trades[last].tsMs, c.time, seconds) && c.close == trades[last].price
      && Within(trades[lo].tsMs, c.time, seconds) && c.low == trades[lo].price
      && Within(trades[hi].tsMs, c.time, seconds) && c.high == trades[hi].price
      && (forall k :: 0 <= k < |trades| && Within(trades[k].tsMs, c.time, seconds) ==>
            first <= k <= last && c.low <= trades[k].price <= c.high)
      && c.volume == VolumeIn(trades, c.time, seconds)
  {
    hide Run, BucketStart, InBucket, TradedIn, Within, FedAll, VolumeIn, Lowest, Highest, Traded;
    EachIntervalRunsAlone(maxlen, trades, seconds);
    var ts := Ticks(trades, seconds);
    CandleOfTrades(trades, seconds, maxlen, i);
    var c := At(FedAll(maxlen, trades), seconds)[i];
    first, last := EndsByIndex(ts, c.time);
    lo, hi := ExtremesAttained(ts, c.time);
    BucketByIndex(ts, c.time);
    var timestampMs := trades[first].tsMs;
    assert c.time == BucketStart(timestampMs, seconds);
    BucketHoldsItsTime(timestampMs, seconds);
    VolumeIsTraded(trades, timestampMs, seconds);
    forall k | 0 <= k < |trades| ensures Within(trades[k].tsMs, c.time, seconds) <==> ts[k].bucket == c.time {
      WithinIsBucket(timestampMs, trades[k].tsMs, seconds);
    }
  }
}
