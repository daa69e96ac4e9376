/** Candles of one symbol at several nested intervals, fed by the same trades. */
module CandleIntervals {
  import opened Candles

  datatype TradeTick = TradeTick(tsMs: int, price: real, size: real)

  /** The live intervals in seconds: 1m, 5m, 15m and 1h. */
  const LIVE_INTERVALS: seq<Seconds> := [60, 300, 900, 3600]

  function TickAt(trade: TradeTick, seconds: Seconds): Tick {
    Tick(BucketStart(trade.tsMs, seconds), trade.price, trade.size)
  }

  function Ticks(trades: seq<TradeTick>, seconds: Seconds): (ts: seq<Tick>)
    ensures |ts| == |trades|
    ensures forall i :: 0 <= i < |trades| ==> ts[i] == TickAt(trades[i], seconds)
  {
    seq(|trades|, i requires 0 <= i < |trades| => TickAt(trades[i], seconds))
  }

  // ----- The caches of one symbol -----

  /** The caches a symbol owns, one object per interval. */
  class CandleBook {
    var caches: map<Seconds, CandleCache>
    var cacheSize: nat

    ghost predicate Valid()
      reads this, caches.Values
    {
      && cacheSize >= 1
      && (forall s :: s in caches ==> caches[s].maxlen == cacheSize)
      && (forall s, t :: s in caches && t in caches && s != t ==> caches[s] != caches[t])
    }

    /** The candles held for each interval that has seen a trade. */
    function View(): map<Seconds, seq<Candle>>
      reads this, caches.Values
    {
      map s | s in caches :: caches[s].entries
    }

    constructor (cacheSize: nat)
      requires cacheSize >= 1
      ensures Valid() && View() == map[] && this.cacheSize == cacheSize
    {
      caches := map[];
      this.cacheSize := cacheSize;
    }

    /** `_apply_trade_tick`: one trade reaches every live interval, or none
        when the symbol has no subscriber. */
    method ApplyTradeTick(trade: TradeTick, hasSubscribers: bool) returns (emitted: seq<(Seconds, Candle)>)
      requires Valid()
      modifies this, caches.Values
      ensures Valid() && cacheSize == old(cacheSize) && fresh(caches.Values - old(caches.Values))
      ensures hasSubscribers ==> View() == Fed(old(View()), cacheSize, trade, LIVE_INTERVALS)
      ensures hasSubscribers ==> emitted == EmittedOver(old(View()), cacheSize, trade, LIVE_INTERVALS)
      ensures !hasSubscribers ==> View() == old(View()) && emitted == []
    {
      hide View, Apply, Emitted, TickAt, At;
      emitted := [];
      if !hasSubscribers {
        return;
      }
      for k := 0 to |LIVE_INTERVALS|
        invariant Valid() && cacheSize == old(cacheSize) && fresh(caches.Values - old(caches.Values))
        invariant View() == Fed(old(View()), cacheSize, trade, LIVE_INTERVALS[..k])
        invariant emitted == EmittedOver(old(View()), cacheSize, trade, LIVE_INTERVALS[..k])
      {
        var seconds := LIVE_INTERVALS[k];
        assert LIVE_INTERVALS[..k + 1][..k] == LIVE_INTERVALS[..k];
        FedElsewhere(old(View()), cacheSize, trade, LIVE_INTERVALS[..k], seconds);
        var rollover := ApplyTradeAt(trade, seconds);
        emitted := emitted + Tag(seconds, rollover);
      }
      assert LIVE_INTERVALS[..|LIVE_INTERVALS|] == LIVE_INTERVALS;
    }

    /** One interval's share of the loop, creating its cache on first use. */
    method ApplyTradeAt(trade: TradeTick, seconds: Seconds) returns (rollover: seq<Candle>)
      requires Valid()
      modifies this`caches, caches.Values
      ensures Valid() && fresh(caches.Values - old(caches.Values))
      ensures View() == old(View())[seconds := Apply(At(old(View()), seconds), cacheSize, TickAt(trade, seconds))]
      ensures rollover == Emitted(At(old(View()), seconds), cacheSize, TickAt(trade, seconds))
    {
      hide Apply, Emitted;
      if seconds !in caches {
        var cache := new CandleCache(cacheSize);
        caches := caches[seconds := cache];
      }
      rollover := caches[seconds].ApplyTrade(BucketStart(trade.tsMs, seconds), trade.price, trade.size);
    }
  }

  /** The candles held for one interval; none before its first trade. */
  function At(view: map<Seconds, seq<Candle>>, seconds: Seconds): seq<Candle> {
    if seconds in view then view[seconds] else []
  }

  /** Every listed interval fed the same trade. */
  function Fed(view: map<Seconds, seq<Candle>>, maxlen: nat, trade: TradeTick, intervals: seq<Seconds>)
    : map<Seconds, seq<Candle>>
  {
    if intervals == [] then view
    else
      var s := intervals[|intervals| - 1];
      Fed(view, maxlen, trade, intervals[..|intervals| - 1])[s := Apply(At(view, s), maxlen, TickAt(trade, s))]
  }

  /** The candles published for one trade, interval by interval. */
  function EmittedOver(view: map<Seconds, seq<Candle>>, maxlen: nat, trade: TradeTick, intervals: seq<Seconds>)
    : seq<(Seconds, Candle)>
  {
    if intervals == [] then []
    else
      var s := intervals[|intervals| - 1];
      EmittedOver(view, maxlen, trade, intervals[..|intervals| - 1])
      + Tag(s, Emitted(At(view, s), maxlen, TickAt(trade, s)))
  }

  /** Feeding touches the listed intervals and no others. */
  lemma {:induction false} FedElsewhere(
    view: map<Seconds, seq<Candle>>, maxlen: nat, trade: TradeTick, intervals: seq<Seconds>, seconds: Seconds)
    requires forall i, j :: 0 <= i < j < |intervals| ==> intervals[i] != intervals[j]
    ensures var fed := Fed(view, maxlen, trade, intervals);
            At(fed, seconds) == if seconds in intervals then Apply(At(view, seconds), maxlen, TickAt(trade, seconds))
                                else At(view, seconds)
  {
    hide Apply, TickAt;
    if intervals == [] {
    } else {
      var n := |intervals| - 1;
      assert intervals == intervals[..n] + [intervals[n]];
      FedElsewhere(view, maxlen, trade, intervals[..n], seconds);
    }
  }

  /** After any trades of a subscribed symbol, the cache of each live interval
      is the single-interval cache of that interval's ticks. */
  lemma {:induction false} EachIntervalRunsAlone(maxlen: nat, trades: seq<TradeTick>, seconds: Seconds)
    requires seconds in LIVE_INTERVALS
    ensures At(FedAll(maxlen, trades), seconds) == Run([], maxlen, Ticks(trades, seconds))
  {
    hide Apply, BucketStart;
    if trades == [] {
    } else {
      var n := |trades| - 1;
      EachIntervalRunsAlone(maxlen, trades[..n], seconds);
      FedElsewhere(FedAll(maxlen, trades[..n]), maxlen, trades[n], LIVE_INTERVALS, seconds);
      assert Ticks(trades, seconds)[..n] == Ticks(trades[..n], seconds);
    }
  }

  function FedAll(maxlen: nat, trades: seq<TradeTick>): map<Seconds, seq<Candle>> {
    if trades == [] then map[]
    else Fed(FedAll(maxlen, trades[..|trades| - 1]), maxlen, trades[|trades| - 1], LIVE_INTERVALS)
  }

  function Tag(seconds: Seconds, cs: seq<Candle>): (r: seq<(Seconds, Candle)>)
    ensures |r| == |cs| && forall i :: 0 <= i < |cs| ==> r[i] == (seconds, cs[i])
  {
    seq(|cs|, i requires 0 <= i < |cs| => (seconds, cs[i]))
  }

  /** The candles published for one interval. */
  function OfInterval(published: seq<(Seconds, Candle)>, seconds: Seconds): seq<Candle> {
    if published == [] then []
    else
      var n := |published| - 1;
      OfInterval(published[..n], seconds) + (if published[n].0 == seconds then [published[n].1] else [])
  }

  lemma {:induction false} OfIntervalAppend(a: seq<(Seconds, Candle)>, b: seq<(Seconds, Candle)>, seconds: Seconds)
    ensures OfInterval(a + b, seconds) == OfInterval(a, seconds) + OfInterval(b, seconds)
  {
    if b == [] {
      assert a + b == a;
    } else {
      var n := |b| - 1;
      assert (a + b)[..|a| + n] == a + b[..n];
      OfIntervalAppend(a, b[..n], seconds);
    }
  }

  lemma {:induction false} OfIntervalTag(tag: Seconds, cs: seq<Candle>, seconds: Seconds)
    ensures OfInterval(Tag(tag, cs), seconds) == if tag == seconds then cs else []
  {
    if cs == [] {
      assert Tag(tag, cs) == [];
    } else {
      var n := |cs| - 1;
      assert Tag(tag, cs)[..n] == Tag(tag, cs[..n]);
      OfIntervalTag(tag, cs[..n], seconds);
      assert cs == cs[..n] + [cs[n]];
    }
  }

  /** Each interval's subscribers are sent exactly what its own cache emits. */
  lemma {:induction false} EmittedTo(
    view: map<Seconds, seq<Candle>>, maxlen: nat, trade: TradeTick, intervals: seq<Seconds>, seconds: Seconds)
    requires forall i, j :: 0 <= i < j < |intervals| ==> intervals[i] != intervals[j]
    ensures OfInterval(EmittedOver(view, maxlen, trade, intervals), seconds)
         == if seconds in intervals then Emitted(At(view, seconds), maxlen, TickAt(trade, seconds)) else []
  {
    hide Emitted, TickAt, OfInterval, Tag;
    if intervals == [] {
      OfIntervalTag(seconds, [], seconds);
      assert Tag(seconds, []) == [];
    } else {
      var n := |intervals| - 1;
      var s := intervals[n];
      assert intervals == intervals[..n] + [s];
      EmittedTo(view, maxlen, trade, intervals[..n], seconds);
      OfIntervalAppend(EmittedOver(view, maxlen, trade, intervals[..n]),
                       Tag(s, Emitted(At(view, s), maxlen, TickAt(trade, s))), seconds);
      OfIntervalTag(s, Emitted(At(view, s), maxlen, TickAt(trade, s)), seconds);
    }
  }
}
