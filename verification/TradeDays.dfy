/** The fills of a day: which records the day's query returns, and in what order. */
module TradeDays {
  import opened Sequences
  import opened TradeFills

  /** Where a stable insertion puts an element. */
  lemma {:induction false} InsertedAt<T>(sorted: seq<T>, x: T, key: T -> int) returns (p: nat)
    requires forall i, j :: 0 <= i < j < |sorted| ==> key(sorted[i]) <= key(sorted[j])
    ensures p <= |sorted| && InsertBy(sorted, x, key) == sorted[..p] + [x] + sorted[p..]
    ensures forall i :: 0 <= i < p ==> key(sorted[i]) <= key(x)
    ensures forall i :: p <= i < |sorted| ==> key(sorted[i]) > key(x)
  {
    var n := |sorted| - 1;
    if sorted == [] || key(sorted[n]) <= key(x) {
      p := |sorted|;
    } else {
      p := InsertedAt(sorted[..n], x, key);
      assert sorted[p..] == sorted[..n][p..] + [sorted[n]];
      assert sorted[..n][..p] == sorted[..p];
    }
  }

  // ----- Positions -----

  function Times(table: seq<Record>): (ts: seq<int>)
    ensures |ts| == |table| && forall i :: 0 <= i < |ts| ==> ts[i] == table[i].tradeTime
  {
    seq(|table|, i requires 0 <= i < |table| => table[i].tradeTime)
  }

  predicate InRange(ix: seq<int>, n: nat) {
    forall k :: 0 <= k < |ix| ==> 0 <= ix[k] < n
  }

  /** The time lies in the day that starts at `dayStart`, given in seconds. */
  predicate OnDay(time: int, dayStart: int) {
    dayStart <= time < dayStart + 86_400
  }

  /** `ix` lists positions of the day only. */
  predicate OnlyDay(ts: seq<int>, dayStart: int, ix: seq<int>)
    requires InRange(ix, |ts|)
  {
    forall k :: 0 <= k < |ix| ==> OnDay(ts[ix[k]], dayStart)
  }

  /** `ix` lists every position of the day. */
  predicate AllDay(ts: seq<int>, dayStart: int, ix: seq<int>) {
    forall i :: 0 <= i < |ts| && OnDay(ts[i], dayStart) ==> i in ix
  }

  /** Earlier times first, and equal times by position; so none is listed twice. */
  predicate InOrder(ts: seq<int>, ix: seq<int>)
    requires InRange(ix, |ts|)
  {
    forall k, l :: 0 <= k < l < |ix| ==>
      ts[ix[k]] < ts[ix[l]] || (ts[ix[k]] == ts[ix[l]] && ix[k] < ix[l])
  }

  function Picked(table: seq<Record>, ix: seq<int>): (rs: seq<Record>)
    requires InRange(ix, |table|)
    ensures |rs| == |ix| && forall k :: 0 <= k < |ix| ==> rs[k] == table[ix[k]]
  {
    seq(|ix|, k requires 0 <= k < |ix| => table[ix[k]])
  }

  function Inserted(ix: seq<int>, p: nat, n: int): (r: seq<int>)
    requires p <= |ix|
    ensures |r| == |ix| + 1
    ensures forall k :: 0 <= k < |r| ==> r[k] == if k < p then ix[k] else if k == p then n else ix[k - 1]
  {
    ix[..p] + [n] + ix[p..]
  }

  lemma InsertedPicks(before: seq<Record>, last: Record, ix: seq<int>, p: nat)
    requires p <= |ix| && InRange(ix, |before|)
    ensures InRange(Inserted(ix, p, |before|), |before| + 1)
    ensures Picked(before + [last], Inserted(ix, p, |before|))
         == Picked(before, ix)[..p] + [last] + Picked(before, ix)[p..]
  {
  }

  lemma InsertedInOrder(ts: seq<int>, t: int, ix: seq<int>, p: nat)
    requires p <= |ix| && InRange(ix, |ts|) && InOrder(ts, ix)
    requires forall k :: 0 <= k < p ==> ts[ix[k]] <= t
    requires forall k :: p <= k < |ix| ==> ts[ix[k]] > t
    ensures InRange(Inserted(ix, p, |ts|), |ts| + 1) && InOrder(ts + [t], Inserted(ix, p, |ts|))
  {
  }

  lemma InsertedAll(ts: seq<int>, t: int, dayStart: int, ix: seq<int>, p: nat)
    requires p <= |ix| && AllDay(ts, dayStart, ix)
    ensures AllDay(ts + [t], dayStart, Inserted(ix, p, |ts|))
  {
    var r := Inserted(ix, p, |ts|);
    forall i | 0 <= i < |ts| + 1 && OnDay((ts + [t])[i], dayStart) ensures i in r {
      if i == |ts| {
        assert r[p] == i;
      } else {
        assert OnDay(ts[i], dayStart) && i in ix;
        var k :| 0 <= k < |ix| && ix[k] == i;
        assert r[if k < p then k else k + 1] == i;
      }
    }
  }

  lemma PickedInOrder(table: seq<Record>, ix: seq<int>)
    requires InRange(ix, |table|) && InOrder(Times(table), ix)
    ensures forall i, j :: 0 <= i < j < |ix| ==> TimeOf(Picked(table, ix)[i]) <= TimeOf(Picked(table, ix)[j])
  {
  }

  lemma OfDayTakes(before: seq<Record>, last: Record, dayStart: int)
    ensures OfDay(before + [last], dayStart)
         == if OnDay(last.tradeTime, dayStart) then OfDay(before, dayStart) + [last] else OfDay(before, dayStart)
  {
    assert (before + [last])[..|before|] == before;
  }

  lemma SortTakes(rs: seq<Record>, r: Record)
    ensures SortBy(rs + [r], TimeOf) == InsertBy(SortBy(rs, TimeOf), r, TimeOf)
  {
    assert (rs + [r])[..|rs|] == rs;
  }

  lemma {:induction false} SortedPositions(table: seq<Record>, dayStart: int) returns (ix: seq<int>)
    ensures InRange(ix, |table|) && OnlyDay(Times(table), dayStart, ix)
    ensures AllDay(Times(table), dayStart, ix) && InOrder(Times(table), ix)
    ensures SortBy(OfDay(table, dayStart), TimeOf) == Picked(table, ix)
  {
    hide SortBy, InsertBy, OfDay, AllDay, InOrder, OnDay;
    if table == [] {
      ix := [];
      NothingOnDay(dayStart);
    } else {
      var n := |table| - 1;
      var before, last := table[..n], table[n];
      var jx := SortedPositions(before, dayStart);
      assert table == before + [last] && Times(table) == Times(before) + [last.tradeTime];
      OfDayTakes(before, last, dayStart);
      if OnDay(last.tradeTime, dayStart) {
        PickedInOrder(before, jx);
        SortTakes(OfDay(before, dayStart), last);
        var p := InsertedAt(Picked(before, jx), last, TimeOf);
        ix := Inserted(jx, p, n);
        InsertedPicks(before, last, jx, p);
        InsertedInOrder(Times(before), last.tradeTime, jx, p);
        InsertedAll(Times(before), last.tradeTime, dayStart, jx, p);
      } else {
        ix := jx;
        OtherDay(Times(before), last.tradeTime, dayStart, jx);
        assert Picked(table, ix) == Picked(before, jx);
      }
    }
  }

  lemma NothingOnDay(dayStart: int)
    ensures SortBy(OfDay([], dayStart), TimeOf) == [] && AllDay([], dayStart, []) && InOrder([], [])
  {
  }

  lemma OtherDay(ts: seq<int>, t: int, dayStart: int, ix: seq<int>)
    requires InRange(ix, |ts|) && AllDay(ts, dayStart, ix) && InOrder(ts, ix) && !OnDay(t, dayStart)
    ensures AllDay(ts + [t], dayStart, ix) && InOrder(ts + [t], ix)
  {
    assert forall i :: 0 <= i < |ts| ==> (ts + [t])[i] == ts[i];
  }

  /** The day's fills are exactly the records traded from the start of the day to
      before the next, by time and then by position, each with its own fields. */
  lemma DayFillsExact(table: seq<Record>, dayStart: int) returns (ix: seq<int>)
    ensures InRange(ix, |table|) && OnlyDay(Times(table), dayStart, ix)
    ensures AllDay(Times(table), dayStart, ix) && InOrder(Times(table), ix)
    ensures |DayFills(table, dayStart)| == |ix|
    ensures forall k :: 0 <= k < |ix| ==>
              var f, r := DayFills(table, dayStart)[k], table[ix[k]];
              f.symbol == r.key.symbol && f.side == r.side && f.quantity == r.quantity && f.price == r.price
              && f.fee == r.fee && f.feeAsset == r.feeAsset
  {
    hide OfDay, SortBy, AllDay, InOrder, OnDay;
    ix := SortedPositions(table, dayStart);
  }
}
