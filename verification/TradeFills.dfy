/** Persisted trade fills of one account: a keyed upsert that repeated syncs
    may run over the same rows again, feeding the daily realized loss. */
module TradeFills {
  import opened Sequences
  import opened Text
  import opened RealizedLoss

  /** A synced row; `tradeTime` is `None` when it cannot be parsed. */
  datatype SyncRow = SyncRow(
    symbol: string, tradeId: string, orderId: string, side: string,
    price: real, quantity: real, fee: real, feeAsset: string, isMaker: bool, tradeTime: Option<int>)

  datatype Key = Key(symbol: string, tradeId: string)

  datatype Record = Record(
    key: Key, orderId: string, side: string,
    price: real, quantity: real, fee: real, feeAsset: string, isMaker: bool, tradeTime: int)

  function KeyOf(row: SyncRow): Key {
    Key(Upper(row.symbol), row.tradeId)
  }

  /** Rows without a symbol or a trade id are skipped. */
  predicate Usable(row: SyncRow) {
    row.symbol != "" && row.tradeId != ""
  }

  function Or(a: string, b: string): string {
    if a != "" then a else b
  }

  /** The row written over a record with this order id and side. */
  function Written(row: SyncRow, orderId: string, side: string, now: int): Record {
    Record(KeyOf(row), Or(row.orderId, orderId), Or(Upper(row.side), side),
           row.price, row.quantity, row.fee, Upper(row.feeAsset), row.isMaker,
           if row.tradeTime.Some? then row.tradeTime.value else now)
  }

  /** Position of the record of a key, or the table's length. */
  function Find(table: seq<Record>, key: Key): (i: nat)
    ensures i <= |table|
    ensures i < |table| ==> table[i].key == key
    ensures i == |table| ==> forall j :: 0 <= j < |table| ==> table[j].key != key
  {
    if table == [] then 0
    else
      var n := |table| - 1;
      if table[n].key == key then n
      else
        var i := Find(table[..n], key);
        assert forall j :: 0 <= j < n ==> table[..n][j] == table[j];
        if i == n then |table| else i
  }

  /** The table, in id order, after one row. */
  function Upsert(table: seq<Record>, row: SyncRow, now: int): seq<Record> {
    if !Usable(row) then table
    else
      var i := Find(table, KeyOf(row));
      if i < |table| then table[i := Written(row, table[i].orderId, table[i].side, now)]
      else table + [Written(row, row.orderId, row.side, now)]
  }

  function UpsertAll(table: seq<Record>, rows: seq<SyncRow>, now: int): seq<Record> {
    if rows == [] then table else Upsert(UpsertAll(table, rows[..|rows| - 1], now), rows[|rows| - 1], now)
  }

  ghost predicate UniqueKeys(table: seq<Record>) {
    forall i, j :: 0 <= i < j < |table| ==> table[i].key != table[j].key
  }

  /** How many rows name a symbol and a trade. */
  function CountUsable(rows: seq<SyncRow>): nat {
    if rows == [] then 0
    else
      var last := rows[|rows| - 1];
      CountUsable(rows[..|rows| - 1]) + (if last.symbol != "" && last.tradeId != "" then 1 else 0)
  }

  /** `existing` answers where each key's record is. */
  ghost predicate Maps(existing: map<Key, nat>, table: seq<Record>) {
    && (forall k :: k in existing ==> existing[k] < |table| && table[existing[k]].key == k)
    && (forall i :: 0 <= i < |table| ==> table[i].key in existing)
  }

  class TradeFillStore {
    var table: seq<Record>

    ghost predicate Valid()
      reads this
    {
      UniqueKeys(table)
    }

    constructor ()
      ensures Valid() && table == []
    {
      table := [];
    }

    /** `upsert_fills`; returns how many rows were written. */
    method UpsertFills(rows: seq<SyncRow>, now: int) returns (count: nat)
      requires Valid()
      modifies this
      ensures Valid()
      ensures table == UpsertAll(old(table), rows, now) && count == CountUsable(rows)
    {
      hide Written, KeyOf, UniqueKeys, Find, Maps;
      var existing: map<Key, nat> := Index();
      count := 0;
      for i := 0 to |rows|
        invariant Valid() && Maps(existing, table)
        invariant table == UpsertAll(old(table), rows[..i], now) && count == CountUsable(rows[..i])
      {
        assert rows[..i + 1][..i] == rows[..i];
        var row := rows[i];
        if !Usable(row) {
          continue;
        }
        var key := KeyOf(row);
        WrittenKey(row, now);
        UpsertKeepsUnique(table, row, now);
        MapsFind(existing, table, key);
        MapsAfter(existing, table);
        if key in existing {
          var at := existing[key];
          table := table[at := Written(row, table[at].orderId, table[at].side, now)];
        } else {
          table := table + [Written(row, row.orderId, row.side, now)];
          existing := existing[key := |table| - 1];
        }
        count := count + 1;
      }
      assert rows[..|rows|] == rows;
    }

    method Index() returns (existing: map<Key, nat>)
      ensures Maps(existing, table)
    {
      existing := map[];
      for i := 0 to |table|
        invariant forall k :: k in existing ==> existing[k] < i && table[existing[k]].key == k
        invariant forall j :: 0 <= j < i ==> table[j].key in existing
      {
        existing := existing[table[i].key := i];
      }
    }
  }

  lemma MapsFind(existing: map<Key, nat>, table: seq<Record>, key: Key)
    requires UniqueKeys(table) && Maps(existing, table)
    ensures Find(table, key) == if key in existing then existing[key] else |table|
  {
  }

  /** Overwriting a record under its key keeps the index; a new key's record
      is entered at the end. */
  lemma MapsAfter(existing: map<Key, nat>, table: seq<Record>)
    requires Maps(existing, table)
    ensures forall r: Record :: r.key in existing ==>
              existing[r.key] < |table| && Maps(existing, table[existing[r.key] := r])
    ensures forall r: Record :: r.key !in existing ==>
              Maps(existing[r.key := |table|], table + [r])
  {
  }

  lemma WrittenKey(row: SyncRow, now: int)
    ensures forall o, s :: Written(row, o, s, now).key == KeyOf(row)
  {
  }

  // ----- Repeated rows -----

  /** Rows of one key are the same row, and their times can be parsed. */
  ghost predicate Consistent(rows: seq<SyncRow>) {
    && (forall r :: r in rows ==> r.tradeTime.Some?)
    && (forall r, q :: r in rows && q in rows && KeyOf(r) == KeyOf(q) ==> r == q)
  }

  /** Each row the first time it is seen. */
  function FirstSeen(rows: seq<SyncRow>): seq<SyncRow> {
    if rows == [] then []
    else
      var n := |rows| - 1;
      if rows[n] in rows[..n] then FirstSeen(rows[..n]) else FirstSeen(rows[..n]) + [rows[n]]
  }

  /** The table already says what the row says. */
  predicate Holds(table: seq<Record>, row: SyncRow) {
    Usable(row) ==>
      var i := Find(table, KeyOf(row));
      i < |table| && table[i] == Written(row, table[i].orderId, table[i].side, 0)
  }

  lemma FindAfterUpdate(table: seq<Record>, i: nat, r: Record, key: Key)
    requires UniqueKeys(table) && i < |table| && table[i].key == r.key
    ensures Find(table[i := r], key) == Find(table, key)
  {
    var u := table[i := r];
    var a, b := Find(table, key), Find(u, key);
    assert forall j :: 0 <= j < |table| ==> u[j].key == table[j].key;
  }

  lemma FindAfterAppend(table: seq<Record>, r: Record, key: Key)
    requires UniqueKeys(table)
    ensures Find(table + [r], key)
         == if r.key == key then |table|
            else if Find(table, key) < |table| then Find(table, key) else |table| + 1
  {
    assert (table + [r])[..|table|] == table;
  }

  lemma UpsertKeepsUnique(table: seq<Record>, row: SyncRow, now: int)
    requires UniqueKeys(table)
    ensures UniqueKeys(Upsert(table, row, now))
  {
    hide KeyOf;
  }

  lemma WrittenStable(row: SyncRow, orderId: string, side: string, now: int)
    requires row.tradeTime.Some?
    ensures var r := Written(row, orderId, side, now);
            r == Written(row, r.orderId, r.side, 0) && r.key == KeyOf(row)
  {
    assert Upper(row.side) != "" ==> Or(Upper(row.side), side) == Upper(row.side);
  }

  /** A row just written is held. */
  lemma UpsertHolds(table: seq<Record>, row: SyncRow, now: int)
    requires UniqueKeys(table) && row.tradeTime.Some?
    ensures Holds(Upsert(table, row, now), row)
  {
    if Usable(row) {
      var i := Find(table, KeyOf(row));
      if i < |table| {
        WrittenStable(row, table[i].orderId, table[i].side, now);
        FindAfterUpdate(table, i, Written(row, table[i].orderId, table[i].side, now), KeyOf(row));
      } else {
        WrittenStable(row, row.orderId, row.side, now);
        FindAfterAppend(table, Written(row, row.orderId, row.side, now), KeyOf(row));
      }
    }
  }

  /** Writing a held row again changes nothing. */
  lemma HeldRowChangesNothing(table: seq<Record>, row: SyncRow, now: int)
    requires row.tradeTime.Some? && Holds(table, row)
    ensures Upsert(table, row, now) == table
  {
    if Usable(row) {
      var i := Find(table, KeyOf(row));
      assert Written(row, table[i].orderId, table[i].side, now) == Written(row, table[i].orderId, table[i].side, 0);
    }
  }

  /** Writing another key's row keeps a held row. */
  lemma OtherRowKeepsHeld(table: seq<Record>, row: SyncRow, other: SyncRow, now: int)
    requires UniqueKeys(table) && Holds(table, row) && KeyOf(other) != KeyOf(row)
    ensures Holds(Upsert(table, other, now), row)
  {
    hide KeyOf;
    WrittenKey(other, now);
    if Usable(row) && Usable(other) {
      var i := Find(table, KeyOf(other));
      if i < |table| {
        FindAfterUpdate(table, i, Written(other, table[i].orderId, table[i].side, now), KeyOf(row));
      } else {
        FindAfterAppend(table, Written(other, other.orderId, other.side, now), KeyOf(row));
      }
    }
  }

  lemma {:induction false} AllHeld(table: seq<Record>, rows: seq<SyncRow>, now: int)
    requires UniqueKeys(table) && Consistent(rows)
    ensures UniqueKeys(UpsertAll(table, rows, now))
    ensures forall r :: r in rows ==> Holds(UpsertAll(table, rows, now), r)
  {
    hide Upsert, Holds, KeyOf;
    if rows == [] {
    } else {
      var n := |rows| - 1;
      var before, last := UpsertAll(table, rows[..n], now), rows[n];
      assert rows == rows[..n] + [last];
      AllHeld(table, rows[..n], now);
      UpsertKeepsUnique(before, last, now);
      UpsertHolds(before, last, now);
      forall r | r in rows[..n] && r != last ensures Holds(Upsert(before, last, now), r) {
        OtherRowKeepsHeld(before, r, last, now);
      }
    }
  }

  lemma {:induction false} FirstSeenRows(rows: seq<SyncRow>)
    ensures forall r :: r in FirstSeen(rows) <==> r in rows
  {
    if rows == [] {
    } else {
      var n := |rows| - 1;
      assert rows == rows[..n] + [rows[n]];
      FirstSeenRows(rows[..n]);
    }
  }

  /** Repeating rows changes nothing: a batch gives the table of its distinct
      rows, each taken once where it was first seen. */
  lemma {:induction false} RepeatsChangeNothing(table: seq<Record>, rows: seq<SyncRow>, now: int)
    requires UniqueKeys(table) && Consistent(rows)
    ensures UpsertAll(table, rows, now) == UpsertAll(table, FirstSeen(rows), now)
  {
    hide Upsert, KeyOf;
    if rows == [] {
    } else {
      var n := |rows| - 1;
      assert rows == rows[..n] + [rows[n]];
      RepeatsChangeNothing(table, rows[..n], now);
      if rows[n] in rows[..n] {
        AllHeld(table, rows[..n], now);
        HeldRowChangesNothing(UpsertAll(table, rows[..n], now), rows[n], now);
      } else {
        assert (FirstSeen(rows[..n]) + [rows[n]])[..|FirstSeen(rows[..n])|] == FirstSeen(rows[..n]);
      }
    }
  }

  /** Parsed times leave no trace of when the sync ran. */
  lemma {:induction false} ClockDoesNotMatter(table: seq<Record>, rows: seq<SyncRow>, now: int, later: int)
    requires forall r :: r in rows ==> r.tradeTime.Some?
    ensures UpsertAll(table, rows, now) == UpsertAll(table, rows, later)
  {
    hide KeyOf;
    if rows == [] {
    } else {
      assert rows == rows[..|rows| - 1] + [rows[|rows| - 1]];
      ClockDoesNotMatter(table, rows[..|rows| - 1], now, later);
    }
  }

  lemma {:induction false} UpsertInTwo(table: seq<Record>, a: seq<SyncRow>, b: seq<SyncRow>, now: int)
    ensures UpsertAll(table, a + b, now) == UpsertAll(UpsertAll(table, a, now), b, now)
  {
    hide Upsert;
    if b == [] {
      assert a + b == a;
    } else {
      var n := |b| - 1;
      assert (a + b)[..|a| + n] == a + b[..n];
      UpsertInTwo(table, a, b[..n], now);
    }
  }

  // ----- Corrected rows -----

  /** The row is about the trade `key` names. */
  predicate Names(row: SyncRow, key: Key) {
    row.symbol != "" && row.tradeId != "" && Upper(row.symbol) == key.symbol && row.tradeId == key.tradeId
  }

  /** The last usable row of a key. */
  function LastOf(rows: seq<SyncRow>, key: Key): Option<SyncRow> {
    if rows == [] then None
    else
      var last := rows[|rows| - 1];
      if Names(last, key) then Some(last) else LastOf(rows[..|rows| - 1], key)
  }

  /** The last non-empty order id its usable rows give a key, else `known`. */
  function LastOrderId(rows: seq<SyncRow>, key: Key, known: string): string {
    if rows == [] then known
    else
      var last := rows[|rows| - 1];
      if Names(last, key) && last.orderId != "" then last.orderId
      else LastOrderId(rows[..|rows| - 1], key, known)
  }

  /** Likewise for the side, in capitals. */
  function LastSide(rows: seq<SyncRow>, key: Key, known: string): string {
    if rows == [] then known
    else
      var last := rows[|rows| - 1];
      if Names(last, key) && last.side != "" then Upper(last.side)
      else LastSide(rows[..|rows| - 1], key, known)
  }

  function Stored(table: seq<Record>, key: Key): Option<Record> {
    var i := Find(table, key);
    if i < |table| then Some(table[i]) else None
  }

  /** One row replaces its own key's record and leaves the others. */
  lemma UpsertStored(table: seq<Record>, row: SyncRow, now: int, key: Key)
    requires UniqueKeys(table)
    ensures Stored(Upsert(table, row, now), key)
         == if Usable(row) && KeyOf(row) == key then
              Some(match Stored(table, key)
                   case Some(r) => Written(row, r.orderId, r.side, now)
                   case None => Written(row, row.orderId, row.side, now))
            else Stored(table, key)
  {
    hide KeyOf;
    WrittenKey(row, now);
    if Usable(row) {
      var i := Find(table, KeyOf(row));
      if i < |table| {
        FindAfterUpdate(table, i, Written(row, table[i].orderId, table[i].side, now), key);
      } else {
        FindAfterAppend(table, Written(row, row.orderId, row.side, now), key);
      }
    }
  }

  lemma {:induction false} AllUnique(table: seq<Record>, rows: seq<SyncRow>, now: int)
    requires UniqueKeys(table)
    ensures UniqueKeys(UpsertAll(table, rows, now))
  {
    if rows == [] {
      assert UpsertAll(table, rows, now) == table;
    } else {
      AllUnique(table, rows[..|rows| - 1], now);
      UpsertKeepsUnique(UpsertAll(table, rows[..|rows| - 1], now), rows[|rows| - 1], now);
    }
  }

  /** Main result on corrections: after any batch, repeated and contradicting
      rows included, a key holds its last usable row, with the last order id and
      side that were not empty; keys without one are as they were. */
  lemma {:induction false} LastRowWins(table: seq<Record>, rows: seq<SyncRow>, now: int, key: Key)
    requires UniqueKeys(table)
    ensures var before, after, last := Stored(table, key), Stored(UpsertAll(table, rows, now), key), LastOf(rows, key);
      if last.None? then after == before
      else
        var orderId := LastOrderId(rows, key, if before.Some? then before.value.orderId else "");
        var side := LastSide(rows, key, if before.Some? then before.value.side else "");
        && after.Some? && after.value.key == key
        && after.value.orderId == orderId && after.value.side == side
        && after.value.price == last.value.price && after.value.quantity == last.value.quantity
        && after.value.fee == last.value.fee && after.value.feeAsset == Upper(last.value.feeAsset)
        && after.value.isMaker == last.value.isMaker
        && after.value.tradeTime == if last.value.tradeTime.Some? then last.value.tradeTime.value else now
  {
    hide Upsert, KeyOf, Stored, UniqueKeys, Usable, Upper, Names;
    if rows == [] {
      assert UpsertAll(table, rows, now) == table;
    } else {
      var n := |rows| - 1;
      NamesIsKey(rows[n], key);
      LastRowWins(table, rows[..n], now, key);
      AllUnique(table, rows[..n], now);
      UpsertStored(UpsertAll(table, rows[..n], now), rows[n], now, key);
      NoRowNoChange(rows[..n], key);
    }
  }

  /** Records stay where they are, and new ones come after them. */
  lemma {:induction false} PlacesStay(table: seq<Record>, rows: seq<SyncRow>, now: int)
    ensures var r := UpsertAll(table, rows, now);
            |table| <= |r| && forall i :: 0 <= i < |table| ==> r[i].key == table[i].key
  {
    hide KeyOf;
    if rows == [] {
    } else {
      var n := |rows| - 1;
      PlacesStay(table, rows[..n], now);
      WrittenKey(rows[n], now);
    }
  }

  lemma NamesIsKey(row: SyncRow, key: Key)
    ensures Names(row, key) <==> Usable(row) && KeyOf(row) == key
    ensures row.side != "" ==> Upper(row.side) != ""
  {
  }

  lemma {:induction false} NoRowNoChange(rows: seq<SyncRow>, key: Key)
    ensures LastOf(rows, key).None? ==>
              forall known :: LastOrderId(rows, key, known) == LastSide(rows, key, known) == known
  {
    hide Names;
    if rows == [] {
      assert forall known :: LastOrderId(rows, key, known) == LastSide(rows, key, known) == known;
    } else {
      NoRowNoChange(rows[..|rows| - 1], key);
    }
  }

  // ----- The day's fills -----

  const DAY := 86_400

  function TimeOf(r: Record): int {
    r.tradeTime
  }

  function OfDay(table: seq<Record>, dayStart: int): seq<Record> {
    if table == [] then []
    else
      var n := |table| - 1;
      OfDay(table[..n], dayStart) + (if dayStart <= table[n].tradeTime < dayStart + DAY then [table[n]] else [])
  }

  function FillOf(r: Record): FillRow {
    FillRow(r.key.symbol, r.side, r.quantity, r.price, r.fee, r.feeAsset)
  }

  function FillsOf(rs: seq<Record>): seq<FillRow> {
    seq(|rs|, i requires 0 <= i < |rs| => FillOf(rs[i]))
  }

  /** The day's query: by trade time, then by id. */
  function DayFills(table: seq<Record>, dayStart: int): seq<FillRow> {
    FillsOf(SortBy(OfDay(table, dayStart), TimeOf))
  }

  ghost function DailyLoss(table: seq<Record>, dayStart: int): real {
    var rows := DayFills(table, dayStart);
    LossOf(Total(Symbols(rows), rows))
  }

  /** Main result: syncing two overlapping batches, at different times, leaves
      the fill table and the day's realized loss of taking every distinct row
      once, in the order first seen. */
  lemma OverlappingSyncsCountOnce(
    table: seq<Record>, a: seq<SyncRow>, b: seq<SyncRow>, now: int, later: int, dayStart: int)
    requires UniqueKeys(table) && Consistent(a + b)
    ensures var synced := UpsertAll(UpsertAll(table, a, now), b, later);
            var once := UpsertAll(table, FirstSeen(a + b), now);
            synced == once && DailyLoss(synced, dayStart) == DailyLoss(once, dayStart)
  {
    hide UpsertAll, FirstSeen, DailyLoss, KeyOf;
    assert forall r :: r in b ==> r in a + b;
    ClockDoesNotMatter(UpsertAll(table, a, now), b, now, later);
    UpsertInTwo(table, a, b, now);
    RepeatsChangeNothing(table, a + b, now);
  }

  /** Without a parseable time a repeated row moves to the time of the sync:
      writing it twice is writing it once exactly when it has a time, is
      unusable, or both writes happen at one instant. */
  lemma RepeatNeedsTime(table: seq<Record>, row: SyncRow, now: int, later: int)
    requires UniqueKeys(table)
    ensures Upsert(Upsert(table, row, now), row, later) == Upsert(table, row, now)
            <==> row.tradeTime.Some? || !Usable(row) || now == later
  {
    if Usable(row) {
      var once := Upsert(table, row, now);
      var timed := row.(tradeTime := Some(now));
      if row.tradeTime.Some? {
        UpsertHolds(table, row, now);
        HeldRowChangesNothing(once, row, later);
      } else {
        assert once == Upsert(table, timed, now);
        UpsertHolds(table, timed, now);
        HeldRowChangesNothing(once, timed, now);
        var i := Find(once, KeyOf(row));
        assert once[i].tradeTime == now;
        assert Upsert(once, row, later)[i].tradeTime == later;
        assert now == later ==> Upsert(once, row, later) == Upsert(once, timed, now);
      }
    }
  }
}
