/** Consumer side of the runtime audit trail: polls of the bounded trace are
    turned into audit rows under a watermark. */
module RuntimeAudit {
  import opened Numbers
  import opened Sequences
  import opened RuntimeTrace

  datatype AuditRow =
    | Gap(expectedNext: int, firstSeen: int)
    | Audited(event: TraceEvent)

  /** The persisted watermark and audit table of one runtime. */
  datatype Book = Book(watermark: int, rows: seq<AuditRow>)

  function SeqNoOf(e: TraceEvent): int {
    e.seqNo
  }

  /** Audits one event unless the watermark already covers it. */
  function Take(b: Book, e: TraceEvent): Book {
    if e.seqNo <= b.watermark then b else Book(e.seqNo, b.rows + [Audited(e)])
  }

  function TakeAll(b: Book, events: seq<TraceEvent>): Book {
    if events == [] then b else Take(TakeAll(b, events[..|events| - 1]), events[|events| - 1])
  }

  /** The gap record, when the first event seen is past the next expected one. */
  function GapNoted(b: Book, sorted: seq<TraceEvent>): Book {
    if sorted != [] && sorted[0].seqNo > b.watermark + 1 then
      b.(rows := b.rows + [Gap(b.watermark + 1, sorted[0].seqNo)])
    else b
  }

  function Polled(b: Book, events: seq<TraceEvent>): Book {
    var sorted := SortBy(events, SeqNoOf);
    TakeAll(GapNoted(b, sorted), sorted)
  }

  function AuditedRows(events: seq<TraceEvent>): (r: seq<AuditRow>)
    ensures |r| == |events| && forall i :: 0 <= i < |events| ==> r[i] == Audited(events[i])
  {
    seq(|events|, i requires 0 <= i < |events| => Audited(events[i]))
  }

  class AuditTrail {
    var lastAuditedEventSeq: int
    var auditEvents: seq<AuditRow>

    function State(): Book
      reads this
    {
      Book(lastAuditedEventSeq, auditEvents)
    }

    /** `_persist_runtime_audit_events`; returns the newly audited events. */
    method Persist(recentEvents: seq<TraceEvent>) returns (newEvents: seq<TraceEvent>)
      modifies this
      ensures State() == Polled(old(State()), recentEvents)
      ensures auditEvents
           == GapNoted(old(State()), SortBy(recentEvents, SeqNoOf)).rows + AuditedRows(newEvents)
    {
      newEvents := [];
      if recentEvents == [] {
        return;
      }
      var events := SortBy(recentEvents, SeqNoOf);
      var currentWatermark := lastAuditedEventSeq;
      var firstSeq := events[0].seqNo;
      if firstSeq > currentWatermark + 1 {
        auditEvents := auditEvents + [Gap(currentWatermark + 1, firstSeq)];
      }
      ghost var start := GapNoted(old(State()), events);
      for i := 0 to |events|
        invariant lastAuditedEventSeq == old(lastAuditedEventSeq)
        invariant Book(currentWatermark, auditEvents) == TakeAll(start, events[..i])
        invariant auditEvents == start.rows + AuditedRows(newEvents)
      {
        var item := events[i];
        assert events[..i + 1][..i] == events[..i];
        if item.seqNo <= currentWatermark {
          continue;
        }
        assert AuditedRows(newEvents + [item]) == AuditedRows(newEvents) + [Audited(item)];
        auditEvents := auditEvents + [Audited(item)];
        currentWatermark := item.seqNo;
        newEvents := newEvents + [item];
      }
      assert events[..|events|] == events;
      lastAuditedEventSeq := currentWatermark;
    }
  }

  // ----- One poll of a held log -----

  /** The rows of log entries `from..to`, in order. */
  function RowsOf(log: seq<Entry>, from: nat, upto: nat): (r: seq<AuditRow>)
    requires from <= upto <= |log|
    ensures |r| == upto - from
  {
    seq(upto - from, i requires 0 <= i < upto - from => Audited(Numbered(log)[from + i]))
  }

  lemma {:induction false} TakeRange(b: Book, log: seq<Entry>, from: nat, upto: nat)
    requires from <= upto <= |log| && b.watermark >= 0
    decreases upto - from
    ensures TakeAll(b, Numbered(log)[from..upto])
         == (if from == upto || upto <= b.watermark then b
             else Book(upto, b.rows + RowsOf(log, Max(from, b.watermark), upto)))
  {
    if from < upto {
      var events := Numbered(log)[from..upto];
      var last := Numbered(log)[upto - 1];
      assert events[..|events| - 1] == Numbered(log)[from..upto - 1] && events[|events| - 1] == last;
      TakeRange(b, log, from, upto - 1);
      if upto > b.watermark {
        var start := Max(from, b.watermark);
        assert RowsOf(log, start, upto) == RowsOf(log, start, upto - 1) + [Audited(last)];
      }
    } else {
      assert Numbered(log)[from..upto] == [];
    }
  }

  /** How many entries a supervisor with this history size has dropped. */
  function Lost(length: nat, historySize: int): nat {
    if historySize > 0 && length > historySize then length - historySize else 0
  }

  lemma HeldIsRange(log: seq<Entry>, m: nat, historySize: int)
    requires m <= |log|
    ensures var held := Held(log[..m], historySize);
            && held == Numbered(log)[Lost(m, historySize)..m] && SortBy(held, SeqNoOf) == held
            && (if m == 0 then held == [] else held != [] && held[0].seqNo == Lost(m, historySize) + 1)
  {
    var held := Held(log[..m], historySize);
    assert Numbered(log[..m]) == Numbered(log)[..m];
    assert held == Numbered(log)[Lost(m, historySize)..m];
    SortSorted(held, SeqNoOf);
  }

  /** A poll audits exactly the held entries past the watermark, and reports a
      gap exactly when entries past the watermark had been dropped. */
  lemma PollOfHeld(b: Book, log: seq<Entry>, m: nat, historySize: int)
    requires m <= |log| && b.watermark >= 0
    ensures var lost := Lost(m, historySize);
            Polled(b, Held(log[..m], historySize))
            == (if m <= b.watermark then b
                else if lost > b.watermark then
                  Book(m, b.rows + [Gap(b.watermark + 1, lost + 1)] + RowsOf(log, lost, m))
                else Book(m, b.rows + RowsOf(log, b.watermark, m)))
  {
    hide TakeAll, RowsOf, Held, Numbered, SortBy;
    var lost := Lost(m, historySize);
    HeldIsRange(log, m, historySize);
    TakeRange(b.(rows := b.rows + [Gap(b.watermark + 1, lost + 1)]), log, lost, m);
    TakeRange(b, log, lost, m);
  }

  // ----- Whole runs -----

  predicate Covers(row: AuditRow, n: int) {
    match row
    case Audited(e) => e.seqNo == n
    case Gap(x, f) => x <= n < f
  }

  function TimesCovered(rows: seq<AuditRow>, n: int): nat {
    if rows == [] then 0 else TimesCovered(rows[..|rows| - 1], n) + (if Covers(rows[|rows| - 1], n) then 1 else 0)
  }

  /** The rows tile the numbers after `base` up to `w` from left to right:
      audited entries are those of the log, gaps are never empty. */
  predicate Tiles(rows: seq<AuditRow>, base: int, w: int, log: seq<Entry>) {
    if rows == [] then w == base
    else
      var before := rows[..|rows| - 1];
      match rows[|rows| - 1]
      case Audited(e) => 1 <= w <= |log| && e == Numbered(log)[w - 1] && Tiles(before, base, w - 1, log)
      case Gap(x, f) => w == f - 1 && x <= w && Tiles(before, base, x - 1, log)
  }

  lemma {:induction false} TilesCoverOnce(rows: seq<AuditRow>, base: int, w: int, log: seq<Entry>, n: int)
    requires Tiles(rows, base, w, log)
    ensures base <= w
    ensures TimesCovered(rows, n) == if base < n <= w then 1 else 0
  {
    if rows == [] {
    } else {
      var before := rows[..|rows| - 1];
      match rows[|rows| - 1] {
        case Audited(e) => TilesCoverOnce(before, base, w - 1, log, n);
        case Gap(x, f) => TilesCoverOnce(before, base, x - 1, log, n);
      }
    }
  }

  lemma {:induction false} TilesOnLongerLog(rows: seq<AuditRow>, base: int, w: int, log: seq<Entry>, entry: Entry)
    requires Tiles(rows, base, w, log)
    ensures Tiles(rows, base, w, log + [entry])
  {
    if rows == [] {
    } else {
      var before := rows[..|rows| - 1];
      match rows[|rows| - 1] {
        case Audited(e) => TilesOnLongerLog(before, base, w - 1, log, entry);
        case Gap(x, f) => TilesOnLongerLog(before, base, x - 1, log, entry);
      }
    }
  }

  lemma {:induction false} TilesExtend(rows: seq<AuditRow>, base: int, log: seq<Entry>, from: nat, upto: nat)
    requires from <= upto <= |log| && Tiles(rows, base, from, log)
    decreases upto - from
    ensures Tiles(rows + RowsOf(log, from, upto), base, upto, log)
  {
    if from == upto {
      assert rows + RowsOf(log, from, upto) == rows;
    } else {
      TilesExtend(rows, base, log, from, upto - 1);
      var longer := rows + RowsOf(log, from, upto);
      assert longer[..|longer| - 1] == rows + RowsOf(log, from, upto - 1);
    }
  }

  datatype Move = Traced(entry: Entry) | Poll(snapshot: nat)

  /** The supervisor's unbounded log beside the persisted book. */
  datatype World = World(log: seq<Entry>, book: Book)

  /** A poll delivers the trace as it stood when the log had `snapshot` entries,
      possibly some time ago. */
  predicate CanMove(w: World, move: Move) {
    move.Poll? ==> move.snapshot <= |w.log|
  }

  function Moved(w: World, move: Move, historySize: int): World
    requires CanMove(w, move)
  {
    match move
    case Traced(entry) => w.(log := w.log + [entry])
    case Poll(m) => w.(book := Polled(w.book, Held(w.log[..m], historySize)))
  }

  /** The poll comes before any entry past the watermark is dropped. */
  predicate InTime(w: World, move: Move, historySize: int) {
    move.Poll? ==> Lost(move.snapshot, historySize) <= w.book.watermark || move.snapshot <= w.book.watermark
  }

  datatype Outcome = Outcome(world: World, possible: bool, allInTime: bool)

  /** A run from a book at watermark `base`, with no rows of its own yet. */
  function Run(base: nat, moves: seq<Move>, historySize: int): Outcome {
    if moves == [] then Outcome(World([], Book(base, [])), true, true)
    else
      var o := Run(base, moves[..|moves| - 1], historySize);
      var move := moves[|moves| - 1];
      if o.possible && CanMove(o.world, move) then
        Outcome(Moved(o.world, move, historySize), true, o.allInTime && InTime(o.world, move, historySize))
      else o.(possible := false)
  }

  /** Every reported number had left the history of `historySize` entries. */
  predicate GapsWereDropped(rows: seq<AuditRow>, length: nat, historySize: int) {
    forall i :: 0 <= i < |rows| && rows[i].Gap? ==> historySize > 0 && rows[i].firstSeen - 1 + historySize <= length
  }

  predicate NoGaps(rows: seq<AuditRow>) {
    forall i :: 0 <= i < |rows| ==> rows[i].Audited?
  }

  ghost predicate Ledger(o: Outcome, base: nat, historySize: int) {
    var b := o.world.book;
    && Tiles(b.rows, base, b.watermark, o.world.log)
    && b.watermark >= base
    && GapsWereDropped(b.rows, |o.world.log|, historySize)
    && (NoGaps(b.rows) <==> o.allInTime)
  }

  lemma PollWithGap(b: Book, log: seq<Entry>, m: nat, base: nat, historySize: int)
    requires m <= |log| && 0 <= b.watermark < Lost(m, historySize)
    requires Tiles(b.rows, base, b.watermark, log) && GapsWereDropped(b.rows, |log|, historySize)
    ensures var lost := Lost(m, historySize);
            var rows := b.rows + [Gap(b.watermark + 1, lost + 1)] + RowsOf(log, lost, m);
            Tiles(rows, base, m, log) && GapsWereDropped(rows, |log|, historySize) && !NoGaps(rows)
  {
    hide RowsOf;
    var lost := Lost(m, historySize);
    var rows := b.rows + [Gap(b.watermark + 1, lost + 1)];
    assert rows[..|rows| - 1] == b.rows;
    TilesExtend(rows, base, log, lost, m);
    GapStays(b.rows, Gap(b.watermark + 1, lost + 1), log, lost, m);
  }

  lemma PollWithoutGap(b: Book, log: seq<Entry>, m: nat, base: nat, historySize: int)
    requires m <= |log| && 0 <= b.watermark <= m
    requires Tiles(b.rows, base, b.watermark, log) && GapsWereDropped(b.rows, |log|, historySize)
    ensures var rows := b.rows + RowsOf(log, b.watermark, m);
            Tiles(rows, base, m, log) && GapsWereDropped(rows, |log|, historySize) && (NoGaps(rows) <==> NoGaps(b.rows))
  {
    hide RowsOf;
    TilesExtend(b.rows, base, log, b.watermark, m);
    RowsAreAudited(b.rows, log, b.watermark, m);
  }

  lemma PollKeepsLedger(w: World, m: nat, base: nat, historySize: int, allInTime: bool)
    requires m <= |w.log| && Ledger(Outcome(w, true, allInTime), base, historySize)
    ensures Ledger(Outcome(Moved(w, Poll(m), historySize), true, allInTime && InTime(w, Poll(m), historySize)),
                   base, historySize)
  {
    hide Polled, Held, RowsOf, Tiles, GapsWereDropped, NoGaps;
    PollOfHeld(w.book, w.log, m, historySize);
    if m > w.book.watermark {
      if Lost(m, historySize) > w.book.watermark {
        PollWithGap(w.book, w.log, m, base, historySize);
      } else {
        PollWithoutGap(w.book, w.log, m, base, historySize);
      }
    }
  }

  lemma RowsAreAudited(rows: seq<AuditRow>, log: seq<Entry>, from: nat, upto: nat)
    requires from <= upto <= |log|
    ensures NoGaps(rows + RowsOf(log, from, upto)) <==> NoGaps(rows)
    ensures forall i :: 0 <= i < |rows + RowsOf(log, from, upto)| && (rows + RowsOf(log, from, upto))[i].Gap? ==>
              i < |rows| && rows[i] == (rows + RowsOf(log, from, upto))[i]
  {
    var all := rows + RowsOf(log, from, upto);
    forall i | 0 <= i < |rows| ensures all[i] == rows[i] {
    }
  }

  lemma GapStays(rows: seq<AuditRow>, gap: AuditRow, log: seq<Entry>, from: nat, upto: nat)
    requires from <= upto <= |log| && gap.Gap?
    ensures !NoGaps(rows + [gap] + RowsOf(log, from, upto))
    ensures var all := rows + [gap] + RowsOf(log, from, upto);
            forall i :: 0 <= i < |all| && all[i].Gap? ==> all[i] == gap || (i < |rows| && rows[i] == all[i])
  {
    var all := rows + [gap] + RowsOf(log, from, upto);
    assert all[|rows|] == gap;
  }

  /** Main result: over any interleaving of traced events and polls, late polls
      included, the audit rows tile the numbers past the starting watermark in
      order; every number reported missing had been dropped from the history;
      and there is no gap exactly when every poll came in time. */
  lemma {:induction false} AuditIsLedger(base: nat, moves: seq<Move>, historySize: int)
    requires Run(base, moves, historySize).possible
    ensures Ledger(Run(base, moves, historySize), base, historySize)
  {
    hide Moved, InTime, Ledger;
    if moves == [] {
      EmptyLedger(base, historySize);
    } else {
      var n := |moves| - 1;
      var o := Run(base, moves[..n], historySize);
      AuditIsLedger(base, moves[..n], historySize);
      match moves[n] {
        case Traced(entry) => TraceKeepsLedger(o, entry, base, historySize);
        case Poll(m) => PollKeepsLedger(o.world, m, base, historySize, o.allInTime);
      }
    }
  }

  lemma EmptyLedger(base: nat, historySize: int)
    ensures Ledger(Outcome(World([], Book(base, [])), true, true), base, historySize)
  {
  }

  lemma TraceKeepsLedger(o: Outcome, entry: Entry, base: nat, historySize: int)
    requires Ledger(o, base, historySize)
    ensures Ledger(Outcome(Moved(o.world, Traced(entry), historySize), true,
                           o.allInTime && InTime(o.world, Traced(entry), historySize)), base, historySize)
  {
    TilesOnLongerLog(o.world.book.rows, base, o.world.book.watermark, o.world.log, entry);
  }

  /** Each number up to the watermark is audited once or reported once, never
      both and never twice; numbers up to the starting watermark are neither. */
  lemma ExactlyOnce(base: nat, moves: seq<Move>, historySize: int, n: int)
    requires Run(base, moves, historySize).possible
    ensures var b := Run(base, moves, historySize).world.book;
            TimesCovered(b.rows, n) == if base < n <= b.watermark then 1 else 0
  {
    AuditIsLedger(base, moves, historySize);
    var o := Run(base, moves, historySize);
    TilesCoverOnce(o.world.book.rows, base, o.world.book.watermark, o.world.log, n);
  }

  lemma {:induction false} TilesWithoutGaps(rows: seq<AuditRow>, base: nat, w: int, log: seq<Entry>)
    requires Tiles(rows, base, w, log) && NoGaps(rows)
    ensures base <= w && (rows == [] || w <= |log|)
    ensures |rows| == w - base
    ensures rows != [] ==> rows == RowsOf(log, base, w)
  {
    if rows == [] {
    } else {
      var before := rows[..|rows| - 1];
      TilesWithoutGaps(before, base, w - 1, log);
      assert rows == before + [rows[|rows| - 1]];
      if before == [] {
        assert w - 1 == base;
        assert rows == RowsOf(log, base, w);
      } else {
        assert RowsOf(log, base, w) == RowsOf(log, base, w - 1) + [Audited(Numbered(log)[w - 1])];
      }
    }
  }

  /** Polling often enough from a fresh row audits exactly the first events, in
      order, each once. */
  lemma TimelyPollsAuditEverything(moves: seq<Move>, historySize: int)
    requires Run(0, moves, historySize).possible && Run(0, moves, historySize).allInTime
    ensures var w := Run(0, moves, historySize).world;
            0 <= w.book.watermark <= |w.log| && w.book.rows == RowsOf(w.log, 0, w.book.watermark)
  {
    AuditIsLedger(0, moves, historySize);
    var w := Run(0, moves, historySize).world;
    TilesWithoutGaps(w.book.rows, 0, w.book.watermark, w.log);
  }

  // ----- How often is often enough -----

  /** How many events were traced. */
  function TracedIn(moves: seq<Move>): nat {
    if moves == [] then 0 else TracedIn(moves[..|moves| - 1]) + (if moves[|moves| - 1].Traced? then 1 else 0)
  }

  /** How many events had been traced at the last poll, or zero. */
  function TracedAtPoll(moves: seq<Move>): nat {
    if moves == [] then 0
    else if moves[|moves| - 1].Poll? then TracedIn(moves[..|moves| - 1])
    else TracedAtPoll(moves[..|moves| - 1])
  }

  /** Every poll delivers the trace as it is at that moment. */
  predicate Current(moves: seq<Move>) {
    forall i :: 0 <= i < |moves| && moves[i].Poll? ==> moves[i].snapshot == TracedIn(moves[..i])
  }

  /** At most `historySize` events are traced before the first poll and between
      any two, when the size bounds anything. */
  predicate Often(moves: seq<Move>, historySize: int) {
    historySize > 0 ==>
      forall i :: 0 <= i < |moves| && moves[i].Poll? ==>
        TracedIn(moves[..i]) - TracedAtPoll(moves[..i]) <= historySize
  }

  /** Polls of the current trace leave the watermark at the last of them, and are
      in time exactly when there are enough of them. */
  lemma {:induction false} CurrentPolls(moves: seq<Move>, historySize: int)
    requires Current(moves)
    ensures var o := Run(0, moves, historySize);
      && o.possible && |o.world.log| == TracedIn(moves)
      && o.world.book.watermark == TracedAtPoll(moves) <= TracedIn(moves)
      && (o.allInTime <==> Often(moves, historySize))
  {
    hide Polled, Held;
    if moves == [] {
    } else {
      var n := |moves| - 1;
      var before, last := moves[..n], moves[n];
      assert forall i :: 0 <= i < n ==> moves[i] == before[i] && moves[..i] == before[..i];
      CurrentPolls(before, historySize);
      var o := Run(0, before, historySize);
      OftenSnoc(moves, historySize);
      if last.Poll? {
        PollOfHeld(o.world.book, o.world.log, last.snapshot, historySize);
      }
    }
  }

  lemma OftenSnoc(moves: seq<Move>, historySize: int)
    requires moves != []
    ensures var n := |moves| - 1;
            Often(moves, historySize) <==>
              Often(moves[..n], historySize)
              && (historySize > 0 && moves[n].Poll? ==> TracedIn(moves[..n]) - TracedAtPoll(moves[..n]) <= historySize)
  {
    var before := moves[..|moves| - 1];
    assert forall i :: 0 <= i < |before| ==> moves[i] == before[i] && moves[..i] == before[..i];
  }

  /** Main result on polling: when every poll delivers the current trace, every
      event up to the last poll is audited exactly once, in order and with no gap
      record, if and only if at most `historySize` events come between polls. */
  lemma OftenEnoughAuditsEverything(moves: seq<Move>, historySize: int)
    requires Current(moves)
    ensures var w := Run(0, moves, historySize).world;
            |w.log| == TracedIn(moves) >= TracedAtPoll(moves)
            && (w.book.rows == RowsOf(w.log, 0, TracedAtPoll(moves)) <==> Often(moves, historySize))
  {
    hide Tiles, Often, Current, Run;
    CurrentPolls(moves, historySize);
    var o := Run(0, moves, historySize);
    if o.allInTime {
      TimelyPollsAuditEverything(moves, historySize);
    } else {
      AuditIsLedger(0, moves, historySize);
    }
  }
}
