/** Cursor replay of a user's bounded event history by a reconnecting client. */
module EventReplay {
  import opened Numbers
  import opened Sequences
  import opened EventLog

  function EventSeqOf(e: Stored): int {
    e.eventSeq
  }

  /** The events numbered after `afterSeq`, in order. */
  function Past(events: seq<Stored>, afterSeq: int): seq<Stored> {
    if events == [] then []
    else
      var n := |events| - 1;
      Past(events[..n], afterSeq) + (if events[n].eventSeq > afterSeq then [events[n]] else [])
  }

  /** The events stamped at or after `threshold`, in order. */
  function SinceTime(events: seq<Stored>, threshold: int): seq<Stored> {
    if events == [] then []
    else
      var n := |events| - 1;
      SinceTime(events[..n], threshold) + (if events[n].timestamp >= threshold then [events[n]] else [])
  }

  /** `get_user_event_history`; `threshold` is the time the optional age limit amounts to. */
  function Page(history: seq<Stored>, afterSeq: Option<int>, threshold: Option<int>, limit: int): seq<Stored> {
    var sorted := SortBy(history, EventSeqOf);
    var past := if afterSeq.Some? then Past(sorted, afterSeq.value) else sorted;
    var events := if threshold.Some? then SinceTime(past, threshold.value) else past;
    if limit <= 0 then events
    else if afterSeq.None? then LastN(events, limit)
    else if |events| <= limit then events else events[..limit]
  }

  /** `replay_events`: a page and the cursor to ask with next. */
  function Replay(history: seq<Stored>, afterSeq: Option<int>, threshold: Option<int>, limit: int)
    : (seq<Stored>, Option<int>)
  {
    var events := Page(history, afterSeq, threshold, limit);
    (events, if events != [] then Some(events[|events| - 1].eventSeq) else afterSeq)
  }

  // ----- One page against the unbounded log -----

  /** How many accepted events have left the history. */
  function Evicted(log: seq<Push>, historySize: Bound): (n: nat)
    ensures n <= |log|
  {
    Max(|log| - historySize, 0)
  }

  /** The accepted events numbered `from + 1` to `upto`. */
  function Between(log: seq<Push>, from: nat, upto: nat): (r: seq<Stored>)
    requires from <= upto <= |log|
    ensures |r| == upto - from
    ensures forall i :: 0 <= i < |r| ==> r[i] == EventAt(log, from + i)
  {
    seq(upto - from, i requires 0 <= i < upto - from => EventAt(log, from + i))
  }

  lemma BetweenJoins(log: seq<Push>, from: nat, mid: nat, upto: nat)
    requires from <= mid <= upto <= |log|
    ensures Between(log, from, mid) + Between(log, mid, upto) == Between(log, from, upto)
    ensures Between(log, from, upto)[..mid - from] == Between(log, from, mid)
    ensures Between(log, from, upto)[mid - from..] == Between(log, mid, upto)
  {
  }

  function Held(log: seq<Push>, historySize: Bound): seq<Stored> {
    LastN(Numbered(log), historySize)
  }

  lemma HeldIsBetween(log: seq<Push>, historySize: Bound)
    ensures Held(log, historySize) == Between(log, Evicted(log, historySize), |log|)
    ensures SortBy(Held(log, historySize), EventSeqOf) == Held(log, historySize)
  {
    assert Held(log, historySize) == Between(log, Evicted(log, historySize), |log|);
    SortSorted(Held(log, historySize), EventSeqOf);
  }

  lemma PastSnoc(events: seq<Stored>, e: Stored, cursor: int)
    ensures Past(events + [e], cursor) == Past(events, cursor) + (if e.eventSeq > cursor then [e] else [])
  {
    assert (events + [e])[..|events|] == events;
  }

  lemma BetweenSnoc(log: seq<Push>, from: nat, upto: nat)
    requires from < upto <= |log|
    ensures Between(log, from, upto) == Between(log, from, upto - 1) + [EventAt(log, upto - 1)]
  {
  }

  lemma {:induction false} PastBetween(log: seq<Push>, from: nat, upto: nat, cursor: int)
    requires from <= upto <= |log|
    decreases upto
    ensures Past(Between(log, from, upto), cursor) == Between(log, Min(Max(from, cursor), upto), upto)
  {
    if from == upto {
      assert Between(log, from, upto) == [];
    } else {
      hide Past, Between;
      PastBetween(log, from, upto - 1, cursor);
      BetweenSnoc(log, from, upto);
      PastSnoc(Between(log, from, upto - 1), EventAt(log, upto - 1), cursor);
      if cursor < upto {
        BetweenSnoc(log, Min(Max(from, cursor), upto - 1), upto);
      }
    }
  }

  /** An incremental page is the next run of held events past the cursor: it
      starts right after the cursor or, if events were evicted, at the oldest held. */
  lemma PageIsRange(log: seq<Push>, historySize: Bound, cursor: int, limit: nat)
    requires limit >= 1
    ensures var from := Min(Max(Evicted(log, historySize), cursor), |log|);
            Page(Held(log, historySize), Some(cursor), None, limit) == Between(log, from, Min(from + limit, |log|))
  {
    hide Past, SortBy, Held;
    var from := Min(Max(Evicted(log, historySize), cursor), |log|);
    HeldIsBetween(log, historySize);
    PastBetween(log, Evicted(log, historySize), |log|, cursor);
    BetweenJoins(log, from, Min(from + limit, |log|), |log|);
  }

  /** A first request gets the newest held events. */
  lemma FirstPageIsNewest(log: seq<Push>, historySize: Bound, limit: nat)
    requires limit >= 1
    ensures Page(Held(log, historySize), None, None, limit)
         == Between(log, Max(Evicted(log, historySize), |log| - limit), |log|)
  {
    hide SortBy, Held;
    HeldIsBetween(log, historySize);
    BetweenJoins(log, Evicted(log, historySize), Max(Evicted(log, historySize), |log| - limit), |log|);
  }

  // ----- A whole session -----

  datatype Move = Push1(push: Push) | Read(limit: Bound)

  /** Pushes so far, the client's cursor, what it received, and the numbers its
      cursor passed over because they were evicted when it read. */
  datatype Session = Session(pushes: seq<Push>, cursor: nat, received: seq<Stored>, missed: set<int>)

  /** The numbers after `a` up to `b`. */
  function Span(a: int, b: int): (r: set<int>)
    decreases b - a
    ensures forall n: int :: n in r <==> a < n <= b
  {
    if a >= b then {} else Span(a, b - 1) + {b}
  }

  function LogOf(s: Session, cacheSize: Bound): seq<Push> {
    Accepted(s.pushes, cacheSize)
  }

  function Moved(s: Session, move: Move, historySize: Bound, cacheSize: Bound): Session {
    match move
    case Push1(push) => s.(pushes := s.pushes + [push])
    case Read(limit) =>
      var (events, next) := Replay(After(s.pushes, historySize, cacheSize).history, Some(s.cursor), None, limit);
      var evicted := Evicted(LogOf(s, cacheSize), historySize);
      var cursor: nat := if next.value >= 0 then next.value else 0;
      Session(s.pushes, cursor, s.received + events,
              s.missed + Span(s.cursor, Min(cursor, evicted)))
  }

  function Run(start: nat, moves: seq<Move>, historySize: Bound, cacheSize: Bound): Session {
    if moves == [] then Session([], start, [], {})
    else Moved(Run(start, moves[..|moves| - 1], historySize, cacheSize), moves[|moves| - 1], historySize, cacheSize)
  }

  /** Received events are genuine and strictly increasing, and together with
      the evicted ones they are exactly the numbers the cursor moved over. */
  ghost predicate Faithful(s: Session, log: seq<Push>, start: nat, historySize: Bound) {
    && start <= s.cursor
    && Genuine(s.received, log, start, s.cursor)
    && (forall n :: n in s.missed ==> start < n <= s.cursor && n + historySize <= |log| && !Received(s.received, n))
    && (forall n: int :: start < n <= s.cursor ==> n in s.missed || Received(s.received, n))
  }

  /** Events of the log numbered after `start` up to `cursor`, strictly increasing. */
  ghost predicate Genuine(received: seq<Stored>, log: seq<Push>, start: nat, cursor: nat) {
    && (forall i :: 0 <= i < |received| ==>
          start < received[i].eventSeq <= cursor && received[i].eventSeq <= |log|
          && received[i] == EventAt(log, received[i].eventSeq - 1))
    && (forall i, j :: 0 <= i < j < |received| ==> received[i].eventSeq < received[j].eventSeq)
  }

  predicate Received(received: seq<Stored>, n: int) {
    exists i :: 0 <= i < |received| && received[i].eventSeq == n
  }

  lemma FaithfulOnLongerLog(s: Session, log: seq<Push>, push: Push, start: nat, historySize: Bound)
    requires Faithful(s, log, start, historySize)
    ensures Faithful(s, log + [push], start, historySize)
  {
    assert forall k :: 0 <= k < |log| ==> EventAt(log + [push], k) == EventAt(log, k);
  }

  lemma ReceivedAppends(received: seq<Stored>, log: seq<Push>, from: nat, upto: nat, n: int)
    requires from <= upto <= |log|
    ensures Received(received + Between(log, from, upto), n) <==> Received(received, n) || from < n <= upto
  {
    var all := received + Between(log, from, upto);
    if Received(received, n) {
      var i :| 0 <= i < |received| && received[i].eventSeq == n;
      assert all[i].eventSeq == n;
    }
    if from < n <= upto {
      assert all[|received| + n - 1 - from].eventSeq == n;
    }
    if Received(all, n) {
      var i :| 0 <= i < |all| && all[i].eventSeq == n;
      assert i < |received| ==> received[i] == all[i];
    }
  }

  /** The received list stays genuine and increasing when a page is appended. */
  lemma PageAppends(received: seq<Stored>, log: seq<Push>, start: nat, from: nat, upto: nat)
    requires start <= from <= upto <= |log|
    requires Genuine(received, log, start, from)
    ensures Genuine(received + Between(log, from, upto), log, start, upto)
  {
    var page := Between(log, from, upto);
    var all := received + page;
    assert forall i :: 0 <= i < |received| ==> all[i] == received[i];
    assert forall i :: |received| <= i < |all| ==> all[i] == page[i - |received|];
  }

  lemma ReadFaithful(s: Session, log: seq<Push>, start: nat, historySize: Bound, from: nat, upto: nat)
    requires Faithful(s, log, start, historySize)
    requires s.cursor <= from < upto <= |log|
    requires from == Max(Evicted(log, historySize), s.cursor)
    ensures var s' := Session(s.pushes, upto, s.received + Between(log, from, upto),
                              s.missed + Span(s.cursor, Min(upto, Evicted(log, historySize))));
            Faithful(s', log, start, historySize)
  {
    hide Received, Genuine;
    var s' := Session(s.pushes, upto, s.received + Between(log, from, upto),
                      s.missed + Span(s.cursor, Min(upto, Evicted(log, historySize))));
    GenuineWider(s.received, log, start, s.cursor, from);
    PageAppends(s.received, log, start, from, upto);
    forall n: int ensures Received(s'.received, n) <==> Received(s.received, n) || from < n <= upto {
      ReceivedAppends(s.received, log, from, upto, n);
    }
    forall n: int | n > s.cursor ensures !Received(s.received, n) {
      NotReceivedYet(s.received, log, start, s.cursor, n);
    }
  }

  lemma GenuineWider(received: seq<Stored>, log: seq<Push>, start: nat, cursor: nat, wider: nat)
    requires Genuine(received, log, start, cursor) && cursor <= wider
    ensures Genuine(received, log, start, wider)
  {
  }

  lemma NotReceivedYet(received: seq<Stored>, log: seq<Push>, start: nat, cursor: nat, n: int)
    requires Genuine(received, log, start, cursor) && n > cursor
    ensures !Received(received, n)
  {
  }

  lemma {:induction false} AcceptedStep(pushes: seq<Push>, push: Push, cacheSize: Bound)
    ensures var before := Accepted(pushes, cacheSize);
            Accepted(pushes + [push], cacheSize) == before || Accepted(pushes + [push], cacheSize) == before + [push]
  {
    assert (pushes + [push])[..|pushes|] == pushes;
  }

  /** Main result: however pushes and reads interleave, following the returned
      cursor yields strictly increasing numbers without repeats, and a number is
      passed over only if it was already evicted when that page was read. */
  lemma {:induction false} SessionFaithful(start: nat, moves: seq<Move>, historySize: Bound, cacheSize: Bound)
    ensures var s := Run(start, moves, historySize, cacheSize);
            Faithful(s, LogOf(s, cacheSize), start, historySize)
  {
    hide Faithful, Moved;
    if moves == [] {
      NothingRead(start, historySize, cacheSize);
    } else {
      var n := |moves| - 1;
      SessionFaithful(start, moves[..n], historySize, cacheSize);
      MoveFaithful(Run(start, moves[..n], historySize, cacheSize), moves[n], start, historySize, cacheSize);
    }
  }

  lemma NothingRead(start: nat, historySize: Bound, cacheSize: Bound)
    ensures Faithful(Session([], start, [], {}), LogOf(Session([], start, [], {}), cacheSize), start, historySize)
  {
  }

  /** What a read does, in terms of the unbounded log. */
  lemma ReadShape(s: Session, limit: Bound, historySize: Bound, cacheSize: Bound)
    ensures var log := LogOf(s, cacheSize);
            var from := Min(Max(Evicted(log, historySize), s.cursor), |log|);
            var upto := Min(from + limit, |log|);
            Moved(s, Read(limit), historySize, cacheSize)
            == if from < upto then
                 Session(s.pushes, upto, s.received + Between(log, from, upto),
                         s.missed + Span(s.cursor, Min(upto, Evicted(log, historySize))))
               else s
  {
    hide Page, After;
    var log := LogOf(s, cacheSize);
    var history := After(s.pushes, historySize, cacheSize).history;
    HistoryIsHeld(s.pushes, historySize, cacheSize);
    PageIsRange(log, historySize, s.cursor, limit);
    var from := Min(Max(Evicted(log, historySize), s.cursor), |log|);
    var upto := Min(from + limit, |log|);
    assert Page(history, Some(s.cursor), None, limit) == Between(log, from, upto);
  }

  lemma HistoryIsHeld(pushes: seq<Push>, historySize: Bound, cacheSize: Bound)
    ensures After(pushes, historySize, cacheSize).history == Held(Accepted(pushes, cacheSize), historySize)
  {
    StreamReflects(pushes, historySize, cacheSize);
  }

  lemma PushFaithful(s: Session, push: Push, start: nat, historySize: Bound, cacheSize: Bound)
    requires Faithful(s, LogOf(s, cacheSize), start, historySize)
    ensures var s' := s.(pushes := s.pushes + [push]);
            Faithful(s', LogOf(s', cacheSize), start, historySize)
  {
    hide Genuine, Received, Accepted;
    AcceptedStep(s.pushes, push, cacheSize);
    FaithfulOnLongerLog(s, LogOf(s, cacheSize), push, start, historySize);
  }

  lemma MoveFaithful(s: Session, move: Move, start: nat, historySize: Bound, cacheSize: Bound)
    requires Faithful(s, LogOf(s, cacheSize), start, historySize)
    ensures var s' := Moved(s, move, historySize, cacheSize);
            Faithful(s', LogOf(s', cacheSize), start, historySize)
  {
    hide Faithful, Replay, Span, LogOf;
    match move {
      case Push1(push) =>
        PushFaithful(s, push, start, historySize, cacheSize);
      case Read(limit) =>
        ReadMoveFaithful(s, limit, start, historySize, cacheSize);
    }
  }

  lemma ReadMoveFaithful(s: Session, limit: Bound, start: nat, historySize: Bound, cacheSize: Bound)
    requires Faithful(s, LogOf(s, cacheSize), start, historySize)
    ensures var s' := Moved(s, Read(limit), historySize, cacheSize);
            Faithful(s', LogOf(s', cacheSize), start, historySize)
  {
    hide Faithful, Moved, Between, Span, Accepted;
    var log := LogOf(s, cacheSize);
    ReadShape(s, limit, historySize, cacheSize);
    var from := Min(Max(Evicted(log, historySize), s.cursor), |log|);
    var upto := Min(from + limit, |log|);
    if from < upto {
      ReadFaithful(s, log, start, historySize, from, upto);
    }
  }

  // ----- Draining a quiet stream -----

  /** Reading page after page until one comes back empty. */
  function Drained(log: seq<Push>, historySize: Bound, cursor: nat, limit: Bound): seq<Stored>
    decreases |log| - cursor
  {
    PageIsRange(log, historySize, cursor, limit);
    var (events, next) := Replay(Held(log, historySize), Some(cursor), None, limit);
    if events == [] then [] else events + Drained(log, historySize, next.value, limit)
  }

  /** With pushes stopped, the loop ends having returned every held event past
      the cursor exactly once, in order. */
  lemma {:induction false} DrainReturnsHeld(log: seq<Push>, historySize: Bound, cursor: nat, limit: Bound)
    decreases |log| - cursor
    ensures var from := Min(Max(Evicted(log, historySize), cursor), |log|);
            Drained(log, historySize, cursor, limit) == Between(log, from, |log|)
  {
    hide Page, Held;
    PageIsRange(log, historySize, cursor, limit);
    var from := Min(Max(Evicted(log, historySize), cursor), |log|);
    var upto := Min(from + limit, |log|);
    if from < upto {
      DrainReturnsHeld(log, historySize, upto, limit);
      BetweenJoins(log, from, upto, |log|);
    }
  }

  // ----- Pages limited by age -----

  lemma SinceSnoc(events: seq<Stored>, e: Stored, threshold: int)
    ensures SinceTime(events + [e], threshold)
         == SinceTime(events, threshold) + (if e.timestamp >= threshold then [e] else [])
  {
    assert (events + [e])[..|events|] == events;
  }

  /** Strictly increasing numbers. */
  predicate Increasing(events: seq<Stored>) {
    forall i, j :: 0 <= i < j < |events| ==> events[i].eventSeq < events[j].eventSeq
  }

  lemma {:induction false} SinceKeeps(events: seq<Stored>, threshold: int)
    ensures forall e :: e in SinceTime(events, threshold) <==> e in events && e.timestamp >= threshold
    ensures Increasing(events) ==> Increasing(SinceTime(events, threshold))
  {
    if events == [] {
    } else {
      var n := |events| - 1;
      var before, last := events[..n], events[n];
      assert events == before + [last];
      SinceKeeps(before, threshold);
      SinceSnoc(before, last, threshold);
      if Increasing(events) {
        var kept := SinceTime(before, threshold);
        forall i | 0 <= i < |kept| ensures kept[i].eventSeq < last.eventSeq {
          assert kept[i] in before;
        }
      }
    }
  }

  lemma {:induction false} PastKeeps(events: seq<Stored>, cursor: int)
    ensures forall e :: e in Past(events, cursor) <==> e in events && e.eventSeq > cursor
    ensures Increasing(events) ==> Increasing(Past(events, cursor))
  {
    if events == [] {
    } else {
      var n := |events| - 1;
      var before, last := events[..n], events[n];
      assert events == before + [last];
      PastKeeps(before, cursor);
      PastSnoc(before, last, cursor);
      if Increasing(events) {
        var kept := Past(before, cursor);
        forall i | 0 <= i < |kept| ensures kept[i].eventSeq < last.eventSeq {
          assert kept[i] in before;
        }
      }
    }
  }

  /** A held event a page may bring: past the cursor and recent enough. */
  predicate Wanted(e: Stored, log: seq<Push>, historySize: Bound, afterSeq: Option<int>, threshold: Option<int>) {
    && e in Held(log, historySize)
    && (afterSeq.Some? ==> e.eventSeq > afterSeq.value)
    && (threshold.Some? ==> e.timestamp >= threshold.value)
  }

  /** Main result on pages: whatever the cursor and the age limit, a page brings
      wanted events only, in increasing order, and leaves out wanted ones only
      when it is full: later ones after a cursor, earlier ones without. */
  lemma PageIsExact(
    log: seq<Push>, historySize: Bound, afterSeq: Option<int>, threshold: Option<int>, limit: nat)
    requires limit >= 1
    ensures var r := Page(Held(log, historySize), afterSeq, threshold, limit);
      && |r| <= limit && Increasing(r)
      && (forall e :: e in r ==> Wanted(e, log, historySize, afterSeq, threshold))
      && (forall e :: Wanted(e, log, historySize, afterSeq, threshold) && e !in r ==>
            |r| == limit && if afterSeq.Some? then e.eventSeq > r[limit - 1].eventSeq else e.eventSeq < r[0].eventSeq)
  {
    hide SinceTime, Past, SortBy, Held;
    var held := Held(log, historySize);
    HeldIsBetween(log, historySize);
    assert Increasing(held);
    var past := if afterSeq.Some? then Past(held, afterSeq.value) else held;
    if afterSeq.Some? {
      PastKeeps(held, afterSeq.value);
    }
    var events := if threshold.Some? then SinceTime(past, threshold.value) else past;
    if threshold.Some? {
      SinceKeeps(past, threshold.value);
    }
    assert forall e :: e in events <==> Wanted(e, log, historySize, afterSeq, threshold);
    CutEnds(events, limit);
  }

  /** Cutting an increasing list leaves out what lies beyond the cut. */
  lemma CutEnds(events: seq<Stored>, limit: nat)
    requires limit >= 1 && Increasing(events)
    ensures |events| > limit ==>
              var first, last := events[..limit], LastN(events, limit);
              && Increasing(first) && Increasing(last) && |last| == limit
              && (forall e :: e in first || e in last ==> e in events)
              && (forall e :: e in events && e !in first ==> e.eventSeq > first[limit - 1].eventSeq)
              && (forall e :: e in events && e !in last ==> e.eventSeq < last[0].eventSeq)
  {
    if |events| > limit {
      var n := |events| - limit;
      assert events == events[..limit] + events[limit..] && events == events[..n] + events[n..];
      forall e | e in events[limit..] ensures e.eventSeq > events[limit - 1].eventSeq {
      }
      forall e | e in events[..n] ensures e.eventSeq < events[n].eventSeq {
      }
    }
  }
}
