/** Per-user event stream of the websocket manager: numbering, bounded history
    and bounded dedupe window, kept in memory. */
module EventLog {
  import opened Sequences

  /** A push: its dedupe key if it has one, and the event itself. */
  datatype Push = Push(key: Option<string>, timestamp: int, body: string)

  datatype Stored = Stored(eventSeq: int, timestamp: int, body: string)

  /** Everything the manager keeps about one user. */
  datatype Stream = Stream(sequence: int, history: seq<Stored>, dedupe: map<string, int>, order: seq<string>)

  const EMPTY := Stream(0, [], map[], [])

  type Bound = n: nat | n >= 1 witness 1

  /** The dedupe map and its eviction order hold the same keys, each once, at
      most `cacheSize` of them. */
  ghost predicate DedupeValid(dedupe: map<string, int>, order: seq<string>, cacheSize: Bound) {
    && Distinct(order) && |order| <= cacheSize
    && (forall k :: k in dedupe <==> k in order)
  }

  class WsManager {
    var eventSequences: map<int, int>
    var history: map<int, seq<Stored>>
    var dedupeSequences: map<int, map<string, int>>
    var dedupeOrder: map<int, seq<string>>
    const historySize: Bound
    const dedupeCacheSize: Bound

    function SequenceOf(user: int): int
      reads this`eventSequences
    {
      if user in eventSequences then eventSequences[user] else 0
    }

    function HistoryOf(user: int): seq<Stored>
      reads this`history
    {
      if user in history then history[user] else []
    }

    function DedupeOf(user: int): map<string, int>
      reads this`dedupeSequences
    {
      if user in dedupeSequences then dedupeSequences[user] else map[]
    }

    function OrderOf(user: int): seq<string>
      reads this`dedupeOrder
    {
      if user in dedupeOrder then dedupeOrder[user] else []
    }

    /** The stream of one user; a user never seen has the empty one. */
    function Of(user: int): Stream
      reads this
    {
      Stream(SequenceOf(user), HistoryOf(user), DedupeOf(user), OrderOf(user))
    }

    ghost predicate Valid()
      reads this`dedupeSequences, this`dedupeOrder
    {
      forall u :: DedupeValid(DedupeOf(u), OrderOf(u), dedupeCacheSize)
    }

    constructor (historySize: Bound, dedupeCacheSize: Bound)
      ensures Valid() && forall u :: Of(u) == EMPTY
      ensures this.historySize == historySize && this.dedupeCacheSize == dedupeCacheSize
    {
      eventSequences, history, dedupeSequences, dedupeOrder := map[], map[], map[], map[];
      this.historySize := historySize;
      this.dedupeCacheSize := dedupeCacheSize;
    }

    /** `_remember_dedupe_key`: the oldest keys make room for a new one. */
    method RememberDedupeKey(user: int, key: string, seqNo: int)
      requires Valid()
      modifies this`dedupeSequences, this`dedupeOrder
      ensures Valid()
      ensures Of(user) == Remembered(old(Of(user)), key, seqNo, dedupeCacheSize)
      ensures forall u :: u != user ==> DedupeOf(u) == old(DedupeOf(u)) && OrderOf(u) == old(OrderOf(u))
    {
      hide DedupeValid, Remembered;
      assert DedupeValid(DedupeOf(user), OrderOf(user), dedupeCacheSize);
      ghost var r := Remembered(Of(user), key, seqNo, dedupeCacheSize);
      RememberedValid(Of(user), key, seqNo, dedupeCacheSize);
      var sequences, order := EvictingRemember(Of(user), key, seqNo);
      dedupeSequences := dedupeSequences[user := sequences];
      dedupeOrder := dedupeOrder[user := order];
      assert DedupeOf(user) == r.dedupe && OrderOf(user) == r.order;
      forall u | u != user
        ensures DedupeOf(u) == old(DedupeOf(u)) && OrderOf(u) == old(OrderOf(u))
        ensures DedupeValid(DedupeOf(u), OrderOf(u), dedupeCacheSize)
      {
      }
    }

    /** The insertion and the eviction loop, on one user's entries. */
    method EvictingRemember(s: Stream, key: string, seqNo: int)
      returns (sequences: map<string, int>, order: seq<string>)
      requires DedupeValid(s.dedupe, s.order, dedupeCacheSize)
      ensures Remembered(s, key, seqNo, dedupeCacheSize) == s.(dedupe := sequences, order := order)
    {
      sequences, order := s.dedupe, s.order;
      if key in sequences {
        return;
      }
      sequences := sequences[key := seqNo];
      order := order + [key];
      ghost var full, all := order, sequences;
      while |order| > dedupeCacheSize
        invariant |full| <= dedupeCacheSize + 1
        invariant if |order| == |full| then order == full && sequences == all
                  else |order| == |full| - 1 == dedupeCacheSize && order == full[1..] && sequences == all - {full[0]}
      {
        var oldest := order[0];
        order := order[1..];
        sequences := sequences - {oldest};
      }
    }

    /** `_persist_memory_event`, one step under the sequence lock and history append. */
    method PersistMemoryEvent(user: int, push: Push) returns (stored: Option<Stored>)
      requires Valid()
      modifies this
      ensures Valid()
      ensures Of(user) == Pushed(old(Of(user)), push, historySize, dedupeCacheSize)
      ensures stored == if Suppressed(old(Of(user)), push) then None
                        else Some(Stored(old(Of(user)).sequence + 1, push.timestamp, push.body))
      ensures forall u :: u != user ==> Of(u) == old(Of(u))
    {
      hide DedupeValid, Remembered;
      if push.key.Some? && push.key.value in DedupeOf(user) {
        return None;
      }
      var newSeq := SequenceOf(user) + 1;
      eventSequences := eventSequences[user := newSeq];
      if push.key.Some? {
        RememberDedupeKey(user, push.key.value, newSeq);
      }
      var normalized := Stored(newSeq, push.timestamp, push.body);
      history := history[user := Append(HistoryOf(user), normalized, historySize)];
      stored := Some(normalized);
    }
  }

  function Remembered(s: Stream, key: string, seqNo: int, cacheSize: Bound): Stream {
    if key in s.dedupe then s
    else
      var order := s.order + [key];
      if |order| > cacheSize then s.(dedupe := s.dedupe[key := seqNo] - {order[0]}, order := order[1..])
      else s.(dedupe := s.dedupe[key := seqNo], order := order)
  }

  predicate Suppressed(s: Stream, push: Push) {
    push.key.Some? && push.key.value in s.dedupe
  }

  /** One user's stream after a push. */
  function Pushed(s: Stream, push: Push, historySize: Bound, cacheSize: Bound): Stream {
    if Suppressed(s, push) then s
    else
      var newSeq := s.sequence + 1;
      var numbered := s.(sequence := newSeq);
      var remembered := if push.key.Some? then Remembered(numbered, push.key.value, newSeq, cacheSize) else numbered;
      remembered.(history := Append(s.history, Stored(newSeq, push.timestamp, push.body), historySize))
  }

  lemma RememberedValid(s: Stream, key: string, seqNo: int, cacheSize: Bound)
    requires DedupeValid(s.dedupe, s.order, cacheSize)
    ensures var r := Remembered(s, key, seqNo, cacheSize);
            DedupeValid(r.dedupe, r.order, cacheSize)
  {
    var order := s.order + [key];
    if key !in s.dedupe && |order| > cacheSize {
      DropOldest(order);
    }
  }

  lemma DropOldest(order: seq<string>)
    requires order != [] && Distinct(order)
    ensures Distinct(order[1..])
    ensures forall k :: k in order[1..] <==> k in order && k != order[0]
  {
    assert order == [order[0]] + order[1..];
    forall k | k in order[1..] ensures k != order[0] {
      var j :| 0 <= j < |order| - 1 && order[1..][j] == k;
      assert order[j + 1] == k;
    }
  }

  function After(pushes: seq<Push>, historySize: Bound, cacheSize: Bound): Stream {
    if pushes == [] then EMPTY
    else Pushed(After(pushes[..|pushes| - 1], historySize, cacheSize), pushes[|pushes| - 1], historySize, cacheSize)
  }

  // ----- Reference: the unbounded list of accepted pushes -----

  /** The keys of accepted pushes, oldest first. */
  function Keys(accepted: seq<Push>): seq<string> {
    if accepted == [] then []
    else
      var last := accepted[|accepted| - 1];
      Keys(accepted[..|accepted| - 1]) + (if last.key.Some? then [last.key.value] else [])
  }

  /** The numbers of the accepted pushes that carry a key, oldest first. */
  function KeyNumbers(accepted: seq<Push>): (r: seq<int>)
    ensures |r| == |Keys(accepted)|
    ensures forall i :: 0 <= i < |r| ==> 1 <= r[i] <= |accepted|
    ensures forall i, j :: 0 <= i < j < |r| ==> r[i] < r[j]
  {
    if accepted == [] then []
    else
      KeyNumbers(accepted[..|accepted| - 1]) + (if accepted[|accepted| - 1].key.Some? then [|accepted|] else [])
  }

  /** The `k`-th accepted push as stored, counting from zero. */
  function EventAt(accepted: seq<Push>, k: nat): Stored
    requires k < |accepted|
  {
    Stored(k + 1, accepted[k].timestamp, accepted[k].body)
  }

  function Numbered(accepted: seq<Push>): (r: seq<Stored>)
    ensures |r| == |accepted|
    ensures forall i :: 0 <= i < |r| ==> r[i] == EventAt(accepted, i)
  {
    seq(|accepted|, i requires 0 <= i < |accepted| => EventAt(accepted, i))
  }

  /** The key is among the last `cacheSize` accepted keys. */
  predicate Repeats(accepted: seq<Push>, push: Push, cacheSize: Bound) {
    push.key.Some? && push.key.value in LastN(Keys(accepted), cacheSize)
  }

  /** The pushes that are not repeats of a recent key. */
  function Accepted(pushes: seq<Push>, cacheSize: Bound): seq<Push> {
    if pushes == [] then []
    else
      var before := Accepted(pushes[..|pushes| - 1], cacheSize);
      var push := pushes[|pushes| - 1];
      if Repeats(before, push, cacheSize) then before else before + [push]
  }

  /** The bounded stream agrees with the unbounded list. */
  ghost predicate Reflects(s: Stream, accepted: seq<Push>, historySize: Bound, cacheSize: Bound) {
    && s.sequence == |accepted|
    && s.history == LastN(Numbered(accepted), historySize)
    && s.order == LastN(Keys(accepted), cacheSize)
    && DedupeValid(s.dedupe, s.order, cacheSize)
    && forall i :: 0 <= i < |s.order| ==> s.dedupe[s.order[i]] == LastN(KeyNumbers(accepted), cacheSize)[i]
  }

  lemma SuppressedIsRepeat(s: Stream, accepted: seq<Push>, push: Push, historySize: Bound, cacheSize: Bound)
    requires Reflects(s, accepted, historySize, cacheSize)
    ensures Suppressed(s, push) <==> Repeats(accepted, push, cacheSize)
  {
  }

  lemma PushReflects(s: Stream, accepted: seq<Push>, push: Push, historySize: Bound, cacheSize: Bound)
    requires Reflects(s, accepted, historySize, cacheSize)
    ensures Suppressed(s, push) <==> Repeats(accepted, push, cacheSize)
    ensures var next := if Repeats(accepted, push, cacheSize) then accepted else accepted + [push];
            Reflects(Pushed(s, push, historySize, cacheSize), next, historySize, cacheSize)
  {
    hide LastN, Append, Remembered, DedupeValid;
    SuppressedIsRepeat(s, accepted, push, historySize, cacheSize);
    if !Repeats(accepted, push, cacheSize) {
      HistoryAppends(accepted, push, historySize);
      assert (accepted + [push])[..|accepted|] == accepted;
      if push.key.Some? {
        RememberReflects(s, accepted, push, historySize, cacheSize);
        RememberTouchesDedupe(s.(sequence := |accepted| + 1), push.key.value, |accepted| + 1, cacheSize);
      } else {
        assert Keys(accepted + [push]) == Keys(accepted) && KeyNumbers(accepted + [push]) == KeyNumbers(accepted);
      }
    }
  }

  lemma RememberTouchesDedupe(s: Stream, key: string, seqNo: int, cacheSize: Bound)
    ensures var r := Remembered(s, key, seqNo, cacheSize);
            r.sequence == s.sequence && r.history == s.history
  {
  }

  lemma HistoryAppends(accepted: seq<Push>, push: Push, historySize: Bound)
    ensures LastN(Numbered(accepted + [push]), historySize)
         == Append(LastN(Numbered(accepted), historySize),
                   Stored(|accepted| + 1, push.timestamp, push.body), historySize)
  {
    var e := Stored(|accepted| + 1, push.timestamp, push.body);
    assert Numbered(accepted + [push]) == Numbered(accepted) + [e];
    LastNOfAppend(Numbered(accepted), e, historySize);
  }

  lemma RememberReflects(s: Stream, accepted: seq<Push>, push: Push, historySize: Bound, cacheSize: Bound)
    requires Reflects(s, accepted, historySize, cacheSize)
    requires push.key.Some? && push.key.value !in s.dedupe
    ensures var r := Remembered(s.(sequence := |accepted| + 1), push.key.value, |accepted| + 1, cacheSize);
            var next := accepted + [push];
            && r.order == LastN(Keys(next), cacheSize)
            && DedupeValid(r.dedupe, r.order, cacheSize)
            && forall i :: 0 <= i < |r.order| ==> r.dedupe[r.order[i]] == LastN(KeyNumbers(next), cacheSize)[i]
  {
    hide DedupeValid, LastN, Keys, KeyNumbers, Remembered;
    var next, key := accepted + [push], push.key.value;
    KeysTake(accepted, push);
    RememberedValid(s.(sequence := |accepted| + 1), key, |accepted| + 1, cacheSize);
    AppendShift(Keys(accepted), key, cacheSize);
    AppendShift(KeyNumbers(accepted), |accepted| + 1, cacheSize);
    WindowShifts(s, LastN(KeyNumbers(accepted), cacheSize), key, |accepted| + 1, cacheSize);
    var r := Remembered(s.(sequence := |accepted| + 1), key, |accepted| + 1, cacheSize);
    assert r.order == LastN(Keys(next), cacheSize);
  }

  lemma KeysTake(accepted: seq<Push>, push: Push)
    requires push.key.Some?
    ensures Keys(accepted + [push]) == Keys(accepted) + [push.key.value]
    ensures KeyNumbers(accepted + [push]) == KeyNumbers(accepted) + [|accepted| + 1]
  {
    assert (accepted + [push])[..|accepted|] == accepted;
  }

  /** Keys and their numbers move through the window together. */
  lemma WindowShifts(s: Stream, numbers: seq<int>, key: string, seqNo: int, cacheSize: Bound)
    requires DedupeValid(s.dedupe, s.order, cacheSize) && key !in s.dedupe && |numbers| == |s.order|
    requires forall i :: 0 <= i < |s.order| ==> s.dedupe[s.order[i]] == numbers[i]
    ensures var r := Remembered(s.(sequence := seqNo), key, seqNo, cacheSize);
            var lost := if |numbers| < cacheSize then 0 else 1;
            && |r.order| == |numbers| + 1 - lost
            && r.order[|r.order| - 1] == key && r.order[|r.order| - 1] in r.dedupe && r.dedupe[key] == seqNo
            && forall i :: 0 <= i < |r.order| - 1 ==>
                 r.order[i] == s.order[i + lost] && r.order[i] in r.dedupe && r.dedupe[r.order[i]] == numbers[i + lost]
  {
  }

  /** Main result: after any pushes the accepted events are numbered 1, 2, 3, ...
      without gaps, the history is the last ones of them, the dedupe window is
      the last accepted keys with their numbers in increasing order. */
  lemma {:induction false} StreamReflects(pushes: seq<Push>, historySize: Bound, cacheSize: Bound)
    ensures Reflects(After(pushes, historySize, cacheSize), Accepted(pushes, cacheSize), historySize, cacheSize)
  {
    hide Reflects, Pushed, Repeats;
    if pushes == [] {
      EmptyReflects(historySize, cacheSize);
    } else {
      var n := |pushes| - 1;
      StreamReflects(pushes[..n], historySize, cacheSize);
      PushReflects(After(pushes[..n], historySize, cacheSize), Accepted(pushes[..n], cacheSize), pushes[n],
                   historySize, cacheSize);
    }
  }

  lemma EmptyReflects(historySize: Bound, cacheSize: Bound)
    ensures Reflects(EMPTY, [], historySize, cacheSize)
  {
  }

  /** A push is suppressed, changing nothing, exactly when its key is among the
      last `cacheSize` accepted keys. */
  lemma SuppressedIffRecent(pushes: seq<Push>, push: Push, historySize: Bound, cacheSize: Bound)
    ensures var s := After(pushes, historySize, cacheSize);
            Pushed(s, push, historySize, cacheSize) == s <==> Repeats(Accepted(pushes, cacheSize), push, cacheSize)
  {
    StreamReflects(pushes, historySize, cacheSize);
    PushReflects(After(pushes, historySize, cacheSize), Accepted(pushes, cacheSize), push, historySize, cacheSize);
  }
}
