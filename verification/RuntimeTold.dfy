/** What a runtime's record says after any run of events, in terms of the events. */
module RuntimeTold {
  import opened Sequences
  import opened RuntimeTrace

  /** The status in force at event `i`: the one it names, or the one before it. */
  ghost function Effective(s: Status, es: seq<(Event, int)>, i: int): string
    requires 0 <= i < |es|
  {
    if es[i].0.status.Some? then es[i].0.status.value else StatusAfter(s, es[..i]).status
  }

  lemma EffectiveBefore(s: Status, es: seq<(Event, int)>, i: int)
    requires 0 <= i < |es| - 1
    ensures Effective(s, es[..|es| - 1], i) == Effective(s, es, i)
  {
    assert es[..|es| - 1][..i] == es[..i];
  }

  /** The heartbeat is the last event's: the time it carries, or its arrival. */
  lemma HeartbeatIsLast(s: Status, es: seq<(Event, int)>)
    requires es != []
    ensures var (e, now) := es[|es| - 1];
            StatusAfter(s, es).lastHeartbeat == if e.lastHeartbeat.Some? then e.lastHeartbeat else Some(now)
  {
  }

  // ----- The last error -----

  /** The event carries an error, or is a state event that is running without one. */
  ghost predicate SetsError(s: Status, es: seq<(Event, int)>, i: int) {
    && 0 <= i < |es|
    && (es[i].0.error.Some? || (es[i].0.kind == State && Effective(s, es, i) == "running"))
  }

  lemma SetsErrorBefore(s: Status, es: seq<(Event, int)>, i: int)
    requires 0 <= i < |es| - 1
    ensures SetsError(s, es[..|es| - 1], i) <==> SetsError(s, es, i)
  {
    hide StatusAfter;
    EffectiveBefore(s, es, i);
  }

  lemma ErrorStep(s: Status, es: seq<(Event, int)>)
    requires es != []
    ensures var n := |es| - 1;
            StatusAfter(s, es).lastError
            == if SetsError(s, es, n) then es[n].0.error else StatusAfter(s, es[..n]).lastError
  {
  }

  /** Without such an event the error stays. */
  lemma {:induction false} ErrorStays(s: Status, es: seq<(Event, int)>)
    requires forall i :: 0 <= i < |es| ==> !SetsError(s, es, i)
    ensures StatusAfter(s, es).lastError == s.lastError
  {
    hide SetsError, ApplyStatus;
    if es == [] {
    } else {
      var n := |es| - 1;
      forall i | 0 <= i < n ensures !SetsError(s, es[..n], i) {
        SetsErrorBefore(s, es, i);
      }
      ErrorStays(s, es[..n]);
      ErrorStep(s, es);
    }
  }

  /** The last error is that of the last event that carried one, and none when the
      runtime was reported running since. */
  lemma {:induction false} ErrorIsLast(s: Status, es: seq<(Event, int)>, i: int)
    requires 0 <= i < |es| && SetsError(s, es, i)
    requires forall j :: i < j < |es| ==> !SetsError(s, es, j)
    ensures StatusAfter(s, es).lastError == es[i].0.error
  {
    hide SetsError, ApplyStatus, StatusAfter;
    var n := |es| - 1;
    ErrorStep(s, es);
    if i < n {
      forall j | i <= j < n ensures SetsError(s, es[..n], j) <==> SetsError(s, es, j) {
        SetsErrorBefore(s, es, j);
      }
      ErrorIsLast(s, es[..n], i);
    }
  }

  // ----- The stop time -----

  /** The event finds or makes the runtime stopped or failed. */
  ghost predicate Stops(s: Status, es: seq<(Event, int)>, i: int) {
    0 <= i < |es| && (Effective(s, es, i) == "stopped" || Effective(s, es, i) == "failed")
  }

  /** Such an event names its own stop time. */
  ghost predicate NamesStop(s: Status, es: seq<(Event, int)>, i: int) {
    Stops(s, es, i) && es[i].0.stoppedAt.Some?
  }

  lemma StopsBefore(s: Status, es: seq<(Event, int)>, i: int)
    requires 0 <= i < |es| - 1
    ensures Stops(s, es[..|es| - 1], i) <==> Stops(s, es, i)
    ensures NamesStop(s, es[..|es| - 1], i) <==> NamesStop(s, es, i)
  {
    hide StatusAfter;
    EffectiveBefore(s, es, i);
  }

  lemma StopStep(s: Status, es: seq<(Event, int)>)
    requires es != []
    ensures var n, before := |es| - 1, StatusAfter(s, es[..|es| - 1]).stoppedAt;
            StatusAfter(s, es).stoppedAt
            == if !Stops(s, es, n) then before
               else if es[n].0.stoppedAt.Some? then es[n].0.stoppedAt
               else if before.Some? then before else Some(es[n].1)
  {
  }

  /** The stop time is the last one an event that stops has named. */
  lemma {:induction false} StopTimeIsNamed(s: Status, es: seq<(Event, int)>, i: int)
    requires 0 <= i < |es| && NamesStop(s, es, i)
    requires forall j :: i < j < |es| ==> !NamesStop(s, es, j)
    ensures StatusAfter(s, es).stoppedAt == es[i].0.stoppedAt
  {
    var n := |es| - 1;
    StopStep(s, es);
    if i < n {
      assert !NamesStop(s, es, n);
      hide Stops, ApplyStatus, StatusAfter;
      forall j | i <= j < n ensures NamesStop(s, es[..n], j) <==> NamesStop(s, es, j) {
        StopsBefore(s, es, j);
      }
      StopTimeIsNamed(s, es[..n], i);
    }
  }

  /** Without a name, an earlier stop time stays. */
  lemma {:induction false} StopTimeStays(s: Status, es: seq<(Event, int)>)
    requires forall j :: 0 <= j < |es| ==> !NamesStop(s, es, j)
    requires s.stoppedAt.Some? || forall j :: 0 <= j < |es| ==> !Stops(s, es, j)
    ensures StatusAfter(s, es).stoppedAt == s.stoppedAt
  {
    if es == [] {
    } else {
      var n := |es| - 1;
      StopStep(s, es);
      assert !NamesStop(s, es, n);
      hide Stops, ApplyStatus, StatusAfter;
      forall j | 0 <= j < n
        ensures NamesStop(s, es[..n], j) <==> NamesStop(s, es, j)
        ensures Stops(s, es[..n], j) <==> Stops(s, es, j)
      {
        StopsBefore(s, es, j);
      }
      StopTimeStays(s, es[..n]);
    }
  }

  /** Without either, it is when the first event that stops came in. */
  lemma {:induction false} StopTimeIsFirst(s: Status, es: seq<(Event, int)>, i: int)
    requires s.stoppedAt.None? && 0 <= i < |es| && Stops(s, es, i)
    requires forall j :: 0 <= j < |es| ==> !NamesStop(s, es, j)
    requires forall j :: 0 <= j < i ==> !Stops(s, es, j)
    ensures StatusAfter(s, es).stoppedAt == Some(es[i].1)
  {
    var n := |es| - 1;
    StopStep(s, es);
    assert !NamesStop(s, es, n);
    hide Stops, ApplyStatus, StatusAfter;
    forall j | 0 <= j < n
      ensures NamesStop(s, es[..n], j) <==> NamesStop(s, es, j)
      ensures Stops(s, es[..n], j) <==> Stops(s, es, j)
    {
      StopsBefore(s, es, j);
    }
    if i == n {
      StopTimeStays(s, es[..n]);
    } else {
      StopTimeIsFirst(s, es[..n], i);
    }
  }

  // ----- The trace -----

  /** Every event but a heartbeat adds one entry: at its heartbeat time, named as
      it says, or after the status in force; with the payload it brought, its
      error, and for a state event the status, unless the payload has its own. */
  lemma EntryTells(s: Status, es: seq<(Event, int)>)
    requires es != []
    ensures var n := |es| - 1;
            var (e, now) := es[n];
            var status := Effective(s, es, n);
      if e.kind == Heartbeat then LogOf(s, es) == LogOf(s, es[..n])
      else
        && LogOf(s, es) != [] && LogOf(s, es)[..|LogOf(s, es)| - 1] == LogOf(s, es[..n])
        && var entry := LogOf(s, es)[|LogOf(s, es)| - 1];
           && entry.timestamp == (if e.lastHeartbeat.Some? then e.lastHeartbeat.value else now)
           && (e.eventType.Some? ==> entry.eventType == e.eventType.value)
           && (e.eventType.None? && e.kind == Trace ==> entry.eventType == "strategy_runtime_trace")
           && (e.eventType.None? && e.kind != Trace ==>
                 entry.eventType == if status in ["starting", "running", "stopping", "stopped", "failed"]
                                    then "runtime_" + status
                                    else if e.error.Some? then "runtime_failed" else "runtime_status")
           && (forall k :: k in e.payload ==> k in entry.payload && entry.payload[k] == e.payload[k])
           && (forall k :: k in entry.payload && k !in e.payload ==>
                 (k == "error" && e.error == Some(entry.payload[k]))
                 || (k == "status" && e.kind == State && entry.payload[k] == status))
           && (e.error.Some? ==> "error" in entry.payload)
           && (e.kind == State ==> "status" in entry.payload)
  {
    hide ApplyStatus, ResolveEventType;
    var n := |es| - 1;
    TypeNamed(es[n].0.kind, Effective(s, es, n), es[n].0.eventType, es[n].0.error);
  }

  lemma TypeNamed(kind: Kind, status: string, explicitType: Option<string>, error: Option<string>)
    ensures var t := ResolveEventType(kind, status, explicitType, error);
      && (explicitType.Some? ==> t == explicitType.value)
      && (explicitType.None? && kind == Trace ==> t == "strategy_runtime_trace")
      && (explicitType.None? && kind != Trace ==>
            t == if status in ["starting", "running", "stopping", "stopped", "failed"] then "runtime_" + status
                 else if error.Some? then "runtime_failed" else "runtime_status")
  {
  }
}
