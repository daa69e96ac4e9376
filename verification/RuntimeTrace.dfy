/** Producer side of the runtime audit trail: the supervisor's view of one
    strategy process and its bounded trace history. */
module RuntimeTrace {
  import opened Sequences

  datatype Kind = State | Heartbeat | Trace | Other

  type Payload = map<string, string>

  /** A message from the strategy process; absent and empty fields are `None`. */
  datatype Event = Event(
    kind: Kind,
    status: Option<string>,
    lastHeartbeat: Option<int>,
    stoppedAt: Option<int>,
    error: Option<string>,
    eventType: Option<string>,
    payload: Payload)

  /** A trace entry before it is numbered. */
  datatype Entry = Entry(eventType: string, timestamp: int, payload: Payload)

  datatype TraceEvent = TraceEvent(seqNo: int, eventType: string, timestamp: int, payload: Payload)

  datatype Status = Status(
    status: string,
    lastHeartbeat: Option<int>,
    stoppedAt: Option<int>,
    lastError: Option<string>)

  function GetOr<T>(o: Option<T>, default: T): T {
    if o.Some? then o.value else default
  }

  function ResolveEventType(kind: Kind, status: string, explicitType: Option<string>, error: Option<string>): string {
    if explicitType.Some? then explicitType.value
    else if kind == Trace then "strategy_runtime_trace"
    else if status == "starting" then "runtime_starting"
    else if status == "running" then "runtime_running"
    else if status == "stopping" then "runtime_stopping"
    else if status == "stopped" then "runtime_stopped"
    else if status == "failed" then "runtime_failed"
    else if error.Some? then "runtime_failed"
    else "runtime_status"
  }

  /** The liveness part of an event. */
  function ApplyStatus(s: Status, e: Event, now: int): Status {
    var status := GetOr(e.status, s.status);
    Status(
      if e.kind != Trace then status else s.status,
      Some(GetOr(e.lastHeartbeat, now)),
      if status == "stopped" || status == "failed" then
        (if e.stoppedAt.Some? then e.stoppedAt else if s.stoppedAt.Some? then s.stoppedAt else Some(now))
      else s.stoppedAt,
      if e.error.Some? then e.error
      else if e.kind == State && status == "running" then None
      else s.lastError)
  }

  /** The entry an event adds to the trace; heartbeats add none. */
  function EntryOf(s: Status, e: Event, now: int): Option<Entry> {
    if e.kind == Heartbeat then None
    else
      var status := GetOr(e.status, s.status);
      var withError :=
        if e.error.Some? && "error" !in e.payload then e.payload["error" := e.error.value] else e.payload;
      var payload := if e.kind == State && "status" !in withError then withError["status" := status] else withError;
      Some(Entry(ResolveEventType(e.kind, status, e.eventType, e.error), GetOr(e.lastHeartbeat, now), payload))
  }

  // ----- Reference: the unbounded log -----

  function StatusAfter(s: Status, es: seq<(Event, int)>): Status {
    if es == [] then s
    else ApplyStatus(StatusAfter(s, es[..|es| - 1]), es[|es| - 1].0, es[|es| - 1].1)
  }

  /** Every entry ever traced, oldest first. */
  function LogOf(s: Status, es: seq<(Event, int)>): seq<Entry> {
    if es == [] then []
    else
      var n := |es| - 1;
      match EntryOf(StatusAfter(s, es[..n]), es[n].0, es[n].1)
      case Some(entry) => LogOf(s, es[..n]) + [entry]
      case None => LogOf(s, es[..n])
  }

  function Spoken(es: seq<(Event, int)>): nat {
    if es == [] then 0 else Spoken(es[..|es| - 1]) + (if es[|es| - 1].0.kind == Heartbeat then 0 else 1)
  }

  /** Exactly the heartbeats leave no trace. */
  lemma {:induction false} OnlyHeartbeatsAreSilent(s: Status, es: seq<(Event, int)>)
    ensures |LogOf(s, es)| == Spoken(es)
  {
    hide StatusAfter, ResolveEventType;
    if es == [] {
    } else {
      OnlyHeartbeatsAreSilent(s, es[..|es| - 1]);
    }
  }

  /** The event says which status the runtime is in. */
  predicate Reports(e: Event) {
    e.kind != Trace && e.status.Some?
  }

  ghost predicate LastReport(es: seq<(Event, int)>, i: int) {
    && 0 <= i < |es| && Reports(es[i].0)
    && forall j :: i < j < |es| ==> !Reports(es[j].0)
  }

  lemma ReportSetsStatus(s: Status, e: Event, now: int)
    ensures ApplyStatus(s, e, now).status == if Reports(e) then e.status.value else s.status
  {
  }

  /** After any run the status is the last one reported, if any was: trace
      events never change it. */
  lemma {:induction false} StatusIsLastReported(s: Status, es: seq<(Event, int)>)
    ensures if exists i :: LastReport(es, i)
            then exists i :: 0 <= i < |es| && LastReport(es, i) && es[i].0.status == Some(StatusAfter(s, es).status)
            else StatusAfter(s, es).status == s.status && forall i :: 0 <= i < |es| ==> !Reports(es[i].0)
  {
    hide ApplyStatus, Reports, LastReport;
    if es == [] {
      NoReport();
    } else {
      var n := |es| - 1;
      StatusIsLastReported(s, es[..n]);
      ReportSetsStatus(StatusAfter(s, es[..n]), es[n].0, es[n].1);
      assert es == es[..n] + [es[n]];
      ReportSnoc(es[..n], es[n]);
    }
  }

  lemma NoReport()
    ensures forall i :: !LastReport([], i)
  {
  }

  lemma ReportSnoc(before: seq<(Event, int)>, last: (Event, int))
    ensures var es := before + [last];
            if Reports(last.0) then LastReport(es, |before|) && last.0.status.Some?
            else forall i :: LastReport(es, i) <==> LastReport(before, i)
    ensures forall i :: LastReport(before, i) ==> 0 <= i < |before|
  {
    var es := before + [last];
    assert forall j :: 0 <= j < |before| ==> es[j] == before[j];
    if !Reports(last.0) {
      forall i ensures LastReport(es, i) <==> LastReport(before, i) {
        if LastReport(before, i) {
          assert es[i] == before[i];
        }
        if LastReport(es, i) {
          assert i < |before| && es[i] == before[i];
          assert forall j :: i < j < |before| ==> es[j] == before[j];
        }
      }
    }
  }

  predicate Terminal(status: string) {
    status == "stopped" || status == "failed"
  }

  /** A runtime reported stopped or failed has a stop time, and a stop time once
      set is never lost. */
  lemma {:induction false} TerminalHasStopTime(s: Status, es: seq<(Event, int)>)
    requires Terminal(s.status) ==> s.stoppedAt.Some?
    ensures Terminal(StatusAfter(s, es).status) ==> StatusAfter(s, es).stoppedAt.Some?
    ensures s.stoppedAt.Some? ==> StatusAfter(s, es).stoppedAt.Some?
  {
    if es == [] {
    } else {
      TerminalHasStopTime(s, es[..|es| - 1]);
    }
  }

  function Numbered(log: seq<Entry>): (r: seq<TraceEvent>)
    ensures |r| == |log|
    ensures forall i :: 0 <= i < |log| ==> r[i] == TraceEvent(i + 1, log[i].eventType, log[i].timestamp, log[i].payload)
  {
    seq(|log|, i requires 0 <= i < |log| => TraceEvent(i + 1, log[i].eventType, log[i].timestamp, log[i].payload))
  }

  /** The part of a log a supervisor with this history size still holds; a size
      of zero or less keeps everything. */
  function Held(log: seq<Entry>, historySize: int): seq<TraceEvent> {
    if historySize > 0 then LastN(Numbered(log), historySize) else Numbered(log)
  }

  function CountOf(log: seq<Entry>, eventType: string): nat {
    if log == [] then 0
    else CountOf(log[..|log| - 1], eventType) + (if log[|log| - 1].eventType == eventType then 1 else 0)
  }

  lemma HeldAppends(log: seq<Entry>, entry: Entry, historySize: int)
    ensures var e := TraceEvent(|log| + 1, entry.eventType, entry.timestamp, entry.payload);
            Held(log + [entry], historySize)
            == if historySize > 0 then LastN(Held(log, historySize) + [e], historySize)
               else Held(log, historySize) + [e]
  {
    var e := TraceEvent(|log| + 1, entry.eventType, entry.timestamp, entry.payload);
    assert Numbered(log + [entry]) == Numbered(log) + [e];
    if historySize > 0 {
      LastNOfAppend(Numbered(log), e, historySize);
    }
  }

  // ----- The supervisor's record -----

  class Runtime {
    var status: Status
    var lastEventSeq: int
    var lastEventType: Option<string>
    var lastEventAt: Option<int>
    var orderSubmittedCount: int
    var orderUpdateCount: int
    var tradeFillCount: int
    var recentEvents: seq<TraceEvent>

    /** The record agrees with the unbounded log it stands for. */
    ghost predicate Follows(log: seq<Entry>, historySize: int)
      reads this
    {
      && lastEventSeq == |log|
      && recentEvents == Held(log, historySize)
      && lastEventType == (if log == [] then None else Some(log[|log| - 1].eventType))
      && lastEventAt == (if log == [] then None else Some(log[|log| - 1].timestamp))
    }

    ghost predicate Counts(log: seq<Entry>)
      reads this
    {
      && orderSubmittedCount == CountOf(log, "order_submitted")
      && orderUpdateCount == CountOf(log, "order_status_update")
      && tradeFillCount == CountOf(log, "trade_filled")
    }

    constructor (startedAt: int, historySize: int)
      ensures status == Status("starting", Some(startedAt), None, None)
      ensures Follows([], historySize) && Counts([])
    {
      status := Status("starting", Some(startedAt), None, None);
      lastEventSeq, lastEventType, lastEventAt := 0, None, None;
      orderSubmittedCount, orderUpdateCount, tradeFillCount := 0, 0, 0;
      recentEvents := [];
    }

    /** `_append_runtime_trace_event`. */
    method AppendTraceEvent(entry: Entry, historySize: int, ghost log: seq<Entry>)
      requires Follows(log, historySize)
      modifies this`lastEventSeq, this`lastEventType, this`lastEventAt, this`recentEvents
      ensures Follows(log + [entry], historySize)
    {
      HeldAppends(log, entry, historySize);
      lastEventSeq := lastEventSeq + 1;
      lastEventType := Some(entry.eventType);
      lastEventAt := Some(entry.timestamp);
      recentEvents := recentEvents + [TraceEvent(lastEventSeq, entry.eventType, entry.timestamp, entry.payload)];
      if historySize > 0 && |recentEvents| > historySize {
        recentEvents := recentEvents[|recentEvents| - historySize..];
      }
    }

    /** The liveness fields an event of any kind refreshes. */
    method Refresh(e: Event, now: int)
      modifies this`status
      ensures status == ApplyStatus(old(status), e, now)
    {
      var newStatus := GetOr(e.status, status.status);
      status := status.(lastHeartbeat := Some(GetOr(e.lastHeartbeat, now)));
      if e.kind != Trace {
        status := status.(status := newStatus);
      }
      if e.error.Some? {
        status := status.(lastError := e.error);
      } else if e.kind == State && newStatus == "running" {
        status := status.(lastError := None);
      }
      if newStatus == "stopped" || newStatus == "failed" {
        status := status.(stoppedAt := if e.stoppedAt.Some? then e.stoppedAt
                                       else if status.stoppedAt.Some? then status.stoppedAt else Some(now));
      }
    }

    method Count(entry: Entry, ghost log: seq<Entry>)
      requires Counts(log)
      modifies this`orderSubmittedCount, this`orderUpdateCount, this`tradeFillCount
      ensures Counts(log + [entry])
      ensures orderSubmittedCount
           == old(orderSubmittedCount) + (if entry.eventType == "order_submitted" then 1 else 0)
      ensures orderUpdateCount
           == old(orderUpdateCount) + (if entry.eventType == "order_status_update" then 1 else 0)
      ensures tradeFillCount == old(tradeFillCount) + (if entry.eventType == "trade_filled" then 1 else 0)
    {
      assert (log + [entry])[..|log|] == log;
      if entry.eventType == "order_submitted" {
        orderSubmittedCount := orderSubmittedCount + 1;
      } else if entry.eventType == "order_status_update" {
        orderUpdateCount := orderUpdateCount + 1;
      } else if entry.eventType == "trade_filled" {
        tradeFillCount := tradeFillCount + 1;
      }
    }

    /** `_apply_runtime_event`: the record follows the log through any event. */
    method ApplyEvent(e: Event, historySize: int, now: int, ghost log: seq<Entry>)
      requires Follows(log, historySize) && Counts(log)
      modifies this
      ensures status == ApplyStatus(old(status), e, now)
      ensures var next := match EntryOf(old(status), e, now) case Some(entry) => log + [entry] case None => log;
              Follows(next, historySize) && Counts(next)
      ensures var told := EntryOf(old(status), e, now);
        && orderSubmittedCount
           == old(orderSubmittedCount) + (if told.Some? && told.value.eventType == "order_submitted" then 1 else 0)
        && orderUpdateCount
           == old(orderUpdateCount) + (if told.Some? && told.value.eventType == "order_status_update" then 1 else 0)
        && tradeFillCount
           == old(tradeFillCount) + (if told.Some? && told.value.eventType == "trade_filled" then 1 else 0)
    {
      hide Held, CountOf, ResolveEventType;
      ghost var before := status;
      var newStatus := GetOr(e.status, status.status);
      Refresh(e, now);
      if e.kind == Heartbeat {
        return;
      }
      var payload := e.payload;
      if e.error.Some? && "error" !in payload {
        payload := payload["error" := e.error.value];
      }
      if e.kind == State && "status" !in payload {
        payload := payload["status" := newStatus];
      }
      var eventType := ResolveEventType(e.kind, newStatus, e.eventType, e.error);
      var entry := Entry(eventType, GetOr(e.lastHeartbeat, now), payload);
      assert EntryOf(before, e, now) == Some(entry);
      AppendTraceEvent(entry, historySize, log);
      Count(entry, log);
    }

    /** `_mark_runtime_failed`, once the process is gone. */
    method MarkFailed(error: string, historySize: int, now: int, ghost log: seq<Entry>)
      requires Follows(log, historySize) && Counts(log)
      modifies this
      ensures status == Status("failed", Some(now),
                               Some(GetOr(old(status).stoppedAt, now)), Some(GetOr(old(status).lastError, error)))
      ensures var entry := Entry("runtime_failed", now, map["error" := GetOr(old(status).lastError, error)]);
              Follows(log + [entry], historySize) && Counts(log + [entry])
    {
      var lastError := GetOr(status.lastError, error);
      status := Status("failed", Some(now), Some(GetOr(status.stoppedAt, now)), Some(lastError));
      var entry := Entry("runtime_failed", now, map["error" := lastError]);
      assert (log + [entry])[..|log|] == log;
      AppendTraceEvent(entry, historySize, log);
    }
  }
}
