/** The in-memory execution store: its maps, and what each method does to one execution. */
module MemoryStore {
  import opened Options
  import opened ExecutionDomain

  datatype Execution = Execution(record: Record, log: seq<Event>)
  datatype Store = Store(executions: map<string, Execution>, keys: map<string, string>)

  function Append(e: Execution, body: EventBody): Execution {
    e.(log := e.log + [Event(|e.log| + 1, body)])
  }

  predicate LeaseHeld(r: Record, token: string) {
    r.leaseToken == Some(token) && r.status == Running
  }

  /** The two parts of a retry that holds the lease: there is an await between its appends. */
  function RetryFirst(e: Execution, failure: Failure): Execution {
    var next := e.record.(status := Queued, failure := Some(failure), leaseToken := None, leaseUntil := None);
    Append(e.(record := next), ErrorEvent(failure))
  }

  function RetryLast(e: Execution): Execution {
    Append(e, StatusEvent(Queued))
  }

  /** The effect and answer of one method call on one stored execution. */
  function Step(e: Execution, call: Call): (Execution, Reply) {
    var r := e.record;
    match call
    case MarkRunning(token, until) =>
      if r.status != Queued then (e, Done(false))
      else
        var next := r.(status := Running, leaseToken := Some(token), leaseUntil := Some(until));
        (Append(e.(record := next), StatusEvent(Running)), Done(true))
    case UpdateProgress(token, progress, payload) =>
      if !LeaseHeld(r, token) then (e, Done(false))
      else
        var next := r.(progress := Clamp(progress));
        var body := ProgressEvent(if payload.Some? then Reported(payload.value) else Bare(next.progress));
        (Append(e.(record := next), body), Done(true))
    case Complete(token, result) =>
      if !LeaseHeld(r, token) then (e, Done(false))
      else
        var next := r.(status := Succeeded, result := result, failure := None, progress := 1.0,
                       leaseToken := None, leaseUntil := None);
        (Append(e.(record := next), CompleteEvent(result)), Done(true))
    case Fail(token, failure) =>
      if !LeaseHeld(r, token) then (e, Done(false))
      else
        var next := r.(status := Failed, result := None, failure := Some(failure),
                       leaseToken := None, leaseUntil := None);
        (Append(e.(record := next), ErrorEvent(failure)), Done(true))
    case Retry(token, failure) =>
      if !LeaseHeld(r, token) then (e, Done(false))
      else
        (RetryLast(RetryFirst(e, failure)), Done(true))
    case CancelRunning(token) =>
      if r.leaseToken != Some(token) || r.status !in {Running, Cancelling} then (e, Done(false))
      else
        var next := r.(status := Cancelled, leaseToken := None, leaseUntil := None);
        (Append(e.(record := next), StatusEvent(Cancelled)), Done(true))
    case Cancel =>
      if IsTerminal(r.status) then (e, Found(Some(r)))
      else
        var status := if r.status == Queued then Cancelled else Cancelling;
        if !CanTransition(r.status, status) then (e, Threw)
        else (Append(e.(record := r.(status := status)), StatusEvent(status)), Found(Some(r.(status := status))))
    case Get => (e, Found(Some(r)))
    case ListEvents(after) => (e, Listed(EventsAfter(e.log, after)))
  }

  function Apply(s: Store, id: string, call: Call): (Store, Reply) {
    if id !in s.executions then (s, ReplyForUnknown(call))
    else
      var (e, reply) := Step(s.executions[id], call);
      (s.(executions := s.executions[id := e]), reply)
  }

  function Create(s: Store, record: Record): (Store, Reply) {
    if record.idempotencyKey in s.keys || record.id in s.executions then (s, Threw)
    else
      (Store(s.executions[record.id := Append(Execution(record, []), StatusEvent(record.status))],
             s.keys[record.idempotencyKey := record.id]),
       Found(Some(record)))
  }

  function FindByKey(s: Store, key: string): Option<Record> {
    if key in s.keys && s.keys[key] in s.executions then Some(s.executions[s.keys[key]].record) else None
  }

  class InMemoryExecutionStore {
    var records: map<string, Record>
    var executionIdsByIdempotencyKey: map<string, string>
    var eventsByExecution: map<string, seq<Event>>

    /** Every event list belongs to a stored record, as nothing called AppendEvent for an unknown id, and is
        numbered from 1. */
    ghost predicate Valid()
      reads this
    {
      records.Keys == eventsByExecution.Keys && forall id :: id in eventsByExecution ==> Numbered(eventsByExecution[id])
    }

    function EventsOf(id: string): seq<Event>
      reads this
    {
      if id in eventsByExecution then eventsByExecution[id] else []
    }

    ghost function State(): Store
      reads this
      requires Valid()
    {
      Store(map id | id in records :: Execution(records[id], eventsByExecution[id]), executionIdsByIdempotencyKey)
    }

    constructor ()
      ensures Valid() && State() == Store(map[], map[])
    {
      records, executionIdsByIdempotencyKey, eventsByExecution := map[], map[], map[];
    }

    method CreateAndEnqueue(record: Record) returns (reply: Reply)
      requires Valid()
      modifies this
      ensures Valid() && (State(), reply) == Create(old(State()), record)
    {
      if record.idempotencyKey in executionIdsByIdempotencyKey || record.id in records {
        return Threw;
      }
      records := records[record.id := record];
      executionIdsByIdempotencyKey := executionIdsByIdempotencyKey[record.idempotencyKey := record.id];
      AppendEvent(record.id, StatusEvent(record.status));
      reply := Found(Some(record));
      assert State().executions == Create(old(State()), record).0.executions;
    }

    method FindByIdempotencyKey(key: string) returns (r: Option<Record>)
      requires Valid()
      ensures r == FindByKey(State(), key)
    {
      if key in executionIdsByIdempotencyKey && executionIdsByIdempotencyKey[key] in records {
        return Some(records[executionIdsByIdempotencyKey[key]]);
      }
      r := None;
    }

    /** Adds one event to the execution's list and keeps it numbered from 1. */
    method AppendEvent(id: string, body: EventBody)
      requires Numbered(EventsOf(id))
      modifies this`eventsByExecution
      ensures Numbered(EventsOf(id))
      ensures eventsByExecution ==
                old(eventsByExecution)[id := old(EventsOf(id)) + [Event(|old(EventsOf(id))| + 1, body)]]
    {
      var events := if id in eventsByExecution then eventsByExecution[id] else [];
      eventsByExecution := eventsByExecution[id := events + [Event(|events| + 1, body)]];
    }

    method MarkRunning(id: string, token: string, until: string) returns (ok: bool)
      requires Valid()
      modifies this`records, this`eventsByExecution
      ensures Valid() && (State(), Done(ok)) == Apply(old(State()), id, Call.MarkRunning(token, until))
    {
      Unchanged(State(), id, Call.MarkRunning(token, until));
      if id !in records || records[id].status != Queued {
        return false;
      }
      assert CanTransition(records[id].status, Running);
      records := records[id := records[id].(status := Running, leaseToken := Some(token), leaseUntil := Some(until))];
      AppendEvent(id, StatusEvent(Running));
      ok := true;
      assert State().executions == Apply(old(State()), id, Call.MarkRunning(token, until)).0.executions;
    }

    method UpdateProgress(id: string, token: string, progress: real, payload: Option<Json>) returns (ok: bool)
      requires Valid()
      modifies this`records, this`eventsByExecution
      ensures Valid() && (State(), Done(ok)) == Apply(old(State()), id, Call.UpdateProgress(token, progress, payload))
    {
      Unchanged(State(), id, Call.UpdateProgress(token, progress, payload));
      if id !in records || records[id].leaseToken != Some(token) || records[id].status != Running {
        return false;
      }
      records := records[id := records[id].(progress := Clamp(progress))];
      AppendEvent(id, ProgressEvent(if payload.Some? then Reported(payload.value) else Bare(records[id].progress)));
      ok := true;
      assert State().executions == Apply(old(State()), id, Call.UpdateProgress(token, progress, payload)).0.executions;
    }

    method Complete(id: string, token: string, result: Option<Json>) returns (ok: bool)
      requires Valid()
      modifies this`records, this`eventsByExecution
      ensures Valid() && (State(), Done(ok)) == Apply(old(State()), id, Call.Complete(token, result))
    {
      Unchanged(State(), id, Call.Complete(token, result));
      ok := Finish(id, token, Succeeded, result, None);
      assert ok ==> State().executions == Apply(old(State()), id, Call.Complete(token, result)).0.executions;
    }

    method Fail(id: string, token: string, failure: Failure) returns (ok: bool)
      requires Valid()
      modifies this`records, this`eventsByExecution
      ensures Valid() && (State(), Done(ok)) == Apply(old(State()), id, Call.Fail(token, failure))
    {
      Unchanged(State(), id, Call.Fail(token, failure));
      ok := Finish(id, token, Failed, None, Some(failure));
      assert ok ==> State().executions == Apply(old(State()), id, Call.Fail(token, failure)).0.executions;
    }

    method Finish(id: string, token: string, status: Status, result: Option<Json>, failure: Option<Failure>)
      returns (ok: bool)
      requires Valid()
      requires status == Succeeded || (status == Failed && failure.Some?)
      modifies this`records, this`eventsByExecution
      ensures Valid()
      ensures ok <==> id in old(records) && LeaseHeld(old(records[id]), token)
      ensures !ok ==> State() == old(State())
      ensures ok ==>
        var e := old(State()).executions[id];
        var next := e.record.(status := status, result := result, failure := failure, leaseToken := None,
            leaseUntil := None,
                              progress := if status == Succeeded then 1.0 else e.record.progress);
        var body := if status == Succeeded then CompleteEvent(result) else ErrorEvent(failure.value);
        State() == old(State()).(executions := old(State()).executions[id := Append(e.(record := next), body)])
    {
      if id !in records || records[id].leaseToken != Some(token) || records[id].status != Running {
        return false;
      }
      assert CanTransition(records[id].status, status);
      var current := records[id];
      records := records[id := current.(status := status, result := result, failure := failure,
                          progress := if status == Succeeded then 1.0 else current.progress,
                          leaseToken := None, leaseUntil := None)];
      AppendEvent(id, if status == Succeeded then CompleteEvent(result) else ErrorEvent(failure.value));
      ok := true;
      assert State().executions == old(State()).executions[id := Execution(records[id], eventsByExecution[id])];
    }

    method Retry(id: string, token: string, failure: Failure) returns (ok: bool)
      requires Valid()
      modifies this`records, this`eventsByExecution
      ensures Valid() && (State(), Done(ok)) == Apply(old(State()), id, Call.Retry(token, failure))
    {
      Unchanged(State(), id, Call.Retry(token, failure));
      if id !in records || records[id].leaseToken != Some(token) || records[id].status != Running {
        return false;
      }
      records := records[id := records[id].(status := Queued, failure := Some(failure), leaseToken := None,
          leaseUntil := None)];
      AppendEvent(id, ErrorEvent(failure));
      AppendEvent(id, StatusEvent(Queued));
      ok := true;
      assert State().executions == Apply(old(State()), id, Call.Retry(token, failure)).0.executions;
    }

    method CancelRunning(id: string, token: string) returns (ok: bool)
      requires Valid()
      modifies this`records, this`eventsByExecution
      ensures Valid() && (State(), Done(ok)) == Apply(old(State()), id, Call.CancelRunning(token))
    {
      Unchanged(State(), id, Call.CancelRunning(token));
      if id !in records || records[id].leaseToken != Some(token) || records[id].status !in {Running, Cancelling} {
        return false;
      }
      records := records[id := records[id].(status := Cancelled, leaseToken := None, leaseUntil := None)];
      AppendEvent(id, StatusEvent(Cancelled));
      ok := true;
      assert State().executions == Apply(old(State()), id, Call.CancelRunning(token)).0.executions;
    }

    method Cancel(id: string) returns (reply: Reply)
      requires Valid()
      modifies this`records, this`eventsByExecution
      ensures Valid() && (State(), reply) == Apply(old(State()), id, Call.Cancel)
    {
      Unchanged(State(), id, Call.Cancel);
      if id !in records {
        return Found(None);
      }
      var current := records[id];
      if current.status == Succeeded || current.status == Failed || current.status == Cancelled {
        return Found(Some(current));
      }
      var next := if current.status == Queued then Cancelled else Cancelling;
      if !CanTransition(current.status, next) {
        return Threw;
      }
      records := records[id := current.(status := next)];
      AppendEvent(id, StatusEvent(next));
      reply := Found(Some(records[id]));
      assert State().executions == Apply(old(State()), id, Call.Cancel).0.executions;
    }

    method Get(id: string) returns (r: Option<Record>)
      requires Valid()
      ensures (State(), Found(r)) == Apply(State(), id, Call.Get)
    {
      Unchanged(State(), id, Call.Get);
      r := if id in records then Some(records[id]) else None;
    }

    method ListEvents(id: string, after: nat) returns (r: seq<Event>)
      requires Valid()
      ensures (State(), Listed(r)) == Apply(State(), id, Call.ListEvents(after))
    {
      Unchanged(State(), id, Call.ListEvents(after));
      r := if id in eventsByExecution then EventsAfter(eventsByExecution[id], after) else [];
    }
  }

  /** A call that does not change the execution leaves the whole store as it was. */
  lemma Unchanged(s: Store, id: string, call: Call)
    ensures id in s.executions && Step(s.executions[id], call).0 == s.executions[id] ==> Apply(s, id, call).0 == s
  {
    if id in s.executions && Step(s.executions[id], call).0 == s.executions[id] {
      assert Apply(s, id, call).0.executions == s.executions;
    }
  }
}
