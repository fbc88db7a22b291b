/** The Postgres execution store: what each transaction does, and the store that runs it. */
module PostgresStore {
  import opened Options
  import opened ExecutionDomain

  datatype Job = Job(executionId: string, kind: Kind, jobKey: string, input: Json)

  /** A row of ivory_executions with its event counter, and its rows of ivory_execution_events. */
  datatype Row = Row(record: Record, nextEventSequence: nat)
  datatype Execution = Execution(row: Row, log: seq<Event>)

  datatype Store = Store(executions: map<string, Execution>, jobs: seq<Job>)

  function Append(e: Execution, body: EventBody): Execution {
    var n := e.row.nextEventSequence + 1;
    Execution(e.row.(nextEventSequence := n), e.log + [Event(n, body)])
  }

  function WithRecord(e: Execution, record: Record): Execution {
    e.(row := e.row.(record := record))
  }

  predicate Holds(r: Record, token: string) {
    r.leaseToken == Some(token)
  }

  function Released(r: Record, status: Status): Record {
    r.(status := status, leaseToken := None, leaseUntil := None)
  }

  /** The effect and answer of one store call on one execution: the row is written, then the events. */
  function Step(e: Execution, call: Call): (Execution, Reply) {
    var r := e.row.record;
    match call
    case MarkRunning(token, until) =>
      if r.status != Queued then (e, Done(false))
      else
        var next := r.(status := Running, leaseToken := Some(token), leaseUntil := Some(until),
            attempt := r.attempt + 1);
        (Append(WithRecord(e, next), StatusEvent(Running)), Done(true))
    case UpdateProgress(token, progress, payload) =>
      if !Holds(r, token) || r.status != Running then (e, Done(false))
      else
        var body := ProgressEvent(if payload.Some? then Reported(payload.value) else Bare(progress));
        (Append(WithRecord(e, r.(progress := Clamp(progress))), body), Done(true))
    case Complete(token, result) =>
      if !Holds(r, token) || r.status != Running then (e, Done(false))
      else
        var next := Released(r, Succeeded).(result := result, failure := None, progress := 1.0);
        (Append(WithRecord(e, next), CompleteEvent(result)), Done(true))
    case Fail(token, failure) =>
      if !Holds(r, token) || r.status != Running then (e, Done(false))
      else
        var next := Released(r, Failed).(result := None, failure := Some(failure));
        (Append(WithRecord(e, next), ErrorEvent(failure)), Done(true))
    case Retry(token, failure) =>
      if !Holds(r, token) || r.status != Running then (e, Done(false))
      else
        var next := Released(r, Queued).(failure := Some(failure));
        (Append(Append(WithRecord(e, next), ErrorEvent(failure)), StatusEvent(Queued)), Done(true))
    case CancelRunning(token) =>
      if !Holds(r, token) || !(r.status == Running || r.status == Cancelling) then (e, Done(false))
      else (Append(WithRecord(e, Released(r, Cancelled)), StatusEvent(Cancelled)), Done(true))
    case Cancel =>
      if !(r.status == Queued || r.status == Running) then (e, Found(Some(r)))
      else
        var next := r.(status := if r.status == Queued then Cancelled else Cancelling);
        (Append(WithRecord(e, next), StatusEvent(next.status)), Found(Some(next)))
    case Get => (e, Found(Some(r)))
    case ListEvents(after) => (e, Listed(EventsAfter(e.log, after)))
  }

  function Apply(s: Store, id: string, call: Call): (Store, Reply) {
    if id !in s.executions then (s, ReplyForUnknown(call))
    else
      var (e, reply) := Step(s.executions[id], call);
      (s.(executions := s.executions[id := e]), reply)
  }

  ghost predicate HasKey(s: Store, id: string, key: string) {
    id in s.executions && s.executions[id].row.record.idempotencyKey == key
  }

  /** The primary key and the unique idempotency key. */
  ghost predicate Insertable(s: Store, record: Record) {
    record.id !in s.executions && forall id :: !HasKey(s, id, record.idempotencyKey)
  }

  /** The insert lists no lease column and writes null for result and failure. */
  function NewExecution(record: Record): Execution {
    var row := Row(record.(leaseToken := None, leaseUntil := None, result := None, failure := None), 0);
    Append(Execution(row, []), StatusEvent(record.status))
  }

  ghost function Create(s: Store, record: Record, job: Job): (Store, Reply) {
    if !Insertable(s, record) then (s, Threw)
    else (Store(s.executions[record.id := NewExecution(record)], s.jobs + [job]), Found(Some(record)))
  }

  ghost predicate UniqueKeys(s: Store) {
    forall i, j, key :: HasKey(s, i, key) && HasKey(s, j, key) ==> i == j
  }

  ghost function FindByKey(s: Store, key: string): (r: Option<Record>)
    ensures r == None <==> forall id :: !HasKey(s, id, key)
    ensures r.Some? ==> exists id :: HasKey(s, id, key) && r.value == s.executions[id].row.record
  {
    if id :| HasKey(s, id, key) then Some(s.executions[id].row.record) else None
  }

  class PostgresExecutionStore {
    var executions: map<string, Row>
    var events: map<string, seq<Event>>
    var jobs: seq<Job>

    ghost predicate Valid()
      reads this
    {
      executions.Keys == events.Keys && UniqueKeys(State())
    }

    ghost function State(): Store
      reads this
      requires executions.Keys == events.Keys
    {
      Store(map id | id in executions :: Execution(executions[id], events[id]), jobs)
    }

    constructor ()
      ensures Valid() && State() == Store(map[], [])
    {
      executions, events, jobs := map[], map[], [];
    }

    method AppendEventWithClient(id: string, body: EventBody)
      requires executions.Keys == events.Keys && id in executions
      modifies this`executions, this`events
      ensures executions.Keys == events.Keys == old(executions).Keys
      ensures State() == old(State()).(executions :=
                old(State()).executions[id := Append(old(State()).executions[id], body)])
    {
      var sequence := executions[id].nextEventSequence + 1;
      executions := executions[id := executions[id].(nextEventSequence := sequence)];
      events := events[id := events[id] + [Event(sequence, body)]];
    }

    /** Write the row of an execution and append its first event. */
    method UpdateAndAppend(id: string, record: Record, body: EventBody)
      requires executions.Keys == events.Keys && id in executions
      modifies this`executions, this`events
      ensures executions.Keys == events.Keys == old(executions).Keys
      ensures var e := Append(WithRecord(old(State()).executions[id], record), body);
              State() == old(State()).(executions := old(State()).executions[id := e])
    {
      executions := executions[id := executions[id].(record := record)];
      AppendEventWithClient(id, body);
      assert State().executions ==
               old(State()).executions[id := Append(WithRecord(old(State()).executions[id], record), body)];
    }

    method CreateAndEnqueue(record: Record, job: Job) returns (reply: Reply)
      requires Valid()
      modifies this
      ensures Valid()
      ensures (State(), reply) == Create(old(State()), record, job)
    {
      if record.id in executions || exists id | id in executions ::
          executions[id].record.idempotencyKey == record.idempotencyKey {
        assert !Insertable(State(), record) by {
          if record.id !in executions {
            var id :| id in executions && executions[id].record.idempotencyKey == record.idempotencyKey;
            assert HasKey(State(), id, record.idempotencyKey);
          }
        }
        return Threw;
      }
      assert Insertable(State(), record);
      executions := executions[record.id := Row(record.(leaseToken := None, leaseUntil := None, result := None,
          failure := None), 0)];
      events := events[record.id := []];
      AppendEventWithClient(record.id, StatusEvent(record.status));
      jobs := jobs + [job];
      reply := Found(Some(record));
      UniqueAfterInsert(old(State()), record, job);
      assert State().executions == Create(old(State()), record, job).0.executions;
    }

    method FindByIdempotencyKey(key: string) returns (r: Option<Record>)
      requires Valid()
      ensures r == FindByKey(State(), key)
    {
      var ids := set id | id in executions && executions[id].record.idempotencyKey == key;
      if ids == {} {
        assert forall id :: HasKey(State(), id, key) ==> id in ids;
        return None;
      }
      var id :| id in ids;
      assert HasKey(State(), id, key);
      r := Some(executions[id].record);
    }

    method MarkRunning(id: string, token: string, until: string) returns (ok: bool)
      requires Valid()
      modifies this`executions, this`events
      ensures Valid() && (State(), Done(ok)) == Apply(old(State()), id, Call.MarkRunning(token, until))
    {
      StepFacts(State(), id, Call.MarkRunning(token, until));
      if id !in executions || executions[id].record.status != Queued {
        return false;
      }
      var r := executions[id].record;
      UpdateAndAppend(id, r.(status := Running, leaseToken := Some(token), leaseUntil := Some(until),
          attempt := r.attempt + 1),
                      StatusEvent(Running));
      ok := true;
      assert State().executions == Apply(old(State()), id, Call.MarkRunning(token, until)).0.executions;
    }

    method UpdateProgress(id: string, token: string, progress: real, payload: Option<Json>) returns (ok: bool)
      requires Valid()
      modifies this`executions, this`events
      ensures Valid() && (State(), Done(ok)) == Apply(old(State()), id, Call.UpdateProgress(token, progress, payload))
    {
      StepFacts(State(), id, Call.UpdateProgress(token, progress, payload));
      if id !in executions || executions[id].record.leaseToken != Some(token)
          || executions[id].record.status != Running {
        return false;
      }
      UpdateAndAppend(id, executions[id].record.(progress := Clamp(progress)),
                      ProgressEvent(if payload.Some? then Reported(payload.value) else Bare(progress)));
      ok := true;
      assert State().executions == Apply(old(State()), id, Call.UpdateProgress(token, progress, payload)).0.executions;
    }

    method Complete(id: string, token: string, result: Option<Json>) returns (ok: bool)
      requires Valid()
      modifies this`executions, this`events
      ensures Valid() && (State(), Done(ok)) == Apply(old(State()), id, Call.Complete(token, result))
    {
      StepFacts(State(), id, Call.Complete(token, result));
      ok := Finish(id, token, Succeeded, result, None, CompleteEvent(result));
      assert State().executions == Apply(old(State()), id, Call.Complete(token, result)).0.executions;
    }

    method Fail(id: string, token: string, failure: Failure) returns (ok: bool)
      requires Valid()
      modifies this`executions, this`events
      ensures Valid() && (State(), Done(ok)) == Apply(old(State()), id, Call.Fail(token, failure))
    {
      StepFacts(State(), id, Call.Fail(token, failure));
      ok := Finish(id, token, Failed, None, Some(failure), ErrorEvent(failure));
      assert State().executions == Apply(old(State()), id, Call.Fail(token, failure)).0.executions;
    }

    method Finish(id: string, token: string, status: Status, result: Option<Json>, failure: Option<Failure>,
                  body: EventBody)
      returns (ok: bool)
      requires Valid()
      requires status == Succeeded || status == Failed
      modifies this`executions, this`events
      ensures executions.Keys == events.Keys
      ensures ok <==>
                && id in old(executions) && Holds(old(executions[id].record), token)
                && old(executions[id].record.status) == Running
      ensures !ok ==> State() == old(State())
      ensures ok ==>
        var e := old(State()).executions[id];
        var r := Released(e.row.record, status).(result := result, failure := failure,
                   progress := if status == Succeeded then 1.0 else e.row.record.progress);
        State() == old(State()).(executions := old(State()).executions[id := Append(WithRecord(e, r), body)])
    {
      if id !in executions || executions[id].record.leaseToken != Some(token)
          || executions[id].record.status != Running {
        return false;
      }
      var r := executions[id].record;
      UpdateAndAppend(id, r.(status := status, result := result, failure := failure, leaseToken := None,
          leaseUntil := None,
                             progress := if status == Succeeded then 1.0 else r.progress), body);
      ok := true;
    }

    method Retry(id: string, token: string, failure: Failure) returns (ok: bool)
      requires Valid()
      modifies this`executions, this`events
      ensures Valid() && (State(), Done(ok)) == Apply(old(State()), id, Call.Retry(token, failure))
    {
      StepFacts(State(), id, Call.Retry(token, failure));
      if id !in executions || executions[id].record.leaseToken != Some(token)
          || executions[id].record.status != Running {
        return false;
      }
      var r := executions[id].record;
      UpdateAndAppend(id, r.(status := Queued, failure := Some(failure), leaseToken := None, leaseUntil := None),
          ErrorEvent(failure));
      AppendEventWithClient(id, StatusEvent(Queued));
      ok := true;
      assert State().executions == Apply(old(State()), id, Call.Retry(token, failure)).0.executions;
    }

    method CancelRunning(id: string, token: string) returns (ok: bool)
      requires Valid()
      modifies this`executions, this`events
      ensures Valid() && (State(), Done(ok)) == Apply(old(State()), id, Call.CancelRunning(token))
    {
      StepFacts(State(), id, Call.CancelRunning(token));
      if id !in executions || executions[id].record.leaseToken != Some(token)
         || !(executions[id].record.status == Running || executions[id].record.status == Cancelling) {
        return false;
      }
      var r := executions[id].record;
      UpdateAndAppend(id, r.(status := Cancelled, leaseToken := None, leaseUntil := None), StatusEvent(Cancelled));
      ok := true;
      assert State().executions == Apply(old(State()), id, Call.CancelRunning(token)).0.executions;
    }

    method Cancel(id: string) returns (r: Option<Record>)
      requires Valid()
      modifies this`executions, this`events
      ensures Valid() && (State(), Found(r)) == Apply(old(State()), id, Call.Cancel)
    {
      StepFacts(State(), id, Call.Cancel);
      if id in executions && (executions[id].record.status == Queued || executions[id].record.status == Running) {
        var status := if executions[id].record.status == Queued then Cancelled else Cancelling;
        var row := executions[id].record.(status := status);
        var before := if row.status == Cancelled then Queued else Running;
        assert CanTransition(before, row.status);
        UpdateAndAppend(id, row, StatusEvent(row.status));
        r := Some(row);
      } else {
        r := Get(id);
      }
      assert State().executions == Apply(old(State()), id, Call.Cancel).0.executions;
    }

    method Get(id: string) returns (r: Option<Record>)
      requires Valid()
      ensures (State(), Found(r)) == Apply(State(), id, Call.Get)
    {
      StepFacts(State(), id, Call.Get);
      r := if id in executions then Some(executions[id].record) else None;
    }

    /** The event rows of one execution are kept in insertion order, which is sequence order. */
    method ListEvents(id: string, after: nat) returns (r: seq<Event>)
      requires Valid()
      ensures (State(), Listed(r)) == Apply(State(), id, Call.ListEvents(after))
    {
      StepFacts(State(), id, Call.ListEvents(after));
      r := if id in events then EventsAfter(events[id], after) else [];
    }
  }

  /** The part of a record that no call changes. */
  predicate SameIdentity(r: Record, r': Record) {
    r'.id == r.id && r'.kind == r.kind && r'.idempotencyKey == r.idempotencyKey
  }

  ghost predicate SameIdentities(s: Store, s': Store) {
    && s'.jobs == s.jobs && s'.executions.Keys == s.executions.Keys
    && forall id :: id in s.executions ==> SameIdentity(s.executions[id].row.record, s'.executions[id].row.record)
  }

  /** No call changes a record's id, kind or key; one that changes nothing leaves the store as it was. */
  lemma StepFacts(s: Store, id: string, call: Call)
    ensures SameIdentities(s, Apply(s, id, call).0)
    ensures forall i, key :: HasKey(Apply(s, id, call).0, i, key) == HasKey(s, i, key)
    ensures UniqueKeys(s) ==> UniqueKeys(Apply(s, id, call).0)
    ensures id in s.executions && Step(s.executions[id], call).0 == s.executions[id] ==> Apply(s, id, call).0 == s
  {
    var s' := Apply(s, id, call).0;
    if id in s.executions {
      assert SameIdentity(s.executions[id].row.record, Step(s.executions[id], call).0.row.record);
      if Step(s.executions[id], call).0 == s.executions[id] {
        assert s'.executions == s.executions;
      }
    }
    assert forall i, key :: HasKey(s', i, key) == HasKey(s, i, key);
  }

  lemma UniqueAfterInsert(s: Store, record: Record, job: Job)
    requires UniqueKeys(s)
    ensures UniqueKeys(Create(s, record, job).0)
  {
    if Insertable(s, record) {
      var s' := Create(s, record, job).0;
      assert s'.executions[record.id].row.record.idempotencyKey == record.idempotencyKey;
      assert forall i, key :: HasKey(s', i, key) ==
               (if i == record.id then key == record.idempotencyKey else HasKey(s, i, key));
    }
  }
}
