/** The two execution stores run side by side: where they agree, and exactly where they part. */
module StoreEquivalence {
  import opened Options
  import opened ExecutionDomain
  import opened ExecutionLog
  import P = PostgresStore
  import M = MemoryStore

  ghost predicate SameRecord(m: Record, p: Record) {
    m == p.(attempt := m.attempt)
  }

  /** Equal events, except that only the in-memory store clamps the bare progress value. */
  ghost predicate SameEvent(m: Event, p: Event) {
    || m == p
    || (m.sequence == p.sequence && m.body.ProgressEvent? && p.body.ProgressEvent? && m.body.progress.Bare?
        && p.body.progress.Bare? && m.body.progress.progress == Clamp(p.body.progress.progress))
  }

  ghost predicate SameEvents(m: seq<Event>, p: seq<Event>) {
    |m| == |p| && forall i :: 0 <= i < |m| ==> SameEvent(m[i], p[i])
  }

  ghost predicate SameReply(m: Reply, p: Reply) {
    match m
    case Done(ok) => p == Done(ok)
    case Found(None) => p == Found(None)
    case Found(Some(r)) => p.Found? && p.record.Some? && SameRecord(r, p.record.value)
    case Listed(events) => p.Listed? && SameEvents(events, p.events)
    case Threw => p.Threw?
  }

  ghost predicate SameExecution(m: M.Execution, p: P.Execution) {
    && SameRecord(m.record, p.row.record)
    && SameEvents(m.log, p.log)
    && p.row.nextEventSequence == |m.log|
  }

  ghost predicate Simulates(m: M.Store, p: P.Store) {
    && m.executions.Keys == p.executions.Keys
    && (forall id :: id in m.executions ==> SameExecution(m.executions[id], p.executions[id]))
    && (forall key, id :: key in m.keys && m.keys[key] == id <==> P.HasKey(p, id, key))
    && P.UniqueKeys(p)
  }

  ghost function Do(s: M.Store, op: Operation): (M.Store, Reply) {
    match op
    case Create(record, _) => M.Create(s, record)
    case Find(key) => (s, Found(M.FindByKey(s, key)))
    case On(id, call) => M.Apply(s, id, call)
  }

  ghost function Run(ops: seq<Operation>): M.Store {
    if ops == [] then M.Store(map[], map[]) else Do(Run(ops[..|ops| - 1]), ops[|ops| - 1]).0
  }

  /** The one call the stores answer differently. */
  ghost predicate CancelsAgain(s: M.Store, op: Operation) {
    op.On? && op.call.Cancel? && op.id in s.executions && s.executions[op.id].record.status == Cancelling
  }

  /** The one call for which they log different events: an unclamped progress value without a payload. */
  predicate LogsRawProgress(r: Record, call: Call) {
    && call.UpdateProgress? && call.payload == None && M.LeaseHeld(r, call.token)
    && Clamp(call.progress) != call.progress
  }

  lemma {:induction false} SameTails(m: seq<Event>, p: seq<Event>, after: nat)
    requires SameEvents(m, p)
    ensures SameEvents(EventsAfter(m, after), EventsAfter(p, after))
  {
    if m != [] { SameTails(m[..|m| - 1], p[..|p| - 1], after); }
  }

  /** One call on one execution: states stay equivalent, the answers differ exactly when a cancelling
      execution is cancelled again, the new events differ exactly for raw progress, and only Postgres
      counts the attempt. */
  lemma CallAgrees(m: M.Execution, p: P.Execution, call: Call)
    requires SameExecution(m, p)
    ensures var (m', mr) := M.Step(m, call);
            var (p', pr) := P.Step(p, call);
            && SameExecution(m', p')
            && m.log <= m'.log && p.log <= p'.log
            && (SameReply(mr, pr) <==> !(call.Cancel? && m.record.status == Cancelling))
            && (m'.log[|m.log|..] == p'.log[|p.log|..] <==> !LogsRawProgress(m.record, call))
            && m'.record.attempt == m.record.attempt
            && p'.row.record.attempt - p.row.record.attempt == (if call.MarkRunning? && pr == Done(true) then 1 else 0)
  {
    if call.ListEvents? { SameTails(m.log, p.log, call.after); }
    var m', p' := M.Step(m, call).0, P.Step(p, call).0;
    if LogsRawProgress(m.record, call) {
      assert m'.log[|m.log|..][0] != p'.log[|p.log|..][0];
    } else {
      assert m'.log[|m.log|..] == p'.log[|p.log|..];
    }
  }

  /** The value in 0..1 nearest to the reported one. */
  predicate Nearest(stored: real, reported: real) {
    && 0.0 <= stored <= 1.0
    && (0.0 <= reported <= 1.0 ==> stored == reported)
    && (reported < 0.0 ==> stored == 0.0) && (reported > 1.0 ==> stored == 1.0)
  }

  predicate Body(log: seq<Event>, body: EventBody) {
    log != [] && log[|log| - 1].body == body
  }

  /** The running holder's report is stored as the nearest value in 0..1, and logged with its payload; without
      one Postgres logs the value as reported, the in-memory store the value as stored. */
  lemma ProgressStored(m: M.Execution, p: P.Execution, token: string, progress: real, payload: Option<Json>)
    requires SameExecution(m, p) && M.LeaseHeld(m.record, token)
    ensures var (m', mr) := M.Step(m, UpdateProgress(token, progress, payload));
            var (p', pr) := P.Step(p, UpdateProgress(token, progress, payload));
            && mr == Done(true) && pr == Done(true)
            && Nearest(m'.record.progress, progress) && p'.row.record.progress == m'.record.progress
            && match payload
               case Some(json) =>
                 && Body(m'.log, ProgressEvent(Reported(json)))
                 && Body(p'.log, ProgressEvent(Reported(json)))
               case None =>
                 && Body(m'.log, ProgressEvent(Bare(m'.record.progress)))
                 && Body(p'.log, ProgressEvent(Bare(progress)))
  {}

  lemma CreateAgrees(m: M.Store, p: P.Store, record: Record, job: P.Job)
    requires Simulates(m, p) && IsNew(record)
    ensures Simulates(M.Create(m, record).0, P.Create(p, record, job).0)
    ensures SameReply(M.Create(m, record).1, P.Create(p, record, job).1)
  {
    P.UniqueAfterInsert(p, record, job);
    assert record.idempotencyKey in m.keys ==> P.HasKey(p, m.keys[record.idempotencyKey], record.idempotencyKey);
    assert P.Insertable(p, record) <==> !(record.idempotencyKey in m.keys || record.id in m.executions);
    if P.Insertable(p, record) { KeysAgree(m, p, record, job); }
  }

  lemma KeysAgree(m: M.Store, p: P.Store, record: Record, job: P.Job)
    requires Simulates(m, p) && P.Insertable(p, record)
    requires record.idempotencyKey !in m.keys && record.id !in m.executions
    ensures var m', p' := M.Create(m, record).0, P.Create(p, record, job).0;
            forall key, id :: key in m'.keys && m'.keys[key] == id <==> P.HasKey(p', id, key)
  {
    var m', p' := M.Create(m, record).0, P.Create(p, record, job).0;
    forall key, id
      ensures key in m'.keys && m'.keys[key] == id <==> P.HasKey(p', id, key)
    {
      assert P.HasKey(p', id, key) == (if id == record.id then key == record.idempotencyKey else P.HasKey(p, id, key));
      assert key in m.keys ==> P.HasKey(p, m.keys[key], key);
    }
  }

  lemma FindAgrees(m: M.Store, p: P.Store, key: string)
    requires Simulates(m, p)
    ensures SameReply(Found(M.FindByKey(m, key)), Found(P.FindByKey(p, key)))
  {
    if key in m.keys {
      assert P.HasKey(p, m.keys[key], key);
    } else {
      assert forall id :: !P.HasKey(p, id, key);
    }
  }

  lemma CallOnAgrees(m: M.Store, p: P.Store, id: string, call: Call)
    requires Simulates(m, p)
    ensures Simulates(M.Apply(m, id, call).0, P.Apply(p, id, call).0)
    ensures SameReply(M.Apply(m, id, call).1, P.Apply(p, id, call).1) <==> !CancelsAgain(m, On(id, call))
  {
    P.StepFacts(p, id, call);
    if id in m.executions { CallAgrees(m.executions[id], p.executions[id], call); }
  }

  lemma OperationAgrees(m: M.Store, p: P.Store, op: Operation)
    requires Simulates(m, p)
    requires op.Create? ==> IsNew(op.record)
    ensures Simulates(Do(m, op).0, ExecutionLog.Do(p, op).0)
    ensures SameReply(Do(m, op).1, ExecutionLog.Do(p, op).1) <==> !CancelsAgain(m, op)
  {
    match op
    case Create(record, job) => CreateAgrees(m, p, record, job);
    case Find(key) => FindAgrees(m, p, key);
    case On(id, call) => CallOnAgrees(m, p, id, call);
  }

  /** For every sequence of lifecycle operations the two stores end in equivalent states, */
  lemma {:induction false} StoresSimulate(ops: seq<Operation>)
    requires Lifecycle(ops)
    ensures Simulates(Run(ops), ExecutionLog.Run(ops))
  {
    if ops != [] {
      StoresSimulate(ops[..|ops| - 1]);
      OperationAgrees(Run(ops[..|ops| - 1]), ExecutionLog.Run(ops[..|ops| - 1]), ops[|ops| - 1]);
    }
  }

  /** and answer the i-th operation alike, unless it cancels a cancelling execution: then the in-memory
      store throws and Postgres returns the record, and neither store changes. */
  lemma RepliesAgree(ops: seq<Operation>, i: nat)
    requires Lifecycle(ops) && i < |ops|
    ensures var m, p := Run(ops[..i]), ExecutionLog.Run(ops[..i]);
            && (SameReply(Do(m, ops[i]).1, ExecutionLog.Do(p, ops[i]).1) <==> !CancelsAgain(m, ops[i]))
            && (CancelsAgain(m, ops[i]) ==>
                  && Do(m, ops[i]) == (m, Threw)
                  && ops[i].id in p.executions
                  && ExecutionLog.Do(p, ops[i]) == (p, Found(Some(p.executions[ops[i].id].row.record))))
  {
    StoresSimulate(ops[..i]);
    var m, p := Run(ops[..i]), ExecutionLog.Run(ops[..i]);
    OperationAgrees(m, p, ops[i]);
    if CancelsAgain(m, ops[i]) {
      M.Unchanged(m, ops[i].id, Cancel);
      P.StepFacts(p, ops[i].id, Cancel);
    }
  }

  lemma {:induction false} LogsCountAlike(m: seq<Event>, p: seq<Event>)
    requires SameEvents(m, p)
    ensures FoldStatus(m) == FoldStatus(p)
    ensures forall status :: Count(m, StatusEvent(status)) == Count(p, StatusEvent(status))
  {
    if m != [] { LogsCountAlike(m[..|m| - 1], p[..|p| - 1]); }
  }

  lemma {:induction false} MemoryNeverCounts(ops: seq<Operation>)
    requires Lifecycle(ops)
    ensures forall id :: id in Run(ops).executions ==> Run(ops).executions[id].record.attempt == 0
  {
    if ops != [] {
      MemoryNeverCounts(ops[..|ops| - 1]);
      var op := ops[|ops| - 1];
      var s := Run(ops[..|ops| - 1]);
      if op.On? && op.id in s.executions {
        assert M.Step(s.executions[op.id], op.call).0.record.attempt == s.executions[op.id].record.attempt;
      }
    }
  }

  /** So the in-memory log tells the status too; its attempt counter stays at zero. */
  lemma MemoryIsLogged(ops: seq<Operation>, id: string)
    requires Lifecycle(ops) && id in Run(ops).executions
    ensures LogTells(Run(ops).executions[id].record.status, Run(ops).executions[id].log)
    ensures Run(ops).executions[id].record.attempt == 0
  {
    EveryStateIsLogged(ops);
    StoresSimulate(ops);
    MemoryNeverCounts(ops);
    var m, p := Run(ops).executions[id], ExecutionLog.Run(ops).executions[id];
    LogsCountAlike(m.log, p.log);
    assert LogInvariant(p);
    assert Count(m.log, StatusEvent(Queued)) == Count(p.log, StatusEvent(Queued));
    assert Count(m.log, StatusEvent(Running)) == Count(p.log, StatusEvent(Running));
  }

  // ---------------------------------------------------------------- an interrupted retry

  /** Any calls, one after another. */
  ghost function AfterCalls(e: M.Execution, calls: seq<Call>): M.Execution {
    if calls == [] then e else M.Step(AfterCalls(e, calls[..|calls| - 1]), calls[|calls| - 1]).0
  }

  /** The execution when the second append of a retry runs, with these calls between the two. */
  ghost function Interrupted(e: M.Execution, failure: Failure, calls: seq<Call>): M.Execution {
    AfterCalls(M.RetryFirst(e, failure), calls)
  }

  /** Between the two appends of an in-memory retry any other calls can run. The log tells the status after
      the retry exactly when the execution is queued as the second append runs. */
  lemma RetryInterrupted(e: M.Execution, failure: Failure, calls: seq<Call>)
    ensures var between := Interrupted(e, failure, calls);
            FoldStatus(M.RetryLast(between).log) == Some(M.RetryLast(between).record.status) <==>
              between.record.status == Queued
  {
    var between := Interrupted(e, failure, calls);
    assert M.RetryLast(between).log[..|between.log|] == between.log;
  }

  predicate Disturbs(call: Call) {
    call.MarkRunning? || call.Cancel?
  }

  ghost predicate Undisturbed(e: M.Execution) {
    e.record.status == Queued && e.record.leaseToken == None
  }

  /** Calls that neither claim nor cancel leave it queued; */
  lemma {:induction false} HarmlessCalls(e: M.Execution, failure: Failure, calls: seq<Call>)
    requires forall i :: 0 <= i < |calls| ==> !Disturbs(calls[i])
    ensures Undisturbed(Interrupted(e, failure, calls))
  {
    if calls != [] { HarmlessCalls(e, failure, calls[..|calls| - 1]); }
  }

  /** and the first one that does either leaves the log wrong, until another call moves the execution. */
  lemma FirstDisturbance(e: M.Execution, failure: Failure, calls: seq<Call>, call: Call)
    requires forall i :: 0 <= i < |calls| ==> !Disturbs(calls[i])
    ensures Interrupted(e, failure, calls + [call]).record.status == Queued <==> !Disturbs(call)
  {
    HarmlessCalls(e, failure, calls);
    assert (calls + [call])[..|calls|] == calls;
  }

  /** A claim and the claimant's own retry in between leave it queued again, and the log right. */
  lemma ClaimAndRetryBetween(e: M.Execution, failure: Failure, token: string, until: string)
    ensures Interrupted(e, failure, [MarkRunning(token, until), Retry(token, failure)]).record.status == Queued
  {
    var calls := [MarkRunning(token, until), Retry(token, failure)];
    assert calls[..1] == [MarkRunning(token, until)] && calls[..1][..0] == [];
    assert AfterCalls(M.RetryFirst(e, failure), calls[..1]) == M.Step(M.RetryFirst(e, failure), calls[0]).0;
  }
}
