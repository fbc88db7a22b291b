/** Store runs from empty, and what the event log says about the record in every state they reach. */
module ExecutionLog {
  import opened Options
  import opened ExecutionDomain
  import P = PostgresStore

  datatype Operation =
    | Create(record: Record, job: P.Job)
    | Find(key: string)
    | On(id: string, call: Call)

  /** Records enter a store only as ExecutionService.create builds them. */
  ghost predicate Lifecycle(ops: seq<Operation>) {
    forall i :: 0 <= i < |ops| && ops[i].Create? ==> IsNew(ops[i].record)
  }

  ghost function Do(s: P.Store, op: Operation): (P.Store, Reply) {
    match op
    case Create(record, job) => P.Create(s, record, job)
    case Find(key) => (s, Found(P.FindByKey(s, key)))
    case On(id, call) => P.Apply(s, id, call)
  }

  /** The store after the operations, in order. */
  ghost function Run(ops: seq<Operation>): P.Store {
    if ops == [] then P.Store(map[], []) else Do(Run(ops[..|ops| - 1]), ops[|ops| - 1]).0
  }

  /** The status a reader of the log alone arrives at. */
  function FoldStatus(log: seq<Event>): Option<Status> {
    if log == [] then None
    else
      match log[|log| - 1].body
      case StatusEvent(status) => Some(status)
      case CompleteEvent(_) => Some(Succeeded)
      case ErrorEvent(_) => Some(Failed)
      case ProgressEvent(_) => FoldStatus(log[..|log| - 1])
  }

  function Count(log: seq<Event>, body: EventBody): nat {
    if log == [] then 0
    else Count(log[..|log| - 1], body) + (if log[|log| - 1].body == body then 1 else 0)
  }

  /** Queued events minus running events, for each status. */
  ghost predicate Balanced(status: Status, log: seq<Event>) {
    var waiting := Count(log, StatusEvent(Queued)) - Count(log, StatusEvent(Running));
    match status
    case Queued => waiting == 1
    case Cancelled => waiting == 0 || waiting == 1
    case _ => waiting == 0
  }

  ghost predicate LogTells(status: Status, log: seq<Event>) {
    Numbered(log) && FoldStatus(log) == Some(status) && Balanced(status, log)
  }

  ghost predicate LogInvariant(e: P.Execution) {
    && e.row.nextEventSequence == |e.log|
    && LogTells(e.row.record.status, e.log)
    && e.row.record.attempt == Count(e.log, StatusEvent(Running))
  }

  lemma AppendOne(log: seq<Event>, event: Event)
    requires Numbered(log) && event.sequence == |log| + 1
    ensures Numbered(log + [event])
    ensures Count(log + [event], StatusEvent(Queued)) == Count(log,
            StatusEvent(Queued)) + (if event.body == StatusEvent(Queued) then 1 else 0)
    ensures Count(log + [event], StatusEvent(Running)) == Count(log,
            StatusEvent(Running)) + (if event.body == StatusEvent(Running) then 1 else 0)
    ensures FoldStatus(log + [event]) ==
            match event.body
            case StatusEvent(status) => Some(status)
            case CompleteEvent(_) => Some(Succeeded)
            case ErrorEvent(_) => Some(Failed)
            case ProgressEvent(_) => FoldStatus(log)
  {
    assert (log + [event])[..|log|] == log;
  }

  lemma StepKeepsLog(e: P.Execution, call: Call)
    requires LogInvariant(e)
    ensures LogInvariant(P.Step(e, call).0)
  {
    var e' := P.Step(e, call).0;
    if e' != e {
      AppendOne(e.log, e'.log[|e.log|]);
      if call.Retry? {
        AppendOne(e.log + [e'.log[|e.log|]], e'.log[|e.log| + 1]);
        assert e'.log == e.log + [e'.log[|e.log|]] + [e'.log[|e.log| + 1]];
      } else {
        assert e'.log == e.log + [e'.log[|e.log|]];
      }
    }
  }

  /** In every state the lifecycle reaches, every execution's log is numbered 1..n, folds to the
      stored status, balances, and counts the attempts. */
  lemma {:induction false} EveryStateIsLogged(ops: seq<Operation>)
    requires Lifecycle(ops)
    ensures forall id :: id in Run(ops).executions ==> LogInvariant(Run(ops).executions[id])
  {
    if ops != [] {
      var before, op := ops[..|ops| - 1], ops[|ops| - 1];
      EveryStateIsLogged(before);
      match op
      case Create(record, _) => AppendOne([], Event(1, StatusEvent(record.status)));
      case Find(_) =>
      case On(id, call) =>
        if id in Run(before).executions { StepKeepsLog(Run(before).executions[id], call); }
    }
  }
}
