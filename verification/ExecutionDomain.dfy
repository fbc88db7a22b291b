/** Optional values, the model of a field or result that may be `undefined`. */
module Options {
  datatype Option<+T> = None | Some(value: T)
}

/** The execution domain: records, events and the status transition predicate. */
module ExecutionDomain {
  import opened Options

  /** A JSON document the lifecycle never looks into. */
  type Json = string

  datatype Kind = Ingest | Convert | Index | Retrieve | Generate | Validate | Export

  datatype Status = Queued | Running | Cancelling | Succeeded | Failed | Cancelled

  datatype Failure = Failure(code: string, message: string, retryable: bool)

  datatype Record = Record(
    id: string,
    kind: Kind,
    status: Status,
    contractVersion: int,
    idempotencyKey: string,
    attempt: nat,
    leaseToken: Option<string>,
    leaseUntil: Option<string>,
    progress: real,
    result: Option<Json>,
    failure: Option<Failure>)

  /** A progress event carries the handler's payload, or the progress value when there is none. */
  datatype ProgressPayload = Reported(payload: Json) | Bare(progress: real)

  /** Event type and payload together, as the lifecycle operations emit them. */
  datatype EventBody =
    | StatusEvent(status: Status)
    | ProgressEvent(progress: ProgressPayload)
    | ErrorEvent(failure: Failure)
    | CompleteEvent(result: Option<Json>)

  datatype Event = Event(sequence: nat, body: EventBody)

  /** The store operations on one execution. */
  datatype Call =
    | MarkRunning(token: string, until: string)
    | UpdateProgress(token: string, progress: real, payload: Option<Json>)
    | Complete(token: string, result: Option<Json>)
    | Fail(token: string, failure: Failure)
    | Retry(token: string, failure: Failure)
    | CancelRunning(token: string)
    | Cancel
    | Get
    | ListEvents(after: nat)

  datatype Reply =
    | Done(ok: bool)
    | Found(record: Option<Record>)
    | Listed(events: seq<Event>)
    | Threw

  predicate IsTerminal(s: Status) {
    s.Succeeded? || s.Failed? || s.Cancelled?
  }

  predicate CanTransition(from: Status, to: Status) {
    if IsTerminal(from) then false
    else if from.Queued? then to.Running? || to.Cancelling? || to.Cancelled?
    else if from.Running? then to.Cancelling? || to.Succeeded? || to.Failed? || to.Cancelled?
    else to.Cancelled? || to.Failed?
  }

  /** The moves the stores make. Retry's move back to the queue is not in CanTransition. */
  predicate StoreMove(from: Status, to: Status) {
    || (from.Queued? && (to.Running? || to.Cancelled?))
    || (from.Running? && (to.Queued? || to.Cancelling? || to.Succeeded? || to.Failed? || to.Cancelled?))
    || (from.Cancelling? && to.Cancelled?)
  }

  /** The table and the stores differ in three moves. */
  lemma MovesCompared(from: Status, to: Status)
    ensures StoreMove(from, to) && !CanTransition(from, to) <==> from.Running? && to.Queued?
    ensures CanTransition(from, to) && !StoreMove(from, to) <==>
              (from.Queued? && to.Cancelling?) || (from.Cancelling? && to.Failed?)
  {}

  function Clamp(progress: real): (clamped: real)
    ensures 0.0 <= clamped <= 1.0
    ensures 0.0 <= progress <= 1.0 ==> clamped == progress
    ensures progress < 0.0 ==> clamped == 0.0
    ensures progress > 1.0 ==> clamped == 1.0
  {
    if progress < 0.0 then 0.0 else if progress > 1.0 then 1.0 else progress
  }

  /** Numbered 1..n in order. */
  ghost predicate Numbered(log: seq<Event>) {
    forall i :: 0 <= i < |log| ==> log[i].sequence == i + 1
  }

  /** The events numbered above `after`, in log order. */
  function EventsAfter(log: seq<Event>, after: nat): seq<Event> {
    if log == [] then []
    else EventsAfter(log[..|log| - 1], after) +
         (if log[|log| - 1].sequence > after then [log[|log| - 1]] else [])
  }

  /** What a call answers for an id the store does not hold. */
  function ReplyForUnknown(call: Call): Reply {
    match call
    case Cancel => Found(None)
    case Get => Found(None)
    case ListEvents(_) => Listed([])
    case _ => Done(false)
  }

  /** A record as ExecutionService.create builds it. */
  predicate IsNew(r: Record) {
    && r.status == Queued && r.attempt == 0 && r.progress == 0.0
    && r.leaseToken == None && r.leaseUntil == None
    && r.result == None && r.failure == None
  }
}
