/** Any number of worker runs and clients acting on one execution, one store call at a time.
    Each run of ExecutionProcessor.process is a program counter over its awaits. */
module ExecutionProcessor {
  import opened Options
  import opened ExecutionDomain
  import P = PostgresStore

  /** What a handler or the store can throw. */
  datatype Raised = Error(message: string, retryable: Option<bool>) | Other

  function ClassifyFailure(error: Raised): Failure {
    match error
    case Error(message, retryable) =>
      Failure("worker_failure", message, if retryable.Some? then retryable.value else true)
    case Other => Failure("worker_failure", "Worker failed with an unknown error.", true)
  }

  const HANDLER_UNAVAILABLE := Failure("handler_unavailable", "No handler is registered.", false)

  datatype Pc =
    | Claiming                          // about to call markRunning
    | Claimed                           // about to look at the worker's signal
    | FirstCheck                        // about to read the status before handling
    | Unwanted                          // about to cancel before handling
    | Unhandled                         // about to fail for want of a handler
    | Handling                          // the handler is running
    | Returned(result: Option<Json>)    // handler returned, about to look at its own signal
    | ReturnCheck(result: Option<Json>)
    | ReturnCancel
    | Completing(result: Option<Json>)
    | Caught(error: Raised)             // in the catch block, about to look at the signal
    | CatchCheck(error: Raised)
    | CatchCancel
    | Retrying(error: Raised)
    | Failing(error: Raised)
    | Exited

  /** Three fields only observe: whether the claim was won, whether a store call threw, and the times of
      the run's last status check and of an outcome write the store refused. */
  datatype Run = Run(
    token: string,
    until: string,
    hasHandler: bool,
    pc: Pc,
    aborted: bool,          // the worker's signal
    handlerAborted: bool,   // the handler's signal
    handled: bool,          // the handler was started
    sawCancelling: bool,    // an in-flight monitor poll read 'cancelling'
    won: bool,
    storeThrew: bool,
    checkedAt: Option<nat>,
    ignoredAt: Option<nat>)

  /** cancelledAt observes when a client last moved the execution from running to cancelling. */
  datatype System = System(execution: P.Execution, runs: map<nat, Run>, now: nat, cancelledAt: Option<nat>) {
    function Status(): Status { execution.row.record.status }
    predicate Held(token: string) { execution.row.record.leaseToken == Some(token) }
  }

  datatype Action =
    | Start(r: nat, token: string, until: string, hasHandler: bool)
    | Advance(r: nat)
    | StoreThrows(r: nat, committed: bool, error: Raised)
    | HandlerReturns(r: nat, result: Option<Json>)
    | HandlerThrows(r: nat, error: Raised)
    | ReportProgress(r: nat, progress: real, payload: Option<Json>)
    | Abort(r: nat)
    | MonitorReads(r: nat)
    | MonitorAborts(r: nat)
    | ClientCancels

  predicate IsCheck(pc: Pc) {
    pc.FirstCheck? || pc.ReturnCheck? || pc.CatchCheck?
  }

  /** The writes whose answer process() does not look at, other than cancelRunning. */
  predicate IsOutcome(pc: Pc) {
    pc.Unhandled? || pc.Completing? || pc.Retrying? || pc.Failing?
  }

  /** The store call a run makes at its program counter. */
  function CallAt(run: Run): Option<Call> {
    match run.pc
    case Claiming => Some(MarkRunning(run.token, run.until))
    case FirstCheck => Some(Get)
    case ReturnCheck(_) => Some(Get)
    case CatchCheck(_) => Some(Get)
    case Unwanted => Some(CancelRunning(run.token))
    case ReturnCancel => Some(CancelRunning(run.token))
    case CatchCancel => Some(CancelRunning(run.token))
    case Unhandled => Some(Fail(run.token, HANDLER_UNAVAILABLE))
    case Completing(result) => Some(Complete(run.token, result))
    case Retrying(error) => Some(Retry(run.token, ClassifyFailure(error)))
    case Failing(error) => Some(Fail(run.token, ClassifyFailure(error)))
    case _ => None
  }

  predicate SaysCancelling(reply: Reply) {
    reply.Found? && reply.record.Some? && reply.record.value.status == Cancelling
  }

  /** Where a run goes after its store call answers. */
  function AfterReply(pc: Pc, hasHandler: bool, reply: Reply): Pc {
    match pc
    case Claiming => if reply == Done(true) then Claimed else Exited
    case FirstCheck => if SaysCancelling(reply) then Unwanted else if hasHandler then Handling else Unhandled
    case ReturnCheck(result) => if SaysCancelling(reply) then ReturnCancel else Completing(result)
    case CatchCheck(error) =>
      if SaysCancelling(reply) then CatchCancel
      else if ClassifyFailure(error).retryable then Retrying(error) else Failing(error)
    case _ => Exited
  }

  /** Where it goes when the call throws: only the try block's own calls reach the catch block. */
  function AfterThrow(pc: Pc, error: Raised): Pc {
    if pc.ReturnCheck? || pc.ReturnCancel? || pc.Completing? then Caught(error) else Exited
  }

  /** A step that looks at a signal and makes no store call. */
  function AfterSignal(run: Run): Pc {
    match run.pc
    case Claimed => if run.aborted then Unwanted else FirstCheck
    case Returned(result) => if run.handlerAborted then ReturnCancel else ReturnCheck(result)
    case Caught(error) => if run.handlerAborted then CatchCancel else CatchCheck(error)
    case _ => run.pc
  }

  function Moved(run: Run, reply: Reply, now: nat): Run {
    var pc := AfterReply(run.pc, run.hasHandler, reply);
    run.(pc := pc, handled := run.handled || pc.Handling?, won := run.won || (run.pc.Claiming? && reply == Done(true)),
         checkedAt := if IsCheck(run.pc) then Some(now) else run.checkedAt,
         ignoredAt := if IsOutcome(run.pc) && reply == Done(false) then Some(now) else run.ignoredAt)
  }

  ghost predicate Fresh(s: System, r: nat, token: string) {
    r !in s.runs && forall q :: q in s.runs ==> s.runs[q].token != token
  }

  /** The store call an action makes, if it makes one that takes effect. */
  ghost function CallMade(s: System, a: Action): Option<Call> {
    if a.ClientCancels? then Some(Cancel)
    else if a.Start? || a.r !in s.runs then None
    else
      var run := s.runs[a.r];
      match a
      case Advance(_) => CallAt(run)
      case StoreThrows(_, committed, _) => if committed then CallAt(run) else None
      case ReportProgress(_, progress, payload) =>
        if run.handled then Some(UpdateProgress(run.token, progress, payload)) else None
      case _ => None
  }

  /** The run after an event of its handler, its signals or its monitor; one not awaited changes nothing. */
  function Notified(run: Run, a: Action, status: Status): Run {
    match a
    case HandlerReturns(_, result) => if run.pc.Handling? then run.(pc := Returned(result)) else run
    case HandlerThrows(_, error) => if run.pc.Handling? then run.(pc := Caught(error)) else run
    case Abort(_) =>
      run.(aborted := true, handlerAborted := run.handlerAborted || (run.handled && !run.pc.Exited?))
    case MonitorReads(_) =>
      if run.handled && !run.pc.Exited? && !run.handlerAborted then run.(sawCancelling := status == Cancelling) else run
    case MonitorAborts(_) => if run.sawCancelling then run.(handlerAborted := true) else run
    case _ => run
  }

  /** The acting run afterwards. */
  function Acted(run: Run, a: Action, status: Status, reply: Reply, now: nat): (acted: Run)
    ensures Persists(run, acted)
    ensures acted.checkedAt == if a.Advance? && IsCheck(run.pc) then Some(now) else run.checkedAt
    ensures acted.ignoredAt ==
              if a.Advance? && IsOutcome(run.pc) && reply == Done(false) then Some(now) else run.ignoredAt
  {
    match a
    case Advance(_) => if CallAt(run).Some? then Moved(run, reply, now) else run.(pc := AfterSignal(run))
    case StoreThrows(_, _, error) =>
      if CallAt(run).Some? then run.(pc := AfterThrow(run.pc, error), storeThrew := true) else run
    case _ => Notified(run, a, status)
  }

  /** The system after an action whose store call left `execution` and answered `reply`. */
  ghost function After(s: System, a: Action, execution: P.Execution, reply: Reply): System {
    var runs :=
      if a.ClientCancels? then s.runs
      else if a.Start? then
        if !Fresh(s, a.r, a.token) then s.runs
        else s.runs[a.r := Run(a.token, a.until, a.hasHandler, Claiming, false, false, false, false, false, false,
                                 None, None)]
      else if a.r !in s.runs then s.runs
      else s.runs[a.r := Acted(s.runs[a.r], a, s.Status(), reply, s.now)];
    System(execution, runs, s.now + 1, if a.ClientCancels? && s.Status() == Running then Some(s.now) else s.cancelledAt)
  }

  ghost function Do(s: System, a: Action): System {
    match CallMade(s, a)
    case None => After(s, a, s.execution, Threw)
    case Some(call) => var (execution, reply) := P.Step(s.execution, call); After(s, a, execution, reply)
  }

  /** The system after some actions on a newly created execution. */
  ghost function At(record: Record, actions: seq<Action>): System {
    if actions == [] then System(P.NewExecution(record), map[], 0, None)
    else Do(At(record, actions[..|actions| - 1]), actions[|actions| - 1])
  }

  // ---------------------------------------------------------------- what every store call keeps

  predicate LeaseWhileActive(e: P.Execution) {
    e.row.record.leaseToken.Some? <==> e.row.record.status == Running || e.row.record.status == Cancelling
  }

  /** The token a call carries, if it carries one. */
  function TokenOf(call: Call): Option<string> {
    if call.Cancel? || call.Get? || call.ListEvents? then None else Some(call.token)
  }

  /** What any store call does to the lease and the status, whoever makes it, and what it answers. */
  ghost predicate Follows(e: P.Execution, call: Call, e': P.Execution, reply: Reply) {
    var r, r' := e.row.record, e'.row.record;
    && LeaseWhileActive(e')
    && (r'.status == r.status || StoreMove(r.status, r'.status))
    && (IsTerminal(r.status) ==> e' == e)
    && (call.Cancel? ==> r'.leaseToken == r.leaseToken)
    && (!call.Cancel? && r.leaseToken.Some? && TokenOf(call) != r.leaseToken ==> e' == e)
    && (r'.leaseToken.Some? && r'.leaseToken != r.leaseToken ==> call.MarkRunning? && r'.leaseToken == TokenOf(call))
    && (call.MarkRunning? && reply == Done(true) ==> r'.leaseToken == TokenOf(call))
    && (call.Get? ==> e' == e && (SaysCancelling(reply) <==> r.status == Cancelling))
    && (call.UpdateProgress? || call.Cancel? ==> r.status == Cancelling ==> e' == e)
    && (call.UpdateProgress? ==> r'.leaseToken == r.leaseToken && r'.status == r.status)
    && (call.CancelRunning? ==> r'.leaseToken != TokenOf(call))
    && (call.Complete? || call.Fail? || call.Retry? ==>
          if r.leaseToken == TokenOf(call) && r.status == Running then reply == Done(true) && r'.leaseToken == None
          else reply == Done(false) && e' == e)
  }

  lemma EveryCallFollows(e: P.Execution, call: Call)
    requires LeaseWhileActive(e)
    ensures Follows(e, call, P.Step(e, call).0, P.Step(e, call).1)
  {}

  /** And every one of the stores' moves is made by some call. */
  lemma EveryMoveIsMade(e: P.Execution, to: Status) returns (call: Call)
    requires LeaseWhileActive(e) && StoreMove(e.row.record.status, to)
    ensures P.Step(e, call).0.row.record.status == to
  {
    var r := e.row.record;
    if r.status == Queued {
      call := if to == Running then MarkRunning("", "") else Cancel;
    } else {
      var token := r.leaseToken.value;
      match to
      case Queued => call := Retry(token, HANDLER_UNAVAILABLE);
      case Cancelling => call := Cancel;
      case Succeeded => call := Complete(token, None);
      case Failed => call := Fail(token, HANDLER_UNAVAILABLE);
      case Cancelled => call := CancelRunning(token);
    }
  }

  predicate Acting(a: Action, r: nat) {
    !a.ClientCancels? && !a.Start? && a.r == r
  }

  predicate Persists(run: Run, run': Run) {
    && run'.token == run.token
    && (run'.pc.Claiming? ==> run.pc.Claiming?)
    && (run.pc.Exited? ==> run'.pc.Exited? && run'.won == run.won && run'.storeThrew == run.storeThrew)
    && (run.storeThrew ==> run'.storeThrew)
  }

  ghost predicate Started(s: System, r: nat, run: Run) {
    && Fresh(s, r, run.token) && run.pc.Claiming?
    && !run.won && !run.handled && run.checkedAt == None && run.ignoredAt == None
  }

  /** What an action does, in outline, with Get standing for no store call: only a client cancels, a token
      is used by the run it belongs to, and runs that do not act stay as they are. */
  ghost predicate Outline(s: System, a: Action, call: Call, s': System, reply: Reply) {
    && Follows(s.execution, call, s'.execution, reply)
    && s'.now == s.now + 1
    && s'.cancelledAt == (if a.ClientCancels? && s.Status() == Running then Some(s.now) else s.cancelledAt)
    && (call.Cancel? <==> a.ClientCancels?)
    && (TokenOf(call).Some? ==>
          && !a.ClientCancels? && Acting(a, a.r) && a.r in s.runs && s.runs[a.r].token == call.token
          && (call.MarkRunning? ==> s.runs[a.r].pc.Claiming?)
          && (s.runs[a.r].pc.Exited? ==> call.UpdateProgress?))
    && (forall r :: r in s.runs ==>
          && r in s'.runs && Persists(s.runs[r], s'.runs[r])
          && (!Acting(a, r) ==> s'.runs[r] == s.runs[r]))
    && (forall r :: r in s'.runs && r !in s.runs ==> Started(s, r, s'.runs[r]))
  }

  lemma EveryActionActs(s: System, a: Action) returns (call: Call, reply: Reply)
    requires LeaseWhileActive(s.execution)
    ensures Follows(s.execution, call, Do(s, a).execution, reply)
    ensures Do(s, a) == After(s, a, Do(s, a).execution, reply)
    ensures (CallMade(s, a) == None && call == Get) || (CallMade(s, a) == Some(call)
            && reply == P.Step(s.execution, call).1)
  {
    match CallMade(s, a)
    case None =>
      call, reply := Get, P.Step(s.execution, Get).1;
    case Some(c) =>
      call, reply := c, P.Step(s.execution, c).1;
      EveryCallFollows(s.execution, c);
  }

  lemma ActionOutline(s: System, a: Action, call: Call, s': System, reply: Reply)
    requires Follows(s.execution, call, s'.execution, reply)
    requires s' == After(s, a, s'.execution, reply)
    requires (CallMade(s, a) == None && call == Get) || CallMade(s, a) == Some(call)
    ensures Outline(s, a, call, s', reply)
  {
    forall r | r in s.runs
      ensures r in s'.runs && Persists(s.runs[r], s'.runs[r]) && (!Acting(a, r) ==> s'.runs[r] == s.runs[r])
    {}
  }

  // ---------------------------------------------------------------- the invariant

  ghost predicate RunInvariant(s: System, run: Run) {
    && (run.pc.Claiming? ==> !s.Held(run.token) && !run.won && !run.handled)
    && (run.checkedAt.Some? ==> run.checkedAt.value < s.now)
    && (!run.pc.Exited? ==> run.ignoredAt == None)
    && (!run.pc.Claiming? && !run.pc.Exited? ==> run.won)
    && (run.won && !run.storeThrew && !run.pc.Exited? ==> s.Held(run.token))
    && (run.won && !run.storeThrew && IsOutcome(run.pc) ==> run.checkedAt.Some?)
    && (run.won && !run.storeThrew && IsOutcome(run.pc) && s.Status() == Cancelling ==>
          s.cancelledAt.Some? && run.checkedAt.value < s.cancelledAt.value)
    && (run.won && !run.storeThrew && run.pc.Exited? ==> ExitedWell(s, run))
  }

  /** The lease is gone, or it is stuck: a cancel fell between the last check and the refused write. */
  ghost predicate ExitedWell(s: System, run: Run) {
    && (s.Held(run.token) <==> run.ignoredAt.Some?)
    && (s.Held(run.token) ==>
          && s.Status() == Cancelling
          && run.checkedAt.Some? && s.cancelledAt.Some?
          && run.checkedAt.value < s.cancelledAt.value < run.ignoredAt.value)
  }

  ghost predicate Invariant(s: System) {
    && LeaseWhileActive(s.execution)
    && (s.cancelledAt.Some? ==> s.cancelledAt.value < s.now)
    && (forall r, q :: r in s.runs && q in s.runs && r != q ==> s.runs[r].token != s.runs[q].token)
    && (s.execution.row.record.leaseToken.Some? ==> exists r :: r in s.runs && s.Held(s.runs[r].token))
    && (forall r :: r in s.runs ==> RunInvariant(s, s.runs[r]))
  }

  lemma HolderKept(s: System, a: Action, call: Call, s': System, reply: Reply)
    requires Invariant(s) && Outline(s, a, call, s', reply)
    requires s'.execution.row.record.leaseToken.Some?
    ensures exists r :: r in s'.runs && s'.Held(s'.runs[r].token)
  {
    if s'.execution.row.record.leaseToken == s.execution.row.record.leaseToken {
      var r :| r in s.runs && s.Held(s.runs[r].token);
      assert r in s'.runs && s'.Held(s'.runs[r].token);
    } else {
      assert a.r in s'.runs && s'.Held(s'.runs[a.r].token);
    }
  }

  /** A run that does not act keeps its part of the invariant, as calls with other tokens do not touch its lease. */
  lemma BystanderKept(s: System, call: Call, s': System, reply: Reply, run: Run)
    requires RunInvariant(s, run) && LeaseWhileActive(s.execution)
    requires Follows(s.execution, call, s'.execution, reply) && s'.now == s.now + 1
    requires s'.cancelledAt == (if call.Cancel? && s.Status() == Running then Some(s.now) else s.cancelledAt)
    requires TokenOf(call) != Some(run.token)
    ensures RunInvariant(s', run)
  {}

  /** The acting run made no store call, or lost its answer. */
  predicate SameStanding(run: Run, run': Run) {
    && run'.token == run.token && run'.won == run.won && run'.handled == run.handled
    && run'.checkedAt == run.checkedAt && run'.ignoredAt == run.ignoredAt
    && (run'.pc.Claiming? <==> run.pc.Claiming?) && (run'.pc.Exited? <==> run.pc.Exited?)
    && run'.storeThrew == run.storeThrew
    && (IsOutcome(run'.pc) ==> IsOutcome(run.pc))
  }

  predicate LostAnswer(run: Run, run': Run) {
    && !run.pc.Exited? && run'.storeThrew && run'.won == run.won && !run'.pc.Claiming?
    && run'.checkedAt == run.checkedAt && run'.ignoredAt == run.ignoredAt
    && (run.pc.Claiming? ==> run'.pc.Exited?)
  }

  lemma SignalIsQuiet(run: Run)
    requires CallAt(run) == None
    ensures SameStanding(run, run.(pc := AfterSignal(run)))
  {}

  lemma NotifiedIsQuiet(run: Run, a: Action, status: Status)
    ensures SameStanding(run, Notified(run, a, status))
  {}

  lemma ActsQuietly(run: Run, a: Action, status: Status, reply: Reply, now: nat) returns (run': Run)
    requires !a.StoreThrows? && (a.Advance? ==> CallAt(run) == None)
    ensures run' == Acted(run, a, status, reply, now) && SameStanding(run, run')
  {
    run' := Acted(run, a, status, reply, now);
    if a.Advance? { SignalIsQuiet(run); } else { NotifiedIsQuiet(run, a, status); }
  }

  lemma LosesAnswer(run: Run, a: Action, status: Status, reply: Reply, now: nat)
    requires a.StoreThrows? && CallAt(run).Some?
    ensures LostAnswer(run, Acted(run, a, status, reply, now))
  {}

  /** The acting run keeps it too: between store calls, */
  lemma QuietKept(s: System, call: Call, s': System, reply: Reply, run: Run, run': Run)
    requires RunInvariant(s, run) && LeaseWhileActive(s.execution)
    requires Follows(s.execution, call, s'.execution, reply) && s'.now == s.now + 1 && s'.cancelledAt == s.cancelledAt
    requires call.Get? || call.UpdateProgress?
    requires SameStanding(run, run')
    ensures RunInvariant(s', run')
  {}

  /** when a store call throws, */
  lemma LostKept(s: System, s': System, run: Run, run': Run)
    requires RunInvariant(s, run) && s'.now == s.now + 1
    requires LostAnswer(run, run')
    ensures RunInvariant(s', run')
  {}

  /** on a claim or a status check that answers, */
  lemma ReadKept(s: System, call: Call, s': System, reply: Reply, run: Run)
    requires RunInvariant(s, run) && LeaseWhileActive(s.execution)
    requires Follows(s.execution, call, s'.execution, reply) && s'.now == s.now + 1 && s'.cancelledAt == s.cancelledAt
    requires CallAt(run) == Some(call) && (call.MarkRunning? || call.Get?)
    ensures RunInvariant(s', Moved(run, reply, s.now))
  {}

  /** and on the last write, which answers and is ignored. */
  lemma WriteKept(s: System, call: Call, s': System, reply: Reply, run: Run)
    requires RunInvariant(s, run) && LeaseWhileActive(s.execution)
    requires s.cancelledAt.Some? ==> s.cancelledAt.value < s.now
    requires Follows(s.execution, call, s'.execution, reply) && s'.now == s.now + 1 && s'.cancelledAt == s.cancelledAt
    requires CallAt(run) == Some(call) && !call.MarkRunning? && !call.Get?
    ensures RunInvariant(s', Moved(run, reply, s.now))
  {
    LastWrite(run, call, reply, s.now);
    LastWriteKept(s, call, s', reply, run, Moved(run, reply, s.now));
  }

  predicate WroteLast(run: Run, call: Call, reply: Reply, now: nat, run': Run) {
    && TokenOf(call) == Some(run.token) && (call.CancelRunning? || call.Complete? || call.Fail? || call.Retry?)
    && (IsOutcome(run.pc) <==> !call.CancelRunning?) && !run.pc.Claiming? && !run.pc.Exited?
    && run'.pc.Exited? && run'.token == run.token && run'.won == run.won && run'.storeThrew == run.storeThrew
    && run'.checkedAt == run.checkedAt
    && run'.ignoredAt == if IsOutcome(run.pc) && reply == Done(false) then Some(now) else run.ignoredAt
  }

  lemma LastWrite(run: Run, call: Call, reply: Reply, now: nat)
    requires CallAt(run) == Some(call) && !call.MarkRunning? && !call.Get?
    ensures WroteLast(run, call, reply, now, Moved(run, reply, now))
  {}

  lemma LastWriteKept(s: System, call: Call, s': System, reply: Reply, run: Run, run': Run)
    requires RunInvariant(s, run) && LeaseWhileActive(s.execution)
    requires s.cancelledAt.Some? ==> s.cancelledAt.value < s.now
    requires Follows(s.execution, call, s'.execution, reply) && s'.now == s.now + 1 && s'.cancelledAt == s.cancelledAt
    requires WroteLast(run, call, reply, s.now, run')
    ensures RunInvariant(s', run')
  {}

  /** A run that has met no store error has its outcome write refused exactly when the execution is cancelling. */
  lemma WriteRefusedOnlyWhenCancelling(s: System, run: Run)
    requires RunInvariant(s, run) && LeaseWhileActive(s.execution)
    requires IsOutcome(run.pc) && !run.storeThrew
    ensures P.Step(s.execution, CallAt(run).value).1 == Done(false) <==> s.Status() == Cancelling
    ensures s.Status() == Running || s.Status() == Cancelling
  {
    EveryCallFollows(s.execution, CallAt(run).value);
  }

  lemma RunKept(s: System, a: Action, call: Call, s': System, reply: Reply, r: nat)
    requires Invariant(s) && Outline(s, a, call, s', reply) && r in s'.runs
    requires (CallMade(s, a) == None && call == Get) || CallMade(s, a) == Some(call)
    requires s' == After(s, a, s'.execution, reply)
    ensures RunInvariant(s', s'.runs[r])
  {
    if r !in s.runs {
    } else if !Acting(a, r) {
      BystanderKept(s, call, s', reply, s.runs[r]);
    } else {
      ActorKept(s, a, call, s', reply, s.runs[r]);
    }
  }

  lemma ActorKept(s: System, a: Action, call: Call, s': System, reply: Reply, run: Run)
    requires RunInvariant(s, run) && LeaseWhileActive(s.execution)
    requires s.cancelledAt.Some? ==> s.cancelledAt.value < s.now
    requires Follows(s.execution, call, s'.execution, reply) && s'.now == s.now + 1 && s'.cancelledAt == s.cancelledAt
    requires !a.ClientCancels? && !a.Start? && a.r in s.runs && s.runs[a.r] == run
    requires (CallMade(s, a) == None && call == Get) || CallMade(s, a) == Some(call)
    ensures RunInvariant(s', Acted(run, a, s.Status(), reply, s.now))
  {
    var run' := Acted(run, a, s.Status(), reply, s.now);
    if a.StoreThrows? {
      if CallAt(run).Some? {
        LosesAnswer(run, a, s.Status(), reply, s.now);
        LostKept(s, s', run, run');
      }
    } else if CallMade(s, a) == None || a.ReportProgress? {
      run' := ActsQuietly(run, a, s.Status(), reply, s.now);
      QuietKept(s, call, s', reply, run, run');
    } else if call.MarkRunning? || call.Get? {
      ReadKept(s, call, s', reply, run);
    } else {
      WriteKept(s, call, s', reply, run);
    }
  }

  lemma InvariantKept(s: System, a: Action, call: Call, s': System, reply: Reply)
    requires Invariant(s)
    requires Follows(s.execution, call, s'.execution, reply)
    requires s' == After(s, a, s'.execution, reply)
    requires (CallMade(s, a) == None && call == Get) || CallMade(s, a) == Some(call)
    ensures Invariant(s') && Outline(s, a, call, s', reply)
  {
    ActionOutline(s, a, call, s', reply);
    if s'.execution.row.record.leaseToken.Some? { HolderKept(s, a, call, s', reply); }
    forall r | r in s'.runs
      ensures RunInvariant(s', s'.runs[r])
    {
      RunKept(s, a, call, s', reply, r);
    }
  }

  lemma {:induction false} InvariantHolds(record: Record, actions: seq<Action>)
    requires IsNew(record)
    ensures Invariant(At(record, actions))
    ensures At(record, actions).now == |actions|
  {
    if actions != [] {
      InvariantHolds(record, actions[..|actions| - 1]);
      var s, a := At(record, actions[..|actions| - 1]), actions[|actions| - 1];
      var call, reply := EveryActionActs(s, a);
      InvariantKept(s, a, call, Do(s, a), reply);
    }
  }

  // ---------------------------------------------------------------- over whole histories

  /** The system after the first i of the actions. */
  ghost function Prefix(record: Record, actions: seq<Action>, i: nat): System
    requires i <= |actions|
  {
    At(record, actions[..i])
  }

  lemma OneMore(record: Record, actions: seq<Action>, i: nat) returns (call: Call, reply: Reply)
    requires IsNew(record) && i < |actions|
    ensures Invariant(Prefix(record, actions, i)) && Invariant(Prefix(record, actions, i + 1))
    ensures Outline(Prefix(record, actions, i), actions[i], call, Prefix(record, actions, i + 1), reply)
  {
    assert actions[..i + 1][..i] == actions[..i];
    InvariantHolds(record, actions[..i]);
    var s := Prefix(record, actions, i);
    call, reply := EveryActionActs(s, actions[i]);
    InvariantKept(s, actions[i], call, Do(s, actions[i]), reply);
  }

  lemma OutcomeStands(record: Record, actions: seq<Action>, i: nat)
    requires IsNew(record) && i < |actions|
    requires IsTerminal(Prefix(record, actions, i).Status())
    ensures Prefix(record, actions, i + 1).execution == Prefix(record, actions, i).execution
  {
    var call, reply := OneMore(record, actions, i);
  }

  /** A terminal outcome is the last thing that happens: record and log never change again. */
  lemma {:induction false} OutcomeIsFinal(record: Record, actions: seq<Action>, i: nat, j: nat)
    requires IsNew(record) && i <= j <= |actions|
    requires IsTerminal(Prefix(record, actions, i).Status())
    ensures Prefix(record, actions, j).execution == Prefix(record, actions, i).execution
    decreases j - i
  {
    if i < j {
      OutcomeStands(record, actions, i);
      OutcomeIsFinal(record, actions, i + 1, j);
    }
  }

  /** The status only makes the stores' moves, and a lease token is held exactly while the execution
      is running or cancelling. */
  lemma OnlyStoreMoves(record: Record, actions: seq<Action>, i: nat)
    requires IsNew(record) && i < |actions|
    ensures var s, s' := Prefix(record, actions, i), Prefix(record, actions, i + 1);
            && (s'.Status() == s.Status() || StoreMove(s.Status(), s'.Status()))
            && LeaseWhileActive(s.execution) && LeaseWhileActive(s'.execution)
  {
    var call, reply := OneMore(record, actions, i);
  }

  /** The run that took the token out has given it back. */
  ghost predicate Spent(s: System, token: string) {
    !s.Held(token) && exists r :: r in s.runs && s.runs[r].token == token && !s.runs[r].pc.Claiming?
  }

  lemma HeldThenSpent(s: System, a: Action, call: Call, s': System, reply: Reply, token: string)
    requires Invariant(s) && Outline(s, a, call, s', reply)
    requires s.Held(token) || Spent(s, token)
    ensures s'.Held(token) || Spent(s', token)
    ensures Spent(s, token) ==> Spent(s', token)
  {
    var r :| r in s.runs && s.runs[r].token == token && (s.Held(token) || !s.runs[r].pc.Claiming?);
    assert RunInvariant(s, s.runs[r]);
    assert r in s'.runs && s'.runs[r].token == token && !s'.runs[r].pc.Claiming?;
    if call.MarkRunning? && call.token == token { assert false; }
  }

  lemma HeldThenSpentNext(record: Record, actions: seq<Action>, token: string, i: nat)
    requires IsNew(record) && i < |actions|
    requires Prefix(record, actions, i).Held(token) || Spent(Prefix(record, actions, i), token)
    ensures Prefix(record, actions, i + 1).Held(token) || Spent(Prefix(record, actions, i + 1), token)
    ensures Spent(Prefix(record, actions, i), token) ==> Spent(Prefix(record, actions, i + 1), token)
  {
    var call, reply := OneMore(record, actions, i);
    HeldThenSpent(Prefix(record, actions, i), actions[i], call, Prefix(record, actions, i + 1), reply, token);
  }

  lemma {:induction false} SpentStays(record: Record, actions: seq<Action>, token: string, i: nat, j: nat)
    requires IsNew(record) && i <= j <= |actions|
    requires Spent(Prefix(record, actions, i), token)
    ensures Spent(Prefix(record, actions, j), token)
    decreases j - i
  {
    if i < j {
      HeldThenSpentNext(record, actions, token, i);
      SpentStays(record, actions, token, i + 1, j);
    }
  }

  /** Each token is held during one contiguous stretch of the history; no two are held at once. */
  lemma {:induction false} TokenHeldOnce(record: Record, actions: seq<Action>, token: string, i: nat, j: nat, k: nat)
    requires IsNew(record) && i <= j <= k <= |actions|
    requires Prefix(record, actions, i).Held(token) && Prefix(record, actions, k).Held(token)
    ensures Prefix(record, actions, j).Held(token)
    ensures forall other :: Prefix(record, actions, j).Held(other) ==> other == token
    decreases j - i
  {
    if i < j {
      HeldThenSpentNext(record, actions, token, i);
      if Spent(Prefix(record, actions, i + 1), token) {
        SpentStays(record, actions, token, i + 1, k);
        assert false;
      }
      TokenHeldOnce(record, actions, token, i + 1, j, k);
    }
  }

  /** The observing fields tell the truth: checkedAt is the run's last status check, ignoredAt a refused
      outcome write of the run, cancelledAt a client's cancel of the running execution. */
  ghost predicate ChecksLast(record: Record, actions: seq<Action>, r: nat, at: nat) {
    && Checks(record, actions, r, at)
    && forall m :: at < m < |actions| ==> !Checks(record, actions, r, m)
  }

  ghost predicate Checks(record: Record, actions: seq<Action>, r: nat, at: nat) {
    at < |actions| && actions[at] == Advance(r) && r in Prefix(record, actions, at).runs
    && IsCheck(Prefix(record, actions, at).runs[r].pc)
  }

  ghost predicate WriteRefused(record: Record, actions: seq<Action>, r: nat, at: nat) {
    && at < |actions| && actions[at] == Advance(r) && r in Prefix(record, actions, at).runs
    && var s := Prefix(record, actions, at);
    && IsOutcome(s.runs[r].pc)
    && P.Step(s.execution, CallAt(s.runs[r]).value).1 == Done(false)
  }

  ghost predicate CancelsRunning(record: Record, actions: seq<Action>, at: nat) {
    at < |actions| && actions[at] == ClientCancels && Prefix(record, actions, at).Status() == Running
  }

  ghost predicate Observed(record: Record, actions: seq<Action>, r: nat, checkedAt: Option<nat>,
                           ignoredAt: Option<nat>) {
    && (checkedAt.Some? ==> ChecksLast(record, actions, r, checkedAt.value))
    && (checkedAt.None? ==> forall m: nat :: !Checks(record, actions, r, m))
    && (ignoredAt.Some? ==> WriteRefused(record, actions, r, ignoredAt.value))
    && (ignoredAt.None? ==> forall m: nat :: !WriteRefused(record, actions, r, m))
  }

  function CheckedAt(s: System, r: nat): Option<nat> {
    if r in s.runs then s.runs[r].checkedAt else None
  }

  function IgnoredAt(s: System, r: nat): Option<nat> {
    if r in s.runs then s.runs[r].ignoredAt else None
  }

  lemma ActionObserves(s: System, a: Action, s': System, reply: Reply, r: nat)
    requires s' == After(s, a, s'.execution, reply)
    ensures CheckedAt(s', r) ==
              if a == Advance(r) && r in s.runs && IsCheck(s.runs[r].pc) then Some(s.now) else CheckedAt(s, r)
    ensures IgnoredAt(s', r) == if a == Advance(r) && r in s.runs && IsOutcome(s.runs[r].pc) && reply == Done(false)
                                then Some(s.now) else IgnoredAt(s, r)
  {}

  lemma PastIsFixed(record: Record, before: seq<Action>, a: Action, r: nat, m: nat)
    requires m < |before|
    ensures Checks(record, before + [a], r, m) == Checks(record, before, r, m)
    ensures WriteRefused(record, before + [a], r, m) == WriteRefused(record, before, r, m)
    ensures CancelsRunning(record, before + [a], m) == CancelsRunning(record, before, m)
  {
    assert (before + [a])[..m] == before[..m] && (before + [a])[m] == before[m];
  }

  ghost predicate AllObserved(record: Record, actions: seq<Action>, s: System, r: nat) {
    && (s.cancelledAt.Some? ==> CancelsRunning(record, actions, s.cancelledAt.value))
    && Observed(record, actions, r, CheckedAt(s, r), IgnoredAt(s, r))
  }

  lemma LatestObserved(record: Record, before: seq<Action>, a: Action, r: nat, s: System, s': System, reply: Reply)
    requires s == At(record, before) && s.now == |before| && AllObserved(record, before, s, r)
    requires s' == After(s, a, s'.execution, reply)
    requires a == Advance(r) && r in s.runs && IsOutcome(s.runs[r].pc) ==>
               reply == P.Step(s.execution, CallAt(s.runs[r]).value).1
    ensures AllObserved(record, before + [a], s', r)
  {
    var actions, n := before + [a], |before|;
    forall m: nat | m < n
      ensures Checks(record, actions, r, m) == Checks(record, before, r, m)
      ensures WriteRefused(record, actions, r, m) == WriteRefused(record, before, r, m)
      ensures CancelsRunning(record, actions, m) == CancelsRunning(record, before, m)
    {
      PastIsFixed(record, before, a, r, m);
    }
    assert actions[..n] == before && actions[n] == a;
    ActionObserves(s, a, s', reply, r);
    assert Checks(record, actions, r, n) <==> a == Advance(r) && r in s.runs && IsCheck(s.runs[r].pc);
    assert WriteRefused(record, actions, r, n) <==>
             a == Advance(r) && r in s.runs && IsOutcome(s.runs[r].pc) && reply == Done(false);
    assert CancelsRunning(record, actions, n) <==> a == ClientCancels && s.Status() == Running;
  }

  lemma {:induction false} ObservationsTrue(record: Record, actions: seq<Action>, r: nat)
    requires IsNew(record)
    ensures AllObserved(record, actions, At(record, actions), r)
  {
    if actions != [] {
      var before, a := actions[..|actions| - 1], actions[|actions| - 1];
      ObservationsTrue(record, before, r);
      assert actions == before + [a];
      InvariantHolds(record, before);
      var s := At(record, before);
      var call, reply := EveryActionActs(s, a);
      LatestObserved(record, before, a, r, s, Do(s, a), reply);
    }
  }

  /** A run attempts its outcome write, whatever the store answers. */
  ghost predicate Writes(record: Record, actions: seq<Action>, r: nat, at: nat) {
    && at < |actions| && actions[at] == Advance(r) && r in Prefix(record, actions, at).runs
    && IsOutcome(Prefix(record, actions, at).runs[r].pc)
  }

  /** A client cancels the running execution before the run's outcome write. */
  ghost predicate CancelledBeforeWrite(record: Record, actions: seq<Action>, r: nat, cancel: nat, write: nat) {
    cancel < write && CancelsRunning(record, actions, cancel) && Writes(record, actions, r, write)
  }

  lemma CancelMoves(s: System)
    requires s.Status() == Running
    ensures Do(s, ClientCancels).Status() == Cancelling
  {}

  predicate Withdrawn(status: Status) {
    status == Cancelling || status == Cancelled
  }

  lemma WithdrawnNext(record: Record, actions: seq<Action>, i: nat)
    requires IsNew(record) && i < |actions| && Withdrawn(Prefix(record, actions, i).Status())
    ensures Withdrawn(Prefix(record, actions, i + 1).Status())
  {
    OnlyStoreMoves(record, actions, i);
  }

  /** A cancelling execution is never claimed again. */
  lemma {:induction false} WithdrawnStays(record: Record, actions: seq<Action>, i: nat, j: nat)
    requires IsNew(record) && i <= j <= |actions| && Withdrawn(Prefix(record, actions, i).Status())
    ensures Withdrawn(Prefix(record, actions, j).Status())
    decreases j - i
  {
    if i < j {
      WithdrawnNext(record, actions, i);
      WithdrawnStays(record, actions, i + 1, j);
    }
  }

  lemma ErrorStands(record: Record, actions: seq<Action>, r: nat, i: nat)
    requires IsNew(record) && i < |actions| && r in Prefix(record, actions, i).runs
    ensures r in Prefix(record, actions, i + 1).runs
    ensures Prefix(record, actions, i).runs[r].storeThrew ==> Prefix(record, actions, i + 1).runs[r].storeThrew
  {
    var call, reply := OneMore(record, actions, i);
  }

  lemma {:induction false} ErrorStays(record: Record, actions: seq<Action>, r: nat, i: nat, j: nat)
    requires IsNew(record) && i <= j <= |actions| && r in Prefix(record, actions, i).runs
    ensures r in Prefix(record, actions, j).runs
    ensures Prefix(record, actions, i).runs[r].storeThrew ==> Prefix(record, actions, j).runs[r].storeThrew
    decreases j - i
  {
    if i < j {
      ErrorStands(record, actions, r, i);
      ErrorStays(record, actions, r, i + 1, j);
    }
  }

  lemma LateCancelRefuses(record: Record, actions: seq<Action>, r: nat, cancel: nat, write: nat)
    requires IsNew(record) && CancelledBeforeWrite(record, actions, r, cancel, write)
    requires r in At(record, actions).runs && !At(record, actions).runs[r].storeThrew
    ensures WriteRefused(record, actions, r, write)
  {
    assert actions[..cancel + 1][..cancel] == actions[..cancel];
    CancelMoves(Prefix(record, actions, cancel));
    WithdrawnStays(record, actions, cancel + 1, write);
    assert actions[..|actions|] == actions;
    ErrorStays(record, actions, r, write, |actions|);
    InvariantHolds(record, actions[..write]);
    var s := Prefix(record, actions, write);
    assert RunInvariant(s, s.runs[r]);
    WriteRefusedOnlyWhenCancelling(s, s.runs[r]);
  }

  /** When a run that won its claim has exited and no store call threw, its token is released, unless a
      client cancelled the running execution before the run's outcome write, whatever that was answered.
      Such a cancel fell after the run's last status check, the write was refused, and the execution is
      cancelling under that token. */
  lemma ExitReleases(record: Record, actions: seq<Action>, r: nat)
    requires IsNew(record)
    requires var s := At(record, actions);
             r in s.runs && s.runs[r].pc.Exited? && s.runs[r].won && !s.runs[r].storeThrew
    ensures var s := At(record, actions);
            s.Held(s.runs[r].token) <==> exists cancel, write :: CancelledBeforeWrite(record, actions, r, cancel, write)
    ensures var s := At(record, actions);
            s.Held(s.runs[r].token) ==>
              && s.Status() == Cancelling
              && exists check: nat, cancel: nat, write: nat ::
                   check < cancel < write && ChecksLast(record, actions, r, check)
                   && CancelsRunning(record, actions, cancel) && WriteRefused(record, actions, r, write)
  {
    InvariantHolds(record, actions);
    ObservationsTrue(record, actions, r);
    var s := At(record, actions);
    assert RunInvariant(s, s.runs[r]);
    if s.Held(s.runs[r].token) {
      assert CancelledBeforeWrite(record, actions, r, s.cancelledAt.value, s.runs[r].ignoredAt.value);
    }
    forall cancel, write | CancelledBeforeWrite(record, actions, r, cancel, write)
      ensures s.Held(s.runs[r].token)
    {
      LateCancelRefuses(record, actions, r, cancel, write);
    }
  }

  /** A run has left the record cancelling under its own token. */
  ghost predicate Stranded(s: System, r: nat) {
    && r in s.runs && s.runs[r].pc.Exited? && s.runs[r].won && !s.runs[r].storeThrew
    && s.Held(s.runs[r].token)
  }

  lemma StrandedNext(record: Record, actions: seq<Action>, r: nat, i: nat)
    requires IsNew(record) && i < |actions|
    requires Stranded(Prefix(record, actions, i), r)
    ensures Stranded(Prefix(record, actions, i + 1), r)
    ensures Prefix(record, actions, i + 1).execution == Prefix(record, actions, i).execution
  {
    var call, reply := OneMore(record, actions, i);
    assert RunInvariant(Prefix(record, actions, i), Prefix(record, actions, i).runs[r]);
  }

  /** Then it is stuck: whatever anyone does, record and log stay as they are. */
  lemma {:induction false} CancellingForever(record: Record, actions: seq<Action>, r: nat, i: nat, j: nat)
    requires IsNew(record) && i <= j <= |actions|
    requires Stranded(Prefix(record, actions, i), r)
    ensures Prefix(record, actions, j).execution == Prefix(record, actions, i).execution
    ensures Prefix(record, actions, j).Status() == Cancelling
    decreases j - i
  {
    if i < j {
      StrandedNext(record, actions, r, i);
      CancellingForever(record, actions, r, i + 1, j);
    } else {
      InvariantHolds(record, actions[..i]);
      assert RunInvariant(Prefix(record, actions, i), Prefix(record, actions, i).runs[r]);
    }
  }

  // ---------------------------------------------------------------- the exception happens

  /** One run, not aborted, that has won its claim and is at pc. */
  ghost predicate Alone(s: System, pc: Pc) {
    && s.runs.Keys == {0} && LeaseWhileActive(s.execution)
    && var run := s.runs[0];
    && run.pc == pc && s.Held(run.token) && run.won && !run.storeThrew && run.hasHandler
    && !run.aborted && !run.handlerAborted
  }

  lemma Claims(s: System, token: string)
    requires s.Status() == Queued && s.runs == map[] && LeaseWhileActive(s.execution)
    ensures var s' := Do(Do(s, Start(0, token, "", true)), Advance(0));
            Alone(s', Claimed) && s'.Status() == Running
  {
    var s1 := Do(s, Start(0, token, "", true));
    assert s1.runs[0].pc == Claiming && CallMade(s1, Advance(0)) == Some(MarkRunning(token, ""));
  }

  lemma LooksAtSignal(s: System)
    requires Alone(s, Claimed) || Alone(s, Returned(None))
    ensures Alone(Do(s, Advance(0)), if s.runs[0].pc.Claimed? then FirstCheck else ReturnCheck(None))
    ensures Do(s, Advance(0)).execution == s.execution
  {}

  lemma ReadsStatus(s: System)
    requires Alone(s, FirstCheck) || Alone(s, ReturnCheck(None))
    requires s.Status() == Running
    ensures Alone(Do(s, Advance(0)), if s.runs[0].pc.FirstCheck? then Handling else Completing(None))
    ensures Do(s, Advance(0)).execution == s.execution
  {
    assert CallMade(s, Advance(0)) == Some(Get);
  }

  lemma HandlerFinishes(s: System)
    requires Alone(s, Handling)
    ensures Alone(Do(s, HandlerReturns(0, None)), Returned(None))
    ensures Do(s, HandlerReturns(0, None)).execution == s.execution
  {}

  lemma CancelledTooLate(s: System)
    requires Alone(s, Completing(None)) && s.Status() == Running
    ensures Stranded(Do(Do(s, ClientCancels), Advance(0)), 0)
  {
    var s1 := Do(s, ClientCancels);
    assert s1.Status() == Cancelling && Alone(s1, Completing(None));
    assert CallMade(s1, Advance(0)) == Some(Complete(s.runs[0].token, None));
  }

  lemma ThenDo(record: Record, actions: seq<Action>, a: Action)
    ensures At(record, actions + [a]) == Do(At(record, actions), a)
  {
    assert (actions + [a])[..|actions|] == actions;
  }

  ghost predicate Reaches(record: Record, actions: seq<Action>, pc: Pc) {
    Alone(At(record, actions), pc) && At(record, actions).Status() == Running
  }

  lemma GoesOn(record: Record, actions: seq<Action>, pc: Pc, a: Action, pc': Pc) returns (next: seq<Action>)
    requires Reaches(record, actions, pc)
    requires (pc, a, pc') in {(Claimed, Advance(0), FirstCheck), (FirstCheck, Advance(0), Handling),
                              (Handling, HandlerReturns(0, None), Returned(None)),
                              (Returned(None), Advance(0), ReturnCheck(None)),
                                  (ReturnCheck(None), Advance(0), Completing(None))}
    ensures Reaches(record, next, pc')
  {
    next := actions + [a];
    ThenDo(record, actions, a);
    if pc == Handling { HandlerFinishes(At(record, actions)); }
    else if pc == Claimed || pc == Returned(None) { LooksAtSignal(At(record, actions)); }
    else { ReadsStatus(At(record, actions)); }
  }

  lemma StrandsWhenCancelled(record: Record, actions: seq<Action>)
    requires Reaches(record, actions, Completing(None))
    ensures Stranded(At(record, actions + [ClientCancels] + [Advance(0)]), 0)
  {
    ThenDo(record, actions, ClientCancels);
    ThenDo(record, actions + [ClientCancels], Advance(0));
    CancelledTooLate(At(record, actions));
  }

  lemma ClaimIsReached(record: Record) returns (actions: seq<Action>)
    requires IsNew(record)
    ensures Reaches(record, actions, Claimed)
  {
    var start := Start(0, "token", "", true);
    actions := [start] + [Advance(0)];
    ThenDo(record, [], start);
    assert [] + [start] == [start];
    ThenDo(record, [start], Advance(0));
    Claims(At(record, []), "token");
  }

  /** A client that cancels between the last check and the completion strands the execution. */
  lemma CancelCanStrand(record: Record)
    requires IsNew(record)
    ensures exists actions, r :: Stranded(At(record, actions), r)
  {
    var actions := ClaimIsReached(record);
    actions := GoesOn(record, actions, Claimed, Advance(0), FirstCheck);
    actions := GoesOn(record, actions, FirstCheck, Advance(0), Handling);
    actions := GoesOn(record, actions, Handling, HandlerReturns(0, None), Returned(None));
    actions := GoesOn(record, actions, Returned(None), Advance(0), ReturnCheck(None));
    actions := GoesOn(record, actions, ReturnCheck(None), Advance(0), Completing(None));
    StrandsWhenCancelled(record, actions);
  }

  // ---------------------------------------------------------------- what a run does to the record

  /** The run's next step, with nothing else happening. */
  ghost predicate Next(s: System, r: nat, s': System) {
    s' == Do(s, Advance(r))
  }

  /** What that step does: a store call with its answer, or a look at a signal. */
  ghost predicate Steps(s: System, r: nat, s': System) {
    && r in s.runs && r in s'.runs
    && match CallAt(s.runs[r])
       case Some(call) =>
         && s'.execution == P.Step(s.execution, call).0
         && s'.runs[r] == Moved(s.runs[r], P.Step(s.execution, call).1, s.now)
       case None =>
         s'.execution == s.execution && s'.runs[r] == s.runs[r].(pc := AfterSignal(s.runs[r]))
  }

  lemma NextSteps(s: System, r: nat, s': System)
    requires r in s.runs && Next(s, r, s')
    ensures Steps(s, r, s')
  {
    if CallAt(s.runs[r]).Some? { CallAnswers(s, r); } else { SignalRead(s, r); }
  }

  predicate Freed(record: Record, status: Status) {
    record.status == status && record.leaseToken == None && record.leaseUntil == None
  }

  /** The run holds the lease of its execution and is at this point. */
  ghost predicate HoldsAt(s: System, r: nat, pc: Pc) {
    r in s.runs && s.runs[r].pc == pc && s.Held(s.runs[r].token)
  }

  ghost predicate Exits(s: System, r: nat) {
    r in s.runs && s.runs[r].pc.Exited?
  }

  ghost predicate Cancels(s: System, r: nat) {
    Exits(s, r) && Freed(s.execution.row.record, Cancelled)
  }

  /** For want of a handler. */
  ghost predicate GivesUp(s: System, r: nat) {
    var record := s.execution.row.record;
    && Exits(s, r) && Freed(record, Failed) && record.failure.Some?
    && record.failure.value.code == "handler_unavailable" && !record.failure.value.retryable
  }

  predicate HasResult(record: Record, result: Option<Json>) {
    Freed(record, Succeeded) && record.result == result && record.failure == None && record.progress == 1.0
  }

  ghost predicate Completes(s: System, r: nat, result: Option<Json>) {
    Exits(s, r) && HasResult(s.execution.row.record, result)
  }

  /** Only an error that says it is not retryable is final. */
  predicate SaysFinal(error: Raised) {
    error.Error? && error.retryable == Some(false)
  }

  function MessageOf(error: Raised): string {
    if error.Error? then error.message else "Worker failed with an unknown error."
  }

  /** The record of an execution given up for this error, or queued again with it. */
  predicate RecordsError(record: Record, error: Raised) {
    && (SaysFinal(error) <==> Freed(record, Failed)) && (!SaysFinal(error) <==> Freed(record, Queued))
    && record.failure == Some(Failure("worker_failure", MessageOf(error), !SaysFinal(error)))
  }

  ghost predicate Errs(s: System, r: nat, error: Raised) {
    Exits(s, r) && RecordsError(s.execution.row.record, error)
  }

  lemma CallAnswers(s: System, r: nat)
    requires r in s.runs && CallAt(s.runs[r]).Some?
    ensures var s', step := Do(s, Advance(r)), P.Step(s.execution, CallAt(s.runs[r]).value);
            && s'.execution == step.0 && r in s'.runs
            && s'.runs[r] == Moved(s.runs[r], step.1, s.now)
  {}

  lemma SignalRead(s: System, r: nat)
    requires r in s.runs && CallAt(s.runs[r]).None?
    ensures var s' := Do(s, Advance(r));
            && s'.execution == s.execution && r in s'.runs
            && s'.runs[r] == s.runs[r].(pc := AfterSignal(s.runs[r]))
  {}

  lemma HandlerSpoke(s: System, r: nat, a: Action)
    requires a.HandlerReturns? || a.HandlerThrows? || a.Abort? || a.MonitorReads? || a.MonitorAborts?
    requires r in s.runs && a.r == r
    ensures var s' := Do(s, a);
            s'.execution == s.execution && r in s'.runs && s'.runs[r] == Notified(s.runs[r], a, s.Status())
  {}

  // What each step comes to, by where the run is.

  lemma CancelWritten(s: System, r: nat, s': System)
    requires Steps(s, r, s') && s.Held(s.runs[r].token) && (s.Status() == Running || s.Status() == Cancelling)
    requires s.runs[r].pc.Unwanted? || s.runs[r].pc.ReturnCancel? || s.runs[r].pc.CatchCancel?
    ensures Cancels(s', r)
  {}

  lemma UnhandledWritten(s: System, r: nat, s': System)
    requires HoldsAt(s, r, Unhandled) && s.Status() == Running && Steps(s, r, s')
    ensures GivesUp(s', r)
  {}

  lemma ResultWritten(s: System, r: nat, result: Option<Json>, s': System)
    requires HoldsAt(s, r, Completing(result)) && s.Status() == Running && Steps(s, r, s')
    ensures Completes(s', r, result)
  {}

  lemma ErrorWritten(s: System, r: nat, error: Raised, s': System)
    requires HoldsAt(s, r, if SaysFinal(error) then Failing(error) else Retrying(error)) && s.Status() == Running
    requires Steps(s, r, s')
    ensures Errs(s', r, error)
  {}

  /** The run stays the holder of an unchanged execution. */
  ghost predicate Keeps(s: System, r: nat, s': System) {
    && r in s.runs && r in s'.runs && s'.execution == s.execution
    && s'.runs[r].token == s.runs[r].token && s'.runs[r].hasHandler == s.runs[r].hasHandler
  }

  lemma FirstChecked(s: System, r: nat, s': System)
    requires r in s.runs && s.runs[r].pc == FirstCheck && Steps(s, r, s')
    ensures Keeps(s, r, s')
    ensures s'.runs[r].pc == if s.Status() == Cancelling then Unwanted
                             else if s.runs[r].hasHandler then Handling else Unhandled
    ensures s'.runs[r].pc == Handling ==> s'.runs[r].handled
  {}

  lemma ReturnChecked(s: System, r: nat, result: Option<Json>, s': System)
    requires r in s.runs && s.runs[r].pc == ReturnCheck(result) && Steps(s, r, s')
    ensures Keeps(s, r, s')
    ensures s'.runs[r].pc == if s.Status() == Cancelling then ReturnCancel else Completing(result)
  {}

  /** The check in the catch block decides by the error alone, unless the execution is cancelling. */
  lemma CatchChecked(s: System, r: nat, error: Raised, s': System)
    requires r in s.runs && s.runs[r].pc == CatchCheck(error) && Steps(s, r, s')
    ensures Keeps(s, r, s')
    ensures s'.runs[r].pc == if s.Status() == Cancelling then CatchCancel
                             else if SaysFinal(error) then Failing(error) else Retrying(error)
  {}

  lemma SignalSends(s: System, r: nat, s': System)
    requires r in s.runs && CallAt(s.runs[r]).None? && Steps(s, r, s')
    ensures Keeps(s, r, s') && s'.runs[r].pc == AfterSignal(s.runs[r])
  {}

  /** A queued execution is claimed: it runs under the run's token, with one more attempt. Any other is left. */
  lemma ClaimOutcome(s: System, r: nat, s': System)
    requires r in s.runs && s.runs[r].pc == Claiming && Next(s, r, s')
    ensures var was, now := s.execution.row.record, s'.execution.row.record;
            if s.Status() == Queued then
              && HoldsAt(s', r, Claimed) && now.status == Running && now.attempt == was.attempt + 1
              && now.leaseUntil == Some(s.runs[r].until)
            else Exits(s', r) && s'.execution == s.execution
  {
    CallAnswers(s, r);
  }

  ghost predicate Active(s: System) {
    s.Status() == Running || s.Status() == Cancelling
  }

  /** Before handling: an aborted or cancelling run cancels; one without a handler fails for good; any other
      starts its handler and leaves the record. */
  lemma BeforeHandling(s: System, r: nat, s1: System, s2: System, s3: System)
    requires HoldsAt(s, r, Claimed) && Active(s)
    requires Next(s, r, s1) && Next(s1, r, s2) && Next(s2, r, s3)
    ensures if s.runs[r].aborted then Cancels(s2, r)
            else if s.Status() == Cancelling then Cancels(s3, r)
            else if s.runs[r].hasHandler
            then HoldsAt(s2, r, Handling) && s2.runs[r].handled && s2.execution == s.execution
            else GivesUp(s3, r)
  {
    NextSteps(s, r, s1);
    NextSteps(s1, r, s2);
    NextSteps(s2, r, s3);
    StartOutcome(s, r, s1, s2, s3);
  }

  lemma StartOutcome(s: System, r: nat, s1: System, s2: System, s3: System)
    requires HoldsAt(s, r, Claimed) && Active(s)
    requires Steps(s, r, s1) && Steps(s1, r, s2) && Steps(s2, r, s3)
    ensures if s.runs[r].aborted then Cancels(s2, r)
            else if s.Status() == Cancelling then Cancels(s3, r)
            else if s.runs[r].hasHandler
            then HoldsAt(s2, r, Handling) && s2.runs[r].handled && s2.execution == s.execution
            else GivesUp(s3, r)
  {
    SignalSends(s, r, s1);
    if s.runs[r].aborted {
      CancelWritten(s1, r, s2);
    } else {
      FirstChecked(s1, r, s2);
      if s.Status() == Cancelling { CancelWritten(s2, r, s3); }
      else if !s.runs[r].hasHandler { UnhandledWritten(s2, r, s3); }
    }
  }

  /** After the handler has returned: the run completes with exactly its result, unless it was told to stop
      or the execution is cancelling. */
  lemma ReturnOutcome(s: System, r: nat, result: Option<Json>, s0: System, s1: System, s2: System, s3: System)
    requires HoldsAt(s, r, Handling) && Active(s) && s0 == Do(s, HandlerReturns(r, result))
    requires Next(s0, r, s1) && Next(s1, r, s2) && Next(s2, r, s3)
    ensures if s.runs[r].handlerAborted then Cancels(s2, r)
            else if s.Status() == Cancelling then Cancels(s3, r)
            else Completes(s3, r, result)
  {
    HandlerSpoke(s, r, HandlerReturns(r, result));
    NextSteps(s0, r, s1);
    NextSteps(s1, r, s2);
    NextSteps(s2, r, s3);
    ReturnedOutcome(s0, r, result, s1, s2, s3);
  }

  lemma ReturnedOutcome(s: System, r: nat, result: Option<Json>, s1: System, s2: System, s3: System)
    requires HoldsAt(s, r, Returned(result)) && Active(s)
    requires Steps(s, r, s1) && Steps(s1, r, s2) && Steps(s2, r, s3)
    ensures if s.runs[r].handlerAborted then Cancels(s2, r)
            else if s.Status() == Cancelling then Cancels(s3, r)
            else Completes(s3, r, result)
  {
    SignalSends(s, r, s1);
    if s.runs[r].handlerAborted {
      CancelWritten(s1, r, s2);
    } else {
      ReturnChecked(s1, r, result, s2);
      if s.Status() == Cancelling { CancelWritten(s2, r, s3); } else { ResultWritten(s2, r, result, s3); }
    }
  }

  /** In the catch block: the run that was not told to stop fails the execution for good exactly when the
      error says so, and otherwise puts it back in the queue, with the failure stored. */
  lemma CatchOutcome(s: System, r: nat, error: Raised, s1: System, s2: System)
    requires HoldsAt(s, r, CatchCheck(error)) && Active(s) && Next(s, r, s1) && Next(s1, r, s2)
    ensures if s.Status() == Cancelling then Cancels(s2, r) else Errs(s2, r, error)
  {
    NextSteps(s, r, s1);
    NextSteps(s1, r, s2);
    CatchEnds(s, r, error, s1, s2);
  }

  lemma CatchEnds(s: System, r: nat, error: Raised, s1: System, s2: System)
    requires HoldsAt(s, r, CatchCheck(error)) && Active(s) && Steps(s, r, s1) && Steps(s1, r, s2)
    ensures if s.Status() == Cancelling then Cancels(s2, r) else Errs(s2, r, error)
  {
    CatchChecked(s, r, error, s1);
    if s.Status() == Cancelling { CancelWritten(s1, r, s2); } else { ErrorWritten(s1, r, error, s2); }
  }

  lemma CaughtOutcome(s: System, r: nat, error: Raised, s1: System, s2: System, s3: System)
    requires HoldsAt(s, r, Caught(error)) && Active(s)
    requires Steps(s, r, s1) && Steps(s1, r, s2) && Steps(s2, r, s3)
    ensures if s.runs[r].handlerAborted then Cancels(s2, r)
            else if s.Status() == Cancelling then Cancels(s3, r)
            else Errs(s3, r, error)
  {
    SignalSends(s, r, s1);
    if s.runs[r].handlerAborted { CancelWritten(s1, r, s2); } else { CatchEnds(s1, r, error, s2, s3); }
  }

  /** A throwing handler ends so. */
  lemma ThrowOutcome(s: System, r: nat, error: Raised, s0: System, s1: System, s2: System, s3: System)
    requires HoldsAt(s, r, Handling) && Active(s) && s0 == Do(s, HandlerThrows(r, error))
    requires Next(s0, r, s1) && Next(s1, r, s2) && Next(s2, r, s3)
    ensures if s.runs[r].handlerAborted then Cancels(s2, r)
            else if s.Status() == Cancelling then Cancels(s3, r)
            else Errs(s3, r, error)
  {
    HandlerSpoke(s, r, HandlerThrows(r, error));
    NextSteps(s0, r, s1);
    NextSteps(s1, r, s2);
    NextSteps(s2, r, s3);
    CaughtOutcome(s0, r, error, s1, s2, s3);
  }

  /** The calls whose errors reach the catch block. */
  predicate InTryBlock(pc: Pc) {
    pc.ReturnCheck? || pc.ReturnCancel? || pc.Completing?
  }

  lemma ThrewAt(s: System, r: nat, committed: bool, error: Raised, s0: System)
    requires r in s.runs && CallAt(s.runs[r]).Some? && s0 == Do(s, StoreThrows(r, committed, error))
    ensures r in s0.runs && s0.runs[r].pc == (if InTryBlock(s.runs[r].pc) then Caught(error) else Exited)
    ensures s0.runs[r].token == s.runs[r].token && s0.runs[r].handlerAborted == s.runs[r].handlerAborted
    ensures s0.execution == if committed then P.Step(s.execution, CallAt(s.runs[r]).value).0 else s.execution
  {}

  /** A store call that throws without effect: in the try block its error ends the run as the handler's would,
      anywhere else it ends the run and leaves the record. */
  lemma StoreErrorOutcome(s: System, r: nat, error: Raised, s0: System, s1: System, s2: System, s3: System)
    requires r in s.runs && CallAt(s.runs[r]).Some? && s.Held(s.runs[r].token) && Active(s)
    requires s0 == Do(s, StoreThrows(r, false, error)) && Next(s0, r, s1) && Next(s1, r, s2) && Next(s2, r, s3)
    ensures s0.execution == s.execution
    ensures if !InTryBlock(s.runs[r].pc) then Exits(s0, r)
            else if s.runs[r].handlerAborted then Cancels(s2, r)
            else if s.Status() == Cancelling then Cancels(s3, r)
            else Errs(s3, r, error)
  {
    ThrewAt(s, r, false, error, s0);
    if InTryBlock(s.runs[r].pc) {
      NextSteps(s0, r, s1);
      NextSteps(s1, r, s2);
      NextSteps(s2, r, s3);
      CaughtOutcome(s0, r, error, s1, s2, s3);
    }
  }

  lemma OutcomeRefused(e: P.Execution, call: Call)
    requires IsTerminal(e.row.record.status) && (call.Complete? || call.Fail? || call.Retry?)
    ensures P.Step(e, call).0 == e
  {}

  lemma EndedWrite(s: System, r: nat, s': System)
    requires r in s.runs && (s.runs[r].pc.Retrying? || s.runs[r].pc.Failing?) && IsTerminal(s.Status())
    requires Steps(s, r, s')
    ensures s'.execution == s.execution && Exits(s', r)
  {
    OutcomeRefused(s.execution, CallAt(s.runs[r]).value);
  }

  /** The catch block changes nothing about an execution that has ended. */
  lemma CaughtTooLate(s: System, r: nat, error: Raised, s1: System, s2: System, s3: System)
    requires r in s.runs && s.runs[r].pc == Caught(error) && !s.runs[r].handlerAborted && IsTerminal(s.Status())
    requires Steps(s, r, s1) && Steps(s1, r, s2) && Steps(s2, r, s3)
    ensures s3.execution == s.execution && Exits(s3, r)
  {
    SignalSends(s, r, s1);
    CatchChecked(s1, r, error, s2);
    EndedWrite(s2, r, s3);
  }

  lemma CommittedThrow(s: System, r: nat, result: Option<Json>, error: Raised, s0: System)
    requires HoldsAt(s, r, Completing(result)) && s.Status() == Running && !s.runs[r].handlerAborted
    requires s0 == Do(s, StoreThrows(r, true, error))
    ensures r in s0.runs && s0.runs[r].pc == Caught(error) && !s0.runs[r].handlerAborted
    ensures HasResult(s0.execution.row.record, result)
  {
    ThrewAt(s, r, true, error, s0);
  }

  /** A store call that throws after it has taken effect leaves what the call alone would. When that was the
      result, the catch block's own write is refused, and the result stands. */
  lemma CommittedOutcomeStands(s: System, r: nat, result: Option<Json>, error: Raised,
                               s0: System, s1: System, s2: System, s3: System)
    requires HoldsAt(s, r, Completing(result)) && s.Status() == Running && !s.runs[r].handlerAborted
    requires s0 == Do(s, StoreThrows(r, true, error)) && Next(s0, r, s1) && Next(s1, r, s2) && Next(s2, r, s3)
    ensures Completes(s3, r, result)
  {
    CommittedThrow(s, r, result, error, s0);
    StandsAfter(s0, r, error, s1, s2, s3);
  }

  lemma StandsAfter(s: System, r: nat, error: Raised, s1: System, s2: System, s3: System)
    requires r in s.runs && s.runs[r].pc == Caught(error) && !s.runs[r].handlerAborted && IsTerminal(s.Status())
    requires Next(s, r, s1) && Next(s1, r, s2) && Next(s2, r, s3)
    ensures s3.execution == s.execution && Exits(s3, r)
  {
    NextSteps(s, r, s1);
    NextSteps(s1, r, s2);
    NextSteps(s2, r, s3);
    CaughtTooLate(s, r, error, s1, s2, s3);
  }

  /** While the handler runs, the worker's signal stops it, */
  lemma SignalStops(s: System, r: nat)
    requires HoldsAt(s, r, Handling) && s.runs[r].handled
    ensures HoldsAt(Do(s, Abort(r)), r, Handling) && Do(s, Abort(r)).runs[r].handlerAborted
    ensures Do(s, Abort(r)).execution == s.execution
  {
    HandlerSpoke(s, r, Abort(r));
  }

  /** the monitor does when it reads a cancelling status, and only then, */
  lemma MonitorStops(s: System, r: nat)
    requires r in s.runs && s.runs[r].pc.Handling? && s.runs[r].handled && !s.runs[r].handlerAborted
    ensures var s' := Do(Do(s, MonitorReads(r)), MonitorAborts(r));
            && r in s'.runs && s'.runs[r].pc.Handling? && s'.execution == s.execution
            && (s'.runs[r].handlerAborted <==> s.Status() == Cancelling)
  {
    HandlerSpoke(s, r, MonitorReads(r));
    HandlerSpoke(Do(s, MonitorReads(r)), r, MonitorAborts(r));
  }

  /** and a report reaches the store with its value and payload, under the run's token. */
  lemma ReportStores(s: System, r: nat, progress: real, payload: Option<Json>)
    requires HoldsAt(s, r, Handling) && s.runs[r].handled && Active(s)
    ensures var s' := Do(s, ReportProgress(r, progress, payload));
            && HoldsAt(s', r, Handling) && s'.runs[r] == s.runs[r]
            && (s.Status() == Cancelling ==> s'.execution == s.execution)
            && (s.Status() == Running && 0.0 <= progress <= 1.0 ==> s'.execution.row.record.progress == progress)
            && (s.Status() == Running && payload.Some? ==>
                  && |s'.execution.log| == |s.execution.log| + 1
                  && s'.execution.log[|s.execution.log|].body == ProgressEvent(Reported(payload.value)))
  {
    ReportKept(s, r, progress, payload);
  }

  lemma ReportKept(s: System, r: nat, progress: real, payload: Option<Json>)
    requires r in s.runs && s.runs[r].handled && s.Held(s.runs[r].token)
    ensures var s' := Do(s, ReportProgress(r, progress, payload));
            && r in s'.runs && s'.runs[r] == s.runs[r]
            && s'.execution == P.Step(s.execution, UpdateProgress(s.runs[r].token, progress, payload)).0
  {}

  /** A run starts only under a token that is not in use, about to claim. */
  lemma Starts(s: System, r: nat, token: string, until: string, hasHandler: bool)
    requires r !in s.runs && forall q :: q in s.runs ==> s.runs[q].token != token
    ensures var s' := Do(s, Start(r, token, until, hasHandler));
            && s'.execution == s.execution && r in s'.runs
            && var run := s'.runs[r];
               && run.pc == Claiming && run.token == token && run.until == until && run.hasHandler == hasHandler
               && !run.aborted && !run.handlerAborted && !run.handled
  {}
}
