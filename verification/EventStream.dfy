/** One server-sent event stream polling an execution while the lifecycle goes on. */
module EventStream {
  import opened Options
  import opened ExecutionDomain
  import opened ExecutionLog
  import P = PostgresStore

  datatype Pc =
    | Idle                                    // between polls
    | Writing(pending: seq<Event>, empty: bool)  // events listed, about to write the next one
    | Reading(empty: bool)                       // all written, about to read the record

  /** listedAt and recordAt observe how long the log was at the last read of events and of the record. */
  datatype Stream = Stream(start: nat, lastSequence: nat, pc: Pc, written: seq<Event>, open: bool, ended: bool,
                           listedAt: nat, recordAt: nat)

  datatype System = System(execution: P.Execution, stream: Stream)

  datatype Action =
    | Store(call: Call)
    | Poll
    | Write
    | ReadRecord
    | PollThrows(destroyed: bool)

  /** Where the client asks to start: the `after` number, when it is finite and not negative. */
  function StartAfter(after: Option<real>): nat {
    if after.Some? && after.value > 0.0 then after.value.Floor else 0
  }

  function Open(execution: P.Execution, after: Option<real>): System {
    System(execution, Stream(StartAfter(after), StartAfter(after), Idle, [], true, false, 0, 0))
  }

  function Do(s: System, a: Action): System {
    var stream := s.stream;
    match a
    case Store(call) => s.(execution := P.Step(s.execution, call).0)
    case Poll =>
      if !stream.pc.Idle? || !stream.open then s
      else
        var events := EventsAfter(s.execution.log, stream.lastSequence);
        s.(stream := stream.(pc := Writing(events, events == []), listedAt := |s.execution.log|))
    case Write =>
      if !stream.pc.Writing? then s
      else if stream.pc.pending == [] then s.(stream := stream.(pc := Reading(stream.pc.empty)))
      else
        var event := stream.pc.pending[0];
        s.(stream := stream.(pc := Writing(stream.pc.pending[1..], stream.pc.empty),
            written := stream.written + [event],
                             lastSequence := event.sequence))
    case ReadRecord =>
      if !stream.pc.Reading? then s
      else
        var ends := IsTerminal(s.execution.row.record.status) && stream.pc.empty;
        s.(stream := stream.(pc := Idle, recordAt := |s.execution.log|, ended := ends, open := stream.open && !ends))
    case PollThrows(destroyed) =>
      if stream.pc.Idle? then s else s.(stream := stream.(pc := Idle, open := stream.open && !destroyed))
  }

  function DoAll(s: System, actions: seq<Action>): System {
    if actions == [] then s else Do(DoAll(s, actions[..|actions| - 1]), actions[|actions| - 1])
  }

  /** The events of the log numbered above n. */
  function Tail(log: seq<Event>, n: nat): seq<Event> {
    if n <= |log| then log[n..] else []
  }

  lemma {:induction false} ListsTail(log: seq<Event>, after: nat)
    requires Numbered(log)
    ensures EventsAfter(log, after) == Tail(log, after)
  {
    if log != [] {
      var before, last := log[..|log| - 1], log[|log| - 1];
      ListsTail(before, after);
      assert last.sequence == |log|;
      if after < |log| { assert log[after..] == before[after..] + [last]; }
    }
  }

  /** The log only grows, and not at all once the status is terminal. */
  lemma LogGrows(e: P.Execution, call: Call)
    ensures e.log <= P.Step(e, call).0.log
    ensures IsTerminal(e.row.record.status) ==> P.Step(e, call).0 == e
  {}

  ghost predicate Invariant(s: System) {
    var stream, log := s.stream, s.execution.log;
    && stream.lastSequence == stream.start + |stream.written|
    && (stream.written != [] ==>
          stream.lastSequence <= |log| && stream.written == log[stream.start..stream.lastSequence])
    && stream.listedAt <= |log|
    && (stream.written != [] ==> stream.lastSequence <= stream.listedAt)
    && (stream.pc.Writing? ==> stream.pc.pending == Tail(log[..stream.listedAt], stream.lastSequence))
    && (stream.pc.Writing? && stream.pc.empty ==> stream.pc.pending == [])
    && (stream.pc.Reading? ==> stream.listedAt <= stream.lastSequence)
    && (stream.ended ==>
          && stream.pc.Idle? && !stream.open && IsTerminal(s.execution.row.record.status)
          && stream.listedAt <= stream.lastSequence && |log| == stream.recordAt)
  }

  lemma StoreKeeps(s: System, e: P.Execution)
    requires Invariant(s) && s.execution.log <= e.log
    requires IsTerminal(s.execution.row.record.status) ==> e == s.execution
    ensures Invariant(s.(execution := e))
  {
    assert e.log[..s.stream.listedAt] == s.execution.log[..s.stream.listedAt];
  }

  lemma PollKeeps(s: System, a: Action)
    requires Invariant(s) && !a.Store? && LogInvariant(s.execution)
    ensures Invariant(Do(s, a))
  {
    var log, stream := s.execution.log, s.stream;
    if a.Poll? {
      ListsTail(log, stream.lastSequence);
      assert log[..|log|] == log;
    } else if a.Write? && stream.pc.Writing? && stream.pc.pending != [] {
      assert stream.pc.pending[0] == log[stream.lastSequence];
      assert stream.written + [log[stream.lastSequence]] == log[stream.start..stream.lastSequence + 1];
    }
  }

  lemma {:induction false} InvariantHolds(e: P.Execution, after: Option<real>, actions: seq<Action>)
    requires LogInvariant(e)
    ensures var s := DoAll(Open(e, after), actions);
            Invariant(s) && LogInvariant(s.execution) && s.stream.start == StartAfter(after)
  {
    if actions != [] {
      var s, a := DoAll(Open(e, after), actions[..|actions| - 1]), actions[|actions| - 1];
      InvariantHolds(e, after, actions[..|actions| - 1]);
      if a.Store? {
        LogGrows(s.execution, a.call);
        StepKeepsLog(s.execution, a.call);
        StoreKeeps(s, P.Step(s.execution, a.call).0);
      } else {
        PollKeeps(s, a);
      }
    }
  }

  /** What has been written is the contiguous stretch of the log after the start, without gap or repeat. */
  lemma WritesContiguously(e: P.Execution, after: Option<real>, actions: seq<Action>, k: nat)
    requires LogInvariant(e)
    ensures var s := DoAll(Open(e, after), actions);
            && s.stream.lastSequence == StartAfter(after) + |s.stream.written|
            && (k < |s.stream.written| ==>
                  && s.stream.written[k].sequence == StartAfter(after) + k + 1
                  && s.stream.lastSequence <= |s.execution.log|
                  && s.stream.written[k] == s.execution.log[StartAfter(after) + k])
  {
    InvariantHolds(e, after, actions);
  }

  /** When the stream has ended, the execution is terminal, and the events it owes are those appended
      between the last poll's two reads: none if and only if the log did not grow there past the start. */
  lemma EndsComplete(e: P.Execution, after: Option<real>, actions: seq<Action>)
    requires LogInvariant(e)
    requires DoAll(Open(e, after), actions).stream.ended
    ensures var s := DoAll(Open(e, after), actions);
            && IsTerminal(s.execution.row.record.status)
            && s.stream.listedAt <= s.stream.recordAt == |s.execution.log|
            && s.stream.written == Tail(s.execution.log[..s.stream.listedAt], StartAfter(after))
            && (s.stream.written == Tail(s.execution.log, StartAfter(after)) <==>
                  s.stream.recordAt == s.stream.listedAt || s.stream.recordAt <= StartAfter(after))
  {
    InvariantHolds(e, after, actions);
    var s := DoAll(Open(e, after), actions);
    var log, stream, start := s.execution.log, s.stream, StartAfter(after);
    assert stream.written == Tail(log[..stream.listedAt], start);
    assert log[..|log|] == log;
    if stream.recordAt != stream.listedAt && stream.recordAt > start {
      assert |Tail(log, start)| > |stream.written|;
    }
  }

  /** And nothing is ever written afterwards, nor does the log change. */
  lemma EndedStays(e: P.Execution, after: Option<real>, actions: seq<Action>, a: Action)
    requires LogInvariant(e)
    requires DoAll(Open(e, after), actions).stream.ended
    ensures DoAll(Open(e, after), actions + [a]) == DoAll(Open(e, after), actions)
  {
    InvariantHolds(e, after, actions);
    assert (actions + [a])[..|actions|] == actions;
    if a.Store? { LogGrows(DoAll(Open(e, after), actions).execution, a.call); }
  }

  lemma ThenDo(s: System, actions: seq<Action>, a: Action)
    ensures DoAll(s, actions + [a]) == Do(DoAll(s, actions), a)
  {
    assert (actions + [a])[..|actions|] == actions;
  }

  /** The first poll delivers the one event there is; the second finds nothing new. */
  lemma FirstPolls(e: P.Execution, actions: seq<Action>)
    requires |e.log| == 1 && LogInvariant(e) && !IsTerminal(e.row.record.status)
    requires actions == [Poll] + [Write] + [Write] + [ReadRecord] + [Poll] + [Write]
    ensures var s := DoAll(Open(e, None), actions);
            s.execution == e && s.stream.pc == Reading(true) && s.stream.open && s.stream.written == e.log
  {
    var s0 := Open(e, None);
    ThenDo(s0, [], Poll);
    assert [] + [Poll] == [Poll];
    ThenDo(s0, [Poll], Write);
    ThenDo(s0, [Poll] + [Write], Write);
    ThenDo(s0, [Poll] + [Write] + [Write], ReadRecord);
    ThenDo(s0, [Poll] + [Write] + [Write] + [ReadRecord], Poll);
    ThenDo(s0, [Poll] + [Write] + [Write] + [ReadRecord] + [Poll], Write);
    ListsTail(e.log, 0);
    ListsTail(e.log, 1);
    var s1 := Do(s0, Poll);
    assert s1.stream.pc == Writing(e.log, false);
    var s2 := Do(s1, Write);
    assert s2.stream.pc == Writing([], false) && s2.stream.written == e.log && s2.stream.lastSequence == 1;
  }

  lemma CancelBetweenReads(s: System)
    requires s.stream.pc == Reading(true) && s.execution.row.record.status == Queued
    ensures var s' := Do(Do(s, Store(Cancel)), ReadRecord);
            s'.stream.ended && s'.stream.written == s.stream.written && |s'.execution.log| == |s.execution.log| + 1
  {}

  lemma NewLog(record: Record)
    requires IsNew(record)
    ensures var e := P.NewExecution(record);
            LogInvariant(e) && |e.log| == 1 && e.row.record.status == Queued
  {
    AppendOne([], Event(1, StatusEvent(Queued)));
    assert P.NewExecution(record).log == [] + [Event(1, StatusEvent(Queued))];
  }

  /** The events owed can include the last one: a cancel between the two reads is never delivered. */
  lemma LastEventCanBeLost(record: Record)
    requires IsNew(record)
    ensures exists actions ::
              var s := DoAll(Open(P.NewExecution(record), None), actions);
              s.stream.ended && s.stream.written != Tail(s.execution.log, 0)
  {
    var e := P.NewExecution(record);
    NewLog(record);
    var polls := [Poll] + [Write] + [Write] + [ReadRecord] + [Poll] + [Write];
    FirstPolls(e, polls);
    ThenDo(Open(e, None), polls, Store(Cancel));
    ThenDo(Open(e, None), polls + [Store(Cancel)], ReadRecord);
    CancelBetweenReads(DoAll(Open(e, None), polls));
    var s := DoAll(Open(e, None), polls + [Store(Cancel)] + [ReadRecord]);
    assert |Tail(s.execution.log, 0)| == 2;
  }

  // ---------------------------------------------------------------- what the client asked for

  /** The client has no number, or one below the event's. */
  predicate Wants(after: Option<real>, sequence: nat) {
    after == None || sequence as real > after.value
  }

  lemma StartsAfter(after: Option<real>, sequence: nat)
    requires sequence > 0
    ensures sequence > StartAfter(after) <==> Wants(after, sequence)
  {}

  /** Only events above the client's number are written, each as the log has it, in order. */
  lemma WritesWanted(e: P.Execution, after: Option<real>, actions: seq<Action>, k: nat)
    requires LogInvariant(e)
    ensures var s := DoAll(Open(e, after), actions);
            k < |s.stream.written| ==>
              var event := s.stream.written[k];
              && Wants(after, event.sequence) && 0 < event.sequence <= |s.execution.log|
              && event == s.execution.log[event.sequence - 1]
              && (k > 0 ==> event.sequence == s.stream.written[k - 1].sequence + 1)
  {
    WritesContiguously(e, after, actions, k);
    if k < |DoAll(Open(e, after), actions).stream.written| {
      StartsAfter(after, StartAfter(after) + k + 1);
      if k > 0 { WritesContiguously(e, after, actions, k - 1); }
    }
  }

  /** When a poll has written what it listed, every event of the listed log above the client's number has
      been written. */
  lemma WantedAreWritten(e: P.Execution, after: Option<real>, actions: seq<Action>, i: nat)
    requires LogInvariant(e)
    ensures var s := DoAll(Open(e, after), actions);
            s.stream.pc.Reading? && i < s.stream.listedAt && Wants(after, i + 1) ==>
              i < |s.execution.log| && s.execution.log[i] in s.stream.written
              && s.execution.log[i].sequence == i + 1
  {
    InvariantHolds(e, after, actions);
    var s := DoAll(Open(e, after), actions);
    var stream, log := s.stream, s.execution.log;
    if stream.pc.Reading? && i < stream.listedAt && Wants(after, i + 1) {
      StartsAfter(after, i + 1);
      assert stream.written[i - stream.start] == log[i];
    }
  }

  // ---------------------------------------------------------------- a poll alone

  function WriteAll(s: System): System
    decreases if s.stream.pc.Writing? then |s.stream.pc.pending| + 1 else 0
  {
    if s.stream.pc.Writing? then WriteAll(Do(s, Write)) else s
  }

  /** A whole poll with nothing else happening. */
  function Polled(s: System): System {
    Do(WriteAll(Do(s, Poll)), ReadRecord)
  }

  lemma {:induction false} WritesAll(s: System)
    requires s.stream.pc.Writing?
    ensures var s', stream := WriteAll(s), s.stream;
            && s'.execution == s.execution && s'.stream.open == stream.open
            && s'.stream.pc == Reading(stream.pc.empty)
            && s'.stream.written == stream.written + stream.pc.pending
    decreases |s.stream.pc.pending|
  {
    if s.stream.pc.pending != [] {
      WritesAll(Do(s, Write));
      assert [s.stream.pc.pending[0]] + s.stream.pc.pending[1..] == s.stream.pc.pending;
    }
  }

  /** It delivers all that the log has above the last event written, and ends the stream exactly when there was
      nothing and the execution is terminal; otherwise the stream stays open. */
  lemma PollDelivers(s: System)
    requires Invariant(s) && LogInvariant(s.execution) && s.stream.pc.Idle? && s.stream.open
    ensures var s', latest := Polled(s), Tail(s.execution.log, s.stream.lastSequence);
            && s'.execution == s.execution && s'.stream.pc.Idle?
            && s'.stream.written == s.stream.written + latest
            && (s'.stream.ended <==> latest == [] && IsTerminal(s.execution.row.record.status))
            && (s'.stream.open <==> !s'.stream.ended)
  {
    ListsTail(s.execution.log, s.stream.lastSequence);
    WritesAll(Do(s, Poll));
  }

  /** A poll that throws is followed by another, unless the response is destroyed. */
  lemma PollErrorGoesOn(s: System, destroyed: bool)
    requires !s.stream.pc.Idle? && s.stream.open
    ensures var s' := Do(s, PollThrows(destroyed));
            s'.execution == s.execution && s'.stream.pc.Idle? && s'.stream.written == s.stream.written
            && (s'.stream.open <==> !destroyed)
  {}
}
