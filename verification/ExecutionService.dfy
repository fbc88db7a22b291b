/** Concurrent calls of ExecutionService.create against one store, with the rest of the lifecycle running
    beside them. */
module ExecutionService {
  import opened Options
  import opened ExecutionDomain
  import P = PostgresStore

  const CONTRACT_VERSION := 1

  datatype Request = Request(kind: Kind, contractVersion: Option<int>, input: Json)

  datatype Stage =
    | Finding
    | Inserting(record: Record)
    | FindingAgain
    | Returned(record: Record, replayed: bool)
    | Thrown

  datatype Create = Create(request: Request, key: string, stage: Stage)

  /** inserters observes which call inserted the record of a key. */
  datatype System = System(store: P.Store, creates: map<nat, Create>, ids: set<string>, inserters: map<string, nat>)

  datatype Action =
    | Begin(c: nat, request: Request, key: string)
    | Find(c: nat, freshId: string)
    | Insert(c: nat)
    | InsertThrows(c: nat, committed: bool)
    | FindAgain(c: nat)
    | FindThrows(c: nat)
    | Other(id: string, call: Call)

  predicate IsSpace(c: char) {
    || c in [' ', '\t', '\n', '\r', '\U{0B}', '\U{0C}', '\U{A0}', '\U{1680}', '\U{2028}', '\U{2029}']
    || c in ['\U{202F}', '\U{205F}', '\U{3000}', '\U{FEFF}'] || '\U{2000}' <= c <= '\U{200A}'
  }

  /** By code point: tab to carriage return, space, and the white space beyond ASCII that trim removes. */
  lemma SpaceCodes(c: char)
    ensures IsSpace(c) <==>
              var code := c as int;
              || 9 <= code <= 13 || code == 32 || code == 160 || code == 5760 || 8192 <= code <= 8202
              || code == 8232 || code == 8233 || code == 8239 || code == 8287 || code == 12288 || code == 65279
  {}

  predicate IsBlank(key: string) {
    forall i :: 0 <= i < |key| ==> IsSpace(key[i])
  }

  function NewRecord(request: Request, key: string, id: string): Record {
    var version := if request.contractVersion.Some? then request.contractVersion.value else CONTRACT_VERSION;
    Record(id, request.kind, Queued, version, key, 0, None, None, 0.0, None, None)
  }

  function NewJob(request: Request, id: string): P.Job {
    P.Job(id, request.kind, "execution:" + id, request.input)
  }

  function At(s: System, c: nat, stage: Stage): System
    requires c in s.creates
  {
    s.(creates := s.creates[c := s.creates[c].(stage := stage)])
  }

  /** The insert's transaction takes effect. */
  ghost function Inserted(s: System, c: nat, record: Record): System
    requires c in s.creates
  {
    var (store, reply) := P.Create(s.store, record, NewJob(s.creates[c].request, record.id));
    s.(store := store, inserters := if reply == Threw then s.inserters else s.inserters[s.creates[c].key := c])
  }

  ghost function Do(s: System, a: Action): System {
    if a.Other? then s.(store := P.Apply(s.store, a.id, a.call).0)
    else if a.Begin? then
      if a.c in s.creates then s
      else s.(creates := s.creates[a.c := Create(a.request, a.key, if IsBlank(a.key) then Thrown else Finding)])
    else if a.c !in s.creates then s
    else
      var create := s.creates[a.c];
      match a
      case Find(c, freshId) =>
        var existing := P.FindByKey(s.store, create.key);
        if !create.stage.Finding? || freshId in s.ids then s
        else if existing.Some? then At(s, c, Returned(existing.value, true))
        else At(s, c, Inserting(NewRecord(create.request, create.key, freshId))).(ids := s.ids + {freshId})
      case Insert(c) =>
        if !create.stage.Inserting? then s
        else
          var reply := P.Create(s.store, create.stage.record, NewJob(create.request, create.stage.record.id)).1;
          At(Inserted(s, c, create.stage.record), c,
             if reply == Threw then FindingAgain else Returned(create.stage.record, false))
      case InsertThrows(c, committed) =>
        if !create.stage.Inserting? then s
        else At(if committed then Inserted(s, c, create.stage.record) else s, c, FindingAgain)
      case FindAgain(c) =>
        var concurrent := P.FindByKey(s.store, create.key);
        if !create.stage.FindingAgain? then s
        else At(s, c, if concurrent.Some? then Returned(concurrent.value, true) else Thrown)
      case FindThrows(c) =>
        if create.stage.Finding? || create.stage.FindingAgain? then At(s, c, Thrown) else s
  }

  ghost function After(actions: seq<Action>): System {
    if actions == [] then System(P.Store(map[], []), map[], {}, map[])
    else Do(After(actions[..|actions| - 1]), actions[|actions| - 1])
  }

  // ---------------------------------------------------------------- the invariant

  /** Exactly one job for each stored execution. */
  ghost predicate JobPerExecution(s: P.Store) {
    && (forall i, j :: 0 <= i < j < |s.jobs| ==> s.jobs[i].executionId != s.jobs[j].executionId)
    && (forall i :: 0 <= i < |s.jobs| ==> s.jobs[i].executionId in s.executions)
    && (forall id :: id in s.executions ==> exists i :: 0 <= i < |s.jobs| && s.jobs[i].executionId == id)
  }

  ghost predicate Stored(s: System, key: string, id: string, kind: Kind) {
    P.HasKey(s.store, id, key) && s.store.executions[id].row.record.kind == kind
        && s.store.executions[id].row.record.id == id
  }

  /** What a call's stage says about the store. */
  ghost predicate CallInvariant(s: System, c: nat, create: Create) {
    match create.stage
    case Inserting(record) =>
      record.id in s.ids && record.id !in s.store.executions
          && record == NewRecord(create.request, create.key, record.id)
      && !(create.key in s.inserters && s.inserters[create.key] == c)
    case Returned(record, replayed) =>
      && Stored(s, create.key, record.id, record.kind) && record.idempotencyKey == create.key
      && (!replayed ==> create.key in s.inserters && s.inserters[create.key] == c)
    case Finding => !(create.key in s.inserters && s.inserters[create.key] == c)
    case _ => true
  }

  ghost predicate Invariant(s: System) {
    && P.UniqueKeys(s.store)
    && JobPerExecution(s.store)
    && s.store.executions.Keys <= s.ids
    && (forall id :: id in s.store.executions ==> s.store.executions[id].row.record.idempotencyKey in s.inserters)
    && (forall key :: key in s.inserters ==> s.inserters[key] in s.creates && s.creates[s.inserters[key]].key == key)
    && (forall key, id :: key in s.inserters && P.HasKey(s.store, id, key) ==>
          Stored(s, key, id, s.creates[s.inserters[key]].request.kind))
    && (forall c, d :: c in s.creates && d in s.creates && c != d
                       && s.creates[c].stage.Inserting? && s.creates[d].stage.Inserting? ==>
          s.creates[c].stage.record.id != s.creates[d].stage.record.id)
    && (forall c :: c in s.creates ==> CallInvariant(s, c, s.creates[c]))
  }

  /** Stored keys, ids and kinds only accumulate. */
  ghost predicate Grows(s: P.Store, s': P.Store) {
    forall id :: id in s.executions ==>
      id in s'.executions && P.SameIdentity(s.executions[id].row.record, s'.executions[id].row.record)
  }

  lemma OtherKeeps(s: System, s': System)
    requires Invariant(s) && s' == s.(store := s'.store)
    requires P.SameIdentities(s.store, s'.store)
    ensures Invariant(s')
  {
    assert forall key, id, kind :: Stored(s', key, id, kind) == Stored(s, key, id, kind);
    assert forall id, key :: P.HasKey(s'.store, id, key) == P.HasKey(s.store, id, key);
    assert forall c :: c in s.creates ==> CallInvariant(s', c, s.creates[c]) == CallInvariant(s, c, s.creates[c]);
  }

  /** A call that moves on without touching the store. */
  lemma StageKeeps(s: System, s': System, c: nat, stage: Stage)
    requires Invariant(s) && c in s.creates
    requires s' == At(s, c, stage).(ids := s'.ids) && s.ids <= s'.ids
    requires stage.Inserting? ==> s.creates[c].stage.Finding? && stage.record.id !in s.ids && stage.record.id in s'.ids
    requires !stage.Finding? && CallInvariant(s', c, s'.creates[c])
    ensures Invariant(s')
  {
    assert forall key, id, kind :: Stored(s', key, id, kind) == Stored(s, key, id, kind);
    assert forall d :: d in s.creates && d != c ==>
             CallInvariant(s', d, s.creates[d]) == CallInvariant(s, d, s.creates[d]);
    assert forall key :: key in s'.inserters ==>
             s'.creates[s'.inserters[key]].request == s.creates[s.inserters[key]].request;
  }

  lemma BeginKeeps(s: System, s': System, c: nat, create: Create)
    requires Invariant(s) && c !in s.creates
    requires s' == s.(creates := s.creates[c := create])
    requires create.stage == Thrown || create.stage == Finding
    ensures Invariant(s')
  {
    assert forall key, id, kind :: Stored(s', key, id, kind) == Stored(s, key, id, kind);
    assert forall d :: d in s.creates ==> CallInvariant(s', d, s'.creates[d]) == CallInvariant(s, d, s.creates[d]);
    assert forall key :: key in s'.inserters ==>
             s'.creates[s'.inserters[key]].request == s.creates[s.inserters[key]].request;
  }

  lemma FoundIsStored(s: System, key: string)
    requires Invariant(s)
    ensures var r := P.FindByKey(s.store, key);
            r.Some? ==> Stored(s, key, r.value.id, r.value.kind) && r.value.idempotencyKey == key
  {
    var r := P.FindByKey(s.store, key);
    if r.Some? {
      var id :| P.HasKey(s.store, id, key) && r.value == s.store.executions[id].row.record;
    }
  }

  lemma JobsMatch(s: P.Store, s': P.Store, id: string, e: P.Execution, job: P.Job)
    requires JobPerExecution(s) && id !in s.executions && job.executionId == id
    requires s' == P.Store(s.executions[id := e], s.jobs + [job])
    ensures JobPerExecution(s')
  {
    forall other | other in s'.executions
      ensures exists i :: 0 <= i < |s'.jobs| && s'.jobs[i].executionId == other
    {
      if other == id {
        assert s'.jobs[|s.jobs|].executionId == id;
      } else {
        var i :| 0 <= i < |s.jobs| && s.jobs[i].executionId == other;
        assert s'.jobs[i].executionId == other;
      }
    }
  }

  /** s' has the record of call c added, and nothing else changed but c's stage. */
  ghost predicate HasInserted(s: System, s': System, c: nat, record: Record) {
    && c in s.creates && s.creates[c].stage == Inserting(record)
    && c in s'.creates && s'.ids == s.ids
    && s'.creates == s.creates[c := s.creates[c].(stage := s'.creates[c].stage)]
    && s'.inserters == s.inserters[record.idempotencyKey := c]
    && (forall id :: id in s'.store.executions <==> id == record.id || id in s.store.executions)
    && s'.store.executions[record.id].row.record == record
    && (forall id :: id in s.store.executions ==> s'.store.executions[id] == s.store.executions[id])
  }

  lemma InsertKeepsStore(s: System, c: nat, record: Record)
    requires Invariant(s) && c in s.creates && s.creates[c].stage == Inserting(record)
    requires P.Insertable(s.store, record)
    ensures var s' := Inserted(s, c, record);
            && HasInserted(s, s', c, record) && Grows(s.store, s'.store)
            && P.UniqueKeys(s'.store) && JobPerExecution(s'.store) && s'.creates == s.creates
  {
    var s' := Inserted(s, c, record);
    assert CallInvariant(s, c, s.creates[c]);
    P.UniqueAfterInsert(s.store, record, NewJob(s.creates[c].request, record.id));
    JobsMatch(s.store, s'.store, record.id, P.NewExecution(record), NewJob(s.creates[c].request, record.id));
  }

  lemma InsertKeepsCalls(s: System, s': System, c: nat, record: Record, d: nat)
    requires Invariant(s) && HasInserted(s, s', c, record)
    requires P.Insertable(s.store, record) && d in s'.creates
    requires s'.creates[c].stage == FindingAgain || s'.creates[c].stage == Returned(record, false)
    ensures CallInvariant(s', d, s'.creates[d])
  {
    assert CallInvariant(s, d, s.creates[d]) && CallInvariant(s, c, s.creates[c]);
    if d == c {
      assert Stored(s', record.idempotencyKey, record.id, record.kind);
    }
  }

  /** The insert's effect, when it has one. */
  lemma InsertKeeps(s: System, s': System, c: nat, record: Record)
    requires Invariant(s) && HasInserted(s, s', c, record)
    requires P.Insertable(s.store, record)
    requires s'.creates[c].stage == FindingAgain || s'.creates[c].stage == Returned(record, false)
    requires P.UniqueKeys(s'.store) && JobPerExecution(s'.store)
    ensures Invariant(s')
  {
    forall d | d in s'.creates ensures CallInvariant(s', d, s'.creates[d]) { InsertKeepsCalls(s, s', c, record, d); }
    assert CallInvariant(s, c, s.creates[c]);
    forall key, id | key in s'.inserters && P.HasKey(s'.store, id, key)
      ensures Stored(s', key, id, s'.creates[s'.inserters[key]].request.kind)
    {
      if id != record.id {
        assert P.HasKey(s.store, id, key);
        assert key != record.idempotencyKey;
        assert Stored(s, key, id, s.creates[s.inserters[key]].request.kind);
      }
    }
  }

  lemma InsertActionKeeps(s: System, c: nat, stage: Stage)
    requires Invariant(s) && c in s.creates && s.creates[c].stage.Inserting?
    requires P.Insertable(s.store, s.creates[c].stage.record)
    requires stage == FindingAgain || stage == Returned(s.creates[c].stage.record, false)
    ensures var s' := At(Inserted(s, c, s.creates[c].stage.record), c, stage);
            Invariant(s') && Grows(s.store, s'.store)
  {
    InsertKeepsStore(s, c, s.creates[c].stage.record);
    InsertKeeps(s, At(Inserted(s, c, s.creates[c].stage.record), c, stage), c, s.creates[c].stage.record);
  }

  lemma FindActionKeeps(s: System, a: Action)
    requires Invariant(s) && (a.Find? || a.FindAgain? || a.FindThrows?) && a.c in s.creates
    ensures Invariant(Do(s, a)) && Do(s, a).store == s.store
  {
    if Do(s, a) != s {
      FoundIsStored(s, s.creates[a.c].key);
      StageKeeps(s, Do(s, a), a.c, Do(s, a).creates[a.c].stage);
    }
  }

  lemma CreateActionKeeps(s: System, a: Action)
    requires Invariant(s) && (a.Insert? || a.InsertThrows?) && a.c in s.creates
    ensures Invariant(Do(s, a)) && Grows(s.store, Do(s, a).store)
  {
    var create := s.creates[a.c];
    if !create.stage.Inserting? {
    } else if (a.Insert? || a.committed) && P.Insertable(s.store, create.stage.record) {
      InsertActionKeeps(s, a.c, if a.Insert? then Returned(create.stage.record, false) else FindingAgain);
    } else {
      StageKeeps(s, Do(s, a), a.c, FindingAgain);
    }
  }

  lemma EachActionKeeps(s: System, a: Action)
    requires Invariant(s)
    ensures Invariant(Do(s, a)) && Grows(s.store, Do(s, a).store)
  {
    if a.Other? {
      P.StepFacts(s.store, a.id, a.call);
      OtherKeeps(s, Do(s, a));
    } else if a.Begin? {
      if a.c !in s.creates { BeginKeeps(s, Do(s, a), a.c, Do(s, a).creates[a.c]); }
    } else if a.c in s.creates {
      if a.Insert? || a.InsertThrows? { CreateActionKeeps(s, a); } else { FindActionKeeps(s, a); }
    }
  }

  lemma {:induction false} InvariantHolds(actions: seq<Action>)
    ensures Invariant(After(actions))
  {
    if actions != [] {
      InvariantHolds(actions[..|actions| - 1]);
      EachActionKeeps(After(actions[..|actions| - 1]), actions[|actions| - 1]);
    }
  }

  // ---------------------------------------------------------------- the theorems

  /** The key is the execution's, and the execution has this identity. */
  ghost predicate Owns(s: P.Store, key: string, r: Record) {
    && (forall other :: P.HasKey(s, other, key) <==> other == r.id)
    && r.id in s.executions && P.SameIdentity(r, s.executions[r.id].row.record)
  }

  lemma OwnerStays(s: P.Store, s': P.Store, key: string, r: Record)
    requires Owns(s, key, r) && Grows(s, s') && P.UniqueKeys(s')
    ensures Owns(s', key, r)
  {
    assert P.HasKey(s, r.id, key) && P.HasKey(s', r.id, key);
  }

  lemma OwnerNext(sofar: seq<Action>, a: Action, key: string, r: Record)
    requires Owns(After(sofar).store, key, r)
    ensures Owns(After(sofar + [a]).store, key, r)
  {
    assert (sofar + [a])[..|sofar|] == sofar;
    InvariantHolds(sofar);
    EachActionKeeps(After(sofar), a);
    OwnerStays(After(sofar).store, After(sofar + [a]).store, key, r);
  }

  /** A key that belongs to an execution belongs to that one alone and forever, with the same kind. */
  lemma {:induction false} KeyIsForever(before: seq<Action>, after: seq<Action>, key: string, r: Record)
    requires Owns(After(before).store, key, r)
    ensures Owns(After(before + after).store, key, r)
    decreases after
  {
    if after == [] {
      assert before + after == before;
    } else {
      OwnerNext(before, after[0], key, r);
      KeyIsForever(before + [after[0]], after[1..], key, r);
      assert before + [after[0]] + after[1..] == before + after;
    }
  }

  lemma AnswersAgree(s: System, c: nat, d: nat)
    requires Invariant(s) && c in s.creates && d in s.creates && s.creates[c].key == s.creates[d].key
    requires s.creates[c].stage.Returned? && s.creates[d].stage.Returned?
    ensures Owns(s.store, s.creates[c].key, s.creates[c].stage.record)
    ensures s.creates[c].stage.record.id == s.creates[d].stage.record.id
    ensures s.creates[c].stage.record.kind == s.creates[d].stage.record.kind
    ensures !s.creates[c].stage.replayed && !s.creates[d].stage.replayed ==> c == d
    ensures s.creates[c].key in s.inserters
    ensures s.creates[c].stage.record.kind == s.creates[s.inserters[s.creates[c].key]].request.kind
    ensures !s.creates[c].stage.replayed ==> s.inserters[s.creates[c].key] == c
  {
    var key, rc, rd := s.creates[c].key, s.creates[c].stage.record, s.creates[d].stage.record;
    assert CallInvariant(s, c, s.creates[c]) && CallInvariant(s, d, s.creates[d]);
    assert P.HasKey(s.store, rc.id, key) && P.HasKey(s.store, rd.id, key);
    assert Stored(s, key, rc.id, s.creates[s.inserters[key]].request.kind);
  }

  /** Calls that return for one key return one stored execution, of the kind the inserting call asked
      for, and only the inserting call can say that the execution is not a replay. */
  lemma OneExecutionPerKey(actions: seq<Action>, c: nat, d: nat)
    requires var s := After(actions);
             && c in s.creates && d in s.creates && s.creates[c].key == s.creates[d].key
             && s.creates[c].stage.Returned? && s.creates[d].stage.Returned?
    ensures var s, key := After(actions), After(actions).creates[c].key;
            && Owns(s.store, key, s.creates[c].stage.record)
            && s.creates[c].stage.record.id == s.creates[d].stage.record.id
            && s.creates[c].stage.record.kind == s.creates[d].stage.record.kind
            && (!s.creates[c].stage.replayed && !s.creates[d].stage.replayed ==> c == d)
            && key in s.inserters && s.inserters[key] in s.creates
            && s.creates[c].stage.record.kind == s.creates[s.inserters[key]].request.kind
            && (!s.creates[c].stage.replayed ==> s.inserters[key] == c)
  {
    InvariantHolds(actions);
    AnswersAgree(After(actions), c, d);
  }

  lemma {:induction false} OneJobEach(jobs: seq<P.Job>, ids: set<string>)
    requires forall i, j :: 0 <= i < j < |jobs| ==> jobs[i].executionId != jobs[j].executionId
    requires forall i :: 0 <= i < |jobs| ==> jobs[i].executionId in ids
    requires forall id :: id in ids ==> exists i :: 0 <= i < |jobs| && jobs[i].executionId == id
    ensures |jobs| == |ids|
  {
    if jobs == [] {
      assert ids == {};
    } else {
      var last := jobs[|jobs| - 1].executionId;
      var fewer := jobs[..|jobs| - 1];
      forall id | id in ids - {last}
        ensures exists i :: 0 <= i < |fewer| && fewer[i].executionId == id
      {
        var i :| 0 <= i < |jobs| && jobs[i].executionId == id;
        assert fewer[i].executionId == id;
      }
      OneJobEach(fewer, ids - {last});
    }
  }

  /** There are as many jobs in the queue as records in the store. */
  lemma {:induction false} AsManyJobsAsRecords(actions: seq<Action>)
    ensures |After(actions).store.jobs| == |After(actions).store.executions|
  {
    InvariantHolds(actions);
    var store := After(actions).store;
    OneJobEach(store.jobs, store.executions.Keys);
  }

  // ---------------------------------------------------------------- what a call answers

  /** A key with a character that is not white space. */
  predicate IsUsable(key: string) {
    exists i :: 0 <= i < |key| && !IsSpace(key[i])
  }

  /** A record as a request asks for it. */
  predicate Fulfils(record: Record, request: Request, key: string, id: string) {
    && IsNew(record) && record.id == id && record.idempotencyKey == key && record.kind == request.kind
    && record.contractVersion == (if request.contractVersion == None then 1 else request.contractVersion.value)
  }

  ghost predicate KeyStored(s: P.Store, key: string) {
    exists id :: P.HasKey(s, id, key)
  }

  lemma Begins(s: System, c: nat, request: Request, key: string)
    requires c !in s.creates
    ensures var s' := Do(s, Begin(c, request, key));
            && s'.store == s.store && s'.ids == s.ids && c in s'.creates
            && s'.creates[c] == Create(request, key, if IsUsable(key) then Finding else Thrown)
  {
    assert IsUsable(key) <==> !IsBlank(key);
  }

  /** A key of white space alone is refused, with nothing stored. */
  lemma BlankKeyThrows(s: System, c: nat, request: Request, key: string)
    requires c !in s.creates && !IsUsable(key)
    ensures var s' := Do(s, Begin(c, request, key));
            s'.store == s.store && c in s'.creates && s'.creates[c].stage == Thrown
  {
    Begins(s, c, request, key);
  }

  lemma FoundOrNot(s: P.Store, key: string)
    requires P.UniqueKeys(s)
    ensures P.FindByKey(s, key).Some? <==> KeyStored(s, key)
    ensures P.FindByKey(s, key).Some? ==>
              var r := P.FindByKey(s, key).value;
              exists id :: P.HasKey(s, id, key) && s.executions[id].row.record == r
  {}

  /** The stored record of the execution that the key belongs to. */
  ghost predicate IsStored(s: P.Store, key: string, r: Record) {
    Owns(s, key, r) && s.executions[r.id].row.record == r
  }

  lemma FoundOwns(s: System, key: string)
    requires Invariant(s) && P.FindByKey(s.store, key).Some?
    ensures IsStored(s.store, key, P.FindByKey(s.store, key).value)
  {
    var r := P.FindByKey(s.store, key).value;
    FoundOrNot(s.store, key);
    FoundIsStored(s, key);
    forall other ensures P.HasKey(s.store, other, key) <==> other == r.id {}
  }

  lemma Finds(s: System, c: nat, id: string)
    requires P.UniqueKeys(s.store) && c in s.creates && s.creates[c].stage == Finding && id !in s.ids
    ensures var s', create := Do(s, Find(c, id)), s.creates[c];
            && s'.store == s.store && c in s'.creates
            && match P.FindByKey(s.store, create.key)
               case Some(record) => s'.creates[c] == create.(stage := Returned(record, true))
               case None =>
                 && s'.creates[c].request == create.request && s'.creates[c].key == create.key
                 && s'.creates[c].stage.Inserting?
                 && Fulfils(s'.creates[c].stage.record, create.request, create.key, id)
  {}

  /** An insert that takes effect adds the record, its first event and one job; nothing else changes. */
  ghost predicate Added(s: P.Store, s': P.Store, record: Record, request: Request) {
    && record.id !in s.executions
    && s'.executions == s.executions[record.id := P.NewExecution(record)]
    && |s'.jobs| == |s.jobs| + 1 && s.jobs <= s'.jobs
    && var job := s'.jobs[|s.jobs|];
       && job.executionId == record.id && job.kind == request.kind && job.input == request.input
       && job.jobKey == "execution:" + record.id
  }

  lemma Inserts(s: System, c: nat)
    requires c in s.creates && s.creates[c].stage.Inserting? && IsNew(s.creates[c].stage.record)
    requires var record := s.creates[c].stage.record;
             record.idempotencyKey == s.creates[c].key && record.id !in s.store.executions
    ensures var s', create, record := Do(s, Insert(c)), s.creates[c], s.creates[c].stage.record;
            && c in s'.creates
            && if KeyStored(s.store, create.key)
               then s'.store == s.store && s'.creates[c].stage == FindingAgain
               else Added(s.store, s'.store, record, create.request) && s'.creates[c].stage == Returned(record, false)
  {
    var record := s.creates[c].stage.record;
    assert P.Insertable(s.store, record) <==> !KeyStored(s.store, record.idempotencyKey);
  }

  lemma FindsAgain(s: System, c: nat)
    requires P.UniqueKeys(s.store) && c in s.creates && s.creates[c].stage == FindingAgain
    ensures var s', create := Do(s, FindAgain(c)), s.creates[c];
            && s'.store == s.store && c in s'.creates
            && match P.FindByKey(s.store, create.key)
               case Some(record) => s'.creates[c].stage == Returned(record, true)
               case None => s'.creates[c].stage == Thrown
  {}

  /** From every reachable state: a call alone with a usable key that is not stored creates a queued record of
      the request's kind under the key, with one job for it; with a stored key it returns the stored record. */
  lemma CreateAnswers(actions: seq<Action>, c: nat, request: Request, key: string, id: string)
    requires var s := After(actions); c !in s.creates && id !in s.ids && IsUsable(key)
    ensures var s := After(actions);
            var s2 := Do(Do(s, Begin(c, request, key)), Find(c, id));
            if KeyStored(s.store, key) then
              && s2.store == s.store && c in s2.creates && s2.creates[c].stage.Returned?
              && s2.creates[c].stage.replayed && IsStored(s.store, key, s2.creates[c].stage.record)
            else
              var s3 := Do(s2, Insert(c));
              && c in s3.creates && s3.creates[c].stage.Returned? && !s3.creates[c].stage.replayed
              && Fulfils(s3.creates[c].stage.record, request, key, id)
              && Added(s.store, s3.store, s3.creates[c].stage.record, request)
  {
    var s := After(actions);
    InvariantHolds(actions);
    var s1 := Do(s, Begin(c, request, key));
    Begins(s, c, request, key);
    FoundOrNot(s.store, key);
    Finds(s1, c, id);
    if KeyStored(s.store, key) { FoundOwns(s, key); } else { Inserts(Do(s1, Find(c, id)), c); }
  }

  /** A call overtaken by another with its key finds that one's record after its own insert has failed. */
  lemma OvertakenReplays(actions: seq<Action>, c: nat)
    requires var s := After(actions);
             && c in s.creates && s.creates[c].stage.Inserting?
             && KeyStored(s.store, s.creates[c].key)
    ensures var s := After(actions);
            var s2 := Do(Do(s, Insert(c)), FindAgain(c));
            && s2.store == s.store && c in s2.creates && s2.creates[c].stage.Returned?
            && s2.creates[c].stage.replayed && IsStored(s.store, s.creates[c].key, s2.creates[c].stage.record)
  {
    var s := After(actions);
    InvariantHolds(actions);
    assert CallInvariant(s, c, s.creates[c]);
    Inserts(s, c);
    FoundOrNot(s.store, s.creates[c].key);
    FoundOwns(s, s.creates[c].key);
    FindsAgain(Do(s, Insert(c)), c);
  }

  /** An insert that throws is looked up again: the call answers with the record that then has its key, its own
      if the insert took effect after all, and throws when there is none. */
  lemma InsertErrorAnswers(actions: seq<Action>, c: nat, committed: bool)
    requires var s := After(actions); c in s.creates && s.creates[c].stage.Inserting?
    ensures var s := After(actions);
            var create, s1, s2 := s.creates[c], Do(s, InsertThrows(c, committed)),
                                  Do(Do(s, InsertThrows(c, committed)), FindAgain(c));
            && s2.store == s1.store && c in s2.creates
            && (if committed && !KeyStored(s.store, create.key)
                then Added(s.store, s1.store, create.stage.record, create.request) else s1.store == s.store)
            && (if KeyStored(s1.store, create.key)
                then s2.creates[c].stage.Returned? && s2.creates[c].stage.replayed
                     && IsStored(s1.store, create.key, s2.creates[c].stage.record)
                else s2.creates[c].stage == Thrown)
  {
    var s := After(actions);
    InvariantHolds(actions);
    assert CallInvariant(s, c, s.creates[c]);
    EachActionKeeps(s, InsertThrows(c, committed));
    var s1 := Do(s, InsertThrows(c, committed));
    InsertThrew(s, c, committed);
    FoundOrNot(s1.store, s.creates[c].key);
    if KeyStored(s1.store, s.creates[c].key) { FoundOwns(s1, s.creates[c].key); }
    FindsAgain(s1, c);
  }

  lemma InsertThrew(s: System, c: nat, committed: bool)
    requires c in s.creates && s.creates[c].stage.Inserting? && IsNew(s.creates[c].stage.record)
    requires var record := s.creates[c].stage.record;
             record.idempotencyKey == s.creates[c].key && record.id !in s.store.executions
    ensures var s', create := Do(s, InsertThrows(c, committed)), s.creates[c];
            && c in s'.creates && s'.creates[c] == create.(stage := FindingAgain)
            && if committed && !KeyStored(s.store, create.key)
               then Added(s.store, s'.store, create.stage.record, create.request) else s'.store == s.store
  {
    var record := s.creates[c].stage.record;
    assert P.Insertable(s.store, record) <==> !KeyStored(s.store, record.idempotencyKey);
  }

  /** A lookup that throws ends the call and stores nothing. */
  lemma FindErrorThrows(s: System, c: nat)
    requires c in s.creates && (s.creates[c].stage == Finding || s.creates[c].stage == FindingAgain)
    ensures var s' := Do(s, FindThrows(c));
            s'.store == s.store && c in s'.creates && s'.creates[c].stage == Thrown
  {}
}
