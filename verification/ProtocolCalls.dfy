/** Concurrent calls of the research protocol service, each store access one step. */
module ProtocolCalls {
  import opened Options
  import opened ResearchProtocol

  datatype Task =
    | Create(content: map<Field, Json>)
    | Revise(id: string, patch: map<Field, Json>, rationale: string)
    | Branch(id: string, rationale: string)
    | Promote(id: string)
    | Snapshot(id: string, exporting: bool)

  datatype Pc =
    | Starting                                  // about to read the version, or to build a first one
    | Listing(current: Version)                 // revise: about to list the protocol's versions
    | Building(current: Version, highest: nat)  // revise and branch: about to list artifacts and build
    | Saving(candidate: Version)
    | Exporting(id: string)
    | Returned(version: Version)
    | Thrown

  datatype Call = Call(task: Task, pc: Pc)

  datatype System = System(store: Store, calls: map<nat, Call>, ids: set<string>)

  /** A step of a call takes the ids it may need from newIds; a schema or read error ends a call. */
  datatype Action =
    | Begin(c: nat, task: Task)
    | Advance(c: nat, newIds: seq<string>)
    | Throws(c: nat)

  /** An id never seen before, as a random id is. */
  predicate Fresh(s: System, newIds: seq<string>) {
    |newIds| == 3 && newIds[0] !in s.ids && newIds[1] !in s.ids && newIds[2] !in s.ids
  }

  function ToRef(v: Version): Ref {
    Ref(v.protocolId, v.protocolVersionId, v.stage, v.branchId)
  }

  function FirstVersion(content: map<Field, Json>, protocolId: string, id: string, branchId: string): Version {
    Version(protocolId, id, 1, Exploratory, branchId, content, None, "Initial exploratory protocol.", [])
  }

  function Revised(current: Version, highest: nat, task: Task, id: string): Version
    requires task.Revise?
  {
    current.(content := current.content + task.patch, protocolVersionId := id, versionNumber := highest + 1,
             stage := Exploratory, predecessor := Some(ToRef(current)), changeRationale := task.rationale,
             changes := ChangesOf(current.content, task.patch, task.rationale))
  }

  function Branched(current: Version, task: Task, id: string, branchId: string): Version
    requires task.Branch?
  {
    current.(protocolVersionId := id, versionNumber := current.versionNumber + 1, stage := Exploratory,
             branchId := branchId, predecessor := Some(ToRef(current)), changeRationale := task.rationale,
             changes := [BranchChange(current.branchId, task.rationale)])
  }

  function Staged(current: Version, stage: Stage): Version {
    current.(stage := stage, changes := current.changes + [StageChange(current.stage, stage)])
  }

  function AtPc(s: System, c: nat, pc: Pc): System
    requires c in s.calls
  {
    s.(calls := s.calls[c := s.calls[c].(pc := pc)])
  }

  /** What a call reads or writes at one of its awaits, and where it goes. */
  ghost function Step(s: System, c: nat, newIds: seq<string>): System
    requires c in s.calls
  {
    var task := s.calls[c].task;
    match s.calls[c].pc
    case Starting =>
      if task.Create? then
        if !Complete(task.content) then AtPc(s, c, Thrown)
        else if !Fresh(s, newIds) then s
        else AtPc(s, c, Saving(FirstVersion(task.content, newIds[0], newIds[1],
            newIds[2]))).(ids := s.ids + {newIds[1]})
      else if task.id !in s.store.versions then AtPc(s, c, Thrown)
      else
        var current := s.store.versions[task.id];
        AtPc(s, c,
          match task
          case Revise(_, _, _) => Listing(current)
          case Branch(_, _) => Building(current, current.versionNumber)
          case Promote(_) => if current.stage != Exploratory then Thrown else Saving(Staged(current, Specified))
          case Snapshot(_, _) => if current.stage != Specified then Thrown else Saving(Staged(current, ExportSnapshot)))
    case Listing(current) => AtPc(s, c, Building(current, Highest(s.store.versions, current)))
    case Building(current, highest) =>
      if !Fresh(s, newIds) then s
      else if task.Revise? then AtPc(s, c, Saving(Revised(current, highest, task,
          newIds[0]))).(ids := s.ids + {newIds[0]})
      else if task.Branch? then AtPc(s, c, Saving(Branched(current, task, newIds[0],
          newIds[1]))).(ids := s.ids + {newIds[0]})
      else s
    case Saving(candidate) =>
      var saved := Saved(s.store, candidate);
      if saved == None then AtPc(s, c, Thrown)
      else
        AtPc(s, c, if task.Snapshot? && task.exporting then Exporting(candidate.protocolVersionId)
            else Returned(candidate))
          .(store := saved.value)
    case Exporting(id) =>
      if |newIds| == 0 then s
      else
        var exported := Exported(s.store, Export(newIds[0], id));
        if exported == None then AtPc(s, c, Thrown)
        else AtPc(s, c, Returned(s.store.versions[id])).(store := exported.value)
    case _ => s
  }

  ghost function Do(s: System, a: Action): System {
    match a
    case Begin(c, task) => if c in s.calls then s else s.(calls := s.calls[c := Call(task, Starting)])
    case Advance(c, newIds) => if c in s.calls then Step(s, c, newIds) else s
    case Throws(c) => if c in s.calls then AtPc(s, c, Thrown) else s
  }

  ghost function After(actions: seq<Action>): System {
    if actions == [] then System(Store(map[], map[]), map[], {})
    else Do(After(actions[..|actions| - 1]), actions[|actions| - 1])
  }

  // ---------------------------------------------------------------- the invariant

  /** Everything about a version but its stage, and the stage changes recorded with it. */
  ghost predicate SameCore(v: Version, w: Version) {
    w == v.(stage := w.stage, changes := w.changes)
  }

  /** A version's predecessor is stored, in the same protocol and with a lower number, and the version's
      changes turn the predecessor's content into its own. */
  ghost predicate Linked(versions: Versions, v: Version) {
    && Complete(v.content)
    && match v.predecessor
       case None => Replay(v.content, v.changes) == v.content
       case Some(ref) =>
         && ref.protocolVersionId in versions
         && var p := versions[ref.protocolVersionId];
         && p.protocolId == v.protocolId && p.versionNumber < v.versionNumber
         && Replay(p.content, v.changes) == v.content
  }

  ghost predicate WellFormed(versions: Versions) {
    forall id :: id in versions ==> versions[id].protocolVersionId == id && Linked(versions, versions[id])
  }

  /** What a stored version may do later: only advance its stage, and as a snapshot not even that. */
  ghost predicate Evolves(versions: Versions, versions': Versions) {
    forall id :: id in versions ==>
      && id in versions' && SameCore(versions[id], versions'[id])
      && versions[id].stage.Rank() <= versions'[id].stage.Rank()
      && (versions[id].stage == ExportSnapshot ==> versions'[id] == versions[id])
  }

  /** One step adds exploratory versions and advances stages by at most one. */
  ghost predicate StepwiseStages(versions: Versions, versions': Versions) {
    forall id :: id in versions' ==>
      if id in versions then versions'[id].stage.Rank() <= versions[id].stage.Rank() + 1
      else versions'[id].stage == Exploratory
  }

  predicate Creates(task: Task) {
    task.Create? || task.Revise? || task.Branch?
  }

  ghost predicate Known(versions: Versions, v: Version) {
    v.protocolVersionId in versions && SameCore(versions[v.protocolVersionId], v)
  }

  ghost predicate CallInvariant(s: System, call: Call) {
    match call.pc
    case Listing(current) => call.task.Revise? && Known(s.store.versions, current)
    case Building(current, highest) =>
      (call.task.Revise? || call.task.Branch?) && Known(s.store.versions, current) && current.versionNumber <= highest
    case Saving(v) =>
      && Linked(s.store.versions, v) && v.protocolVersionId in s.ids
      && if Creates(call.task) then v.protocolVersionId !in s.store.versions && v.stage == Exploratory
         else
           && Known(s.store.versions, v)
           && (if call.task.Promote? then v.stage == Specified
               else v.stage == ExportSnapshot && s.store.versions[v.protocolVersionId].stage.Rank() >= 1)
    case Exporting(id) => id in s.store.versions && s.store.versions[id].stage == ExportSnapshot
    case _ => true
  }

  ghost predicate Invariant(s: System) {
    && WellFormed(s.store.versions)
    && s.store.versions.Keys <= s.ids
    && (forall e :: e in s.store.exports ==>
          var id := s.store.exports[e].protocolVersionId;
          id in s.store.versions && s.store.versions[id].stage == ExportSnapshot)
    && (forall c, d :: c in s.calls && d in s.calls && c != d && NewId(s.calls[c]).Some? ==>
        NewId(s.calls[c]) != NewId(s.calls[d]))
    && (forall c :: c in s.calls ==> CallInvariant(s, s.calls[c]))
  }

  /** The id of the version a call is about to add. */
  function NewId(call: Call): Option<string> {
    if Creates(call.task) && call.pc.Saving? then Some(call.pc.candidate.protocolVersionId) else None
  }

  lemma LinkedStays(versions: Versions, versions': Versions, v: Version)
    requires Linked(versions, v) && Evolves(versions, versions')
    ensures Linked(versions', v)
  {}

  /** A change of stage says nothing about the content. */
  lemma StagedIsLinked(versions: Versions, v: Version, stage: Stage)
    requires Linked(versions, v)
    ensures Linked(versions, Staged(v, stage)) && SameCore(v, Staged(v, stage))
  {
    ReplayOneMore(v.content, v.changes, StageChange(v.stage, stage));
    if v.predecessor.Some? {
      ReplayOneMore(versions[v.predecessor.value.protocolVersionId].content, v.changes, StageChange(v.stage, stage));
    }
  }

  lemma NewVersionIsLinked(versions: Versions, current: Version, highest: nat, task: Task, ids: seq<string>)
    requires WellFormed(versions) && Known(versions, current) && current.versionNumber <= highest && |ids| == 3
    ensures task.Revise? ==> Linked(versions, Revised(current, highest, task, ids[0]))
    ensures task.Branch? ==> Linked(versions, Branched(current, task, ids[0], ids[1]))
  {
    assert Linked(versions, versions[current.protocolVersionId]);
    if task.Revise? { ChangesReplay(current.content, task.patch, task.rationale); }
    if task.Branch? {
      ReplayOneMore(current.content, [], BranchChange(current.branchId, task.rationale));
      assert [] + [BranchChange(current.branchId, task.rationale)] == [BranchChange(current.branchId, task.rationale)];
    }
  }

  /** A call that moves on while the store keeps its versions. */
  lemma MoveKeeps(s: System, s': System, c: nat)
    requires Invariant(s) && c in s'.calls
    requires forall d :: d in s'.calls && d != c ==> d in s.calls && s'.calls[d] == s.calls[d]
    requires s'.store.versions == s.store.versions && s.ids <= s'.ids
    requires forall e :: e in s'.store.exports ==>
               var id := s'.store.exports[e].protocolVersionId;
               id in s'.store.versions && s'.store.versions[id].stage == ExportSnapshot
    requires NewId(s'.calls[c]).Some? ==> NewId(s'.calls[c]).value !in s.ids
    requires CallInvariant(s', s'.calls[c])
    ensures Invariant(s')
  {
    forall d | d in s'.calls && d != c
      ensures CallInvariant(s', s'.calls[d])
      ensures NewId(s'.calls[d]).Some? ==> NewId(s'.calls[d]).value in s.ids
    {
      assert CallInvariant(s, s.calls[d]);
    }
  }

  lemma SaveEvolves(s: System, c: nat, v: Version)
    requires Invariant(s) && c in s.calls && s.calls[c].pc == Saving(v) && Saved(s.store, v).Some?
    ensures var versions' := Saved(s.store, v).value.versions;
            && versions' == s.store.versions[v.protocolVersionId := v]
            && Evolves(s.store.versions, versions') && WellFormed(versions')
                && StepwiseStages(s.store.versions, versions')
  {
    assert CallInvariant(s, s.calls[c]);
    var versions' := Saved(s.store, v).value.versions;
    assert Evolves(s.store.versions, versions');
    forall id | id in versions'
      ensures versions'[id].protocolVersionId == id && Linked(versions', versions'[id])
    {
      LinkedStays(s.store.versions, versions', if id == v.protocolVersionId then v else s.store.versions[id]);
    }
  }

  /** A version that is saved: a new one, or one with a later stage. */
  lemma SaveKeeps(s: System, s': System, c: nat, v: Version)
    requires Invariant(s) && c in s.calls && s.calls[c].pc == Saving(v)
    requires s'.store == s.store.(versions := s.store.versions[v.protocolVersionId := v]) && s'.ids == s.ids
    requires Evolves(s.store.versions, s'.store.versions) && WellFormed(s'.store.versions)
    requires c in s'.calls && s'.calls == s.calls[c := s'.calls[c]]
    requires || s'.calls[c].pc == Returned(v)
             || (s'.calls[c].pc == Exporting(v.protocolVersionId) && s.calls[c].task.Snapshot?)
    ensures Invariant(s')
  {
    assert CallInvariant(s, s.calls[c]);
    forall d | d in s'.calls
      ensures CallInvariant(s', s'.calls[d])
    {
      if d != c { SaveKeepsCall(s, s', c, v, d); }
    }
  }

  lemma SaveKeepsCall(s: System, s': System, c: nat, v: Version, d: nat)
    requires Invariant(s) && c in s.calls && s.calls[c].pc == Saving(v) && d in s.calls
    requires Evolves(s.store.versions, s'.store.versions) && s'.ids == s.ids
    requires s'.store.versions == s.store.versions[v.protocolVersionId := v]
    requires d != c
    ensures CallInvariant(s', s.calls[d])
  {
    assert CallInvariant(s, s.calls[d]) && CallInvariant(s, s.calls[c]);
    if s.calls[d].pc.Saving? {
      LinkedStays(s.store.versions, s'.store.versions, s.calls[d].pc.candidate);
    }
  }

  lemma CreateKeeps(s: System, c: nat, newIds: seq<string>)
    requires Invariant(s) && c in s.calls && s.calls[c].pc.Starting? && s.calls[c].task.Create?
    ensures Invariant(Step(s, c, newIds)) && Step(s, c, newIds).store == s.store
  {
    if Step(s, c, newIds) != s { MoveKeeps(s, Step(s, c, newIds), c); }
  }

  lemma StartKeeps(s: System, c: nat, newIds: seq<string>)
    requires Invariant(s) && c in s.calls && s.calls[c].pc.Starting? && !s.calls[c].task.Create?
    ensures Invariant(Step(s, c, newIds)) && Step(s, c, newIds).store == s.store
  {
    var task, s' := s.calls[c].task, Step(s, c, newIds);
    if task.id in s.store.versions {
      var current := s.store.versions[task.id];
      assert Linked(s.store.versions, current) && Known(s.store.versions, current);
      StagedIsLinked(s.store.versions, current, if task.Promote? then Specified else ExportSnapshot);
      assert s'.store == s.store && s'.ids == s.ids;
      assert CallInvariant(s', s'.calls[c]);
    }
    MoveKeeps(s, s', c);
  }

  lemma BuildKeeps(s: System, c: nat, newIds: seq<string>)
    requires Invariant(s) && c in s.calls && (s.calls[c].pc.Listing? || s.calls[c].pc.Building?)
    ensures Invariant(Step(s, c, newIds)) && Step(s, c, newIds).store == s.store
  {
    var task, pc, s' := s.calls[c].task, s.calls[c].pc, Step(s, c, newIds);
    assert CallInvariant(s, s.calls[c]);
    if s' != s {
      if pc.Building? { NewVersionIsLinked(s.store.versions, pc.current, pc.highest, task, newIds); }
      MoveKeeps(s, s', c);
    }
  }

  lemma WriteKeeps(s: System, c: nat, newIds: seq<string>)
    requires Invariant(s) && c in s.calls && !s.calls[c].pc.Starting? && !s.calls[c].pc.Listing?
             && !s.calls[c].pc.Building?
    ensures var s' := Step(s, c, newIds);
            Invariant(s') && Evolves(s.store.versions, s'.store.versions)
                && StepwiseStages(s.store.versions, s'.store.versions)
  {
    var pc, s' := s.calls[c].pc, Step(s, c, newIds);
    assert CallInvariant(s, s.calls[c]);
    if pc.Saving? && Saved(s.store, pc.candidate).Some? {
      SaveEvolves(s, c, pc.candidate);
      SaveKeeps(s, s', c, pc.candidate);
    } else if s' != s {
      MoveKeeps(s, s', c);
    }
  }

  lemma ActionKeeps(s: System, a: Action)
    requires Invariant(s)
    ensures var s' := Do(s, a);
            Invariant(s') && Evolves(s.store.versions, s'.store.versions)
                && StepwiseStages(s.store.versions, s'.store.versions)
  {
    if a.Advance? && a.c in s.calls {
      var pc := s.calls[a.c].pc;
      if pc.Starting? && s.calls[a.c].task.Create? { CreateKeeps(s, a.c, a.newIds); }
      else if pc.Starting? { StartKeeps(s, a.c, a.newIds); }
      else if pc.Listing? || pc.Building? { BuildKeeps(s, a.c, a.newIds); }
      else { WriteKeeps(s, a.c, a.newIds); }
    } else if Do(s, a) != s {
      MoveKeeps(s, Do(s, a), a.c);
    }
  }

  lemma {:induction false} InvariantHolds(actions: seq<Action>)
    ensures Invariant(After(actions))
  {
    if actions != [] {
      InvariantHolds(actions[..|actions| - 1]);
      ActionKeeps(After(actions[..|actions| - 1]), actions[|actions| - 1]);
    }
  }

  // ---------------------------------------------------------------- the theorems

  lemma EvolvesFurther(v0: Versions, v1: Versions, v2: Versions)
    requires Evolves(v0, v1) && Evolves(v1, v2)
    ensures Evolves(v0, v2)
  {}

  lemma OneMore(before: seq<Action>, a: Action)
    ensures Invariant(After(before)) && Invariant(After(before + [a]))
    ensures Evolves(After(before).store.versions, After(before + [a]).store.versions)
    ensures StepwiseStages(After(before).store.versions, After(before + [a]).store.versions)
  {
    assert (before + [a])[..|before|] == before;
    InvariantHolds(before);
    ActionKeeps(After(before), a);
  }

  /** However the calls interleave, a stored version keeps its id, number, content and predecessor, its
      stage only advances (one stage at a time, by OneMore), and a snapshot never changes again. */
  lemma {:induction false} VersionsOnlyEvolve(before: seq<Action>, after: seq<Action>)
    ensures Evolves(After(before).store.versions, After(before + after).store.versions)
    decreases after
  {
    if after == [] {
      assert before + after == before;
    } else {
      OneMore(before, after[0]);
      VersionsOnlyEvolve(before + [after[0]], after[1..]);
      assert before + [after[0]] + after[1..] == before + after;
      EvolvesFurther(After(before).store.versions, After(before + [after[0]]).store.versions,
          After(before + after).store.versions);
    }
  }

  /** Every saved export names a version that is a snapshot then and the same snapshot ever after. */
  lemma ExportsAreFrozen(before: seq<Action>, after: seq<Action>, e: string)
    requires e in After(before).store.exports
    ensures var s, s' := After(before).store, After(before + after).store;
            var id := s.exports[e].protocolVersionId;
            id in s.versions && s.versions[id].stage == ExportSnapshot
            && id in s'.versions && s'.versions[id] == s.versions[id]
  {
    InvariantHolds(before);
    VersionsOnlyEvolve(before, after);
  }

  /** A call that has saved its snapshot can always save the export. */
  lemma ExportNeverRefused(actions: seq<Action>, c: nat, exportId: string)
    requires c in After(actions).calls && After(actions).calls[c].pc.Exporting?
    ensures Exported(After(actions).store, Export(exportId, After(actions).calls[c].pc.id)).Some?
  {
    InvariantHolds(actions);
    assert CallInvariant(After(actions), After(actions).calls[c]);
  }

  // ---------------------------------------------------------------- lineage

  /** A chain from a version without predecessor, each version naming the one before it. */
  ghost predicate Lineage(l: seq<Version>) {
    l != [] && l[0].predecessor == None && Chain(l)
  }

  ghost predicate Follows(p: Version, v: Version) {
    && v.predecessor.Some? && v.predecessor.value.protocolVersionId == p.protocolVersionId
    && v.protocolId == p.protocolId && p.versionNumber < v.versionNumber
    && Replay(p.content, v.changes) == v.content
  }

  /** The store as a reader sees it over time, while other calls go on. */
  ghost predicate Views(view: nat -> Versions) {
    forall k: nat :: NextView(view, k)
  }

  ghost predicate NextView(view: nat -> Versions, k: nat) {
    WellFormed(view(k)) && Evolves(view(k), view(k + 1))
  }

  /** A view taken at each of ever later moments of a run. */
  ghost predicate Taken(actions: seq<Action>, moment: nat -> nat, view: nat -> Versions, k: nat) {
    && moment(k) <= moment(k + 1) <= |actions|
    && view(k) == After(actions[..moment(k)]).store.versions
    && view(k + 1) == After(actions[..moment(k + 1)]).store.versions
  }

  /** Reading a run at ever later moments gives such views. */
  lemma RunsAreViews(actions: seq<Action>, moment: nat -> nat, view: nat -> Versions)
    requires forall k: nat :: Taken(actions, moment, view, k)
    ensures Views(view)
  {
    forall k: nat ensures NextView(view, k) {
      assert Taken(actions, moment, view, k);
      var m, n := moment(k), moment(k + 1);
      InvariantHolds(actions[..m]);
      VersionsOnlyEvolve(actions[..m], actions[m..n]);
      assert actions[..m] + actions[m..n] == actions[..n];
    }
  }

  ghost predicate Chain(l: seq<Version>) {
    forall k :: 0 <= k < |l| - 1 ==> Follows(l[k], l[k + 1])
  }

  ghost predicate Stored(view: nat -> Versions, k: nat, v: Version) {
    v.protocolVersionId in view(k) && view(k)[v.protocolVersionId] == v
  }

  /** The k-th version from the end is stored in the k-th view. */
  ghost predicate ReadInOrder(view: nat -> Versions, l: seq<Version>) {
    forall i :: 0 <= i < |l| ==> Stored(view, |l| - 1 - i, l[i])
  }

  /** Seen in view k, with a number above that of v. */
  ghost predicate Above(view: nat -> Versions, k: nat, id: string, v: Version) {
    id in view(k) && view(k)[id].versionNumber > v.versionNumber
  }

  /** How far the walk up from version `last` has come: `found` is read, `current` is next. */
  ghost predicate Walk(view: nat -> Versions, last: Version, found: seq<Version>, current: Version, seen: set<string>) {
    && Stored(view, |found|, current)
    && (if found == [] then current == last else Follows(current, found[0]) && found[|found| - 1] == last)
    && Chain(found) && ReadInOrder(view, found)
    && (forall s :: s in seen ==> Above(view, |found|, s, current))
  }

  lemma WalkFinds(view: nat -> Versions, last: Version, found: seq<Version>, current: Version, seen: set<string>)
    requires Walk(view, last, found, current, seen)
    ensures Chain([current] + found) && ReadInOrder(view, [current] + found)
    ensures ([current] + found)[|found|] == last
    ensures current.protocolVersionId !in seen
  {
    var l := [current] + found;
    forall k | 0 <= k < |l| - 1
      ensures Follows(l[k], l[k + 1])
    {
      if k > 0 { assert Follows(found[k - 1], found[k - 1 + 1]); }
    }
    forall i | 0 <= i < |l|
      ensures Stored(view, |l| - 1 - i, l[i])
    {
      if i > 0 { assert Stored(view, |found| - 1 - (i - 1), found[i - 1]); }
    }
  }

  lemma PredecessorFound(view: nat -> Versions, k: nat, v: Version)
    requires Views(view) && Stored(view, k, v) && v.predecessor.Some?
    ensures v.predecessor.value.protocolVersionId in view(k + 1)
    ensures var p := view(k + 1)[v.predecessor.value.protocolVersionId]; Stored(view, k + 1, p) && Follows(p, v)
  {
    assert NextView(view, k) && NextView(view, k + 1);
    assert Linked(view(k), v);
  }

  lemma SeenStaysAbove(view: nat -> Versions, k: nat, v: Version, p: Version, id: string)
    requires Views(view) && Stored(view, k, v) && p.versionNumber < v.versionNumber
    requires id == v.protocolVersionId || Above(view, k, id, v)
    ensures Above(view, k + 1, id, p)
  {
    assert NextView(view, k);
  }

  lemma WalkGoesOn(view: nat -> Versions, last: Version, found: seq<Version>, current: Version, seen: set<string>)
    requires Views(view) && Walk(view, last, found, current, seen) && current.predecessor.Some?
    ensures current.predecessor.value.protocolVersionId in view(|found| + 1)
    ensures var next := view(|found| + 1)[current.predecessor.value.protocolVersionId];
            Walk(view, last, [current] + found, next, seen + {current.protocolVersionId})
                && next.versionNumber < current.versionNumber
  {
    WalkFinds(view, last, found, current, seen);
    PredecessorFound(view, |found|, current);
    var next := view(|found| + 1)[current.predecessor.value.protocolVersionId];
    forall s | s in seen + {current.protocolVersionId}
      ensures Above(view, |found| + 1, s, next)
    {
      SeenStaysAbove(view, |found|, current, next, s);
    }
  }

  /** Reads one version after another, the k-th from the k-th view; None when the first is unknown. The
      predecessors are always found, and the seen set never stops the walk. */
  method RetrieveLineage(view: nat -> Versions, id: string) returns (lineage: Option<seq<Version>>)
    requires Views(view)
    ensures lineage == None <==> id !in view(0)
    ensures lineage.Some? ==> Lineage(lineage.value) && lineage.value[|lineage.value| - 1] == view(0)[id]
    ensures lineage.Some? ==> ReadInOrder(view, lineage.value)
  {
    if id !in view(0) {
      return None;
    }
    var current := view(0)[id];
    var found: seq<Version>, seen := [], {};
    assert NextView(view, 0);
    while current.protocolVersionId !in seen
      invariant Walk(view, view(0)[id], found, current, seen)
      decreases current.versionNumber
    {
      WalkFinds(view, view(0)[id], found, current, seen);
      if current.predecessor == None {
        return Some([current] + found);
      }
      WalkGoesOn(view, view(0)[id], found, current, seen);
      seen := seen + {current.protocolVersionId};
      found := [current] + found;
      current := view(|found|)[current.predecessor.value.protocolVersionId];
    }
    WalkFinds(view, view(0)[id], found, current, seen);
    assert false;
    lineage := None;
  }

  function ReplayAll(content: map<Field, Json>, l: seq<Version>): map<Field, Json> {
    if l == [] then content else Replay(ReplayAll(content, l[..|l| - 1]), l[|l| - 1].changes)
  }

  /** Replaying the recorded changes from the root rebuilds every later version's content, and along the
      lineage all versions share one protocol and their numbers strictly increase. */
  lemma {:induction false} LineageRebuilds(l: seq<Version>, k: nat)
    requires Lineage(l) && k < |l|
    ensures ReplayAll(l[0].content, l[1..k + 1]) == l[k].content
    ensures l[k].protocolId == l[0].protocolId
    ensures forall j :: 0 <= j < k ==> l[j].versionNumber < l[k].versionNumber
  {
    if k > 0 {
      LineageRebuilds(l, k - 1);
      assert Follows(l[k - 1], l[k - 1 + 1]);
      assert l[1..k + 1][..k - 1] == l[1..k];
    }
  }

  ghost predicate AllStored(versions: Versions, l: seq<Version>) {
    forall i :: 0 <= i < |l| ==> l[i].protocolVersionId in versions && versions[l[i].protocolVersionId] == l[i]
  }

  lemma LinkedFollows(versions: Versions, v: Version)
    requires WellFormed(versions) && v.predecessor.Some?
    requires v.protocolVersionId in versions && versions[v.protocolVersionId] == v
    ensures v.predecessor.value.protocolVersionId in versions
    ensures Follows(versions[v.predecessor.value.protocolVersionId], v)
  {
    assert Linked(versions, v);
  }

  lemma ChainLonger(l: seq<Version>, v: Version)
    requires Lineage(l) && Follows(l[|l| - 1], v)
    ensures Lineage(l + [v])
  {
    forall k | 0 <= k < |l| ensures Follows((l + [v])[k], (l + [v])[k + 1]) {
      if k < |l| - 1 { assert Follows(l[k], l[k + 1]); }
    }
  }

  /** A stored version and its predecessors, up to one that has none. */
  lemma {:induction false} StoredLineage(versions: Versions, id: string) returns (l: seq<Version>)
    requires WellFormed(versions) && id in versions
    ensures Lineage(l) && AllStored(versions, l) && l[|l| - 1] == versions[id]
    decreases versions[id].versionNumber
  {
    var v := versions[id];
    if v.predecessor == None {
      l := [v];
    } else {
      LinkedFollows(versions, v);
      var above := StoredLineage(versions, v.predecessor.value.protocolVersionId);
      ChainLonger(above, v);
      l := above + [v];
    }
  }

  ghost predicate Rebuilds(l: seq<Version>, k: nat)
    requires k < |l|
  {
    && ReplayAll(l[0].content, l[1..k + 1]) == l[k].content
    && l[k].protocolId == l[0].protocolId
    && forall j :: 0 <= j < k ==> l[j].versionNumber < l[k].versionNumber
  }

  /** After every run, every stored version has a lineage of stored versions, along which replaying the
      recorded changes from the root rebuilds each content, in one protocol and with growing numbers. */
  lemma EveryVersionRebuilds(actions: seq<Action>, id: string)
    requires id in After(actions).store.versions
    ensures var versions := After(actions).store.versions;
            exists l :: Lineage(l) && AllStored(versions, l) && l[|l| - 1] == versions[id]
                        && forall k :: 0 <= k < |l| ==> Rebuilds(l, k)
  {
    InvariantHolds(actions);
    var l := StoredLineage(After(actions).store.versions, id);
    forall k | 0 <= k < |l| ensures Rebuilds(l, k) { LineageRebuilds(l, k); }
  }

  // ---------------------------------------------------------------- the number of a revision

  /** One more than the greatest number among a protocol's versions, the revised one included. */
  ghost predicate IsNext(versions: Versions, current: Version, number: nat) {
    && current.versionNumber < number
    && (forall id :: id in versions && versions[id].protocolId == current.protocolId ==>
          versions[id].versionNumber < number)
    && (|| current.versionNumber + 1 == number
        || exists id :: id in versions && versions[id].protocolId == current.protocolId
                        && versions[id].versionNumber + 1 == number)
  }

  /** The number that a revision has got, or is about to get. */
  ghost predicate WillBeNext(versions: Versions, current: Version, call: Call) {
    match call.pc
    case Building(now, highest) => now == current && IsNext(versions, current, highest + 1)
    case Saving(v) => v.protocolId == current.protocolId && IsNext(versions, current, v.versionNumber)
    case Returned(v) => v.protocolId == current.protocolId && IsNext(versions, current, v.versionNumber)
    case Thrown => true
    case _ => false
  }

  lemma ListingLooks(s: System, c: nat, newIds: seq<string>)
    requires c in s.calls && s.calls[c].pc.Listing? && s.calls[c].task.Revise?
    ensures var s' := Do(s, Advance(c, newIds));
            && c in s'.calls && s'.calls[c].task == s.calls[c].task
            && WillBeNext(s.store.versions, s.calls[c].pc.current, s'.calls[c])
  {}

  lemma NumberKept(s: System, a: Action, c: nat, versions: Versions, current: Version)
    requires c in s.calls && s.calls[c].task.Revise? && WillBeNext(versions, current, s.calls[c])
    ensures var s' := Do(s, a);
            c in s'.calls && s'.calls[c].task == s.calls[c].task && WillBeNext(versions, current, s'.calls[c])
  {}

  /** Whatever else happens, a revision gets the number next to all that were stored when it listed. */
  lemma {:induction false} RevisionIsNext(before: seq<Action>, after: seq<Action>, c: nat, newIds: seq<string>)
    requires var s := After(before); c in s.calls && s.calls[c].pc.Listing? && s.calls[c].task.Revise?
    ensures var s, s' := After(before), After(before + [Advance(c, newIds)] + after);
            && c in s'.calls && s'.calls[c].task.Revise?
            && WillBeNext(s.store.versions, s.calls[c].pc.current, s'.calls[c])
    decreases |after|
  {
    var s, listed := After(before), before + [Advance(c, newIds)];
    if after == [] {
      assert listed[..|listed| - 1] == before && listed + after == listed;
      ListingLooks(s, c, newIds);
    } else {
      var rest, last := after[..|after| - 1], after[|after| - 1];
      RevisionIsNext(before, rest, c, newIds);
      assert (listed + after)[..|listed + after| - 1] == listed + rest;
      NumberKept(After(listed + rest), last, c, s.store.versions, s.calls[c].pc.current);
    }
  }

  /** So a revision that lists after another's version was stored gets a greater number than that. */
  lemma RevisionsDiffer(before: seq<Action>, after: seq<Action>, c: nat, newIds: seq<string>, id: string)
    requires var s := After(before);
             && c in s.calls && s.calls[c].pc.Listing? && s.calls[c].task.Revise?
             && id in s.store.versions && s.store.versions[id].protocolId == s.calls[c].pc.current.protocolId
    ensures var s, s' := After(before), After(before + [Advance(c, newIds)] + after);
            && c in s'.calls && id in s'.store.versions
            && match s'.calls[c].pc
               case Saving(v) => s'.store.versions[id].versionNumber < v.versionNumber
               case Returned(v) => s'.store.versions[id].versionNumber < v.versionNumber
               case _ => true
  {
    RevisionIsNext(before, after, c, newIds);
    VersionsOnlyEvolve(before, [Advance(c, newIds)] + after);
    assert before + ([Advance(c, newIds)] + after) == before + [Advance(c, newIds)] + after;
  }

  /** Two revisions that both list before either is stored get the same number. */
  lemma ListingTogether(s: System, c: nat, d: nat, newIds: seq<string>)
    requires c in s.calls && d in s.calls && c != d && s.calls[c].pc.Listing? && s.calls[d].pc == s.calls[c].pc
    ensures var s' := Do(Do(s, Advance(c, newIds)), Advance(d, newIds));
            c in s'.calls && d in s'.calls && s'.calls[c].pc.Building? && s'.calls[d].pc == s'.calls[c].pc
  {}

  // ---------------------------------------------------------------- what a call alone does

  /** Some steps of one call, with nothing else happening. */
  ghost function Advanced(s: System, c: nat, newIds: seq<string>, n: nat): System {
    if n == 0 then s else Do(Advanced(s, c, newIds, n - 1), Advance(c, newIds))
  }

  lemma {:induction false} FirstStep(s: System, c: nat, newIds: seq<string>, n: nat)
    ensures Advanced(s, c, newIds, n + 1) == Advanced(Do(s, Advance(c, newIds)), c, newIds, n)
  {
    if n == 0 {
      assert Advanced(s, c, newIds, 0) == s;
    } else {
      FirstStep(s, c, newIds, n - 1);
    }
  }

  ghost predicate At(s: System, c: nat, task: Task, pc: Pc) {
    c in s.calls && s.calls[c] == Call(task, pc)
  }

  /** The call has ended, with one version stored and nothing else changed. */
  ghost predicate Ends(s: System, s': System, c: nat, task: Task, v: Version) {
    && At(s', c, task, Returned(v))
    && s'.store == s.store.(versions := s.store.versions[v.protocolVersionId := v])
  }

  ghost predicate Refuses(s: System, s': System, c: nat, task: Task) {
    At(s', c, task, Thrown) && s'.store == s.store
  }

  lemma SavesNew(s: System, c: nat, task: Task, v: Version, newIds: seq<string>)
    requires At(s, c, task, Saving(v)) && !(task.Snapshot? && task.exporting)
    requires v.protocolVersionId in s.store.versions ==> s.store.versions[v.protocolVersionId].stage != ExportSnapshot
    ensures Ends(s, Advanced(s, c, newIds, 1), c, task, v)
  {
    assert Advanced(s, c, newIds, 0) == s;
  }

  /** A first version: exploratory, number 1, with the content asked for. */
  lemma CreateOutcome(s: System, c: nat, content: map<Field, Json>, ids: seq<string>)
    requires Invariant(s) && At(s, c, Create(content), Starting) && Fresh(s, ids)
    ensures if !Complete(content) then Refuses(s, Advanced(s, c, ids, 1), c, Create(content))
            else exists v ::
              && Ends(s, Advanced(s, c, ids, 2), c, Create(content), v)
              && v.protocolId == ids[0] && v.protocolVersionId == ids[1] && v.branchId == ids[2]
              && v.protocolVersionId !in s.store.versions && v.content == content
              && v.versionNumber == 1 && v.stage == Exploratory && v.predecessor == None && v.changes == []
  {
    FirstStep(s, c, ids, 0);
    FirstStep(s, c, ids, 1);
    assert Advanced(Do(s, Advance(c, ids)), c, ids, 0) == Do(s, Advance(c, ids));
    if Complete(content) {
      var s1 := Do(s, Advance(c, ids));
      var v := s1.calls[c].pc.candidate;
      SavesNew(s1, c, Create(content), v, ids);
    }
  }

  /** An unknown version is refused. */
  lemma UnknownIsRefused(s: System, c: nat, task: Task, newIds: seq<string>)
    requires At(s, c, task, Starting) && !task.Create? && task.id !in s.store.versions
    ensures Refuses(s, Do(s, Advance(c, newIds)), c, task)
  {}

  /** A new version's place beside the one it comes from. */
  predicate Succeeds(v: Version, current: Version, id: string, rationale: string) {
    && v.protocolVersionId == id && v.protocolId == current.protocolId && v.stage == Exploratory
    && v.changeRationale == rationale
    && v.predecessor ==
         Some(Ref(current.protocolId, current.protocolVersionId, current.stage, current.branchId))
  }

  lemma Builds(s: System, c: nat, task: Task, current: Version, highest: nat, ids: seq<string>) returns (v: Version)
    requires Invariant(s) && At(s, c, task, Building(current, highest)) && Fresh(s, ids)
    requires task.Revise? || task.Branch?
    ensures Ends(s, Advanced(s, c, ids, 2), c, task, v)
    ensures v == if task.Revise? then Revised(current, highest, task, ids[0])
                 else Branched(current, task, ids[0], ids[1])
    ensures ids[0] !in s.store.versions
  {
    FirstStep(s, c, ids, 1);
    var s1 := Do(s, Advance(c, ids));
    v := s1.calls[c].pc.candidate;
    SavesNew(s1, c, task, v, ids);
  }

  lemma ReviseStarts(s: System, c: nat, task: Task, ids: seq<string>)
    requires Invariant(s) && At(s, c, task, Starting) && task.Revise? && task.id in s.store.versions
    ensures var s1 := Do(s, Advance(c, ids));
            && Invariant(s1) && At(s1, c, task, Listing(s.store.versions[task.id]))
            && s1.store == s.store && s1.ids == s.ids
  {
    StartKeeps(s, c, ids);
  }

  lemma ReviseLists(s: System, c: nat, task: Task, current: Version, ids: seq<string>) returns (highest: nat)
    requires Invariant(s) && At(s, c, task, Listing(current)) && task.Revise?
    ensures var s1 := Do(s, Advance(c, ids));
            && Invariant(s1) && At(s1, c, task, Building(current, highest))
            && s1.store == s.store && s1.ids == s.ids && IsNext(s.store.versions, current, highest + 1)
  {
    BuildKeeps(s, c, ids);
    ListingLooks(s, c, ids);
    highest := Highest(s.store.versions, current);
  }

  lemma RevisedOverlays(versions: Versions, current: Version, highest: nat, task: Task, id: string)
    requires task.Revise? && Complete(current.content)
    ensures var v := Revised(current, highest, task, id);
            && Succeeds(v, current, id, task.rationale) && v.branchId == current.branchId
            && v.content == current.content + task.patch && Replay(current.content, v.changes) == v.content
            && v.versionNumber == highest + 1
  {
    ChangesReplay(current.content, task.patch, task.rationale);
  }

  /** A revision overlays the patch, records what changed, and gets the next number. */
  lemma ReviseOutcome(s: System, c: nat, task: Task, ids: seq<string>) returns (v: Version)
    requires Invariant(s) && At(s, c, task, Starting) && task.Revise? && task.id in s.store.versions && Fresh(s, ids)
    ensures var current := s.store.versions[task.id];
            && Ends(s, Advanced(s, c, ids, 4), c, task, v) && Succeeds(v, current, ids[0], task.rationale)
            && v.protocolVersionId !in s.store.versions && v.branchId == current.branchId
            && v.content == current.content + task.patch && IsNext(s.store.versions, current, v.versionNumber)
            && Replay(current.content, v.changes) == v.content
  {
    var current, s1 := s.store.versions[task.id], Do(s, Advance(c, ids));
    FirstStep(s, c, ids, 3);
    ReviseStarts(s, c, task, ids);
    assert Linked(s.store.versions, current);
    v := ReviseListed(s1, c, task, current, ids);
  }

  lemma ReviseListed(s: System, c: nat, task: Task, current: Version, ids: seq<string>) returns (v: Version)
    requires Invariant(s) && At(s, c, task, Listing(current)) && task.Revise? && Fresh(s, ids)
    requires Complete(current.content)
    ensures Ends(s, Advanced(s, c, ids, 3), c, task, v) && Succeeds(v, current, ids[0], task.rationale)
    ensures v.protocolVersionId !in s.store.versions && v.branchId == current.branchId
    ensures v.content == current.content + task.patch && Replay(current.content, v.changes) == v.content
    ensures IsNext(s.store.versions, current, v.versionNumber)
  {
    FirstStep(s, c, ids, 2);
    var highest := ReviseLists(s, c, task, current, ids);
    v := Builds(Do(s, Advance(c, ids)), c, task, current, highest, ids);
    RevisedOverlays(s.store.versions, current, highest, task, ids[0]);
  }

  /** A branch keeps the content and number of its version but for one more, under a branch id of its own. */
  lemma BranchOutcome(s: System, c: nat, task: Task, ids: seq<string>)
    requires Invariant(s) && At(s, c, task, Starting) && task.Branch? && task.id in s.store.versions && Fresh(s, ids)
    ensures exists v ::
              var current := s.store.versions[task.id];
              && Ends(s, Advanced(s, c, ids, 3), c, task, v) && Succeeds(v, current, ids[0], task.rationale)
              && v.protocolVersionId !in s.store.versions && v.branchId == ids[1]
              && v.content == current.content && v.versionNumber == current.versionNumber + 1
              && v.changes == [BranchChange(current.branchId, task.rationale)]
  {
    var current, s1 := s.store.versions[task.id], Do(s, Advance(c, ids));
    FirstStep(s, c, ids, 2);
    assert At(s1, c, task, Building(current, current.versionNumber)) && s1.store == s.store && s1.ids == s.ids;
    StartKeeps(s, c, ids);
    var v := Builds(s1, c, task, current, current.versionNumber, ids);
  }

  /** Promotion turns an exploratory version, and no other, into a specified one. */
  lemma PromoteOutcome(s: System, c: nat, task: Task, ids: seq<string>)
    requires Invariant(s) && At(s, c, task, Starting) && task.Promote? && task.id in s.store.versions
    ensures var current := s.store.versions[task.id];
            if current.stage != Exploratory then Refuses(s, Advanced(s, c, ids, 1), c, task)
            else Ends(s, Advanced(s, c, ids, 2), c, task,
                      current.(stage := Specified, changes := current.changes + [StageChange(Exploratory, Specified)]))
  {
    var current, s1 := s.store.versions[task.id], Do(s, Advance(c, ids));
    FirstStep(s, c, ids, 0);
    FirstStep(s, c, ids, 1);
    assert Advanced(s1, c, ids, 0) == s1;
    if current.stage == Exploratory {
      SavesNew(s1, c, task, Staged(current, Specified), ids);
    }
  }

  /** A snapshot is made of a specified version, and of no other; an export names it under a new id. */
  lemma SnapshotOutcome(s: System, c: nat, task: Task, ids: seq<string>)
    requires Invariant(s) && At(s, c, task, Starting) && task.Snapshot? && task.id in s.store.versions && |ids| > 0
    ensures var current := s.store.versions[task.id];
            var v := current.(stage := ExportSnapshot,
                              changes := current.changes + [StageChange(Specified, ExportSnapshot)]);
            if current.stage != Specified then Refuses(s, Advanced(s, c, ids, 1), c, task)
            else if !task.exporting then Ends(s, Advanced(s, c, ids, 2), c, task, v)
            else
              var s' := Advanced(s, c, ids, 3);
              && At(s', c, task, Returned(v)) && s'.store.versions == s.store.versions[task.id := v]
              && s'.store.exports == s.store.exports[ids[0] := Export(ids[0], task.id)]
  {
    var current, s1 := s.store.versions[task.id], Do(s, Advance(c, ids));
    FirstStep(s, c, ids, 0);
    FirstStep(s, c, ids, 1);
    assert Advanced(s1, c, ids, 0) == s1;
    if current.stage == Specified {
      var v := Staged(current, ExportSnapshot);
      assert At(s1, c, task, Saving(v));
      if !task.exporting {
        SavesNew(s1, c, task, v, ids);
      } else {
        FirstStep(s, c, ids, 2);
        SavesAndExports(s1, c, task, v, ids);
      }
    }
  }

  lemma SavesAndExports(s: System, c: nat, task: Task, v: Version, ids: seq<string>)
    requires At(s, c, task, Saving(v)) && task.Snapshot? && task.exporting && v.stage == ExportSnapshot && |ids| > 0
    requires v.protocolVersionId in s.store.versions && s.store.versions[v.protocolVersionId].stage != ExportSnapshot
    ensures var s' := Advanced(s, c, ids, 2);
            && At(s', c, task, Returned(v)) && s'.store.versions == s.store.versions[v.protocolVersionId := v]
            && s'.store.exports == s.store.exports[ids[0] := Export(ids[0], v.protocolVersionId)]
  {
    var s1 := Do(s, Advance(c, ids));
    FirstStep(s, c, ids, 1);
    FirstStep(s1, c, ids, 0);
    assert Advanced(Do(s1, Advance(c, ids)), c, ids, 0) == Do(s1, Advance(c, ids));
    assert At(s1, c, task, Exporting(v.protocolVersionId));
  }

  /** A call begins once, and a version that has become a snapshot is not written over. */
  lemma Begins(s: System, c: nat, task: Task)
    ensures var s' := Do(s, Begin(c, task));
            s'.store == s.store && s'.ids == s.ids && (if c in s.calls then s' == s else At(s', c, task, Starting))
  {}

  /** A step that throws ends the call and stores nothing. */
  lemma ErrorThrows(s: System, c: nat, task: Task, pc: Pc)
    requires At(s, c, task, pc)
    ensures Refuses(s, Do(s, Throws(c)), c, task)
  {}

  lemma SnapshotStands(s: System, c: nat, task: Task, v: Version, newIds: seq<string>)
    requires At(s, c, task, Saving(v)) && v.protocolVersionId in s.store.versions
    requires s.store.versions[v.protocolVersionId].stage == ExportSnapshot
    ensures Refuses(s, Do(s, Advance(c, newIds)), c, task)
  {}
}
