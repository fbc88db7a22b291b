/** Research protocol versions: their store, their recorded changes, and concurrent calls of the service. */
module ResearchProtocol {
  import opened Options

  /** A field value as its JSON text; the service compares fields by that text. */
  type Json = string

  datatype Field =
    | Purpose | WorkingQuestionAim | TaskIntent | SourceSetVersion | Scope | SelectionMode | SelectionRationale
    | InclusionRationale | ExclusionRationale | Boundaries | Limitations | ProcessingPolicyVersion | Author | Posture
    | CoverageClaims

  const SEMANTIC_FIELDS: seq<Field> := [
    Purpose, WorkingQuestionAim, TaskIntent, SourceSetVersion, Scope, SelectionMode, SelectionRationale,
    InclusionRationale, ExclusionRationale, Boundaries, Limitations, ProcessingPolicyVersion, Author, Posture,
    CoverageClaims]

  datatype Stage = Exploratory | Specified | ExportSnapshot {
    function Rank(): nat {
      match this case Exploratory => 0 case Specified => 1 case ExportSnapshot => 2
    }
  }

  datatype Change =
    | FieldChange(field: Field, previous: Json, next: Json, rationale: string)
    | BranchChange(previous: string, rationale: string)
    | RevisionChange(rationale: string)
    | StageChange(from: Stage, to: Stage)

  datatype Ref = Ref(protocolId: string, protocolVersionId: string, stage: Stage, branchId: string)

  datatype Version = Version(
    protocolId: string,
    protocolVersionId: string,
    versionNumber: nat,
    stage: Stage,
    branchId: string,
    content: map<Field, Json>,
    predecessor: Option<Ref>,
    changeRationale: string,
    changes: seq<Change>)

  type Versions = map<string, Version>

  // ---------------------------------------------------------------- recorded changes

  ghost predicate Complete(content: map<Field, Json>) {
    forall f: Field :: f in content
  }

  /** The changes a patch makes to some fields. */
  function FieldChanges(content: map<Field, Json>, patch: map<Field, Json>, rationale: string,
                        fields: seq<Field>): seq<Change> {
    if fields == [] then []
    else
      var last := fields[|fields| - 1];
      FieldChanges(content, patch, rationale, fields[..|fields| - 1]) +
      if last in patch && last in content && content[last] != patch[last]
      then [FieldChange(last, content[last], patch[last], rationale)] else []
  }

  method SemanticChanges(current: Version, patch: map<Field, Json>, rationale: string) returns (changes: seq<Change>)
    requires Complete(current.content)
    ensures changes == ChangesOf(current.content, patch, rationale)
    ensures Replay(current.content, changes) == current.content + patch
  {
    changes := [];
    for i := 0 to |SEMANTIC_FIELDS|
      invariant changes == FieldChanges(current.content, patch, rationale, SEMANTIC_FIELDS[..i])
    {
      var field := SEMANTIC_FIELDS[i];
      assert SEMANTIC_FIELDS[..i + 1][..i] == SEMANTIC_FIELDS[..i];
      if field !in patch {
        continue;
      }
      var previous, next := current.content[field], patch[field];
      if previous != next {
        changes := changes + [FieldChange(field, previous, next, rationale)];
      }
    }
    assert SEMANTIC_FIELDS[..|SEMANTIC_FIELDS|] == SEMANTIC_FIELDS;
    if |changes| == 0 {
      changes := [RevisionChange(rationale)];
    }
    ChangesReplay(current.content, patch, rationale);
  }

  function ChangesOf(content: map<Field, Json>, patch: map<Field, Json>, rationale: string): seq<Change> {
    var changes := FieldChanges(content, patch, rationale, SEMANTIC_FIELDS);
    if changes == [] then [RevisionChange(rationale)] else changes
  }

  /** The content after the recorded changes; only field changes say anything about it. */
  function Replay(content: map<Field, Json>, changes: seq<Change>): map<Field, Json> {
    if changes == [] then content
    else
      var before := Replay(content, changes[..|changes| - 1]);
      var last := changes[|changes| - 1];
      if last.FieldChange? then before[last.field := last.next] else before
  }

  lemma ReplayOneMore(content: map<Field, Json>, changes: seq<Change>, change: Change)
    ensures Replay(content, changes + [change]) ==
            if change.FieldChange? then Replay(content, changes)[change.field := change.next]
            else Replay(content, changes)
  {
    assert (changes + [change])[..|changes|] == changes;
  }

  lemma {:induction false} FieldChangesReplay(content: map<Field, Json>, patch: map<Field, Json>, rationale: string,
                                              fields: seq<Field>)
    requires Complete(content)
    ensures var c := Replay(content, FieldChanges(content, patch, rationale, fields));
            Complete(c) && forall f: Field :: c[f] == if f in patch && f in fields then patch[f] else content[f]
  {
    if fields != [] {
      var before, last := fields[..|fields| - 1], fields[|fields| - 1];
      FieldChangesReplay(content, patch, rationale, before);
      if last in patch && content[last] != patch[last] {
        ReplayOneMore(content, FieldChanges(content, patch, rationale, before),
            FieldChange(last, content[last], patch[last], rationale));
      } else {
        assert FieldChanges(content, patch, rationale, fields) == FieldChanges(content, patch, rationale, before);
      }
    }
  }

  /** A recorded change of a field that the patch changes, from the value it had. */
  predicate TrueChange(content: map<Field, Json>, patch: map<Field, Json>, rationale: string, change: Change) {
    && change.FieldChange? && change.rationale == rationale
    && change.field in content && change.field in patch && content[change.field] != patch[change.field]
    && change.previous == content[change.field] && change.next == patch[change.field]
  }

  /** No field is recorded twice. */
  ghost predicate EachOnce(changes: seq<Change>) {
    forall i, j :: 0 <= i < j < |changes| && changes[i].FieldChange? && changes[j].FieldChange? ==>
      changes[i].field != changes[j].field
  }

  lemma {:induction false} FieldChangesTrue(content: map<Field, Json>, patch: map<Field, Json>, rationale: string,
                                            fields: seq<Field>)
    requires forall i, j :: 0 <= i < j < |fields| ==> fields[i] != fields[j]
    ensures var changes := FieldChanges(content, patch, rationale, fields);
            && EachOnce(changes)
            && forall change :: change in changes <==>
                 TrueChange(content, patch, rationale, change) && change.field in fields
  {
    if fields != [] {
      var before, last := fields[..|fields| - 1], fields[|fields| - 1];
      FieldChangesTrue(content, patch, rationale, before);
      assert fields == before + [last] && last !in before;
      var changes := FieldChanges(content, patch, rationale, before);
      assert forall i :: 0 <= i < |changes| ==> changes[i] in changes;
    }
  }

  /** The changes recorded for a patch: one for each field it changes, with the value before and after; and
      the entry for an empty revision exactly when there is none. */
  lemma ChangesAreTrue(content: map<Field, Json>, patch: map<Field, Json>, rationale: string)
    requires Complete(content)
    ensures var changes := ChangesOf(content, patch, rationale);
            && EachOnce(changes)
            && (forall change :: TrueChange(content, patch, rationale, change) ==> change in changes)
            && (forall change :: change in changes ==>
                  || TrueChange(content, patch, rationale, change)
                  || (change == RevisionChange(rationale) && changes == [change]))
            && (changes == [RevisionChange(rationale)] <==>
                  forall f :: f in patch ==> patch[f] == content[f])
  {
    DistinctFields();
    FieldChangesTrue(content, patch, rationale, SEMANTIC_FIELDS);
    forall f: Field ensures f in SEMANTIC_FIELDS { EveryFieldIsSemantic(f); }
    if f :| f in patch && patch[f] != content[f] {
      assert TrueChange(content, patch, rationale, FieldChange(f, content[f], patch[f], rationale));
    }
    var changes := FieldChanges(content, patch, rationale, SEMANTIC_FIELDS);
    if changes != [] { assert changes[0] in changes; }
  }

  function Index(f: Field): nat {
    match f
    case Purpose => 0 case WorkingQuestionAim => 1 case TaskIntent => 2 case SourceSetVersion => 3 case Scope => 4
    case SelectionMode => 5 case SelectionRationale => 6 case InclusionRationale => 7 case ExclusionRationale => 8
    case Boundaries => 9 case Limitations => 10 case ProcessingPolicyVersion => 11 case Author => 12
    case Posture => 13 case CoverageClaims => 14
  }

  lemma DistinctFields()
    ensures forall i, j :: 0 <= i < j < |SEMANTIC_FIELDS| ==> SEMANTIC_FIELDS[i] != SEMANTIC_FIELDS[j]
  {
    assert forall i :: 0 <= i < |SEMANTIC_FIELDS| ==> Index(SEMANTIC_FIELDS[i]) == i;
  }

  lemma EveryFieldIsSemantic(f: Field)
    ensures f in SEMANTIC_FIELDS
  {
    match f
    case Purpose => assert SEMANTIC_FIELDS[0] == f;
    case WorkingQuestionAim => assert SEMANTIC_FIELDS[1] == f;
    case TaskIntent => assert SEMANTIC_FIELDS[2] == f;
    case SourceSetVersion => assert SEMANTIC_FIELDS[3] == f;
    case Scope => assert SEMANTIC_FIELDS[4] == f;
    case SelectionMode => assert SEMANTIC_FIELDS[5] == f;
    case SelectionRationale => assert SEMANTIC_FIELDS[6] == f;
    case InclusionRationale => assert SEMANTIC_FIELDS[7] == f;
    case ExclusionRationale => assert SEMANTIC_FIELDS[8] == f;
    case Boundaries => assert SEMANTIC_FIELDS[9] == f;
    case Limitations => assert SEMANTIC_FIELDS[10] == f;
    case ProcessingPolicyVersion => assert SEMANTIC_FIELDS[11] == f;
    case Author => assert SEMANTIC_FIELDS[12] == f;
    case Posture => assert SEMANTIC_FIELDS[13] == f;
    case CoverageClaims => assert SEMANTIC_FIELDS[14] == f;
  }

  /** Replaying the changes recorded for a patch gives the patched content. */
  lemma ChangesReplay(content: map<Field, Json>, patch: map<Field, Json>, rationale: string)
    requires Complete(content)
    ensures Replay(content, ChangesOf(content, patch, rationale)) == content + patch
  {
    FieldChangesReplay(content, patch, rationale, SEMANTIC_FIELDS);
    var changes := FieldChanges(content, patch, rationale, SEMANTIC_FIELDS);
    forall f: Field ensures f in SEMANTIC_FIELDS { EveryFieldIsSemantic(f); }
    assert Replay(content, changes) == content + patch;
    ReplayOneMore(content, [], RevisionChange(rationale));
    assert [] + [RevisionChange(rationale)] == [RevisionChange(rationale)];
  }

  // ---------------------------------------------------------------- the store

  datatype Export = Export(exportId: string, protocolVersionId: string)

  datatype Store = Store(versions: Versions, exports: map<string, Export>)

  /** saveVersion: None when it throws, because a stored snapshot is immutable. */
  function Saved(s: Store, v: Version): Option<Store> {
    if v.protocolVersionId in s.versions && s.versions[v.protocolVersionId].stage == ExportSnapshot then None
    else Some(s.(versions := s.versions[v.protocolVersionId := v]))
  }

  /** saveExport: None when it throws, because the version is not a snapshot. */
  function Exported(s: Store, reference: Export): Option<Store> {
    if reference.protocolVersionId in s.versions && s.versions[reference.protocolVersionId].stage == ExportSnapshot
    then Some(s.(exports := s.exports[reference.exportId := reference]))
    else None
  }

  /** The highest number among the protocol's versions, and the version's own. */
  ghost function Highest(versions: Versions, v: Version): (highest: nat)
    ensures v.versionNumber <= highest
    ensures forall id :: id in versions && versions[id].protocolId == v.protocolId ==>
              versions[id].versionNumber <= highest
    ensures || highest == v.versionNumber
            || exists id :: id in versions && versions[id].protocolId == v.protocolId
                            && versions[id].versionNumber == highest
  {
    var numbers := set id | id in versions && versions[id].protocolId == v.protocolId :: versions[id].versionNumber;
    assert forall id :: id in versions && versions[id].protocolId == v.protocolId ==>
             versions[id].versionNumber in numbers;
    MaxOf(numbers, v.versionNumber)
  }

  ghost function MaxOf(numbers: set<nat>, least: nat): (max: nat)
    ensures least <= max && forall n :: n in numbers ==> n <= max
    ensures max == least || max in numbers
  {
    if numbers == {} then least
    else
      var n :| n in numbers;
      var rest := MaxOf(numbers - {n}, least);
      assert forall m :: m in numbers ==> m == n || m in numbers - {n};
      if n > rest then n else rest
  }

  class InMemoryResearchProtocolStore {
    var versions: map<string, Version>
    var exports: map<string, Export>

    ghost function State(): Store
      reads this
    {
      Store(versions, exports)
    }

    constructor ()
      ensures Valid() && State() == Store(map[], map[])
    {
      versions, exports := map[], map[];
    }

    /** Every version is stored under its own id. */
    ghost predicate Valid()
      reads this
    {
      forall id :: id in versions ==> versions[id].protocolVersionId == id
    }

    method SaveVersion(version: Version) returns (saved: Option<Version>)
      requires Valid()
      modifies this`versions
      ensures Valid()
      ensures match Saved(old(State()), version)
              case None => saved == None && State() == old(State())
              case Some(s) => saved == Some(version) && State() == s
    {
      if version.protocolVersionId in versions {
        var existing := versions[version.protocolVersionId];
        if existing.stage == ExportSnapshot {
          return None;
        }
      }
      versions := versions[version.protocolVersionId := version];
      saved := Some(version);
    }

    /** Finds the one stored version with the id: the last that was saved under it. */
    method GetVersion(id: string) returns (version: Option<Version>)
      requires Valid()
      ensures match version
              case None => forall v :: v in versions.Values ==> v.protocolVersionId != id
              case Some(v) => v in versions.Values && v.protocolVersionId == id
      ensures version.Some? ==> forall v :: v in versions.Values && v.protocolVersionId == id ==> v == version.value
    {
      version := if id in versions then Some(versions[id]) else None;
    }

    /** All that the service takes from listVersions. */
    method HighestVersionNumber(current: Version) returns (highest: nat)
      ensures highest == Highest(versions, current)
    {
      highest := current.versionNumber;
      var rest := versions.Keys;
      while rest != {}
        invariant rest <= versions.Keys && current.versionNumber <= highest
        invariant highest == current.versionNumber ||
                  exists id :: id in versions && versions[id].protocolId == current.protocolId
                      && versions[id].versionNumber == highest
        invariant forall id :: id in versions.Keys - rest && versions[id].protocolId == current.protocolId ==>
                    versions[id].versionNumber <= highest
        decreases |rest|
      {
        var id :| id in rest;
        if versions[id].protocolId == current.protocolId && versions[id].versionNumber > highest {
          highest := versions[id].versionNumber;
        }
        rest := rest - {id};
      }
    }

    method SaveExport(reference: Export) returns (saved: Option<Export>)
      modifies this`exports
      ensures match Exported(old(State()), reference)
              case None => saved == None && State() == old(State())
              case Some(s) => saved == Some(reference) && State() == s
    {
      if reference.protocolVersionId !in versions {
        return None;
      }
      if versions[reference.protocolVersionId].stage != ExportSnapshot {
        return None;
      }
      exports := exports[reference.exportId := reference];
      saved := Some(reference);
    }
  }
}
