/** Looking for the latest compatible extension, page by page. */
module OvsxApiFilter {
  import opened Options
  import opened Numbers

  datatype Extension = Extension(namespace: string, version: string, engine: Option<string>)

  datatype Results = Results(totalSize: nat, extensions: seq<Extension>)

  /** A registry that answers with honest slices of one list. */
  function Query(list: seq<Extension>, offset: nat, size: nat): Results {
    Results(|list|, if offset < |list| then list[offset..Min(offset + size, |list|)] else [])
  }

  predicate IsBuiltinNamespace(namespace: string) {
    namespace == "vscode" || namespace == "eclipse-theia"
  }

  function Find(extensions: seq<Extension>, compatible: Extension -> bool): Option<Extension> {
    if extensions == [] then None
    else if compatible(extensions[0]) then Some(extensions[0])
    else Find(extensions[1..], compatible)
  }

  /** Version comparison, range test and lower-casing belong to libraries; they are parameters here. */
  datatype Filter = Filter(supportedApiVersion: string, gte: (string, string) -> bool,
      satisfies: (string, string) -> bool,
                           lower: string -> string)
  {
    predicate IsBuiltin(e: Extension) {
      IsBuiltinNamespace(lower(e.namespace))
    }

    function Compatible(builtin: bool): Extension -> bool {
      if builtin then (e: Extension) => gte(supportedApiVersion, e.version)
      else (e: Extension) => satisfies(supportedApiVersion, if e.engine == None then "*" else e.engine.value)
    }

    function GetLatestCompatibleExtension(extensions: seq<Extension>): Option<Extension> {
      if extensions == [] then None else Find(extensions, Compatible(IsBuiltin(extensions[0])))
    }

    /** Fits by the version that the filter supports: a builtin extension is no newer, another admits it. The
        rank orders the versions; a text that is no version has none. */
    predicate Fits(first: Extension, e: Extension, rank: string -> Option<int>) {
      if lower(first.namespace) in ["vscode", "eclipse-theia"] then
        && rank(e.version).Some? && rank(supportedApiVersion).Some?
        && rank(e.version).value <= rank(supportedApiVersion).value
      else satisfies(supportedApiVersion, if e.engine == None then "*" else e.engine.value)
    }

    /** The first entry that fits is found, and none exactly when none fits. */
    lemma FindsFirstFitting(extensions: seq<Extension>, rank: string -> Option<int>)
      requires forall a, b :: gte(a, b) <==> rank(a).Some? && rank(b).Some? && rank(a).value >= rank(b).value
      ensures match GetLatestCompatibleExtension(extensions)
              case None => forall e :: e in extensions ==> !Fits(extensions[0], e, rank)
              case Some(found) =>
                exists i :: 0 <= i < |extensions| && extensions[i] == found && Fits(extensions[0], found, rank)
                            && forall j :: 0 <= j < i ==> !Fits(extensions[0], extensions[j], rank)
    {
      if extensions != [] {
        var compatible := Compatible(IsBuiltin(extensions[0]));
        forall e ensures compatible(e) == Fits(extensions[0], e, rank) {}
        FindsFirst(extensions, compatible);
      }
    }

    /** The first entry of every page is judged by the rule of the list's first entry: all that the search
        looks at to choose its rule. */
    ghost predicate HeadsAgree(list: seq<Extension>) {
      forall k: nat {:trigger HeadAgrees(list, k)} :: HeadAgrees(list, k)
    }

    predicate HeadAgrees(list: seq<Extension>, k: nat) {
      Covered(k) < |list| ==> IsBuiltin(list[Covered(k)]) == IsBuiltin(list[0])
    }

    /** The k-th page. */
    function Page(list: seq<Extension>, k: nat): seq<Extension> {
      Query(list, Covered(k), Size(k)).extensions
    }

    /** The search ends on the first page with a compatible entry by that page's rule, or after the last page. */
    ghost predicate EndsOn(list: seq<Extension>, requests: nat, found: Option<Extension>) {
      && requests > 0
      && found == GetLatestCompatibleExtension(Page(list, requests - 1))
      && (forall k :: 0 <= k < requests - 1 ==> GetLatestCompatibleExtension(Page(list, k)) == None)
      && (requests > 1 ==> Covered(requests - 1) < |list|)
      && (found == None ==> Covered(requests) >= |list|)
    }

    /** The growing pages are searched until one has a compatible entry; where the pages' first entries
        agree, that is what a scan of the list finds. */
    method QueryLatestCompatibleExtension(list: seq<Extension>) returns (found: Option<Extension>, requests: nat)
      ensures EndsOn(list, requests, found)
      ensures requests <= 5 || 100 * (requests - 6) < |list| - 155
      ensures HeadsAgree(list) ==> found == GetLatestCompatibleExtension(list)
    {
      var offset: nat, size: nat, loop := 0, 5, true;
      requests := 0;
      found := None;
      while loop
        invariant size == Size(requests) && offset == Min(Covered(requests), |list|)
        invariant forall k :: 0 <= k < requests ==> GetLatestCompatibleExtension(Page(list, k)) == None
        invariant requests > 1 ==> Covered(requests - 1) < |list|
        invariant found == None
        invariant if loop then requests == 0 || offset < |list| else requests > 0 && offset == |list|
        decreases loop, |list| - offset
      {
        var results := Query(list, offset, size);
        var compatibleExtension := GetLatestCompatibleExtension(results.extensions);
        PageAt(list, requests, offset, size);
        requests := requests + 1;
        if compatibleExtension.Some? {
          PagesScan(list, requests, compatibleExtension);
          return compatibleExtension, requests;
        }
        offset := offset + |results.extensions|;
        loop := results.totalSize > offset;
        size := Min(size * 2, 100);
      }
      PagesScan(list, requests, None);
    }

    lemma PageAt(list: seq<Extension>, k: nat, offset: nat, size: nat)
      requires size == Size(k) && offset == Min(Covered(k), |list|)
      ensures Query(list, offset, size).extensions == Page(list, k)
      ensures offset + |Page(list, k)| == Min(Covered(k + 1), |list|)
    {}

    /** The pages together are a scan of the list, in few requests. */
    lemma PagesScan(list: seq<Extension>, requests: nat, found: Option<Extension>)
      requires EndsOn(list, requests, found)
      ensures requests <= 5 || 100 * (requests - 6) < |list| - 155
      ensures HeadsAgree(list) ==> found == GetLatestCompatibleExtension(list)
    {
      FewRequests(requests, |list|);
      if HeadsAgree(list) {
        NothingBefore(list, requests - 1);
        LastPage(list, requests - 1);
      }
    }

    lemma LastPage(list: seq<Extension>, k: nat)
      requires HeadAgrees(list, k) && GetLatestCompatibleExtension(list[..Min(Covered(k), |list|)]) == None
      ensures GetLatestCompatibleExtension(Page(list, k)).Some? || Covered(k + 1) >= |list| ==>
                GetLatestCompatibleExtension(Page(list, k)) == GetLatestCompatibleExtension(list)
    {
      assert list[..|list|] == list;
      if Covered(k) < |list| { PageFinds(list, Covered(k), Min(Covered(k + 1), |list|)); }
    }

    lemma {:induction false} NothingBefore(list: seq<Extension>, k: nat)
      requires HeadsAgree(list)
      requires forall j :: 0 <= j < k ==> GetLatestCompatibleExtension(Page(list, j)) == None
      ensures GetLatestCompatibleExtension(list[..Min(Covered(k), |list|)]) == None
    {
      if k > 0 {
        NothingBefore(list, k - 1);
        PageAt(list, k - 1, Min(Covered(k - 1), |list|), Size(k - 1));
        assert HeadAgrees(list, k - 1);
        if Covered(k - 1) < |list| {
          PageFinds(list, Covered(k - 1), Min(Covered(k), |list|));
        }
      }
    }

    /** What one page adds to the search so far. */
    lemma PageFinds(list: seq<Extension>, offset: nat, next: nat)
      requires offset < next <= |list| && IsBuiltin(list[offset]) == IsBuiltin(list[0])
      requires GetLatestCompatibleExtension(list[..offset]) == None
      ensures GetLatestCompatibleExtension(list[..next]) == GetLatestCompatibleExtension(list[offset..next])
      ensures var page := GetLatestCompatibleExtension(list[offset..next]);
              page.Some? ==> page == GetLatestCompatibleExtension(list)
    {
      var compatible := Compatible(IsBuiltin(list[0]));
      assert list[..next] == list[..offset] + list[offset..next];
      assert list == list[..next] + list[next..];
      FindInParts(list[..offset], list[offset..next], compatible);
      FindInParts(list[..next], list[next..], compatible);
    }

    /** A filter for the same namespaces, under which the rule of builtin extensions accepts everything or
        nothing, and the other rule the opposite. */
    function OneSided(builtin: bool): Filter {
      Filter(supportedApiVersion, (a, b) => builtin, (a, b) => !builtin, lower)
    }

    ghost predicate SameNamespaces(g: Filter) {
      g.lower == lower
    }

    /** Such a filter finds nothing by the rule it refuses, and the first entry by the other. */
    lemma OneSidedFinds(extensions: seq<Extension>, accepted: bool)
      requires extensions != []
      ensures var g := OneSided(accepted);
        g.GetLatestCompatibleExtension(extensions) ==
          if IsBuiltin(extensions[0]) == accepted then Some(extensions[0]) else None
    {
      var g := OneSided(accepted);
      if IsBuiltin(extensions[0]) != accepted { NoneFound(extensions, g.Compatible(!accepted)); }
    }

    /** Where the first entry of a page disagrees, some version tests make the search and the scan differ. */
    lemma HeadDisagrees(list: seq<Extension>, k: nat)
      requires !HeadAgrees(list, k) && forall j: nat :: j < k ==> HeadAgrees(list, j)
      ensures var g, found := OneSided(!IsBuiltin(list[0])), Some(list[Covered(k)]);
        g.EndsOn(list, k + 1, found) && g.GetLatestCompatibleExtension(list) == None
    {
      var accepted := !IsBuiltin(list[0]);
      OneSidedFinds(list, accepted);
      PageStarts(list, k);
      OneSidedFinds(Page(list, k), accepted);
      forall j | 0 <= j < k ensures OneSided(accepted).GetLatestCompatibleExtension(Page(list, j)) == None {
        CoveredGrows(j, k);
        PageStarts(list, j);
        assert HeadAgrees(list, j);
        OneSidedFinds(Page(list, j), accepted);
      }
      SamePages(OneSided(accepted), list);
    }

    lemma PageStarts(list: seq<Extension>, k: nat)
      requires Covered(k) < |list|
      ensures Page(list, k) != [] && Page(list, k)[0] == list[Covered(k)]
    {}

    lemma SamePages(g: Filter, list: seq<Extension>)
      ensures forall k: nat :: g.Page(list, k) == Page(list, k)
    {}

    /** The search finds what a scan of the list finds, whatever the version tests say, exactly when the
        first entries of its pages agree. */
    lemma SearchIsScanExactly(list: seq<Extension>)
      ensures HeadsAgree(list) <==>
                forall g, requests, found :: SameNamespaces(g) && g.EndsOn(list, requests, found) ==>
                  found == g.GetLatestCompatibleExtension(list)
    {
      if HeadsAgree(list) {
        forall g, requests, found | SameNamespaces(g) && g.EndsOn(list, requests, found)
          ensures found == g.GetLatestCompatibleExtension(list)
        {
          forall k: nat ensures g.HeadAgrees(list, k) { assert HeadAgrees(list, k); }
          g.PagesScan(list, requests, found);
        }
      } else {
        var k: nat :| !HeadAgrees(list, k);
        k := FirstDisagreeing(list, k);
        HeadDisagrees(list, k);
        assert SameNamespaces(OneSided(!IsBuiltin(list[0])));
      }
    }

    lemma {:induction false} FirstDisagreeing(list: seq<Extension>, k: nat) returns (first: nat)
      requires !HeadAgrees(list, k)
      ensures !HeadAgrees(list, first) && forall j: nat :: j < first ==> HeadAgrees(list, j)
    {
      if j: nat :| j < k && !HeadAgrees(list, j) {
        first := FirstDisagreeing(list, j);
      } else {
        first := k;
      }
    }
  }

  lemma {:induction false} CoveredGrows(j: nat, k: nat)
    requires j < k
    ensures Covered(j) < Covered(k)
  {
    if j < k - 1 { CoveredGrows(j, k - 1); }
  }

  lemma {:induction false} FindsFirst(extensions: seq<Extension>, compatible: Extension -> bool)
    ensures match Find(extensions, compatible)
            case None => forall e :: e in extensions ==> !compatible(e)
            case Some(found) =>
              exists i :: 0 <= i < |extensions| && extensions[i] == found && compatible(found)
                          && forall j :: 0 <= j < i ==> !compatible(extensions[j])
  {
    if extensions != [] && !compatible(extensions[0]) {
      FindsFirst(extensions[1..], compatible);
      if Find(extensions, compatible).Some? {
        var found := Find(extensions, compatible).value;
        var i :| 0 <= i < |extensions[1..]| && extensions[1..][i] == found && compatible(found)
                 && forall j :: 0 <= j < i ==> !compatible(extensions[1..][j]);
        assert extensions[i + 1] == found;
        assert forall j :: 0 <= j < i + 1 ==> j == 0 || extensions[j] == extensions[1..][j - 1];
      }
    }
  }

  lemma {:induction false} FindInParts(a: seq<Extension>, b: seq<Extension>, compatible: Extension -> bool)
    ensures Find(a + b, compatible) == if Find(a, compatible).Some? then Find(a, compatible) else Find(b, compatible)
  {
    if a == [] {
      assert a + b == b;
    } else {
      assert (a + b)[0] == a[0] && (a + b)[1..] == a[1..] + b;
      FindInParts(a[1..], b, compatible);
    }
  }

  /** The size of the k-th page, and how much the first k pages cover. */
  function Size(k: nat): (size: nat)
    ensures 5 <= size <= 100
  {
    if k == 0 then 5 else Min(Size(k - 1) * 2, 100)
  }

  function Covered(k: nat): nat {
    if k == 0 then 0 else Covered(k - 1) + Size(k - 1)
  }

  lemma {:induction false} NoneFound(extensions: seq<Extension>, compatible: Extension -> bool)
    requires forall e :: e in extensions ==> !compatible(e)
    ensures Find(extensions, compatible) == None
  {
    if extensions != [] { NoneFound(extensions[1..], compatible); }
  }

  /** Each page is judged by its own first entry, so on a list of mixed namespaces the search can find what
      a scan of the list does not. */
  lemma MixedListDiffers(f: Filter, other: Extension, builtin: Extension)
    requires !f.IsBuiltin(other) && f.IsBuiltin(builtin)
    requires !f.Compatible(false)(other) && !f.Compatible(false)(builtin) && f.Compatible(true)(builtin)
    ensures var list := [other, other, other, other, other, builtin];
      f.EndsOn(list, 2, Some(builtin)) && f.GetLatestCompatibleExtension(list) == None
  {
    var list := [other, other, other, other, other, builtin];
    assert Size(1) == 10 && Covered(1) == 5;
    assert f.Page(list, 0) == list[..5] && f.Page(list, 1) == [builtin];
    NoneFound(list, f.Compatible(false));
    NoneFound(list[..5], f.Compatible(false));
  }

  lemma {:induction false} FromTheFifthOn(k: nat)
    requires k >= 5
    ensures Size(k) == 100 && Covered(k) == 155 + 100 * (k - 5)
  {
    if k == 5 {
      assert Size(1) == 10 && Size(2) == 20 && Size(3) == 40 && Size(4) == 80;
      assert Covered(1) == 5 && Covered(2) == 15 && Covered(3) == 35 && Covered(4) == 75;
    } else {
      FromTheFifthOn(k - 1);
    }
  }

  lemma FewRequests(requests: nat, n: nat)
    requires requests > 1 ==> Covered(requests - 1) < n
    ensures requests <= 5 + (if n <= 155 then 0 else (n - 155 + 99) / 100)
    ensures requests <= 5 || 100 * (requests - 6) < n - 155
  {
    if requests > 5 { FromTheFifthOn(requests - 1); }
  }
}

/** The round-robin merge of search results. */
module OvsxRouterClient {
  import opened Numbers

  /** How many elements have a rank below k. */
  function Below<T>(arrays: seq<seq<T>>, k: nat): nat {
    if arrays == [] then 0 else Below(arrays[..|arrays| - 1], k) + Min(|arrays[|arrays| - 1]|, k)
  }

  /** How many of the first a arrays have an element of rank k. */
  function Longer<T>(arrays: seq<seq<T>>, a: nat, k: nat): nat
    requires a <= |arrays|
  {
    if a == 0 then 0 else Longer(arrays, a - 1, k) + if |arrays[a - 1]| > k then 1 else 0
  }

  /** The place of element k of array a in the merge. */
  function Place<T>(arrays: seq<seq<T>>, a: nat, k: nat): nat
    requires a < |arrays|
  {
    Below(arrays, k) + Longer(arrays, a, k)
  }

  function Total<T>(arrays: seq<seq<T>>): nat {
    if arrays == [] then 0 else Total(arrays[..|arrays| - 1]) + |arrays[|arrays| - 1]|
  }

  ghost function At<T>(items: seq<T>, k: nat): multiset<T> {
    if k < |items| then multiset{items[k]} else multiset{}
  }

  /** The elements of rank below k of one array, and of them all. */
  ghost function Front<T>(items: seq<T>, k: nat): multiset<T> {
    if k == 0 then multiset{} else Front(items, k - 1) + At(items, k - 1)
  }

  ghost function Taken<T>(arrays: seq<seq<T>>, k: nat): multiset<T> {
    if arrays == [] then multiset{} else Taken(arrays[..|arrays| - 1], k) + Front(arrays[|arrays| - 1], k)
  }

  /** The elements of rank k in the first a arrays. */
  ghost function Rank<T>(arrays: seq<seq<T>>, a: nat, k: nat): multiset<T>
    requires a <= |arrays|
  {
    if a == 0 then multiset{} else Rank(arrays, a - 1, k) + At(arrays[a - 1], k)
  }

  ghost function Elements<T>(arrays: seq<seq<T>>): multiset<T> {
    if arrays == [] then multiset{} else Elements(arrays[..|arrays| - 1]) + multiset(arrays[|arrays| - 1])
  }

  function Longest<T>(arrays: seq<seq<T>>): (length: nat)
    ensures forall a :: 0 <= a < |arrays| ==> |arrays[a]| <= length
  {
    if arrays == [] then 0
    else
      var rest := Longest(arrays[..|arrays| - 1]);
      assert forall a :: 0 <= a < |arrays| - 1 ==> arrays[a] == arrays[..|arrays| - 1][a];
      if rest < |arrays[|arrays| - 1]| then |arrays[|arrays| - 1]| else rest
  }

  /** Element k of array a is at its place. */
  predicate Placed<T(==)>(arrays: seq<seq<T>>, merged: seq<T>, a: nat, k: nat)
    requires a < |arrays| && k < |arrays[a]|
  {
    Place(arrays, a, k) < |merged| && merged[Place(arrays, a, k)] == arrays[a][k]
  }

  /** All elements of rank below i are at their places, and those of rank i in the first j arrays. */
  ghost predicate PlacedTo<T>(arrays: seq<seq<T>>, merged: seq<T>, i: nat, j: nat) {
    forall a, k :: 0 <= a < |arrays| && 0 <= k < |arrays[a]| && (k < i || (k == i && a < j)) ==>
        Placed(arrays, merged, a, k)
  }

  lemma PlaceNext<T>(arrays: seq<seq<T>>, merged: seq<T>, i: nat, j: nat)
    requires PlacedTo(arrays, merged, i, j) && j < |arrays|
    requires |merged| == Below(arrays, i) + Longer(arrays, j, i)
    ensures PlacedTo(arrays, if i < |arrays[j]| then merged + [arrays[j][i]] else merged, i, j + 1)
  {
    var merged' := if i < |arrays[j]| then merged + [arrays[j][i]] else merged;
    forall a, k | 0 <= a < |arrays| && 0 <= k < |arrays[a]| && (k < i || (k == i && a < j + 1))
      ensures Placed(arrays, merged', a, k)
    {
      if k < i || a < j { assert Placed(arrays, merged, a, k); }
    }
  }

  /** The merge after i ranks, and j elements of the next. */
  ghost predicate Merged<T>(arrays: seq<seq<T>>, merged: seq<T>, i: nat, j: nat)
    requires j <= |arrays|
  {
    && |merged| == Below(arrays, i) + Longer(arrays, j, i)
    && multiset(merged) == Taken(arrays, i) + Rank(arrays, j, i)
    && PlacedTo(arrays, merged, i, j)
  }

  lemma MergeNext<T>(arrays: seq<seq<T>>, merged: seq<T>, i: nat, j: nat)
    requires j < |arrays| && Merged(arrays, merged, i, j)
    ensures Merged(arrays, if i < |arrays[j]| then merged + [arrays[j][i]] else merged, i, j + 1)
  {
    PlaceNext(arrays, merged, i, j);
    if i < |arrays[j]| {
      assert multiset(merged + [arrays[j][i]]) == multiset(merged) + At(arrays[j], i);
    }
  }

  lemma MergeRank<T>(arrays: seq<seq<T>>, merged: seq<T>, i: nat)
    requires Merged(arrays, merged, i, |arrays|)
    ensures Merged(arrays, merged, i + 1, 0)
  {
    NextRank(arrays, i);
    NextTaken(arrays, i);
    forall a, k | 0 <= a < |arrays| && 0 <= k < |arrays[a]| && k < i + 1
      ensures Placed(arrays, merged, a, k)
    {}
  }

  /** Every element k of every array a is at its place, and nothing else is in the merge. */
  method Interleave<T>(arrays: seq<seq<T>>) returns (interleaved: seq<T>)
    ensures |interleaved| == Total(arrays) && multiset(interleaved) == Elements(arrays)
    ensures forall a, k :: 0 <= a < |arrays| && 0 <= k < |arrays[a]| ==> Placed(arrays, interleaved, a, k)
  {
    interleaved := [];
    NothingMerged(arrays);
    var length := Longest(arrays);
    for i := 0 to length
      invariant Merged(arrays, interleaved, i, 0)
    {
      for j := 0 to |arrays|
        invariant Merged(arrays, interleaved, i, j)
      {
        MergeNext(arrays, interleaved, i, j);
        if i < |arrays[j]| {
          interleaved := interleaved + [arrays[j][i]];
        }
      }
      MergeRank(arrays, interleaved, i);
    }
    MergeIsComplete(arrays, interleaved, length);
  }

  lemma MergeIsComplete<T>(arrays: seq<seq<T>>, merged: seq<T>, length: nat)
    requires Merged(arrays, merged, length, 0)
    requires forall a :: 0 <= a < |arrays| ==> |arrays[a]| <= length
    ensures |merged| == Total(arrays) && multiset(merged) == Elements(arrays)
    ensures forall a, k :: 0 <= a < |arrays| && 0 <= k < |arrays[a]| ==> Placed(arrays, merged, a, k)
  {
    AllRanks(arrays, length);
  }

  lemma NothingMerged<T>(arrays: seq<seq<T>>)
    ensures Merged(arrays, [], 0, 0)
  {
    NothingTaken(arrays);
  }

  lemma {:induction false} NothingTaken<T>(arrays: seq<seq<T>>)
    ensures Below(arrays, 0) == 0 && Taken(arrays, 0) == multiset{}
  {
    if arrays != [] { NothingTaken(arrays[..|arrays| - 1]); }
  }

  lemma {:induction false} FirstOnly<T>(arrays: seq<seq<T>>, a: nat, k: nat)
    requires a < |arrays|
    ensures Longer(arrays[..|arrays| - 1], a, k) == Longer(arrays, a, k)
    ensures Rank(arrays[..|arrays| - 1], a, k) == Rank(arrays, a, k)
  {
    if a > 0 { FirstOnly(arrays, a - 1, k); }
  }

  lemma {:induction false} NextRank<T>(arrays: seq<seq<T>>, k: nat)
    ensures Below(arrays, k + 1) == Below(arrays, k) + Longer(arrays, |arrays|, k)
  {
    if arrays != [] {
      NextRank(arrays[..|arrays| - 1], k);
      FirstOnly(arrays, |arrays| - 1, k);
    }
  }

  lemma Shuffle<T>(a: multiset<T>, b: multiset<T>, c: multiset<T>, d: multiset<T>)
    ensures (a + b) + (c + d) == (a + c) + (b + d)
  {}

  lemma {:induction false} NextTaken<T>(arrays: seq<seq<T>>, k: nat)
    ensures Taken(arrays, k + 1) == Taken(arrays, k) + Rank(arrays, |arrays|, k)
  {
    if arrays != [] {
      var before, last := arrays[..|arrays| - 1], arrays[|arrays| - 1];
      NextTaken(before, k);
      FirstOnly(arrays, |arrays| - 1, k);
      Shuffle(Taken(before, k), Rank(before, |before|, k), Front(last, k), At(last, k));
    }
  }

  lemma {:induction false} FrontIsPrefix<T>(items: seq<T>, k: nat)
    requires k <= |items|
    ensures Front(items, k) == multiset(items[..k])
  {
    if k > 0 {
      FrontIsPrefix(items, k - 1);
      assert items[..k] == items[..k - 1] + [items[k - 1]];
    }
  }

  lemma {:induction false} FrontIsAll<T>(items: seq<T>, k: nat)
    requires |items| <= k
    ensures Front(items, k) == multiset(items)
  {
    if k == |items| {
      FrontIsPrefix(items, k);
      assert items[..k] == items;
    } else {
      FrontIsAll(items, k - 1);
      PlusNothing(Front(items, k - 1));
    }
  }

  lemma PlusNothing<T>(m: multiset<T>)
    ensures m + multiset{} == m
  {}

  lemma {:induction false} AllRanks<T>(arrays: seq<seq<T>>, k: nat)
    requires forall a :: 0 <= a < |arrays| ==> |arrays[a]| <= k
    ensures Below(arrays, k) == Total(arrays) && Taken(arrays, k) == Elements(arrays)
  {
    if arrays != [] {
      var last := arrays[|arrays| - 1];
      AllRanks(arrays[..|arrays| - 1], k);
      FrontIsAll(last, k);
    }
  }

  lemma {:induction false} LongerGrows<T>(arrays: seq<seq<T>>, a: nat, b: nat, k: nat)
    requires a <= b <= |arrays|
    ensures Longer(arrays, a, k) <= Longer(arrays, b, k)
    ensures a < b && |arrays[a]| > k ==> Longer(arrays, a, k) < Longer(arrays, b, k)
    decreases b - a
  {
    if a < b {
      LongerGrows(arrays, a, b - 1, k);
    }
  }

  lemma {:induction false} BelowGrows<T>(arrays: seq<seq<T>>, j: nat, k: nat)
    requires j <= k
    ensures Below(arrays, j) <= Below(arrays, k)
    decreases k - j
  {
    if j < k {
      BelowGrows(arrays, j, k - 1);
      NextRank(arrays, k - 1);
    }
  }

  /** Lower ranks come first, and within a rank the earlier arrays: so each array keeps its order, and no
      two elements share a place. */
  lemma PlacesInOrder<T>(arrays: seq<seq<T>>, a: nat, j: nat, b: nat, k: nat)
    requires a < |arrays| && j < |arrays[a]| && b < |arrays| && k < |arrays[b]|
    ensures Place(arrays, a, j) < Place(arrays, b, k) <==> j < k || (j == k && a < b)
    ensures Place(arrays, a, j) == Place(arrays, b, k) <==> j == k && a == b
  {
    if j < k {
      EarlierRank(arrays, a, j, b, k);
    } else if k < j {
      EarlierRank(arrays, b, k, a, j);
    } else if a < b {
      LongerGrows(arrays, a, b, k);
    } else {
      LongerGrows(arrays, b, a, k);
    }
  }

  lemma EarlierRank<T>(arrays: seq<seq<T>>, a: nat, j: nat, b: nat, k: nat)
    requires a < |arrays| && j < |arrays[a]| && b < |arrays| && j < k
    ensures Place(arrays, a, j) < Place(arrays, b, k)
  {
    LongerGrows(arrays, a, |arrays|, j);
    NextRank(arrays, j);
    BelowGrows(arrays, j + 1, k);
  }
}
