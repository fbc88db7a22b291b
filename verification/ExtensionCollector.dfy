/** The depth-first collection of extension packages, for an installation in which a dependency name always
    resolves to the same package. */
module ExtensionCollector {
  import opened Options

  type Name = string

  datatype Package = Package(
    version: string,
    isExtension: bool,
    dependencies: Option<seq<(Name, string)>>,
    peerDependencies: Option<seq<(Name, string)>>)

  /** What resolving a name and reading its package file finds, where that succeeds. */
  type Installed = map<Name, Package>

  datatype ExtensionPackage = ExtensionPackage(
    name: Name,
    versionRange: string,
    version: string,
    parent: Option<ExtensionPackage>,
    transitive: bool)

  function Entries(ranges: Option<seq<(Name, string)>>): seq<(Name, string)> {
    if ranges.Some? then ranges.value else []
  }

  predicate Lists(ranges: seq<(Name, string)>, name: Name) {
    exists i :: 0 <= i < |ranges| && ranges[i].0 == name
  }

  /** Dependencies first, then peer dependencies. */
  function AllEntries(p: Package): seq<(Name, string)> {
    Entries(p.dependencies) + Entries(p.peerDependencies)
  }

  predicate DependsOn(p: Package, name: Name) {
    Lists(AllEntries(p), name)
  }

  predicate IsExtension(installed: Installed, name: Name) {
    name in installed && installed[name].isExtension
  }

  /** An edge between packages that can be listed. */
  predicate Edge(installed: Installed, p: Name, d: Name) {
    p in installed && DependsOn(installed[p], d)
  }

  /** The names on a recorded parent chain. */
  function Chain(parent: Option<ExtensionPackage>): set<Name> {
    if parent == None then {} else {parent.value.name} + Chain(parent.value.parent)
  }

  predicate Offers(p: Package, name: Name, range: string) {
    exists i :: 0 <= i < |AllEntries(p)| && AllEntries(p)[i] == (name, range)
  }

  /** The version is that of the package's own file, the range that of an entry it was found through. */
  predicate Labelled(installed: Installed, root: Package, p: ExtensionPackage) {
    && p.name in installed && p.version == installed[p.name].version
    && if p.parent == None then Offers(root, p.name, p.versionRange)
       else p.parent.value.name in installed && Offers(installed[p.parent.value.name], p.name, p.versionRange)
  }

  /** Each package on the chain was found among the dependencies of the one above it, and the topmost
      among those of the root. */
  predicate Recorded(installed: Installed, root: Package, p: ExtensionPackage) {
    && IsExtension(installed, p.name)
    && (p.transitive <==> !Lists(Entries(root.dependencies), p.name))
    && p.name !in Chain(p.parent) && Labelled(installed, root, p)
    && if p.parent == None then DependsOn(root, p.name)
       else Edge(installed, p.parent.value.name, p.name) && Recorded(installed, root, p.parent.value)
  }

  predicate Listed(sorted: seq<ExtensionPackage>, name: Name) {
    exists i :: 0 <= i < |sorted| && sorted[i].name == name
  }

  /** The dependency is listed before the package, or is the package, or is on its parent chain. */
  predicate Before(sorted: seq<ExtensionPackage>, i: nat, d: Name)
    requires i < |sorted|
  {
    Listed(sorted[..i], d) || d == sorted[i].name || d in Chain(sorted[i].parent)
  }

  ghost predicate Settled(installed: Installed, sorted: seq<ExtensionPackage>, visited: set<Name>, i: nat)
    requires i < |sorted|
  {
    forall d :: Edge(installed, sorted[i].name, d) ==>
      d in visited && (IsExtension(installed, d) ==> Before(sorted, i, d))
  }

  /** What holds of the collector between any two of its steps. */
  ghost predicate Consistent(installed: Installed, root: Package, sorted: seq<ExtensionPackage>, visited: set<Name>,
                             parent: Option<ExtensionPackage>)
  {
    && (parent.Some? ==> Recorded(installed, root, parent.value))
    && (forall i :: 0 <= i < |sorted| ==> Recorded(installed, root, sorted[i]))
    && (forall i, j :: 0 <= i < j < |sorted| ==> sorted[i].name != sorted[j].name)
    && (forall n :: n in visited && IsExtension(installed, n) <==> Listed(sorted, n) || n in Chain(parent))
    && (forall i :: 0 <= i < |sorted| ==> sorted[i].name !in Chain(parent))
    && (forall i :: 0 <= i < |sorted| ==> Settled(installed, sorted, visited, i))
    && (root.dependencies == None ==> sorted == [] && parent == None)
  }

  /** Every name the collection can come across. */
  ghost function Universe(installed: Installed, root: Package): set<Name> {
    var inner := set n, i | n in installed && 0 <= i < |AllEntries(installed[n])| :: AllEntries(installed[n])[i].0;
    inner + set i | 0 <= i < |AllEntries(root)| :: AllEntries(root)[i].0
  }

  /** The package whose dependencies are being collected. */
  function Current(installed: Installed, root: Package, parent: Option<ExtensionPackage>): Package
    requires parent.Some? ==> parent.value.name in installed
  {
    if parent == None then root else installed[parent.value.name]
  }

  /** The root lists no dependencies, so the first extension package found cannot be looked up in them. */
  ghost predicate CannotCollect(installed: Installed, root: Package) {
    root.dependencies == None && exists n :: DependsOn(root, n) && IsExtension(installed, n)
  }

  function Topmost(p: ExtensionPackage): ExtensionPackage {
    if p.parent == None then p else Topmost(p.parent.value)
  }

  /** The packages listed from an index on were found through this entry: directly or further down when it
      is the root's, below the same topmost package otherwise. */
  ghost predicate FoundFrom(sorted: seq<ExtensionPackage>, start: nat, parent: Option<ExtensionPackage>, name: Name) {
    forall i :: start <= i < |sorted| ==>
      if parent == None then Topmost(sorted[i]).name == name
      else sorted[i].parent.Some? && Topmost(sorted[i]) == Topmost(parent.value)
  }

  predicate AmongFirst(root: Package, k: nat, name: Name) {
    exists j :: 0 <= j < k && j < |AllEntries(root)| && AllEntries(root)[j].0 == name
  }

  /** A path of extension packages from one of the first k entries of the root. */
  ghost predicate ReachesWithin(installed: Installed, root: Package, k: nat, path: seq<Name>) {
    && path != []
    && AmongFirst(root, k, path[0])
    && (forall i :: 0 <= i < |path| ==> IsExtension(installed, path[i]))
    && (forall i :: 0 <= i < |path| - 1 ==> Edge(installed, path[i], path[i + 1]))
  }

  /** The root lists the name in its k-th entry, and nothing listed before leads to it. */
  ghost predicate RootFindsFirst(installed: Installed, root: Package, k: nat, name: Name) {
    && k < |AllEntries(root)| && AllEntries(root)[k].0 == name
    && forall path :: ReachesWithin(installed, root, k, path) ==> path[|path| - 1] != name
  }

  /** After the first k entries of the root: what has been listed was found through one of them, and has no
      parent exactly when the root's own entry found it first. */
  ghost predicate InOrder(installed: Installed, root: Package, sorted: seq<ExtensionPackage>, k: nat) {
    forall i :: 0 <= i < |sorted| ==> Ordered(installed, root, sorted[i], k)
  }

  ghost predicate Ordered(installed: Installed, root: Package, p: ExtensionPackage, k: nat) {
    && AmongFirst(root, k, Topmost(p).name)
    && (p.parent == None <==> exists j :: RootFindsFirst(installed, root, j, p.name))
  }

  class ExtensionPackageCollector {
    const installed: Installed
    var root: Package
    var sorted: seq<ExtensionPackage>
    var visited: set<Name>
    var parent: Option<ExtensionPackage>

    constructor (installed: Installed, root: Package)
      ensures this.installed == installed && sorted == [] && visited == {} && parent == None
    {
      this.installed := installed;
      this.root := root;
      sorted, visited, parent := [], {}, None;
    }

    ghost predicate Valid()
      reads this
    {
      Consistent(installed, root, sorted, visited, parent) && visited <= Universe(installed, root)
    }

    /** Progress that keeps the invariant and the current parent. */
    twostate predicate Grown()
      reads this
    {
      && Valid() && root == old(root) && parent == old(parent)
      && old(visited) <= visited && old(sorted) <= sorted
    }

    /** Collects for a root; it throws exactly when the root lists no dependencies and a peer dependency
        of it is an extension package. */
    method Collect(pck: Package) returns (packages: Option<seq<ExtensionPackage>>)
      requires sorted == [] && visited == {} && parent == None
      modifies this
      ensures root == pck
      ensures packages == None <==> CannotCollect(installed, pck)
      ensures packages.Some? ==> packages.value == sorted && Finished(installed, pck, sorted, visited)
    {
      root := pck;
      var threw := CollectPackages(pck);
      if threw {
        return None;
      }
      packages := Some(sorted);
      assert forall n :: Listed(sorted, n) ==> sorted != [];
    }

    method CollectPackage(name: Name, versionRange: string) returns (threw: bool)
      requires Valid() && DependsOn(Current(installed, root, parent), name)
      requires Offers(Current(installed, root, parent), name, versionRange)
      modifies this`sorted, this`visited, this`parent
      ensures if threw then CannotCollect(installed, root)
              else Grown() && name in visited && FoundFrom(sorted, old(|sorted|), parent, name)
      decreases Universe(installed, root) - visited, 0
    {
      if name in visited {
        return false;
      }
      InUniverse(installed, root, parent, name);
      visited := visited + {name};
      assert Universe(installed, root) - visited < Universe(installed, root) - old(visited);
      if name !in installed {
        Pass(installed, root, sorted, old(visited), parent, name);
        return false;
      }
      var pck := installed[name];
      if pck.isExtension {
        if root.dependencies == None {
          return true;
        }
        var transitive := !Lists(root.dependencies.value, name);
        var extensionPackage := ExtensionPackage(name, versionRange, pck.version, parent, transitive);
        Enter(installed, root, sorted, old(visited), parent, extensionPackage);
        threw := CollectPackagesWithParent(pck, extensionPackage);
        if threw {
          return;
        }
        Leave(installed, root, sorted, visited, extensionPackage);
        FoundBelow(sorted, old(|sorted|), extensionPackage);
        sorted := sorted + [extensionPackage];
      } else {
        Pass(installed, root, sorted, old(visited), parent, name);
        threw := false;
      }
    }

    method CollectPackagesWithParent(pck: Package, parent: ExtensionPackage) returns (threw: bool)
      requires Consistent(installed, root, sorted, visited, Some(parent)) && visited <= Universe(installed, root)
      requires pck == installed[parent.name]
      modifies this`sorted, this`visited, this`parent
      ensures if threw then CannotCollect(installed, root)
              else
                && Consistent(installed, root, sorted, visited, Some(parent)) && visited <= Universe(installed, root)
                && this.parent == old(this.parent) && old(visited) <= visited && old(sorted) <= sorted
                && (forall d :: DependsOn(pck, d) ==> d in visited)
                && FoundFrom(sorted, old(|sorted|), Some(parent), parent.name)
      decreases Universe(installed, root) - visited, 2
    {
      var current := this.parent;
      this.parent := Some(parent);
      threw := CollectPackages(pck);
      this.parent := current;
    }

    /** For the root itself, the list ends in the order of its entries. */
    method CollectPackages(pck: Package) returns (threw: bool)
      requires Valid() && pck == Current(installed, root, parent)
      requires parent == None ==> sorted == []
      modifies this`sorted, this`visited, this`parent
      ensures if threw then CannotCollect(installed, root)
              else Grown() && forall d :: DependsOn(pck, d) ==> d in visited
      ensures !threw && parent.Some? ==> FoundFrom(sorted, old(|sorted|), parent, parent.value.name)
      ensures !threw && parent == None ==> InOrder(installed, root, sorted, |AllEntries(root)|)
      decreases Universe(installed, root) - visited, 1
    {
      var entries := AllEntries(pck);
      for i := 0 to |entries|
        invariant Grown()
        invariant forall k :: 0 <= k < i ==> entries[k].0 in visited
        invariant parent.Some? ==> FoundFrom(sorted, old(|sorted|), parent, parent.value.name)
        invariant parent == None ==> InOrder(installed, root, sorted, i)
      {
        assert entries[i] == AllEntries(pck)[i] && entries[i] == (entries[i].0, entries[i].1);
        ghost var before, seen := sorted, visited;
        threw := CollectPackage(entries[i].0, entries[i].1);
        if threw {
          return;
        }
        if parent == None { EntryKeepsOrder(installed, root, before, seen, sorted, visited, i); }
      }
      threw := false;
    }
  }

  lemma FoundBelow(sorted: seq<ExtensionPackage>, start: nat, p: ExtensionPackage)
    requires start <= |sorted| && FoundFrom(sorted, start, Some(p), p.name)
    ensures FoundFrom(sorted + [p], start, p.parent, p.name)
  {}

  lemma InUniverse(installed: Installed, root: Package, parent: Option<ExtensionPackage>, name: Name)
    requires parent.Some? ==> parent.value.name in installed
    requires DependsOn(Current(installed, root, parent), name)
    ensures name in Universe(installed, root)
  {}

  /** A name that is not an extension package, or cannot be resolved, only becomes visited. */
  lemma Pass(installed: Installed, root: Package, sorted: seq<ExtensionPackage>, visited: set<Name>,
             parent: Option<ExtensionPackage>, name: Name)
    requires Consistent(installed, root, sorted, visited, parent) && !IsExtension(installed, name)
    ensures Consistent(installed, root, sorted, visited + {name}, parent)
  {
    forall i | 0 <= i < |sorted|
      ensures Settled(installed, sorted, visited + {name}, i)
    {
      assert Settled(installed, sorted, visited, i);
    }
  }

  /** An extension package becomes the parent before its dependencies are collected, */
  lemma Enter(installed: Installed, root: Package, sorted: seq<ExtensionPackage>, visited: set<Name>,
              parent: Option<ExtensionPackage>, p: ExtensionPackage)
    requires Consistent(installed, root, sorted, visited, parent) && p.name !in visited
    requires IsExtension(installed, p.name) && p.parent == parent && root.dependencies.Some?
    requires DependsOn(Current(installed, root, parent), p.name)
    requires p.transitive <==> !Lists(Entries(root.dependencies), p.name)
    requires Labelled(installed, root, p)
    ensures Consistent(installed, root, sorted, visited + {p.name}, Some(p))
  {
    forall i | 0 <= i < |sorted|
      ensures Settled(installed, sorted, visited + {p.name}, i) && sorted[i].name != p.name
    {
      assert Settled(installed, sorted, visited, i);
      assert Listed(sorted, sorted[i].name);
    }
  }

  lemma ListedMore(sorted: seq<ExtensionPackage>, p: ExtensionPackage, n: Name)
    ensures Listed(sorted + [p], n) <==> Listed(sorted, n) || n == p.name
  {
    if Listed(sorted, n) {
      var i :| 0 <= i < |sorted| && sorted[i].name == n;
      assert (sorted + [p])[i].name == n;
    }
    assert (sorted + [p])[|sorted|].name == p.name;
  }

  lemma SettledMore(installed: Installed, sorted: seq<ExtensionPackage>, visited: set<Name>, p: ExtensionPackage,
                    i: nat)
    requires i < |sorted| && Settled(installed, sorted, visited, i)
    ensures Settled(installed, sorted + [p], visited, i)
  {
    assert (sorted + [p])[..i] == sorted[..i];
  }

  lemma LastSettled(installed: Installed, root: Package, sorted: seq<ExtensionPackage>, visited: set<Name>,
                    p: ExtensionPackage)
    requires Consistent(installed, root, sorted, visited, Some(p))
    requires forall d :: DependsOn(installed[p.name], d) ==> d in visited
    ensures Settled(installed, sorted + [p], visited, |sorted|)
  {
    assert (sorted + [p])[..|sorted|] == sorted;
  }

  /** and is listed after them. */
  lemma Leave(installed: Installed, root: Package, sorted: seq<ExtensionPackage>, visited: set<Name>,
              p: ExtensionPackage)
    requires Consistent(installed, root, sorted, visited, Some(p))
    requires forall d :: DependsOn(installed[p.name], d) ==> d in visited
    ensures Consistent(installed, root, sorted + [p], visited, p.parent)
  {
    forall n ensures Listed(sorted + [p], n) <==> Listed(sorted, n) || n == p.name {
      ListedMore(sorted, p, n);
    }
    forall i | 0 <= i <= |sorted| ensures Settled(installed, sorted + [p], visited, i) {
      if i < |sorted| {
        SettledMore(installed, sorted, visited, p, i);
      } else {
        LastSettled(installed, root, sorted, visited, p);
      }
    }
  }

  /** A path of extension packages from a dependency of the root. */
  ghost predicate Reaches(installed: Installed, root: Package, path: seq<Name>) {
    ReachesWithin(installed, root, |AllEntries(root)|, path)
  }

  function PathTo(p: ExtensionPackage): seq<Name> {
    (if p.parent == None then [] else PathTo(p.parent.value)) + [p.name]
  }

  lemma {:induction false} RecordedIsReached(installed: Installed, root: Package, p: ExtensionPackage, k: nat)
    requires Recorded(installed, root, p)
    requires AmongFirst(root, k, Topmost(p).name)
    ensures ReachesWithin(installed, root, k, PathTo(p)) && PathTo(p)[|PathTo(p)| - 1] == p.name
  {
    if p.parent.Some? { RecordedIsReached(installed, root, p.parent.value, k); }
  }

  /** The root has been followed through its first k entries. */
  ghost predicate Followed(installed: Installed, root: Package, sorted: seq<ExtensionPackage>, visited: set<Name>,
                           k: nat) {
    && Consistent(installed, root, sorted, visited, None)
    && forall j :: 0 <= j < k && j < |AllEntries(root)| ==> AllEntries(root)[j].0 in visited
  }

  /** A finished collection: no parent left, and all the root's entries followed in order. */
  ghost predicate Finished(installed: Installed, root: Package, sorted: seq<ExtensionPackage>, visited: set<Name>) {
    Followed(installed, root, sorted, visited, |AllEntries(root)|)
        && InOrder(installed, root, sorted, |AllEntries(root)|)
  }

  lemma PathPrefix(installed: Installed, root: Package, k: nat, path: seq<Name>)
    requires ReachesWithin(installed, root, k, path) && |path| > 1
    ensures ReachesWithin(installed, root, k, path[..|path| - 1])
    ensures Edge(installed, path[|path| - 2], path[|path| - 1])
  {
    var before := path[..|path| - 1];
    forall i | 0 <= i < |before| - 1 ensures Edge(installed, before[i], before[i + 1]) {
      assert Edge(installed, path[i], path[i + 1]);
    }
    assert Edge(installed, path[|path| - 2], path[|path| - 2 + 1]);
  }

  lemma DependencyListed(installed: Installed, root: Package, sorted: seq<ExtensionPackage>, visited: set<Name>,
                         p: Name, d: Name)
    requires Consistent(installed, root, sorted, visited, None)
    requires Listed(sorted, p) && Edge(installed, p, d) && IsExtension(installed, d)
    ensures Listed(sorted, d)
  {
    var i :| 0 <= i < |sorted| && sorted[i].name == p;
    assert Settled(installed, sorted, visited, i);
  }

  lemma {:induction false} ReachedIsListed(installed: Installed, root: Package, sorted: seq<ExtensionPackage>,
                                           visited: set<Name>,
                                           k: nat, path: seq<Name>)
    requires Followed(installed, root, sorted, visited, k) && ReachesWithin(installed, root, k, path)
    ensures Listed(sorted, path[|path| - 1])
  {
    if |path| > 1 {
      PathPrefix(installed, root, k, path);
      ReachedIsListed(installed, root, sorted, visited, k, path[..|path| - 1]);
      DependencyListed(installed, root, sorted, visited, path[|path| - 2], path[|path| - 1]);
    } else {
      assert path[0] in visited;
    }
  }

  /** The list holds exactly the extension packages reachable from the root through extension packages. */
  lemma ListsReachable(installed: Installed, root: Package, sorted: seq<ExtensionPackage>, visited: set<Name>,
                       name: Name)
    requires Finished(installed, root, sorted, visited)
    ensures Listed(sorted, name) <==> exists path :: Reaches(installed, root, path) && path[|path| - 1] == name
  {
    if Listed(sorted, name) {
      var i :| 0 <= i < |sorted| && sorted[i].name == name;
      assert Ordered(installed, root, sorted[i], |AllEntries(root)|);
      RecordedIsReached(installed, root, sorted[i], |AllEntries(root)|);
    }
    if path :| Reaches(installed, root, path) && path[|path| - 1] == name {
      ReachedIsListed(installed, root, sorted, visited, |AllEntries(root)|, path);
    }
  }

  /** A package found by the root's k-th entry: it is the entry's own, which nothing before leads to, or it
      has a parent, and something listed before any entry of its own leads to it. */
  lemma NewIsOrdered(installed: Installed, root: Package, before: seq<ExtensionPackage>, seen: set<Name>, k: nat,
                     p: ExtensionPackage)
    requires k < |AllEntries(root)| && Followed(installed, root, before, seen, k)
    requires Recorded(installed, root, p) && !Listed(before, p.name) && Topmost(p).name == AllEntries(root)[k].0
    ensures Ordered(installed, root, p, k + 1)
  {
    if p.parent == None {
      NewIsFirst(installed, root, before, seen, k, p.name);
      assert RootFindsFirst(installed, root, k, p.name);
    } else {
      forall j: nat ensures !RootFindsFirst(installed, root, j, p.name) {
        FurtherDown(installed, root, before, seen, k, p, j);
      }
    }
  }

  lemma NewIsFirst(installed: Installed, root: Package, before: seq<ExtensionPackage>, seen: set<Name>, k: nat,
                   name: Name)
    requires k < |AllEntries(root)| && Followed(installed, root, before, seen, k)
    requires !Listed(before, name) && name == AllEntries(root)[k].0
    ensures RootFindsFirst(installed, root, k, name)
  {
    forall path | ReachesWithin(installed, root, k, path) ensures path[|path| - 1] != name {
      ReachedIsListed(installed, root, before, seen, k, path);
    }
  }

  lemma FurtherDown(installed: Installed, root: Package, before: seq<ExtensionPackage>, seen: set<Name>, k: nat,
                    p: ExtensionPackage, j: nat)
    requires k < |AllEntries(root)| && Followed(installed, root, before, seen, k)
    requires Recorded(installed, root, p) && !Listed(before, p.name) && Topmost(p).name == AllEntries(root)[k].0
    requires p.parent.Some?
    ensures !RootFindsFirst(installed, root, j, p.name)
  {
    TopmostInChain(p.parent.value);
    if j > k {
      RecordedIsReached(installed, root, p, j);
    } else if j < k && AllEntries(root)[j].0 == p.name {
      ReachedIsListed(installed, root, before, seen, k, [p.name]);
      assert false;
    }
  }

  lemma {:induction false} TopmostInChain(p: ExtensionPackage)
    ensures Topmost(p).name in Chain(Some(p))
  {
    if p.parent.Some? { TopmostInChain(p.parent.value); }
  }

  lemma EntryKeepsOrder(installed: Installed, root: Package, before: seq<ExtensionPackage>, seen: set<Name>,
                        sorted: seq<ExtensionPackage>, visited: set<Name>, k: nat)
    requires k < |AllEntries(root)| && Followed(installed, root, before, seen, k) && InOrder(installed, root, before, k)
    requires Consistent(installed, root, sorted, visited, None) && before <= sorted
    requires FoundFrom(sorted, |before|, None, AllEntries(root)[k].0)
    ensures InOrder(installed, root, sorted, k + 1)
  {
    forall i | 0 <= i < |sorted| ensures Ordered(installed, root, sorted[i], k + 1) {
      if i < |before| {
        assert before[i] == sorted[i] && Ordered(installed, root, before[i], k);
      } else {
        NewIsOrdered(installed, root, before, seen, k, sorted[i]);
      }
    }
  }

  /** A listed package carries the version of its file, and the range of an entry of its parent or the root. */
  lemma ListedAsFound(installed: Installed, root: Package, sorted: seq<ExtensionPackage>, visited: set<Name>, i: nat)
    requires Finished(installed, root, sorted, visited) && i < |sorted|
    ensures var p := sorted[i];
      && p.name in installed && installed[p.name].isExtension && p.version == installed[p.name].version
      && (p.transitive <==> !Lists(Entries(root.dependencies), p.name))
      && if p.parent == None then (p.name, p.versionRange) in AllEntries(root)
         else p.parent.value.name in installed && (p.name, p.versionRange) in AllEntries(installed[p.parent.value.name])
  {
    assert Recorded(installed, root, sorted[i]);
  }

  // ---------------------------------------------------------------- order

  /** No package is listed twice, and a dependency listed after its dependent is on its parent chain. */
  lemma EveryEdge(installed: Installed, root: Package, sorted: seq<ExtensionPackage>, visited: set<Name>, i: nat,
                  j: nat)
    requires Consistent(installed, root, sorted, visited, None) && i < |sorted| && j < |sorted|
    ensures sorted[i].name == sorted[j].name ==> i == j
    ensures Edge(installed, sorted[i].name, sorted[j].name) ==> j <= i || sorted[j].name in Chain(sorted[i].parent)
  {
    assert Settled(installed, sorted, visited, i);
    if Edge(installed, sorted[i].name, sorted[j].name) && Listed(sorted[..i], sorted[j].name) {
      var k :| 0 <= k < i && sorted[k].name == sorted[j].name;
    }
  }

  /** A cycle of extension packages: a path of edges among them that comes back to its start. */
  ghost predicate Cycle(installed: Installed, path: seq<Name>) {
    && |path| > 1 && path[0] == path[|path| - 1]
    && (forall i :: 0 <= i < |path| ==> IsExtension(installed, path[i]))
    && forall i :: 0 <= i < |path| - 1 ==> Edge(installed, path[i], path[i + 1])
  }

  /** From a package on the parent chain, edges lead down to the package itself. */
  lemma {:induction false} ChainLeadsDown(installed: Installed, root: Package, p: ExtensionPackage, ancestor: Name)
    returns (path: seq<Name>)
    requires Recorded(installed, root, p) && ancestor in Chain(Some(p))
    ensures path != [] && path[0] == ancestor && path[|path| - 1] == p.name
    ensures forall i :: 0 <= i < |path| ==> IsExtension(installed, path[i])
    ensures forall i :: 0 <= i < |path| - 1 ==> Edge(installed, path[i], path[i + 1])
  {
    if ancestor == p.name {
      path := [ancestor];
    } else {
      var above := ChainLeadsDown(installed, root, p.parent.value, ancestor);
      path := above + [p.name];
      forall i | 0 <= i < |path| - 1
        ensures Edge(installed, path[i], path[i + 1])
      {
        if i < |above| - 1 { assert Edge(installed, above[i], above[i + 1]); }
      }
    }
  }

  /** A dependency that is not listed before its dependent closes a cycle of extension packages. */
  lemma LateDependencyCloses(installed: Installed, root: Package, sorted: seq<ExtensionPackage>, visited: set<Name>,
                             i: nat, j: nat)
    returns (cycle: seq<Name>)
    requires Consistent(installed, root, sorted, visited, None)
    requires i <= j < |sorted| && Edge(installed, sorted[i].name, sorted[j].name)
    ensures Cycle(installed, cycle) && cycle[0] == sorted[j].name && sorted[i].name in cycle
  {
    var p, d := sorted[i], sorted[j].name;
    EveryEdge(installed, root, sorted, visited, i, j);
    var down := ChainLeadsDown(installed, root, p, d);
    cycle := down + [d];
    forall k | 0 <= k < |cycle| - 1
      ensures Edge(installed, cycle[k], cycle[k + 1])
    {
      if k < |down| - 1 { assert Edge(installed, down[k], down[k + 1]); }
    }
    assert cycle[|down| - 1] == p.name;
  }

  /** Without cycles of extension packages every listed package comes after all its listed dependencies. */
  lemma AcyclicIsTopological(installed: Installed, root: Package, sorted: seq<ExtensionPackage>, visited: set<Name>,
                             i: nat, j: nat)
    requires Consistent(installed, root, sorted, visited, None)
    requires forall path :: !Cycle(installed, path)
    requires i < |sorted| && j < |sorted| && Edge(installed, sorted[i].name, sorted[j].name)
    ensures j < i
  {
    if i <= j {
      var cycle := LateDependencyCloses(installed, root, sorted, visited, i, j);
      assert false;
    }
  }

  // ---------------------------------------------------------------- the dependent of a package

  datatype Dependent = Undefined | Named(name: Name) | TypeError

  function DependentOf(p: ExtensionPackage): Dependent {
    if !p.transitive then Undefined else if p.parent == None then TypeError else Named(Topmost(p.parent.value).name)
  }

  /** The getter `dependent`; it reads the parent of a parent that may not be there. */
  method GetDependent(p: ExtensionPackage) returns (dependent: Dependent)
    ensures dependent == DependentOf(p)
  {
    if !p.transitive {
      return Undefined;
    }
    if p.parent == None {
      return TypeError;
    }
    var current := p.parent.value;
    var parent := current.parent;
    while parent != None
      invariant parent == current.parent && Topmost(current) == Topmost(p.parent.value)
      decreases current
    {
      current := parent.value;
      parent := current.parent;
    }
    dependent := Named(current.name);
  }

  lemma {:induction false} TopmostIsDirect(installed: Installed, root: Package, p: ExtensionPackage)
    requires Recorded(installed, root, p)
    ensures DependsOn(root, Topmost(p).name) && IsExtension(installed, Topmost(p).name)
  {
    if p.parent.Some? { TopmostIsDirect(installed, root, p.parent.value); }
  }

  /** For a listed package, `dependent` names a direct dependency or peer dependency of the root unless the
      package is among the root's dependencies; but it throws, exactly when the root lists the package only
      as a peer dependency and no path of extension packages from an entry before leads to it. */
  lemma {:induction false} DependentIsDirect(installed: Installed, root: Package, sorted: seq<ExtensionPackage>,
                                             visited: set<Name>, i: nat)
    requires Finished(installed, root, sorted, visited) && i < |sorted|
    ensures var p := sorted[i];
      match DependentOf(p)
      case Undefined => Lists(Entries(root.dependencies), p.name)
      case Named(name) => DependsOn(root, name) && !Lists(Entries(root.dependencies), p.name)
      case TypeError => true
    ensures DependentOf(sorted[i]) == TypeError <==>
              && !Lists(Entries(root.dependencies), sorted[i].name)
              && exists k :: RootFindsFirst(installed, root, k, sorted[i].name)
  {
    var p := sorted[i];
    assert Recorded(installed, root, p) && Ordered(installed, root, p, |AllEntries(root)|);
    if p.parent.Some? { TopmostIsDirect(installed, root, p.parent.value); }
  }

  // ---------------------------------------------------------------- inputs on which it throws

  const LEAF := Package("1.0.0", true, None, None)

  /** A root with nothing but one extension package among its peer dependencies. */
  lemma CollectCanThrow()
    ensures CannotCollect(map["a" := LEAF], Package("1.0.0", false, None, Some([("a", "*")])))
  {
    var root := Package("1.0.0", false, None, Some([("a", "*")]));
    assert AllEntries(root) == [("a", "*")] && AllEntries(root)[0].0 == "a";
    assert DependsOn(root, "a") && IsExtension(map["a" := LEAF], "a");
  }

  /** With an empty list of dependencies beside it, the package is listed and its `dependent` throws. */
  lemma DependentCanThrow()
    ensures exists installed, root, sorted, visited ::
              Finished(installed, root, sorted, visited) && |sorted| == 1 && DependentOf(sorted[0]) == TypeError
  {
    var installed, root := map["a" := LEAF], Package("1.0.0", false, Some([]), Some([("a", "*")]));
    var p := ExtensionPackage("a", "*", "1.0.0", None, true);
    assert AllEntries(root) == [("a", "*")] && AllEntries(LEAF) == [];
    OnlyEntry(installed, root, p);
  }

  lemma OnlyEntry(installed: Installed, root: Package, p: ExtensionPackage)
    requires installed == map["a" := LEAF] && AllEntries(root) == [("a", "*")] && AllEntries(LEAF) == []
    requires root.dependencies == Some([])
    requires p == ExtensionPackage("a", "*", "1.0.0", None, true)
    ensures Finished(installed, root, [p], {"a"})
  {
    assert RootFindsFirst(installed, root, 0, "a") by {
      assert forall path :: !ReachesWithin(installed, root, 0, path);
    }
    assert AllEntries(root)[0] == ("a", "*") && Labelled(installed, root, p);
    assert Lists(AllEntries(root), "a");
    assert Listed([p], "a");
    assert Settled(installed, [p], {"a"}, 0);
    assert Ordered(installed, root, p, 1) by { assert AllEntries(root)[0].0 == "a"; }
  }

  /** A peer dependency that a dependency leads to first has a dependent. */
  lemma LeadsToPeerFirst()
    ensures forall k :: !RootFindsFirst(map["a" := LEAF.(dependencies := Some([("b", "*")])), "b" := LEAF],
                                        Package("1.0.0", false, Some([("a", "*")]), Some([("b", "*")])), k, "b")
  {
    var installed: Installed := map["a" := LEAF.(dependencies := Some([("b", "*")])), "b" := LEAF];
    var root := Package("1.0.0", false, Some([("a", "*")]), Some([("b", "*")]));
    assert AllEntries(root) == [("a", "*"), ("b", "*")] && AllEntries(installed["a"])[0].0 == "b";
    assert Edge(installed, "a", "b");
    var path := ["a", "b"];
    assert AllEntries(root)[0].0 == path[0] && AmongFirst(root, 1, path[0]);
    assert forall i :: 0 <= i < |path| ==> path[i] == "a" || path[i] == "b";
    assert ReachesWithin(installed, root, 1, path);
  }
}
