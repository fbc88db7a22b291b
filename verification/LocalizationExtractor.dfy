/** Gathering localized texts, one key at a time, into a tree. */
module LocalizationExtractor {
  import opened Options
  import opened Localization
  import opened Text

  datatype InsertError =
    | KeysExist(key: string)
    | TextExists(at: string)

  function Split(s: string): (parts: seq<string>)
    ensures parts != []
  {
    if s == "" then [""]
    else
      var rest := Split(s[1..]);
      if s[0] == '/' then [""] + rest else [[s[0]] + rest[0]] + rest[1..]
  }

  lemma {:induction false} SplitJoins(s: string)
    ensures Join(Split(s), "/") == s
  {
    if s != "" {
      SplitJoins(s[1..]);
      var rest := Split(s[1..]);
      if s[0] == '/' {
        assert ([""] + rest)[1..] == rest;
      } else {
        assert ([[s[0]] + rest[0]] + rest[1..])[1..] == rest[1..];
      }
    }
  }

  ghost function PathOf(parts: seq<string>): Path {
    if parts == [] then Root else Sub(PathOf(parts[..|parts| - 1]), parts[|parts| - 1])
  }

  ghost function KeyPath(key: string): Path {
    PathOf(Split(key))
  }

  /** What stops an insert, looking along its path from the n-th part on. */
  ghost function Refusal(v: View, parts: seq<string>, n: nat): Option<InsertError>
    requires 0 < n <= |parts|
    decreases |parts| - n
  {
    var c := PathOf(parts[..n]);
    if n == |parts| then if c in v && v[c] == Folder then Some(KeysExist(Join(parts, "/"))) else None
    else if c in v && v[c].Leaf? then Some(TextExists(Join(parts[..n], "/")))
    else Refusal(v, parts, n + 1)
  }

  /** The tree with a path made of folders. */
  ghost function Opened(v: View, c: Path): View {
    imap q | q in v || Under(q, c) :: if Under(q, c) then Folder else v[q]
  }

  ghost function Inserted(v: View, c: Path, text: string): View {
    Opened(v, c)[c := Leaf(text)]
  }

  ghost function Error(v: View, key: string): Option<InsertError> {
    Refusal(v, Split(key), 1)
  }

  ghost function Step(v: View, key: string, text: string): View {
    if Error(v, key) != None then v else Inserted(v, KeyPath(key), text)
  }

  lemma PathStep(parts: seq<string>, n: nat)
    requires n < |parts|
    ensures PathOf(parts[..n + 1]) == Sub(PathOf(parts[..n]), parts[n])
  {
    assert parts[..n + 1][..n] == parts[..n];
  }

  lemma OpenedRoot(v: View)
    requires IsTree(v) && v[Root] == Folder
    ensures Opened(v, Root) == v
  {}

  lemma OpenedSame(v: View, c: Path, k: string)
    ensures Sub(c, k) in Opened(v, c) <==> Sub(c, k) in v
    ensures Sub(c, k) in v ==> Opened(v, c)[Sub(c, k)] == v[Sub(c, k)]
  {
    NotUnder(c, k);
  }

  lemma OpenedFurther(v: View, c: Path, k: string)
    requires IsTree(v)
    ensures Sub(c, k) !in v ==> Opened(v, Sub(c, k)) == Put(Opened(v, c), Sub(c, k), Folder)
    ensures Sub(c, k) in v && v[Sub(c, k)] == Folder ==> Opened(v, Sub(c, k)) == Opened(v, c)
    ensures Sub(c, k) in v ==> Opened(v, c) == v
  {
    NotUnder(c, k);
    if Sub(c, k) !in v {
      NothingBelow(v, Sub(c, k));
      forall q | Under(q, c) ensures !Under(Sub(c, k), q) { NoneBetween(c, k, q); }
      assert Opened(v, Sub(c, k)) == Put(Opened(v, c), Sub(c, k), Folder);
    } else {
      FoldersAbove(v, Sub(c, k));
      assert Opened(v, c) == v;
      if v[Sub(c, k)] == Folder { assert Opened(v, Sub(c, k)) == v; }
    }
  }

  lemma NoneBetween(c: Path, k: string, q: Path)
    requires Under(q, c)
    ensures !Under(Sub(c, k), q)
  {
    NotUnder(c, k);
    if Under(Sub(c, k), q) { UnderUnder(Sub(c, k), q, c); }
  }

  lemma InsertedLast(v: View, c: Path, k: string, text: string)
    requires IsTree(v) && (Sub(c, k) !in v || v[Sub(c, k)].Leaf?)
    ensures Inserted(v, Sub(c, k), text) == Put(Opened(v, c), Sub(c, k), Leaf(text))
  {
    NothingBelow(v, Sub(c, k));
    forall q | Under(q, c) ensures !Under(Sub(c, k), q) { NoneBetween(c, k, q); }
    assert Inserted(v, Sub(c, k), text) == Put(Opened(v, c), Sub(c, k), Leaf(text));
  }

  /** What one insert does to the tree and reports. */
  ghost predicate Inserts(v: View, value: (string, string), w: View, error: Option<InsertError>) {
    w == Step(v, value.0, value.1) && error == Error(v, value.0)
  }

  /** An insert that has opened the first n parts of its path. */
  ghost predicate Walking(v: View, key: string, n: nat, w: View)
    requires n < |Split(key)|
  {
    IsTree(v) && w == Opened(v, PathOf(Split(key)[..n])) && Refusal(v, Split(key), n + 1) == Error(v, key)
  }

  lemma WalkStarts(v: View, key: string)
    requires IsTree(v) && v[Root] == Folder
    ensures Walking(v, key, 0, v)
  {
    OpenedRoot(v);
  }

  lemma WalkGoesOn(v: View, key: string, n: nat, w: View)
    requires n + 1 < |Split(key)| && Walking(v, key, n, w)
    ensures var next := Sub(PathOf(Split(key)[..n]), Split(key)[n]);
      && PathOf(Split(key)[..n + 1]) == next
      && (next !in w ==> Walking(v, key, n + 1, Put(w, next, Folder)))
      && (next in w && w[next] == Folder ==> Walking(v, key, n + 1, w))
      && (next in w && w[next].Leaf? ==>
            forall text :: Inserts(v, (key, text), w, Some(TextExists(Join(Split(key)[..n + 1], "/")))))
  {
    PathStep(Split(key), n);
    OpenedSame(v, PathOf(Split(key)[..n]), Split(key)[n]);
    OpenedFurther(v, PathOf(Split(key)[..n]), Split(key)[n]);
  }

  lemma WalkEnds(v: View, key: string, w: View, text: string)
    requires Walking(v, key, |Split(key)| - 1, w)
    ensures var n := |Split(key)| - 1;
      var last := Sub(PathOf(Split(key)[..n]), Split(key)[n]);
      if last in w && w[last] == Folder then Inserts(v, (key, text), w, Some(KeysExist(key)))
      else Inserts(v, (key, text), Put(w, last, Leaf(text)), None)
  {
    var parts, n := Split(key), |Split(key)| - 1;
    PathStep(parts, n);
    assert parts[..n + 1] == parts;
    SplitJoins(key);
    OpenedSame(v, PathOf(parts[..n]), parts[n]);
    if Sub(PathOf(parts[..n]), parts[n]) in w && w[Sub(PathOf(parts[..n]), parts[n])] == Folder {
      OpenedFurther(v, PathOf(parts[..n]), parts[n]);
    } else {
      InsertedLast(v, PathOf(parts[..n]), parts[n], text);
    }
  }

  /** Inserts a text, or refuses and leaves the tree as it was. */
  method Insert(root: Localization, key: string, value: string, ghost at: Places)
    returns (error: Option<InsertError>, ghost at': Places)
    requires Placed(at) && at[Root] == root
    modifies at.Values
    ensures Placed(at') && at'[Root] == root
    ensures fresh(at'.Values - at.Values)
    ensures Inserts(old(ViewOf(at)), (key, value), ViewOf(at'), error)
  {
    var parts := Split(key);
    ghost var v, path := ViewOf(at), Root;
    PlacedIsTree(at);
    WalkStarts(v, key);
    var localization := root;
    at' := at;
    var last := |parts| - 1;
    for i := 0 to last
      invariant Placed(at') && at'[Root] == root && fresh(at'.Values - at.Values)
      invariant path in at' && at'[path] == localization && path == PathOf(parts[..i])
      invariant Walking(v, key, i, ViewOf(at'))
    {
      var part := parts[i];
      SeenFrom(at', path, part);
      WalkGoesOn(v, key, i, ViewOf(at'));
      if part in localization.entries && localization.entries[part].Text? {
        return Some(TextExists(Join(parts[..i + 1], "/"))), at';
      }
      if part !in localization.entries {
        localization, at' := localization.Create(part, at', path);
      } else {
        localization := localization.entries[part].child;
      }
      path := Sub(path, part);
    }
    SeenFrom(at', path, parts[last]);
    WalkEnds(v, key, ViewOf(at'), value);
    if parts[last] in localization.entries && localization.entries[parts[last]].Child? {
      return Some(KeysExist(key)), at';
    }
    at' := localization.Write(parts[last], value, at', path);
    error := None;
  }

  /** The tree after the first n inserts. */
  ghost function Run(v: View, values: seq<(string, string)>, n: nat): View
    requires n <= |values|
  {
    if n == 0 then v else Step(Run(v, values, n - 1), values[n - 1].0, values[n - 1].1)
  }

  /** The trees between the inserts, and what each insert reports. */
  ghost predicate Traced(values: seq<(string, string)>, views: seq<View>, errors: seq<Option<InsertError>>, n: nat) {
    && |views| == n + 1 && |errors| == n <= |values|
    && forall i :: 0 <= i < n ==> Inserts(views[i], values[i], views[i + 1], errors[i])
  }

  lemma {:induction false} TraceIsRun(values: seq<(string, string)>, views: seq<View>,
                                      errors: seq<Option<InsertError>>, n: nat)
    requires |views| == |errors| + 1 && n <= |errors| && Traced(values, views, errors, |errors|)
    ensures views[n] == Run(views[0], values, n)
  {
    if n > 0 {
      TraceIsRun(values, views, errors, n - 1);
      TraceStep(values, views, errors, n - 1);
    }
  }

  lemma TraceStep(values: seq<(string, string)>, views: seq<View>, errors: seq<Option<InsertError>>, i: nat)
    requires |views| == |errors| + 1 && i < |errors| && Traced(values, views, errors, |errors|)
    ensures views[i + 1] == Step(views[i], values[i].0, values[i].1)
    ensures errors[i] == Error(views[i], values[i].0)
  {
    assert Inserts(views[i], values[i], views[i + 1], errors[i]);
  }

  /** The first n values have been inserted, one after another, into the tree that was v. */
  ghost predicate InsertedSome(values: seq<(string, string)>, v: View, n: nat, at: Places,
                               views: seq<View>, errors: seq<Option<InsertError>>)
    reads at.Values
  {
    Traced(values, views, errors, n) && views[0] == v && views[n] == ViewOf(at)
  }

  lemma TraceMore(values: seq<(string, string)>, views: seq<View>, errors: seq<Option<InsertError>>, n: nat,
                  w: View, error: Option<InsertError>)
    requires Traced(values, views, errors, n) && n < |values| && Inserts(views[n], values[n], w, error)
    ensures Traced(values, views + [w], errors + [error], n + 1)
    ensures (views + [w])[0] == views[0] && (views + [w])[n + 1] == w
  {}

  method InsertNext(root: Localization, values: seq<(string, string)>, n: nat, errors: seq<Option<InsertError>>,
                    ghost v: View, ghost at: Places, ghost views: seq<View>)
    returns (errors': seq<Option<InsertError>>, ghost at': Places, ghost views': seq<View>)
    requires Placed(at) && at[Root] == root && n < |values|
    requires InsertedSome(values, v, n, at, views, errors)
    modifies at.Values
    ensures Placed(at') && at'[Root] == root && fresh(at'.Values - at.Values)
    ensures InsertedSome(values, v, n + 1, at', views', errors')
  {
    var error;
    error, at' := Insert(root, values[n].0, values[n].1, at);
    TraceMore(values, views, errors, n, ViewOf(at'), error);
    errors', views' := errors + [error], views + [ViewOf(at')];
  }

  /** Inserts one text after another; a refused one is reported and skipped. */
  method InsertAll(root: Localization, values: seq<(string, string)>, ghost at: Places)
    returns (errors: seq<Option<InsertError>>, ghost at': Places)
    requires Placed(at) && at[Root] == root
    modifies at.Values
    ensures Placed(at') && at'[Root] == root
    ensures Ran(old(ViewOf(at)), values, ViewOf(at'), errors)
  {
    ghost var v, views := ViewOf(at), [ViewOf(at)];
    errors, at' := [], at;
    for i := 0 to |values|
      invariant Placed(at') && at'[Root] == root && fresh(at'.Values - at.Values)
      invariant InsertedSome(values, v, i, at', views, errors)
    {
      errors, at', views := InsertNext(root, values, i, errors, v, at', views);
    }
    TraceRan(values, views, errors);
  }

  /** The tree is that of the whole run, and each error that of its insert. */
  ghost predicate Ran(v: View, values: seq<(string, string)>, w: View, errors: seq<Option<InsertError>>) {
    && w == Run(v, values, |values|) && |errors| == |values|
    && forall i :: 0 <= i < |values| ==> errors[i] == Error(Run(v, values, i), values[i].0)
  }

  lemma TraceRan(values: seq<(string, string)>, views: seq<View>, errors: seq<Option<InsertError>>)
    requires Traced(values, views, errors, |values|)
    ensures Ran(views[0], values, views[|values|], errors)
  {
    TraceIsRun(values, views, errors, |values|);
    forall i | 0 <= i < |values| ensures errors[i] == Error(Run(views[0], values, i), values[i].0) {
      TraceIsRun(values, views, errors, i);
      TraceStep(values, views, errors, i);
    }
  }

  // ---------------------------------------------------------------- keys and paths

  /** One key names something below the other. */
  predicate Extends(l: string, k: string) {
    k + "/" <= l
  }

  lemma SplitCons(s: string)
    requires s != ""
    ensures var rest := Split(s[1..]);
      Split(s) == if s[0] == '/' then [""] + rest else [[s[0]] + rest[0]] + rest[1..]
  {}

  lemma {:induction false} SplitAt(k: string, rest: string)
    ensures Split(k + "/" + rest) == Split(k) + Split(rest)
  {
    var l := k + "/" + rest;
    SplitCons(l);
    if k == "" {
      assert l[1..] == rest;
    } else {
      assert l[0] == k[0] && l[1..] == k[1..] + "/" + rest;
      SplitAt(k[1..], rest);
      SplitCons(k);
    }
  }

  lemma SplitAfter(k: string, l: string)
    requires Extends(l, k)
    ensures Split(l) == Split(k) + Split(l[|k| + 1..])
  {
    SplitAt(k, l[|k| + 1..]);
    assert l == k + "/" + l[|k| + 1..];
  }

  lemma {:induction false} JoinParts(a: seq<string>, b: seq<string>)
    requires a != [] && b != []
    ensures Join(a + b, "/") == Join(a, "/") + "/" + Join(b, "/")
  {
    if |a| == 1 {
      assert (a + b)[1..] == b;
    } else {
      assert (a + b)[1..] == a[1..] + b;
      JoinParts(a[1..], b);
    }
  }

  lemma {:induction false} PathOfPrefix(parts: seq<string>, n: nat)
    requires n <= |parts|
    ensures Under(PathOf(parts[..n]), PathOf(parts))
  {
    assert parts[..|parts|] == parts;
    if n < |parts| {
      assert parts[..|parts| - 1][..n] == parts[..n];
      PathOfPrefix(parts[..|parts| - 1], n);
    }
  }

  lemma {:induction false} PrefixOfPath(parts: seq<string>, c: Path) returns (n: nat)
    requires Under(c, PathOf(parts))
    ensures n <= |parts| && c == PathOf(parts[..n])
  {
    if c == PathOf(parts) {
      n := |parts|;
      assert parts[..n] == parts;
    } else {
      n := PrefixOfPath(parts[..|parts| - 1], c);
      assert parts[..|parts| - 1][..n] == parts[..n];
    }
  }

  lemma {:induction false} SameParts(a: seq<string>, b: seq<string>)
    requires PathOf(a) == PathOf(b)
    ensures a == b
  {
    if a != [] && b != [] {
      SameParts(a[..|a| - 1], b[..|b| - 1]);
      assert a == a[..|a| - 1] + [a[|a| - 1]] && b == b[..|b| - 1] + [b[|b| - 1]];
    }
  }

  lemma SamePath(k: string, l: string)
    requires KeyPath(k) == KeyPath(l)
    ensures k == l
  {
    SameParts(Split(k), Split(l));
    SplitJoins(k);
    SplitJoins(l);
  }

  /** A key's path is above another's when the key, or the key and a slash, begin the other. */
  lemma UnderInText(k: string, l: string)
    ensures Under(KeyPath(k), KeyPath(l)) <==> k == l || Extends(l, k)
  {
    if Extends(l, k) {
      SplitAfter(k, l);
      PathOfPrefix(Split(l), |Split(k)|);
      assert Split(l)[..|Split(k)|] == Split(k);
    }
    if Under(KeyPath(k), KeyPath(l)) && k != l {
      var parts := Split(l);
      var n := PrefixOfPath(parts, KeyPath(k));
      SameParts(Split(k), parts[..n]);
      assert parts[..n] + parts[n..] == parts;
      SplitJoins(k);
      SplitJoins(l);
      assert parts[..|parts|] == parts;
      JoinParts(parts[..n], parts[n..]);
      assert k + "/" <= l;
    }
  }

  // ---------------------------------------------------------------- one insert

  ghost predicate LeafAbove(v: View, c: Path, p: Path) {
    c in v && v[c].Leaf? && Under(c, p) && c != p
  }

  lemma {:induction false} RefusalFrom(v: View, parts: seq<string>, n: nat) returns (m: nat)
    requires 0 < n <= |parts|
    ensures n <= m <= |parts|
    ensures Refusal(v, parts, n) == None ==> forall i :: n <= i < |parts| ==> !LeafAt(v, parts, i)
    ensures Refusal(v, parts, n) != None && m < |parts| ==> LeafAt(v, parts, m)
    ensures Refusal(v, parts, n) == None || m == |parts| ==>
              (Refusal(v, parts, n) != None <==> PathOf(parts) in v && v[PathOf(parts)] == Folder)
    decreases |parts| - n
  {
    m := n;
    if n == |parts| {
      assert parts[..n] == parts;
    } else if !LeafAt(v, parts, n) {
      m := RefusalFrom(v, parts, n + 1);
    }
  }

  ghost predicate LeafAt(v: View, parts: seq<string>, n: nat)
    requires n <= |parts|
  {
    PathOf(parts[..n]) in v && v[PathOf(parts[..n])].Leaf?
  }

  /** An insert is refused exactly when a text stands above its path or an object at it. */
  lemma RefusedExactly(v: View, key: string)
    requires IsTree(v) && v[Root] == Folder
    ensures Error(v, key) != None <==>
              || (exists c :: LeafAbove(v, c, KeyPath(key)))
              || (KeyPath(key) in v && v[KeyPath(key)] == Folder)
  {
    var parts := Split(key);
    var m := RefusalFrom(v, parts, 1);
    if Error(v, key) != None && m < |parts| {
      PathOfPrefix(parts, m);
      assert parts[..|parts|] == parts;
      if PathOf(parts[..m]) == PathOf(parts) { SameParts(parts[..m], parts); }
      assert LeafAbove(v, PathOf(parts[..m]), KeyPath(key));
    }
    forall c | LeafAbove(v, c, KeyPath(key)) ensures Error(v, key) != None {
      var n := PrefixOfPath(parts, c);
      assert LeafAt(v, parts, n);
      assert parts[..|parts|] == parts;
      assert n < |parts|;
      assert n > 0;
    }
  }

  lemma StepKeepsTree(v: View, key: string, text: string)
    requires IsTree(v) && v[Root] == Folder
    ensures IsTree(Step(v, key, text)) && Step(v, key, text)[Root] == Folder
  {
    var p, w := KeyPath(key), Step(v, key, text);
    RefusedExactly(v, key);
    if Error(v, key) == None {
      NothingBelow(v, p);
      forall q ensures InFolder(w, q) {
        assert InFolder(v, q);
        if q in w && q.Sub? && q.parent == p {
          NotUnder(p, q.key);
        }
        if q in w && q.Sub? && Under(q, p) && q != p { NoneBetween(q.parent, q.key, q.parent); }
        if q.Sub? && Under(q, p) { AboveToo(q, p); }
      }
      assert Under(Root, p) by { RootAbove(p); }
    }
  }

  lemma {:induction false} AboveToo(q: Path, p: Path)
    requires q.Sub? && Under(q, p)
    ensures Under(q.parent, p) && q.parent != p
  {
    NotUnder(q.parent, q.key);
    if q != p { AboveToo(q, p.parent); NoShorter(q, p.parent); NoShorter(q.parent, p.parent); }
  }


  // ---------------------------------------------------------------- runs of inserts

  ghost function EmptyTree(): View {
    imap[Root := Folder]
  }

  ghost function Tree(values: seq<(string, string)>, n: nat): View
    requires n <= |values|
  {
    Run(EmptyTree(), values, n)
  }

  ghost predicate Accepted(values: seq<(string, string)>, i: nat)
    requires i < |values|
  {
    Error(Tree(values, i), values[i].0) == None
  }

  /** The i-th insert was accepted, and no later one with its key among the first n. */
  ghost predicate Latest(values: seq<(string, string)>, n: nat, i: nat)
    requires n <= |values|
  {
    i < n && Accepted(values, i) && forall j: nat :: i < j < n ==> !Overwritten(values, i, j)
  }

  ghost predicate Overwritten(values: seq<(string, string)>, i: nat, j: nat)
    requires i < |values| && j < |values|
  {
    Accepted(values, j) && values[j].0 == values[i].0
  }

  ghost predicate AcceptedBelow(values: seq<(string, string)>, n: nat, i: nat, p: Path)
    requires n <= |values|
  {
    i < n && Accepted(values, i) && Under(p, KeyPath(values[i].0)) && p != KeyPath(values[i].0)
  }

  ghost predicate Gives(values: seq<(string, string)>, n: nat, i: nat, p: Path, text: string)
    requires n <= |values|
  {
    Latest(values, n, i) && p == KeyPath(values[i].0) && text == values[i].1
  }

  /** Texts are those of the last accepted inserts, and objects stand only above accepted keys. */
  ghost predicate Explained(values: seq<(string, string)>, n: nat, p: Path)
    requires n <= |values|
  {
    var v := Tree(values, n);
    p in v && p != Root ==>
      if v[p].Leaf? then exists i: nat :: Gives(values, n, i, p, v[p].text)
      else exists i: nat :: AcceptedBelow(values, n, i, p)
  }

  /** A new object is an empty tree. */
  lemma NewIsEmpty(l: Localization)
    requires l.entries == map[]
    ensures Placed(map[Root := l]) && ViewOf(map[Root := l]) == EmptyTree()
  {
    var at: Places := map[Root := l];
    assert Held(at) == map[Root := map[]];
    forall p | p in at ensures Attached(at, Held(at), p) {}
    assert ViewOf(at) == EmptyTree();
  }

  /** Collects a file's texts in a new tree, and the error of each refused one. */
  method ExtractFromFile(values: seq<(string, string)>)
    returns (root: Localization, errors: seq<Option<InsertError>>, ghost at: Places)
    ensures Placed(at) && at[Root] == root && ViewOf(at) == Tree(values, |values|)
    ensures |errors| == |values| && forall i :: 0 <= i < |values| ==> (errors[i] == None <==> Accepted(values, i))
  {
    root := new Localization();
    NewIsEmpty(root);
    errors, at := InsertAll(root, values, map[Root := root]);
  }

  ghost predicate Kept(values: seq<(string, string)>, n: nat, i: nat)
    requires i < n <= |values|
  {
    Accepted(values, i) ==> KeyPath(values[i].0) in Tree(values, n) && Tree(values, n)[KeyPath(values[i].0)].Leaf?
  }

  lemma {:induction false} StaysTree(values: seq<(string, string)>, n: nat)
    requires n <= |values|
    ensures IsTree(Tree(values, n)) && Tree(values, n)[Root] == Folder
  {
    if n > 0 {
      StaysTree(values, n - 1);
      StepKeepsTree(Tree(values, n - 1), values[n - 1].0, values[n - 1].1);
    }
  }

  lemma {:induction false} AcceptedStays(values: seq<(string, string)>, n: nat, i: nat)
    requires i < n <= |values|
    ensures Kept(values, n, i)
  {
    if i < n - 1 {
      AcceptedStays(values, n - 1, i);
      StaysTree(values, n - 1);
      RefusedExactly(Tree(values, n - 1), values[n - 1].0);
      var v, p := Tree(values, n - 1), KeyPath(values[i].0);
      assert Accepted(values, i) && p != KeyPath(values[n - 1].0) && Under(p, KeyPath(values[n - 1].0)) ==>
          LeafAbove(v, p, KeyPath(values[n - 1].0));
    }
  }

  lemma LatestStill(values: seq<(string, string)>, n: nat, i: nat)
    requires 0 < n <= |values| && Latest(values, n - 1, i)
    requires !Overwritten(values, i, n - 1)
    ensures Latest(values, n, i)
  {}

  lemma StepSees(v: View, key: string, text: string, p: Path)
    requires p in Step(v, key, text)
    ensures if Error(v, key) == None && Under(p, KeyPath(key))
            then Step(v, key, text)[p] == if p == KeyPath(key) then Leaf(text) else Folder
            else p in v && Step(v, key, text)[p] == v[p]
  {}

  /** What the n-th insert does not touch is explained as before it. */
  lemma ExplainedStill(values: seq<(string, string)>, n: nat, p: Path)
    requires 0 < n <= |values| && Explained(values, n - 1, p)
    requires !(Accepted(values, n - 1) && Under(p, KeyPath(values[n - 1].0)))
    ensures Explained(values, n, p)
  {
    var v := Tree(values, n - 1);
    if p in Tree(values, n) && p != Root {
      StepSees(v, values[n - 1].0, values[n - 1].1, p);
      if v[p].Leaf? {
        var i: nat :| Gives(values, n - 1, i, p, v[p].text);
        LatestStill(values, n, i);
        assert Gives(values, n, i, p, v[p].text);
      } else {
        var i: nat :| AcceptedBelow(values, n - 1, i, p);
        assert AcceptedBelow(values, n, i, p);
      }
    }
  }

  lemma ExplainedAnew(values: seq<(string, string)>, n: nat, p: Path)
    requires 0 < n <= |values| && Accepted(values, n - 1) && Under(p, KeyPath(values[n - 1].0))
    ensures Explained(values, n, p)
  {
    if p in Tree(values, n) && p != Root {
      StepSees(Tree(values, n - 1), values[n - 1].0, values[n - 1].1, p);
      if p == KeyPath(values[n - 1].0) {
        assert Gives(values, n, n - 1, p, values[n - 1].1);
      } else {
        assert AcceptedBelow(values, n, n - 1, p);
      }
    }
  }

  lemma {:induction false} AllExplained(values: seq<(string, string)>, n: nat, p: Path)
    requires n <= |values|
    ensures Explained(values, n, p)
  {
    if n > 0 {
      AllExplained(values, n - 1, p);
      if Accepted(values, n - 1) && Under(p, KeyPath(values[n - 1].0)) {
        ExplainedAnew(values, n, p);
      } else {
        ExplainedStill(values, n, p);
      }
    }
  }

  /** A key reads back as its last accepted text. */
  lemma LastTextWins(values: seq<(string, string)>, i: nat)
    requires Latest(values, |values|, i)
    ensures KeyPath(values[i].0) in Tree(values, |values|)
    ensures Tree(values, |values|)[KeyPath(values[i].0)] == Leaf(values[i].1)
  {
    AcceptedStays(values, |values|, i);
    AllExplained(values, |values|, KeyPath(values[i].0));
    var v := Tree(values, |values|);
    RootIsNoKey(values[i].0);
    var j: nat :| Gives(values, |values|, j, KeyPath(values[i].0), v[KeyPath(values[i].0)].text);
    SamePath(values[i].0, values[j].0);
    assert i < j ==> Overwritten(values, i, j);
    assert j < i ==> Overwritten(values, j, i);
  }

  lemma RootIsNoKey(key: string)
    ensures KeyPath(key) != Root
  {}

  /** Two keys that cannot both have a text. */
  predicate Clash(k: string, l: string) {
    Extends(k, l) || Extends(l, k)
  }

  ghost predicate ClashesWith(values: seq<(string, string)>, i: nat, j: nat)
    requires i < |values|
  {
    j < i && Accepted(values, j) && Clash(values[i].0, values[j].0)
  }

  /** An insert is refused exactly when its key clashes with one accepted before. */
  lemma RefusedForAClash(values: seq<(string, string)>, i: nat)
    requires i < |values|
    ensures !Accepted(values, i) <==> exists j: nat :: ClashesWith(values, i, j)
  {
    var v, key := Tree(values, i), values[i].0;
    StaysTree(values, i);
    RefusedExactly(v, key);
    if !Accepted(values, i) {
      var j := ClashFound(values, i);
      assert ClashesWith(values, i, j);
    }
    forall j: nat | ClashesWith(values, i, j) ensures !Accepted(values, i) {
      ClashRefused(values, i, j);
    }
  }

  lemma ClashRefused(values: seq<(string, string)>, i: nat, j: nat)
    requires i < |values| && ClashesWith(values, i, j)
    ensures !Accepted(values, i)
  {
    var v, key, earlier := Tree(values, i), values[i].0, values[j].0;
    StaysTree(values, i);
    RefusedExactly(v, key);
    AcceptedStays(values, i, j);
    UnderInText(key, earlier);
    UnderInText(earlier, key);
    if KeyPath(key) == KeyPath(earlier) {
      SamePath(key, earlier);
      assert false;
    } else if Under(KeyPath(earlier), KeyPath(key)) {
      assert LeafAbove(v, KeyPath(earlier), KeyPath(key));
    } else {
      FoldersAbove(v, KeyPath(earlier));
    }
  }

  lemma ClashFound(values: seq<(string, string)>, i: nat) returns (j: nat)
    requires i < |values| && !Accepted(values, i)
    ensures ClashesWith(values, i, j)
  {
    var v, key := Tree(values, i), values[i].0;
    StaysTree(values, i);
    RefusedExactly(v, key);
    RootIsNoKey(key);
    if c :| LeafAbove(v, c, KeyPath(key)) {
      AllExplained(values, i, c);
      j :| Gives(values, i, j, c, v[c].text);
      UnderInText(values[j].0, key);
    } else {
      AllExplained(values, i, KeyPath(key));
      j :| AcceptedBelow(values, i, j, KeyPath(key));
      UnderInText(key, values[j].0);
    }
  }

  /** No text stands above another, and every text is that of the last accepted insert of its key. */
  lemma TextsArePrefixFree(values: seq<(string, string)>, p: Path, q: Path)
    requires p in Tree(values, |values|) && Tree(values, |values|)[p].Leaf?
    requires q in Tree(values, |values|) && Under(p, q)
    ensures p == q
    ensures exists i: nat :: Gives(values, |values|, i, p, Tree(values, |values|)[p].text)
  {
    StaysTree(values, |values|);
    Unbroken(Tree(values, |values|), p, q);
    AllExplained(values, |values|, p);
  }
}
