/** Localization objects: trees of nested objects with texts at their leaves, updated in place. */
module Localization {
  import opened Options

  datatype Path = Root | Sub(parent: Path, key: string)

  datatype Value = Text(text: string) | Child(child: Localization)

  /** What a tree holds at a path. */
  datatype Entry = Leaf(text: string) | Folder

  /** A whole tree: the entry at every path it has. The root is a folder. */
  type View = imap<Path, Entry>

  /** The object standing at each path. */
  type Places = map<Path, Localization>

  /** At or below. */
  ghost predicate Under(c: Path, p: Path) {
    c == p || (p.Sub? && Under(c, p.parent))
  }

  /** Only folders have anything below them. */
  ghost predicate IsTree(v: View) {
    Root in v && forall p {:trigger InFolder(v, p)} :: InFolder(v, p)
  }

  ghost predicate InFolder(v: View, p: Path) {
    p in v && p.Sub? ==> p.parent in v && v[p.parent] == Folder
  }

  /** The tree without what stands at or below a path. */
  ghost function Cut(v: View, c: Path): View {
    imap p | p in v && !Under(c, p) :: v[p]
  }

  /** The tree with an entry in place of whatever stood at or below its path. */
  ghost function Put(v: View, c: Path, e: Entry): View {
    Cut(v, c)[c := e]
  }

  ghost function Without<T>(m: map<Path, T>, c: Path): map<Path, T> {
    map p | p in m && !Under(c, p) :: m[p]
  }

  /** What the object at each path holds. */
  type Contents = map<Path, map<string, Value>>

  ghost predicate HasText(held: Contents, p: Path) {
    p.Sub? && p.parent in held && p.key in held[p.parent] && held[p.parent][p.key].Text?
  }

  ghost function Seen(held: Contents): View {
    imap p | p in held || HasText(held, p) :: if p in held then Folder else Leaf(held[p.parent][p.key].text)
  }

  /** The object at this path is what its parent holds under its key. */
  ghost predicate Attached(at: Places, held: Contents, p: Path)
    requires p in at
  {
    p.Sub? ==> p.parent in held && p.key in held[p.parent] && held[p.parent][p.key] == Child(at[p])
  }

  /** What the object at this path holds under a key stands at the path with that key. */
  ghost predicate Leads(at: Places, held: Contents, p: Path, k: string)
    requires p in held
  {
    k in held[p] && held[p][k].Child? ==> Sub(p, k) in at && at[Sub(p, k)] == held[p][k].child
  }

  /** The objects form a tree: each stands at one path. */
  ghost predicate Shaped(at: Places, held: Contents) {
    && at.Keys == held.Keys && Root in at
    && (forall p, q {:trigger at[p], at[q]} :: p in at && q in at && at[p] == at[q] ==> p == q)
    && (forall p {:trigger Attached(at, held, p)} :: p in at ==> Attached(at, held, p))
    && (forall p, k {:trigger Leads(at, held, p, k)} :: p in held ==> Leads(at, held, p, k))
  }

  /** The objects after an entry is written: what stood at or below it is gone, and an object written
      there is new and empty. */
  ghost function Replaced(at: Places, c: Path, value: Option<Value>): Places {
    if value.Some? && value.value.Child? then Without(at, c)[c := value.value.child] else Without(at, c)
  }

  ghost function With(entries: map<string, Value>, k: string, value: Option<Value>): map<string, Value> {
    if value == None then entries - {k} else entries[k := value.value]
  }

  ghost function Rewritten(held: Contents, p: Path, k: string, value: Option<Value>): Contents
    requires p in held
  {
    var rest := Without(held[p := With(held[p], k, value)], Sub(p, k));
    if value.Some? && value.value.Child? then rest[Sub(p, k) := map[]] else rest
  }

  /** An entry that is neither written nor below the written one. */
  lemma EntryKept(held: Contents, p: Path, k: string, value: Option<Value>, q: Path)
    requires p in held && q.Sub? && !Under(Sub(p, k), q)
    ensures var held' := Rewritten(held, p, k, value);
      && (q in held' <==> q in held)
      && (q.parent in held' <==> q.parent in held)
      && (q.parent in held ==>
            && (q.key in held'[q.parent] <==> q.key in held[q.parent])
            && (q.key in held[q.parent] ==> held'[q.parent][q.key] == held[q.parent][q.key]))
  {}

  lemma ShapeKept(at: Places, held: Contents, p: Path, k: string, value: Option<Value>)
    requires Shaped(at, held) && p in at
    requires value.Some? && value.value.Child? ==> value.value.child !in at.Values
    ensures Shaped(Replaced(at, Sub(p, k), value), Rewritten(held, p, k, value))
  {
    NotUnder(p, k);
    var at', held' := Replaced(at, Sub(p, k), value), Rewritten(held, p, k, value);
    forall q | q in at' ensures Attached(at', held', q) {
      if q != Sub(p, k) {
        assert Attached(at, held, q);
        if q.Sub? { EntryKept(held, p, k, value, q); }
      }
    }
    forall q, l | q in held' ensures Leads(at', held', q, l) {
      if q in held { assert Leads(at, held, q, l); }
    }
  }

  lemma ViewChanged(at: Places, held: Contents, p: Path, k: string, value: Option<Value>)
    requires Shaped(at, held) && p in at
    ensures Seen(Rewritten(held, p, k, value)) == Changed(Seen(held), Sub(p, k), value)
  {
    var before, after := Seen(held), Seen(Rewritten(held, p, k, value));
    var changed := Changed(before, Sub(p, k), value);
    forall q ensures q in after <==> q in changed
             ensures q in after ==> after[q] == changed[q]
    {
      SeenAfter(at, held, p, k, value, q);
    }
    assert after == changed;
  }

  ghost function Changed(view: View, c: Path, value: Option<Value>): View {
    if value == None then Cut(view, c) else Put(view, c, if value.value.Child? then Folder else Leaf(value.value.text))
  }

  lemma SeenAfter(at: Places, held: Contents, p: Path, k: string, value: Option<Value>, q: Path)
    requires Shaped(at, held) && p in at
    ensures var after, changed := Seen(Rewritten(held, p, k, value)), Changed(Seen(held), Sub(p, k), value);
      (q in after <==> q in changed) && (q in after ==> after[q] == changed[q])
  {
    var held', c := Rewritten(held, p, k, value), Sub(p, k);
    NotUnder(p, k);
    if q == c {
      assert p in held' && held'[p] == With(held[p], k, value);
    } else if Under(c, q) {
      assert q !in held' && Under(c, q.parent);
      assert q.parent in held' ==> q.parent == c && held'[c] == map[];
    } else if q.Sub? {
      EntryKept(held, p, k, value, q);
    }
  }

  lemma {:induction false} NoShorter(c: Path, p: Path)
    requires Under(c, p)
    ensures Depth(c) <= Depth(p)
  {
    if c != p { NoShorter(c, p.parent); }
  }

  ghost function Depth(p: Path): nat {
    if p == Root then 0 else 1 + Depth(p.parent)
  }

  lemma NotUnder(p: Path, k: string)
    ensures !Under(Sub(p, k), p)
  {
    if Under(Sub(p, k), p) { NoShorter(Sub(p, k), p); }
  }

  ghost function Held(at: Places): Contents
    reads at.Values
  {
    map p | p in at :: at[p].entries
  }

  ghost predicate Placed(at: Places)
    reads at.Values
  {
    Shaped(at, Held(at))
  }

  ghost function ViewOf(at: Places): View
    reads at.Values
  {
    Seen(Held(at))
  }

  lemma HeldAfter(at: Places, was: Contents, p: Path, k: string, value: Option<Value>)
    requires at.Keys == was.Keys && p in at
    requires forall q :: q in at ==> at[q].entries == if q == p then With(was[p], k, value) else was[q]
    requires value.Some? && value.value.Child? ==> value.value.child.entries == map[]
    ensures Held(Replaced(at, Sub(p, k), value)) == Rewritten(was, p, k, value)
  {
    NotUnder(p, k);
    var held, rewritten := Held(Replaced(at, Sub(p, k), value)), Rewritten(was, p, k, value);
    assert held.Keys == rewritten.Keys;
    assert held == rewritten;
  }

  /** Writing or deleting one entry keeps the tree, and changes it at and below that entry only. */
  lemma EntryWritten(at: Places, was: Contents, p: Path, k: string, value: Option<Value>)
    requires Shaped(at, was) && p in at
    requires forall q :: q in at ==> at[q].entries == if q == p then With(was[p], k, value) else was[q]
    requires value.Some? && value.value.Child? ==>
               value.value.child !in at.Values && value.value.child.entries == map[]
    ensures var at' := Replaced(at, Sub(p, k), value);
      Placed(at') && ViewOf(at') == Changed(Seen(was), Sub(p, k), value)
  {
    ShapeKept(at, was, p, k, value);
    ViewChanged(at, was, p, k, value);
    HeldAfter(at, was, p, k, value);
  }

  /** A folder's object is found under its key, and a text's entry too. */
  lemma SeenFrom(at: Places, p: Path, k: string)
    requires Placed(at) && p in at
    ensures k in at[p].entries <==> Sub(p, k) in ViewOf(at)
    ensures k in at[p].entries && at[p].entries[k].Child? ==>
              Sub(p, k) in at && at[Sub(p, k)] == at[p].entries[k].child && ViewOf(at)[Sub(p, k)] == Folder
    ensures k in at[p].entries && at[p].entries[k].Text? ==>
              Sub(p, k) !in at && ViewOf(at)[Sub(p, k)] == Leaf(at[p].entries[k].text)
  {
    assert Leads(at, Held(at), p, k);
    if Sub(p, k) in at { assert Attached(at, Held(at), Sub(p, k)); }
  }

  /** Objects that stand as a tree look like one. */
  lemma PlacedIsTree(at: Places)
    requires Placed(at)
    ensures IsTree(ViewOf(at)) && ViewOf(at)[Root] == Folder
  {
    forall p | p in ViewOf(at) && p.Sub? ensures p.parent in at {
      if p in at { assert Attached(at, Held(at), p); }
    }
  }

  lemma {:induction false} Unbroken(v: View, c: Path, p: Path)
    requires IsTree(v) && p in v && Under(c, p)
    ensures c in v && (c != p ==> v[c] == Folder)
  {
    assert InFolder(v, p);
    if c != p { Unbroken(v, c, p.parent); }
  }

  lemma NothingBelow(v: View, c: Path)
    requires IsTree(v) && (c !in v || v[c].Leaf?)
    ensures forall p :: p in v && Under(c, p) ==> p == c
  {
    forall p | p in v && Under(c, p) ensures p == c { Unbroken(v, c, p); }
  }

  lemma FoldersAbove(v: View, c: Path)
    requires IsTree(v) && c in v
    ensures forall p :: Under(p, c) && p != c ==> p in v && v[p] == Folder
  {
    forall p | Under(p, c) && p != c ensures p in v && v[p] == Folder { Unbroken(v, p, c); }
  }

  lemma {:induction false} UnderUnder(a: Path, b: Path, c: Path)
    requires Under(a, b) && Under(b, c)
    ensures Under(a, c)
  {
    if b != c { UnderUnder(a, b, c.parent); }
  }

  lemma {:induction false} RootAbove(p: Path)
    ensures Under(Root, p)
  {
    if p != Root { RootAbove(p.parent); }
  }

  /** Of two paths above a third, one is above the other. */
  lemma {:induction false} Chain(a: Path, b: Path, c: Path)
    requires Under(a, c) && Under(b, c)
    ensures Under(a, b) || Under(b, a)
  {
    if a != c && b != c { Chain(a, b, c.parent); }
  }

  class Localization {
    var entries: map<string, Value>

    constructor ()
      ensures entries == map[]
    {
      entries := map[];
    }

    /** delete t[key] */
    method Delete(key: string, ghost at: Places, ghost p: Path) returns (ghost at': Places)
      requires Placed(at) && p in at && at[p] == this
      modifies this
      ensures Placed(at') && at' == Without(at, Sub(p, key))
      ensures entries == old(entries) - {key}
      ensures ViewOf(at') == Cut(old(ViewOf(at)), Sub(p, key))
    {
      ghost var was := Held(at);
      entries := entries - {key};
      at' := Without(at, Sub(p, key));
      EntryWritten(at, was, p, key, None);
    }

    /** t[key] = text */
    method Write(key: string, text: string, ghost at: Places, ghost p: Path) returns (ghost at': Places)
      requires Placed(at) && p in at && at[p] == this
      modifies this
      ensures Placed(at') && at' == Without(at, Sub(p, key))
      ensures entries == old(entries)[key := Text(text)]
      ensures ViewOf(at') == Put(old(ViewOf(at)), Sub(p, key), Leaf(text))
    {
      ghost var was := Held(at);
      entries := entries[key := Text(text)];
      at' := Without(at, Sub(p, key));
      EntryWritten(at, was, p, key, Some(Text(text)));
    }

    /** t[key] = {} */
    method Create(key: string, ghost at: Places, ghost p: Path) returns (child: Localization, ghost at': Places)
      requires Placed(at) && p in at && at[p] == this
      modifies this
      ensures Placed(at') && at' == Without(at, Sub(p, key))[Sub(p, key) := child]
      ensures fresh(child) && child.entries == map[]
      ensures entries == old(entries)[key := Child(child)]
      ensures ViewOf(at') == Put(old(ViewOf(at)), Sub(p, key), Folder)
    {
      ghost var was := Held(at);
      child := new Localization();
      entries := entries[key := Child(child)];
      at' := Without(at, Sub(p, key))[Sub(p, key) := child];
      EntryWritten(at, was, p, key, Some(Child(child)));
    }
  }
}
