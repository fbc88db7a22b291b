/** Bringing a translated tree in line with its source, and writing the missing translations into it. */
module LocalizationManager {
  import opened Options
  import opened Localization
  import opened IgnoreTags
  import opened Numbers
  import opened Text
  import DeeplApi

  /** The source language's tree, with its keys in order. */
  datatype Source = Message(text: string) | Group(entries: seq<(string, Source)>)

  /** Where a translation goes, the text to translate, and the key it is reported under. */
  datatype Request = Request(node: Localization, key: string, text: string, path: string)

  predicate HasKey(s: Source, k: string)
    requires s.Group?
  {
    exists i :: 0 <= i < |s.entries| && s.entries[i].0 == k
  }

  ghost function Lookup(entries: seq<(string, Source)>, k: string): Option<Source> {
    if entries == [] then None
    else if entries[0].0 == k then Some(entries[0].1)
    else Lookup(entries[1..], k)
  }

  ghost function Find(root: Source, p: Path): Option<Source> {
    if p == Root then Some(root)
    else
      var above := Find(root, p.parent);
      if above.Some? && above.value.Group? then Lookup(above.value.entries, p.key) else None
  }

  ghost predicate Distinct(entries: seq<(string, Source)>) {
    forall i, j :: 0 <= i < j < |entries| ==> entries[i].0 != entries[j].0
  }

  /** No group of the source has a key twice. */
  ghost predicate WellFormed(root: Source) {
    root.Group? && forall p :: IsGroup(root, p) ==> Distinct(Find(root, p).value.entries)
  }

  ghost predicate IsMessage(root: Source, p: Path) {
    Find(root, p).Some? && Find(root, p).value.Message?
  }

  ghost predicate IsGroup(root: Source, p: Path) {
    Find(root, p).Some? && Find(root, p).value.Group?
  }

  /** A message of the source stands at or above the path. */
  ghost predicate Covered(root: Source, p: Path) {
    IsMessage(root, p) || (p.Sub? && Covered(root, p.parent))
  }

  /** The key a path is reported under, and forced by. */
  function KeyOf(p: Path): string {
    if p == Root then "" else Joined(KeyOf(p.parent), p.key)
  }

  function Joined(prefix: string, key: string): string {
    if prefix != "" then prefix + "/" + key else key
  }

  function Parts(p: Path): seq<string> {
    if p == Root then [] else Parts(p.parent) + [p.key]
  }

  function WithoutLeadingEmpty(parts: seq<string>): seq<string> {
    if parts != [] && parts[0] == "" then WithoutLeadingEmpty(parts[1..]) else parts
  }

  lemma {:induction false} JoinMore(parts: seq<string>, last: string)
    ensures Join(parts + [last], "/") == if parts == [] then last else Join(parts, "/") + "/" + last
  {
    if |parts| > 1 {
      JoinMore(parts[1..], last);
      assert (parts + [last])[1..] == parts[1..] + [last];
    }
  }

  lemma {:induction false} TrimMoreParts(parts: seq<string>, last: string)
    ensures WithoutLeadingEmpty(parts + [last]) ==
              if WithoutLeadingEmpty(parts) != [] then WithoutLeadingEmpty(parts) + [last]
              else if last == "" then [] else [last]
  {
    if parts == [] {
      assert parts + [last] == [last] && [last][1..] == [];
    } else if parts[0] == "" {
      assert (parts + [last])[1..] == parts[1..] + [last];
      TrimMoreParts(parts[1..], last);
    }
  }

  lemma {:induction false} JoinIsEmpty(parts: seq<string>)
    requires parts != [] && parts[0] != ""
    ensures Join(parts, "/") != ""
  {}

  lemma {:induction false} StartsNonEmpty(parts: seq<string>)
    ensures WithoutLeadingEmpty(parts) != [] ==> WithoutLeadingEmpty(parts)[0] != ""
  {
    if parts != [] { StartsNonEmpty(parts[1..]); }
  }

  /** The key of a path is its parts with slashes between, those empty at its start left out. */
  lemma {:induction false} KeyJoinsParts(p: Path)
    ensures KeyOf(p) == Join(WithoutLeadingEmpty(Parts(p)), "/")
  {
    if p != Root {
      KeyJoinsParts(p.parent);
      var above := WithoutLeadingEmpty(Parts(p.parent));
      TrimMoreParts(Parts(p.parent), p.key);
      StartsNonEmpty(Parts(p.parent));
      JoinMore(above, p.key);
      if above != [] { JoinIsEmpty(above); }
    }
  }

  /** A target tree with the source's groups and, at the messages, what the target had there. */
  ghost function Merged(root: Source, v: View): View {
    imap p | IsGroup(root, p) || (Covered(root, p) && p in v) :: if IsGroup(root, p) then Folder else v[p]
  }

  ghost predicate Requested(root: Source, v: View, force: set<string>, p: Path) {
    IsMessage(root, p) && (p !in v || KeyOf(p) in force)
  }

  /** The messages to translate among the first n entries of the group at a path, in source order. */
  ghost function Wanted(s: Source, n: nat, path: Path, v: View, force: set<string>): seq<Path>
    requires s.Group? && n <= |s.entries|
    decreases s, n
  {
    if n == 0 then []
    else
      var (k, e) := s.entries[n - 1];
      Wanted(s, n - 1, path, v, force)
      + if e.Group? then Wanted(e, |e.entries|, Sub(path, k), v, force)
        else if Sub(path, k) !in v || KeyOf(Sub(path, k)) in force then [Sub(path, k)] else []
  }

  ghost predicate Bound(r: Request, at: Places, p: Path, root: Source) {
    && p.Sub? && p.parent in at && at[p.parent] == r.node && r.key == p.key
    && Find(root, p) == Some(Message(r.text)) && r.path == KeyOf(p)
  }

  ghost predicate AllBound(requests: seq<Request>, at: Places, paths: seq<Path>, root: Source) {
    |requests| == |paths| && forall i :: 0 <= i < |paths| ==> Bound(requests[i], at, paths[i], root)
  }

  // ---------------------------------------------------------------- comparing trees

  ghost predicate Agree(v: View, w: View, p: Path) {
    (p in v <==> p in w) && (p in v ==> v[p] == w[p])
  }

  ghost predicate Below(c: Path, p: Path) {
    p.Sub? && Under(c, p.parent)
  }

  ghost predicate SameUnder(v: View, w: View, c: Path) {
    forall p {:trigger Agree(v, w, p)} :: Under(c, p) ==> Agree(v, w, p)
  }

  ghost predicate SameBelow(v: View, w: View, c: Path) {
    forall p {:trigger Agree(v, w, p)} :: Below(c, p) ==> Agree(v, w, p)
  }

  /** The trees agree everywhere but below the path. */
  ghost predicate SameBut(v: View, w: View, c: Path) {
    forall p {:trigger Agree(v, w, p)} :: !Below(c, p) ==> Agree(v, w, p)
  }

  ghost predicate SameOutside(v: View, w: View, c: Path) {
    forall p {:trigger Agree(v, w, p)} :: !Under(c, p) ==> Agree(v, w, p)
  }

  /** The objects not below the path stay where they are. */
  ghost predicate StayBut(at: Places, at': Places, c: Path) {
    forall p :: p in at && !Below(c, p) ==> p in at' && at'[p] == at[p]
  }

  lemma Siblings(c: Path, k: string, l: string, p: Path)
    requires k != l && Under(Sub(c, k), p)
    ensures !Under(Sub(c, l), p)
  {
    NotUnder(c, k);
    NotUnder(c, l);
    if Under(Sub(c, l), p) { Chain(Sub(c, k), Sub(c, l), p); }
  }

  lemma {:induction false} KeyBelow(c: Path, p: Path) returns (k: string)
    requires Below(c, p)
    ensures Under(Sub(c, k), p)
  {
    if p.parent == c { k := p.key; } else { k := KeyBelow(c, p.parent); }
  }

  lemma BelowUnder(c: Path, k: string, p: Path)
    requires Under(Sub(c, k), p)
    ensures Below(c, p)
  {
    if p != Sub(c, k) { UnderUnder(c, Sub(c, k), p.parent); }
  }

  lemma BelowIsUnder(c: Path, p: Path)
    ensures Below(c, p) <==> Under(c, p) && p != c
  {
    if p.Sub? && p == c { NotUnder(p.parent, p.key); }
  }

  // ---------------------------------------------------------------- looking up the source

  lemma {:induction false} LookupAt(entries: seq<(string, Source)>, i: nat)
    requires i < |entries| && Distinct(entries)
    ensures Lookup(entries, entries[i].0) == Some(entries[i].1)
  {
    if i > 0 { LookupAt(entries[1..], i - 1); }
  }

  lemma {:induction false} LookupOnly(entries: seq<(string, Source)>, k: string)
    ensures Lookup(entries, k).Some? ==> exists i :: 0 <= i < |entries| && entries[i] == (k, Lookup(entries, k).value)
  {
    if entries != [] && entries[0].0 != k {
      LookupOnly(entries[1..], k);
      if Lookup(entries, k).Some? {
        var i :| 0 <= i < |entries[1..]| && entries[1..][i] == (k, Lookup(entries, k).value);
        assert entries[i + 1] == (k, Lookup(entries, k).value);
      }
    }
  }

  lemma EntryFound(root: Source, path: Path, s: Source, i: nat)
    requires WellFormed(root) && Find(root, path) == Some(s) && s.Group? && i < |s.entries|
    ensures Find(root, Sub(path, s.entries[i].0)) == Some(s.entries[i].1)
  {
    assert IsGroup(root, path);
    LookupAt(s.entries, i);
  }

  lemma {:induction false} GroupsAbove(root: Source, c: Path, p: Path)
    requires Under(c, p) && Find(root, p).Some? && c != p
    ensures IsGroup(root, c)
  {
    if p.parent != c { GroupsAbove(root, c, p.parent); }
  }

  /** At and below a message the merged tree is the target's. */
  lemma {:induction false} MessageMerged(root: Source, c: Path, p: Path)
    requires IsMessage(root, c) && Under(c, p)
    ensures Covered(root, p) && !IsGroup(root, p)
  {
    if p != c {
      MessageMerged(root, c, p.parent);
      if IsGroup(root, p) { GroupsAbove(root, c, p); }
    }
  }

  /** Below a group the source has nothing but under its keys. */
  lemma {:induction false} NothingElse(root: Source, path: Path, s: Source, k: string, p: Path)
    requires Find(root, path) == Some(s) && s.Group? && !HasKey(s, k) && Under(Sub(path, k), p)
    ensures Find(root, p) == None && !Covered(root, p)
  {
    if p != Sub(path, k) {
      NothingElse(root, path, s, k, p.parent);
    } else {
      LookupOnly(s.entries, k);
      NotCovered(root, path);
    }
  }

  lemma {:induction false} NotCovered(root: Source, p: Path)
    requires IsGroup(root, p)
    ensures !Covered(root, p)
  {
    if p.Sub? { NotCovered(root, p.parent); }
  }

  // ---------------------------------------------------------------- merging one group

  /** Below the path the tree has nothing but the group's keys; under the first n of them it is merged,
      under the others as it was. */
  ghost predicate Half(s: Source, path: Path, was: View, merged: View, v: View, n: nat)
    requires s.Group?
  {
    && (forall k :: Sub(path, k) in v ==> HasKey(s, k))
    && (forall i: nat :: i < |s.entries| ==> SameUnder(v, if i < n then merged else was, Sub(path, s.entries[i].0)))
  }

  lemma HalfChange(s: Source, path: Path, was: View, merged: View, v: View, n: nat, w: View)
    requires s.Group? && n < |s.entries| && Distinct(s.entries) && Half(s, path, was, merged, v, n)
    requires SameOutside(v, w, Sub(path, s.entries[n].0)) && SameUnder(w, merged, Sub(path, s.entries[n].0))
    ensures Half(s, path, was, merged, w, n + 1)
  {
    var c := s.entries[n].0;
    forall k | Sub(path, k) in w ensures HasKey(s, k) {
      if k != c {
        Siblings(path, k, c, Sub(path, k));
        assert Agree(v, w, Sub(path, k));
      } else {
        assert s.entries[n].0 == k;
      }
    }
    forall i: nat | i < |s.entries|
      ensures SameUnder(w, if i < n + 1 then merged else was, Sub(path, s.entries[i].0))
    {
      if i != n { SameElsewhere(path, c, s.entries[i].0, v, w, if i < n then merged else was); }
    }
  }

  lemma SameElsewhere(path: Path, k: string, l: string, v: View, w: View, u: View)
    requires k != l && SameOutside(v, w, Sub(path, k)) && SameUnder(v, u, Sub(path, l))
    ensures SameUnder(w, u, Sub(path, l))
  {
    forall p | Under(Sub(path, l), p) ensures Agree(w, u, p) {
      Siblings(path, l, k, p);
      assert Agree(v, w, p) && Agree(v, u, p);
    }
  }

  /** A message's entry is left to its translation. */
  lemma HalfMessage(root: Source, s: Source, path: Path, was: View, v: View, n: nat)
    requires WellFormed(root) && Find(root, path) == Some(s) && s.Group? && n < |s.entries|
    requires Half(s, path, was, Merged(root, was), v, n) && s.entries[n].1.Message?
    ensures Half(s, path, was, Merged(root, was), v, n + 1)
  {
    var c := Sub(path, s.entries[n].0);
    EntryFound(root, path, s, n);
    forall p | Under(c, p) ensures Agree(v, Merged(root, was), p) {
      MessageMerged(root, c, p);
      assert Agree(v, was, p);
    }
    assert IsGroup(root, path);
    HalfChange(s, path, was, Merged(root, was), v, n, v);
  }

  /** A group's entry is a folder, merged below. */
  lemma HalfGroup(root: Source, s: Source, path: Path, was: View, v: View, n: nat, w: View)
    requires WellFormed(root) && Find(root, path) == Some(s) && s.Group? && n < |s.entries|
    requires Half(s, path, was, Merged(root, was), v, n) && s.entries[n].1.Group?
    requires var c := Sub(path, s.entries[n].0);
      SameOutside(v, w, c) && c in w && w[c] == Folder && SameBelow(w, Merged(root, was), c)
    ensures Half(s, path, was, Merged(root, was), w, n + 1)
  {
    var c := Sub(path, s.entries[n].0);
    EntryFound(root, path, s, n);
    forall p | Under(c, p) ensures Agree(w, Merged(root, was), p) {
      BelowIsUnder(c, p);
    }
    assert IsGroup(root, path);
    HalfChange(s, path, was, Merged(root, was), v, n, w);
  }

  lemma HalfDone(root: Source, s: Source, path: Path, was: View, v: View)
    requires WellFormed(root) && Find(root, path) == Some(s) && s.Group? && IsTree(v)
    requires Half(s, path, was, Merged(root, was), v, |s.entries|)
    ensures SameBelow(v, Merged(root, was), path)
  {
    forall p | Below(path, p) ensures Agree(v, Merged(root, was), p) {
      var k := KeyBelow(path, p);
      if HasKey(s, k) {
        var i: nat :| i < |s.entries| && s.entries[i].0 == k;
        assert SameUnder(v, Merged(root, was), Sub(path, k));
      } else {
        NothingElse(root, path, s, k, p);
        if p in v { Unbroken(v, Sub(path, k), p); }
      }
    }
  }

  // ---------------------------------------------------------------- requests

  lemma BoundStay(requests: seq<Request>, at: Places, at': Places, paths: seq<Path>, root: Source, c: Path)
    requires AllBound(requests, at, paths, root) && StayBut(at, at', c)
    requires forall i :: 0 <= i < |paths| ==> !Under(c, paths[i])
    ensures AllBound(requests, at', paths, root)
  {
    forall i | 0 <= i < |paths| ensures Bound(requests[i], at', paths[i], root) {
      assert Bound(requests[i], at, paths[i], root);
      BelowIsUnder(c, paths[i].parent);
    }
  }

  ghost predicate UnderFirst(s: Source, n: nat, path: Path, p: Path)
    requires s.Group? && n <= |s.entries|
  {
    exists i :: 0 <= i < n && Under(Sub(path, s.entries[i].0), p)
  }

  lemma {:induction false} WantedUnder(s: Source, n: nat, path: Path, v: View, force: set<string>)
    requires s.Group? && n <= |s.entries|
    ensures forall i :: 0 <= i < |Wanted(s, n, path, v, force)| ==>
              UnderFirst(s, n, path, Wanted(s, n, path, v, force)[i])
    decreases s, n
  {
    if n > 0 {
      WantedUnder(s, n - 1, path, v, force);
      var (k, e) := s.entries[n - 1];
      var before, all := Wanted(s, n - 1, path, v, force), Wanted(s, n, path, v, force);
      if e.Group? { WantedUnder(e, |e.entries|, Sub(path, k), v, force); }
      forall i | 0 <= i < |all| ensures UnderFirst(s, n, path, all[i]) {
        if i < |before| {
          assert UnderFirst(s, n - 1, path, before[i]);
        } else if e.Group? {
          var p := all[i];
          assert UnderFirst(e, |e.entries|, Sub(path, k), p);
          var j :| 0 <= j < |e.entries| && Under(Sub(Sub(path, k), e.entries[j].0), p);
          BelowUnder(Sub(path, k), e.entries[j].0, p);
          BelowIsUnder(Sub(path, k), p);
          assert Under(Sub(path, s.entries[n - 1].0), p);
        } else {
          assert Under(Sub(path, s.entries[n - 1].0), all[i]);
        }
      }
    }
  }

  lemma WantedApart(s: Source, n: nat, path: Path, v: View, force: set<string>)
    requires s.Group? && n < |s.entries| && Distinct(s.entries)
    ensures forall i :: 0 <= i < |Wanted(s, n, path, v, force)| ==>
              !Under(Sub(path, s.entries[n].0), Wanted(s, n, path, v, force)[i])
  {
    var paths := Wanted(s, n, path, v, force);
    WantedUnder(s, n, path, v, force);
    forall i | 0 <= i < |paths| ensures !Under(Sub(path, s.entries[n].0), paths[i]) {
      assert UnderFirst(s, n, path, paths[i]);
      var j :| 0 <= j < n && Under(Sub(path, s.entries[j].0), paths[i]);
      Siblings(path, s.entries[j].0, s.entries[n].0, paths[i]);
    }
  }

  lemma BoundMessage(requests: seq<Request>, at: Places, root: Source, s: Source, n: nat, path: Path, was: View,
                     force: set<string>)
    requires s.Group? && n < |s.entries| && s.entries[n].1.Message? && path in at
    requires AllBound(requests, at, Wanted(s, n, path, was, force), root)
    requires Find(root, Sub(path, s.entries[n].0)) == Some(s.entries[n].1)
    ensures var (key, value) := s.entries[n];
      var c := Sub(path, key);
      AllBound(if c !in was || KeyOf(c) in force then requests + [Request(at[path], key, value.text, KeyOf(c))]
               else requests,
               at, Wanted(s, n + 1, path, was, force), root)
  {}

  lemma BoundGroup(requests: seq<Request>, more: seq<Request>, before: Places, at: Places, root: Source, s: Source,
                   n: nat, path: Path, was: View, force: set<string>)
    requires s.Group? && n < |s.entries| && s.entries[n].1.Group? && Distinct(s.entries)
    requires AllBound(requests, before, Wanted(s, n, path, was, force), root)
    requires StayBut(before, at, Sub(path, s.entries[n].0))
    requires var (key, e) := s.entries[n];
      AllBound(more, at, Wanted(e, |e.entries|, Sub(path, key), was, force), root)
    ensures AllBound(requests + more, at, Wanted(s, n + 1, path, was, force), root)
  {
    WantedApart(s, n, path, was, force);
    BoundStay(requests, before, at, Wanted(s, n, path, was, force), root, Sub(path, s.entries[n].0));
  }

  // ---------------------------------------------------------------- the merge

  lemma OutsideBut(v: View, w: View, path: Path, k: string)
    requires SameOutside(v, w, Sub(path, k))
    ensures SameBut(v, w, path)
  {
    forall p | !Below(path, p) ensures Agree(v, w, p) {
      if Under(Sub(path, k), p) { BelowUnder(path, k, p); }
    }
  }

  lemma ButBut(u: View, v: View, w: View, path: Path)
    requires SameBut(u, v, path) && SameBut(v, w, path)
    ensures SameBut(u, w, path)
  {
    forall p | !Below(path, p) ensures Agree(u, w, p) {
      assert Agree(u, v, p) && Agree(v, w, p);
    }
  }

  lemma CutOutside(v: View, c: Path)
    ensures SameOutside(v, Cut(v, c), c)
  {}

  lemma PutOutside(v: View, c: Path, e: Entry)
    ensures SameOutside(v, Put(v, c, e), c)
  {
    forall p | !Under(c, p) ensures Agree(v, Put(v, c, e), p) {}
  }

  lemma WithoutStays<T>(at: map<Path, T>, path: Path, k: string)
    ensures forall p :: p in at && !Below(path, p) ==>
              p in Without(at, Sub(path, k)) && Without(at, Sub(path, k))[p] == at[p]
  {
    forall p | p in at && !Below(path, p) ensures !Under(Sub(path, k), p) {
      if Under(Sub(path, k), p) { BelowUnder(path, k, p); }
    }
  }

  /** Under the group's keys the trees agree, and elsewhere below the path the second has nothing. */
  ghost predicate Trimmed(s: Source, path: Path, v: View, w: View)
    requires s.Group?
  {
    SameBut(v, w, path) && forall k :: HasKey(s, k) ==> SameUnder(v, w, Sub(path, k))
  }

  lemma TrimMore(s: Source, path: Path, u: View, v: View, k: string)
    requires s.Group? && !HasKey(s, k) && Trimmed(s, path, u, v)
    ensures Trimmed(s, path, u, Cut(v, Sub(path, k)))
  {
    var w := Cut(v, Sub(path, k));
    CutOutside(v, Sub(path, k));
    OutsideBut(v, w, path, k);
    ButBut(u, v, w, path);
    forall l | HasKey(s, l) ensures SameUnder(u, w, Sub(path, l)) {
      forall p | Under(Sub(path, l), p) ensures Agree(u, w, p) {
        Siblings(path, l, k, p);
        assert Agree(u, v, p) && Agree(v, w, p);
      }
    }
  }

  /** Deletes the keys that the source's group does not have. */
  method DeleteExtraKeys(s: Source, t: Localization, ghost at: Places, ghost path: Path) returns (ghost at': Places)
    requires s.Group? && Placed(at) && path in at && at[path] == t
    modifies t
    ensures Placed(at') && path in at' && at'[path] == t && at'.Values <= at.Values
    ensures StayBut(at, at', path)
    ensures Trimmed(s, path, old(ViewOf(at)), ViewOf(at'))
    ensures forall k :: k in t.entries ==> HasKey(s, k)
  {
    at' := at;
    var todo := t.entries.Keys;
    while todo != {}
      invariant Placed(at') && path in at' && at'[path] == t && at'.Values <= at.Values
      invariant StayBut(at, at', path)
      invariant Trimmed(s, path, old(ViewOf(at)), ViewOf(at'))
      invariant forall k :: k in t.entries && !HasKey(s, k) ==> k in todo
      decreases todo
    {
      var key :| key in todo;
      todo := todo - {key};
      if !HasKey(s, key) {
        BelowIsUnder(path, path);
        WithoutStays(at', path, key);
        TrimMore(s, path, old(ViewOf(at)), ViewOf(at'), key);
        at' := t.Delete(key, at', path);
      }
    }
  }

  lemma HalfStarts(s: Source, path: Path, was: View, merged: View, u: View, v: View)
    requires s.Group? && SameBelow(u, was, path) && Trimmed(s, path, u, v)
    requires forall k :: Sub(path, k) in v ==> HasKey(s, k)
    ensures Half(s, path, was, merged, v, 0)
  {
    forall i: nat | i < |s.entries| ensures SameUnder(v, was, Sub(path, s.entries[i].0)) {
      var k := s.entries[i].0;
      assert HasKey(s, k);
      forall p | Under(Sub(path, k), p) ensures Agree(v, was, p) {
        BelowUnder(path, k, p);
        assert Agree(u, was, p) && Agree(u, v, p);
      }
    }
  }

  lemma CreatedBelow(v: View, was: View, c: Path)
    requires IsTree(was) && (c !in was || was[c].Leaf?)
    ensures SameBelow(Put(v, c, Folder), was, c)
  {
    NothingBelow(was, c);
    forall p | Below(c, p) ensures Agree(Put(v, c, Folder), was, p) { BelowIsUnder(c, p); }
  }

  lemma UnderBelow(v: View, w: View, c: Path)
    requires SameUnder(v, w, c)
    ensures SameBelow(v, w, c) && Agree(v, w, c)
  {
    forall p | Below(c, p) ensures Agree(v, w, p) { BelowIsUnder(c, p); }
  }

  lemma OutsideThen(u: View, v: View, w: View, c: Path)
    requires SameOutside(u, v, c) && SameBut(v, w, c)
    ensures SameOutside(u, w, c) && Agree(v, w, c)
  {
    BelowIsUnder(c, c);
    forall p | !Under(c, p) ensures Agree(u, w, p) {
      BelowIsUnder(c, p);
      assert Agree(u, v, p) && Agree(v, w, p);
    }
  }

  lemma StayMore(a: Places, b: Places, c: Places, path: Path, k: string)
    requires StayBut(a, b, path) && StayBut(b, c, Sub(path, k))
    ensures StayBut(a, c, path)
  {
    forall p | p in a && !Below(path, p) ensures p in c && c[p] == a[p] {
      if Below(Sub(path, k), p) {
        BelowIsUnder(Sub(path, k), p);
        BelowUnder(path, k, p);
      }
    }
  }

  lemma ThroughChild(a: Places, b: Places, path: Path, k: string)
    requires StayBut(a, b, Sub(path, k)) && path in a
    ensures path in b && b[path] == a[path]
  {
    NotUnder(path, k);
    BelowIsUnder(Sub(path, k), path);
  }

  lemma StayTwice(a: Places, b: Places, c: Places, path: Path)
    requires StayBut(a, b, path) && StayBut(b, c, path)
    ensures StayBut(a, c, path)
  {}

  ghost function Opening(v: View, c: Path): View {
    if c in v && v[c] == Folder then v else Put(v, c, Folder)
  }

  lemma ChildReady(v: View, w: View, was: View, c: Path)
    requires IsTree(was) && SameUnder(v, was, c) && w == Opening(v, c)
    ensures SameBelow(w, was, c) && SameOutside(v, w, c)
  {
    UnderBelow(v, was, c);
    PutOutside(v, c, Folder);
    if !(c in v && v[c] == Folder) { CreatedBelow(v, was, c); }
  }

  /** Gets the object under a key, with an empty one put in place of a text or of nothing. */
  method ChildOf(t: Localization, key: string, ghost at: Places, ghost path: Path)
    returns (child: Localization, ghost at': Places)
    requires Placed(at) && path in at && at[path] == t
    modifies t
    ensures Placed(at') && fresh(at'.Values - at.Values)
    ensures Sub(path, key) in at' && at'[Sub(path, key)] == child && StayBut(at, at', Sub(path, key))
    ensures Sub(path, key) in ViewOf(at') && ViewOf(at')[Sub(path, key)] == Folder
    ensures ViewOf(at') == Opening(old(ViewOf(at)), Sub(path, key))
  {
    at' := at;
    SeenFrom(at, path, key);
    if key in t.entries && t.entries[key].Child? {
      child := t.entries[key].child;
    } else {
      forall p | p in at && !Below(Sub(path, key), p) ensures p == Sub(path, key) || !Under(Sub(path, key), p) {
        BelowIsUnder(Sub(path, key), p);
      }
      child, at' := t.Create(key, at, path);
      assert Sub(path, key) !in at;
    }
  }

  /** The first n entries of the group have been dealt with: the tree and the places before and now. */
  ghost predicate Progress(root: Source, s: Source, path: Path, was: View, force: set<string>,
                           at: Places, before: View, n: nat, now: Places, v: View, requests: seq<Request>)
    requires s.Group? && n <= |s.entries|
  {
    && StayBut(at, now, path) && SameBut(before, v, path)
    && Half(s, path, was, Merged(root, was), v, n)
    && AllBound(requests, now, Wanted(s, n, path, was, force), root)
  }

  /** The whole group has: below its path the tree is merged, and each request is one of the wanted messages'. */
  ghost predicate Processed(root: Source, s: Source, path: Path, was: View, force: set<string>,
                            at: Places, before: View, now: Places, v: View, requests: seq<Request>)
    requires s.Group?
  {
    && StayBut(at, now, path) && SameBut(before, v, path)
    && SameBelow(v, Merged(root, was), path)
    && AllBound(requests, now, Wanted(s, |s.entries|, path, was, force), root)
  }

  lemma AfterMessage(root: Source, s: Source, path: Path, was: View, force: set<string>,
                     at: Places, before: View, n: nat, now: Places, v: View, requests: seq<Request>)
    requires WellFormed(root) && Find(root, path) == Some(s) && s.Group? && n < |s.entries| && path in now
    requires Progress(root, s, path, was, force, at, before, n, now, v, requests) && s.entries[n].1.Message?
    ensures var (key, value) := s.entries[n];
      var c := Sub(path, key);
      Progress(root, s, path, was, force, at, before, n + 1, now, v,
               if c !in v || KeyOf(c) in force then requests + [Request(now[path], key, value.text, KeyOf(c))]
               else requests)
  {
    EntryFound(root, path, s, n);
    HalfMessage(root, s, path, was, v, n);
    BoundMessage(requests, now, root, s, n, path, was, force);
    assert SameUnder(v, was, Sub(path, s.entries[n].0));
    UnderBelow(v, was, Sub(path, s.entries[n].0));
  }

  lemma BeforeGroup(root: Source, s: Source, path: Path, was: View, force: set<string>,
                    at: Places, before: View, n: nat, now: Places, v: View, requests: seq<Request>)
    requires IsTree(was) && s.Group? && n < |s.entries|
    requires Progress(root, s, path, was, force, at, before, n, now, v, requests)
    ensures SameBelow(Opening(v, Sub(path, s.entries[n].0)), was, Sub(path, s.entries[n].0))
  {
    var c := Sub(path, s.entries[n].0);
    assert SameUnder(v, was, c);
    ChildReady(v, Opening(v, c), was, c);
  }

  lemma AfterGroup(root: Source, s: Source, path: Path, was: View, force: set<string>,
                   at: Places, before: View, n: nat, now: Places, v: View, requests: seq<Request>,
                   between: Places, after: Places, w: View, more: seq<Request>)
    requires WellFormed(root) && Find(root, path) == Some(s) && s.Group? && n < |s.entries| && IsTree(was)
    requires Progress(root, s, path, was, force, at, before, n, now, v, requests) && s.entries[n].1.Group?
    requires path in now
    requires var (key, e) := s.entries[n];
      var c := Sub(path, key);
      && StayBut(now, between, c)
      && Processed(root, e, c, was, force, between, Opening(v, c), after, w, more)
    ensures Progress(root, s, path, was, force, at, before, n + 1, after, w, requests + more)
    ensures path in after && after[path] == now[path]
  {
    var (key, e) := s.entries[n];
    var c := Sub(path, key);
    assert IsGroup(root, path) && SameUnder(v, was, c);
    ChildReady(v, Opening(v, c), was, c);
    OutsideThen(v, Opening(v, c), w, c);
    HalfGroup(root, s, path, was, v, n, w);
    OutsideBut(v, w, path, key);
    ButBut(before, v, w, path);
    StayTwice(now, between, after, c);
    StayMore(at, now, after, path, key);
    ThroughChild(now, after, path, key);
    BoundGroup(requests, more, now, after, root, s, n, path, was, force);
  }

  method Prepare(ghost root: Source, s: Source, t: Localization, ghost force: set<string>,
                 ghost was: View, ghost at: Places, ghost path: Path)
    returns (ghost at': Places)
    requires s.Group? && Placed(at) && path in at && at[path] == t && SameBelow(ViewOf(at), was, path)
    modifies t
    ensures Placed(at') && path in at' && at'[path] == t && at'.Values <= at.Values
    ensures Progress(root, s, path, was, force, at, old(ViewOf(at)), 0, at', ViewOf(at'), [])
  {
    ghost var before := ViewOf(at);
    at' := DeleteExtraKeys(s, t, at, path);
    StartProgress(root, s, path, was, force, at, before, at');
  }

  /** Brings one group of the target in line with the source, and asks for what needs translating. All the
      objects are among own, and the new ones are added to it. */
  method Process(ghost root: Source, s: Source, t: Localization, prefix: string, force: set<string>,
                 ghost was: View, ghost at: Places, ghost path: Path, ghost own: set<Localization>)
    returns (requests: seq<Request>, ghost at': Places, ghost own': set<Localization>)
    requires WellFormed(root) && Find(root, path) == Some(s) && s.Group?
    requires Placed(at) && path in at && at[path] == t && at.Values <= own && prefix == KeyOf(path)
    requires IsTree(was) && SameBelow(ViewOf(at), was, path)
    modifies own
    ensures Placed(at') && at'.Values <= own' && own <= own' && fresh(own' - own)
    ensures Processed(root, s, path, was, force, at, old(ViewOf(at)), at', ViewOf(at'), requests)
    decreases s, 1
  {
    ghost var before := ViewOf(at);
    at' := Prepare(root, s, t, force, was, at, path);
    requests, own' := [], own;
    for i := 0 to |s.entries|
      invariant Placed(at') && path in at' && at'[path] == t && at'.Values <= own'
      invariant own <= own' && fresh(own' - own)
      invariant Progress(root, s, path, was, force, at, before, i, at', ViewOf(at'), requests)
    {
      requests, at', own' := ProcessEntry(root, s, i, t, prefix, force, was, at, before, path, requests, at', own');
    }
    EndProgress(root, s, path, was, force, at, before, at', requests);
  }

  lemma EndProgress(root: Source, s: Source, path: Path, was: View, force: set<string>,
                    at: Places, before: View, now: Places, requests: seq<Request>)
    requires WellFormed(root) && Find(root, path) == Some(s) && s.Group? && Placed(now)
    requires Progress(root, s, path, was, force, at, before, |s.entries|, now, ViewOf(now), requests)
    ensures Processed(root, s, path, was, force, at, before, now, ViewOf(now), requests)
  {
    PlacedIsTree(now);
    HalfDone(root, s, path, was, ViewOf(now));
  }

  lemma StartProgress(root: Source, s: Source, path: Path, was: View, force: set<string>,
                      at: Places, before: View, now: Places)
    requires s.Group? && Placed(now) && path in now && StayBut(at, now, path)
    requires forall k :: k in now[path].entries ==> HasKey(s, k)
    requires SameBelow(before, was, path) && Trimmed(s, path, before, ViewOf(now))
    ensures Progress(root, s, path, was, force, at, before, 0, now, ViewOf(now), [])
  {
    forall k ensures k in now[path].entries <==> Sub(path, k) in ViewOf(now) { SeenFrom(now, path, k); }
    HalfStarts(s, path, was, Merged(root, was), before, ViewOf(now));
  }

  method ProcessEntry(ghost root: Source, s: Source, n: nat, t: Localization, prefix: string, force: set<string>,
                      ghost was: View, ghost at: Places, ghost before: View, ghost path: Path,
                      asked: seq<Request>, ghost now: Places, ghost own: set<Localization>)
    returns (requests: seq<Request>, ghost at': Places, ghost own': set<Localization>)
    requires WellFormed(root) && Find(root, path) == Some(s) && s.Group? && n < |s.entries| && IsTree(was)
    requires Placed(now) && path in now && now[path] == t && now.Values <= own && prefix == KeyOf(path)
    requires Progress(root, s, path, was, force, at, before, n, now, ViewOf(now), asked)
    modifies own
    ensures Placed(at') && path in at' && at'[path] == t && at'.Values <= own' && own <= own' && fresh(own' - own)
    ensures Progress(root, s, path, was, force, at, before, n + 1, at', ViewOf(at'), requests)
    decreases s, 0
  {
    var (key, value) := s.entries[n];
    var currentPath := Joined(prefix, key);
    ghost var v := ViewOf(now);
    SeenFrom(now, path, key);
    EntryFound(root, path, s, n);
    own' := own;
    if value.Message? {
      AfterMessage(root, s, path, was, force, at, before, n, now, v, asked);
      requests, at' := asked, now;
      if key !in t.entries || currentPath in force {
        requests := asked + [Request(t, key, value.text, currentPath)];
      }
    } else {
      var child, more;
      BeforeGroup(root, s, path, was, force, at, before, n, now, v, asked);
      child, at' := ChildOf(t, key, now, path);
      ghost var between := at';
      own' := own + (between.Values - now.Values);
      more, at', own' := Process(root, value, child, currentPath, force, was, between, Sub(path, key), own');
      AfterGroup(root, s, path, was, force, at, before, n, now, v, asked, between, at', ViewOf(at'), more);
      requests := asked + more;
    }
  }

  /** Brings the target in line with the source; the tree is then the merged one, and each request names
      the object and key of one wanted message. */
  method BuildLocalizationMap(source: Source, target: Localization, force: set<string>, ghost at: Places)
    returns (requests: seq<Request>, ghost at': Places)
    requires WellFormed(source) && Placed(at) && at[Root] == target
    modifies at.Values
    ensures Placed(at') && fresh(at'.Values - at.Values) && at'[Root] == target
    ensures ViewOf(at') == Merged(source, old(ViewOf(at)))
    ensures AllBound(requests, at', Wanted(source, |source.entries|, Root, old(ViewOf(at)), force), source)
  {
    ghost var v := ViewOf(at);
    PlacedIsTree(at);
    forall p | Below(Root, p) ensures Agree(v, v, p) {}
    ghost var own;
    requests, at', own := Process(source, source, target, "", force, v, at, Root, at.Values);
    assert at'.Values - at.Values <= own - at.Values;
    PlacedIsTree(at');
    SameAtRoot(source, ViewOf(at'), v);
  }

  lemma SameAtRoot(source: Source, w: View, v: View)
    requires source.Group? && Root in w && w[Root] == Folder && SameBelow(w, Merged(source, v), Root)
    ensures w == Merged(source, v)
  {
    var merged := Merged(source, v);
    forall p ensures Agree(w, merged, p) {
      if p.Sub? { RootAbove(p.parent); }
    }
    forall p ensures p in w <==> p in merged
             ensures p in w ==> w[p] == merged[p]
    {
      assert Agree(w, merged, p);
    }
    assert w == merged;
  }

  // ---------------------------------------------------------------- writing the translations

  /** The tree after the first n texts have been written at their paths. */
  ghost function Fill(v: View, paths: seq<Path>, texts: seq<string>, n: nat): View
    requires n <= |texts| && n <= |paths|
  {
    if n == 0 then v else Put(Fill(v, paths, texts, n - 1), paths[n - 1], Leaf(texts[n - 1]))
  }

  ghost predicate AllMessages(root: Source, paths: seq<Path>) {
    forall i :: 0 <= i < |paths| ==> IsMessage(root, paths[i])
  }

  /** What the translation service is sent. */
  ghost function Asked(root: Source, paths: seq<Path>): seq<string>
    requires AllMessages(root, paths)
  {
    seq(|paths|, i requires 0 <= i < |paths| => AddIgnoreTags(Find(root, paths[i]).value.text))
  }

  function Untagged(answers: seq<string>): seq<string> {
    seq(|answers|, i requires 0 <= i < |answers| => RemoveIgnoreTags(answers[i]))
  }

  /** The service's answer, where one is needed. */
  ghost function Answer(root: Source, paths: seq<Path>,
                        localizationFn: seq<string> -> Option<seq<string>>): Option<seq<string>>
    requires AllMessages(root, paths)
  {
    if paths == [] then Some([]) else localizationFn(Asked(root, paths))
  }

  ghost predicate Translates(source: Source, v: View, force: set<string>,
                             localizationFn: seq<string> -> Option<seq<string>>, success: bool, w: View)
    requires WellFormed(source)
  {
    var paths := AllWanted(source, v, force);
    && AllMessages(source, paths)
    && var answer := Answer(source, paths, localizationFn);
    var texts := if answer == None then [] else Untagged(answer.value);
    && success == (answer.Some? && |texts| <= |paths|)
    && w == Fill(Merged(source, v), paths, texts, Min(|texts|, |paths|))
  }

  lemma MessageNotAbove(root: Source, p: Path, q: Path)
    requires IsMessage(root, p) && IsMessage(root, q) && p != q
    ensures !Under(p, q)
  {
    if Under(p, q) { GroupsAbove(root, p, q); }
  }

  lemma BoundAfterWrite(requests: seq<Request>, at: Places, at': Places, paths: seq<Path>, root: Source, i: nat)
    requires i < |requests| && AllBound(requests, at, paths, root) && at' == Without(at, paths[i])
    ensures AllBound(requests, at', paths, root)
  {
    assert Bound(requests[i], at, paths[i], root);
    forall j | 0 <= j < |paths| ensures Bound(requests[j], at', paths[j], root) {
      assert Bound(requests[j], at, paths[j], root);
      NotUnder(paths[j].parent, paths[j].key);
      if Under(paths[i], paths[j].parent) { GroupsAbove(root, paths[i], paths[j]); }
    }
  }

  lemma RequestsAsk(requests: seq<Request>, at: Places, paths: seq<Path>, root: Source)
    requires AllBound(requests, at, paths, root)
    ensures AllMessages(root, paths)
    ensures seq(|requests|, i requires 0 <= i < |requests| => AddIgnoreTags(requests[i].text)) == Asked(root, paths)
  {
    forall i | 0 <= i < |paths|
      ensures IsMessage(root, paths[i]) && Find(root, paths[i]).value.text == requests[i].text
    {
      assert Bound(requests[i], at, paths[i], root);
    }
  }

  ghost predicate Wrote(v: View, p: Path, text: string, w: View) {
    w == Put(v, p, Leaf(text))
  }

  /** The trees between the first n writes. */
  ghost predicate WroteEach(views: seq<View>, paths: seq<Path>, texts: seq<string>, n: nat) {
    && |views| == n + 1 && n <= |paths| && n <= |texts|
    && forall i :: 0 <= i < n ==> Wrote(views[i], paths[i], texts[i], views[i + 1])
  }

  lemma {:induction false} WroteIsFill(views: seq<View>, paths: seq<Path>, texts: seq<string>, n: nat)
    requires WroteEach(views, paths, texts, n)
    ensures views[n] == Fill(views[0], paths, texts, n)
  {
    if n > 0 {
      assert Wrote(views[n - 1], paths[n - 1], texts[n - 1], views[n - 1 + 1]);
      assert WroteEach(views[..n], paths, texts, n - 1) by {
        forall i | 0 <= i < n - 1 ensures Wrote(views[..n][i], paths[i], texts[i], views[..n][i + 1]) {
          assert Wrote(views[i], paths[i], texts[i], views[i + 1]);
        }
      }
      WroteIsFill(views[..n], paths, texts, n - 1);
    }
  }

  /** The first n texts have been written, one after another, into the tree that was v. */
  ghost predicate Localized(requests: seq<Request>, root: Source, paths: seq<Path>, texts: seq<string>, v: View,
                            n: nat, at: Places, views: seq<View>)
    reads at.Values
  {
    && AllBound(requests, at, paths, root)
    && WroteEach(views, paths, texts, n) && views[0] == v && views[n] == ViewOf(at)
  }

  lemma WroteMore(views: seq<View>, paths: seq<Path>, texts: seq<string>, n: nat, w: View)
    requires WroteEach(views, paths, texts, n) && n < |paths| && n < |texts|
    requires w == Put(views[n], paths[n], Leaf(texts[n]))
    ensures WroteEach(views + [w], paths, texts, n + 1) && (views + [w])[0] == views[0] && (views + [w])[n + 1] == w
  {}

  /** Writes a value where a request asked for one. */
  method Localize(requests: seq<Request>, index: nat, value: string, ghost root: Source, ghost paths: seq<Path>,
                  ghost texts: seq<string>, ghost v: View, ghost at: Places, ghost views: seq<View>)
    returns (ghost at': Places, ghost views': seq<View>)
    requires index < |requests| && index < |texts| && value == texts[index]
    requires Placed(at) && Localized(requests, root, paths, texts, v, index, at, views)
    modifies at.Values
    ensures Placed(at') && at'[Root] == at[Root] && at'.Values <= at.Values
    ensures Localized(requests, root, paths, texts, v, index + 1, at', views')
  {
    assert Bound(requests[index], at, paths[index], root);
    at' := requests[index].node.Write(requests[index].key, value, at, paths[index].parent);
    BoundAfterWrite(requests, at, at', paths, root, index);
    WroteMore(views, paths, texts, index, ViewOf(at'));
    views' := views + [ViewOf(at')];
  }

  /** Writes the first n answers, answer i at request i. */
  method LocalizeAll(requests: seq<Request>, answers: seq<string>, n: nat,
                     ghost root: Source, ghost paths: seq<Path>, ghost v: View, ghost at: Places)
    returns (ghost at': Places, ghost views: seq<View>)
    requires Placed(at) && AllBound(requests, at, paths, root) && n <= |answers| && n <= |requests|
    requires v == ViewOf(at)
    modifies at.Values
    ensures Placed(at') && at'[Root] == at[Root]
    ensures Localized(requests, root, paths, Untagged(answers), v, n, at', views)
  {
    at', views := at, [v];
    for i := 0 to n
      invariant Placed(at') && at'[Root] == at[Root] && at'.Values <= at.Values
      invariant Localized(requests, root, paths, Untagged(answers), v, i, at', views)
    {
      at', views := Localize(requests, i, RemoveIgnoreTags(answers[i]), root, paths, Untagged(answers), v, at', views);
    }
  }

  /** Brings the target in line with the source and writes the missing translations into it. */
  method TranslateLanguage(source: Source, target: Localization, force: set<string>,
                           localizationFn: seq<string> -> Option<seq<string>>, ghost at: Places)
    returns (success: bool, ghost at': Places)
    requires WellFormed(source) && Placed(at) && at[Root] == target
    modifies at.Values
    ensures Placed(at') && at'[Root] == target
    ensures Translates(source, old(ViewOf(at)), force, localizationFn, success, ViewOf(at'))
  {
    ghost var v := ViewOf(at);
    ghost var paths := Wanted(source, |source.entries|, Root, v, force);
    var requests;
    requests, at' := BuildLocalizationMap(source, target, force, at);
    RequestsAsk(requests, at', paths, source);
    if |requests| > 0 {
      var text := seq(|requests|, i requires 0 <= i < |requests| => AddIgnoreTags(requests[i].text));
      var answer := localizationFn(text);
      if answer == None { return false, at'; }
      // The first answer without a request fails, with the others written.
      var n := Min(|answer.value|, |requests|);
      ghost var views;
      at', views := LocalizeAll(requests, answer.value, n, source, paths, ViewOf(at'), at');
      WroteIsFill(views, paths, Untagged(answer.value), n);
      success := |answer.value| <= |requests|;
    } else {
      success := true;
    }
  }

  // ---------------------------------------------------------------- what is asked for

  /** Only messages that the target lacks or that are forced are wanted. */
  lemma {:induction false} OnlyRequested(root: Source, s: Source, n: nat, path: Path, v: View, force: set<string>)
    requires WellFormed(root) && Find(root, path) == Some(s) && s.Group? && n <= |s.entries|
    ensures forall i :: 0 <= i < |Wanted(s, n, path, v, force)| ==>
              Requested(root, v, force, Wanted(s, n, path, v, force)[i])
    decreases s, n
  {
    if n > 0 {
      OnlyRequested(root, s, n - 1, path, v, force);
      EntryFound(root, path, s, n - 1);
      var (k, e) := s.entries[n - 1];
      if e.Group? { OnlyRequested(root, e, |e.entries|, Sub(path, k), v, force); }
    }
  }

  lemma {:induction false} WantedGrows(s: Source, n: nat, m: nat, path: Path, v: View, force: set<string>)
    requires s.Group? && n <= m <= |s.entries|
    ensures Wanted(s, n, path, v, force) <= Wanted(s, m, path, v, force)
  {
    if n < m { WantedGrows(s, n, m - 1, path, v, force); }
  }

  lemma WantedHolds(s: Source, i: nat, path: Path, v: View, force: set<string>, p: Path)
    requires s.Group? && i < |s.entries|
    requires var (k, e) := s.entries[i];
      if e.Group? then p in Wanted(e, |e.entries|, Sub(path, k), v, force)
      else p == Sub(path, k) && (p !in v || KeyOf(p) in force)
    ensures p in Wanted(s, |s.entries|, path, v, force)
  {
    var before, next, all := Wanted(s, i, path, v, force), Wanted(s, i + 1, path, v, force),
        Wanted(s, |s.entries|, path, v, force);
    WantedGrows(s, i + 1, |s.entries|, path, v, force);
    assert p in next;
    assert forall j :: 0 <= j < |next| ==> all[j] == next[j];
  }

  /** Every such message below a group is. */
  lemma {:induction false} AllRequested(root: Source, s: Source, path: Path, v: View, force: set<string>, p: Path)
    requires WellFormed(root) && Find(root, path) == Some(s) && s.Group?
    requires Below(path, p) && Requested(root, v, force, p)
    ensures p in Wanted(s, |s.entries|, path, v, force)
    decreases s
  {
    var k := KeyBelow(path, p);
    if !HasKey(s, k) { NothingElse(root, path, s, k, p); }
    var i: nat :| i < |s.entries| && s.entries[i].0 == k;
    var e := s.entries[i].1;
    EntryFound(root, path, s, i);
    if p != Sub(path, k) {
      GroupsAbove(root, Sub(path, k), p);
      BelowIsUnder(Sub(path, k), p);
      AllRequested(root, e, Sub(path, k), v, force, p);
    }
    WantedHolds(s, i, path, v, force, p);
  }

  lemma {:induction false} WantedOnce(s: Source, n: nat, path: Path, v: View, force: set<string>, root: Source)
    requires WellFormed(root) && Find(root, path) == Some(s) && s.Group? && n <= |s.entries|
    ensures forall i, j :: 0 <= i < j < |Wanted(s, n, path, v, force)| ==>
              Wanted(s, n, path, v, force)[i] != Wanted(s, n, path, v, force)[j]
    decreases s, n
  {
    if n > 0 {
      assert IsGroup(root, path);
      WantedOnce(s, n - 1, path, v, force, root);
      WantedApart(s, n - 1, path, v, force);
      EntryFound(root, path, s, n - 1);
      var (k, e) := s.entries[n - 1];
      var before, all := Wanted(s, n - 1, path, v, force), Wanted(s, n, path, v, force);
      if e.Group? {
        WantedOnce(e, |e.entries|, Sub(path, k), v, force, root);
        WantedUnder(e, |e.entries|, Sub(path, k), v, force);
        var inner := Wanted(e, |e.entries|, Sub(path, k), v, force);
        forall j | 0 <= j < |inner| ensures Under(Sub(path, k), inner[j]) {
          assert UnderFirst(e, |e.entries|, Sub(path, k), inner[j]);
          var m :| 0 <= m < |e.entries| && Under(Sub(Sub(path, k), e.entries[m].0), inner[j]);
          BelowUnder(Sub(path, k), e.entries[m].0, inner[j]);
          BelowIsUnder(Sub(path, k), inner[j]);
        }
      }
    }
  }

  ghost function AllWanted(source: Source, v: View, force: set<string>): seq<Path>
    requires source.Group?
  {
    Wanted(source, |source.entries|, Root, v, force)
  }

  /** The requests are the wanted messages, each once. */
  lemma WantedExactly(source: Source, v: View, force: set<string>)
    requires WellFormed(source)
    ensures forall p :: p in AllWanted(source, v, force) <==> Requested(source, v, force, p)
    ensures forall i, j :: 0 <= i < j < |AllWanted(source, v, force)| ==>
              AllWanted(source, v, force)[i] != AllWanted(source, v, force)[j]
    ensures AllMessages(source, AllWanted(source, v, force))
  {
    OnlyRequested(source, source, |source.entries|, Root, v, force);
    WantedOnce(source, |source.entries|, Root, v, force, source);
    forall p | Requested(source, v, force, p) ensures p in AllWanted(source, v, force) {
      RootAbove(p.parent);
      AllRequested(source, source, Root, v, force, p);
    }
  }

  // ---------------------------------------------------------------- the translated tree

  ghost predicate Separate(paths: seq<Path>) {
    forall i, j :: 0 <= i < |paths| && 0 <= j < |paths| && i != j ==> !Under(paths[i], paths[j])
  }

  lemma {:induction false} FillMisses(v: View, paths: seq<Path>, texts: seq<string>, n: nat, p: Path)
    requires n <= |texts| && n <= |paths|
    requires forall i :: 0 <= i < n ==> !Under(paths[i], p)
    ensures Agree(Fill(v, paths, texts, n), v, p)
  {
    if n > 0 { FillMisses(v, paths, texts, n - 1, p); }
  }

  lemma {:induction false} FillHits(v: View, paths: seq<Path>, texts: seq<string>, n: nat, i: nat)
    requires i < n <= |texts| && n <= |paths| && Separate(paths)
    ensures paths[i] in Fill(v, paths, texts, n) && Fill(v, paths, texts, n)[paths[i]] == Leaf(texts[i])
  {
    if i < n - 1 { FillHits(v, paths, texts, n - 1, i); }
  }

  lemma {:induction false} FillClears(v: View, paths: seq<Path>, texts: seq<string>, n: nat, i: nat, p: Path)
    requires i < n <= |texts| && n <= |paths| && Separate(paths)
    requires Under(paths[i], p) && p != paths[i]
    ensures p !in Fill(v, paths, texts, n)
  {
    if i < n - 1 {
      FillClears(v, paths, texts, n - 1, i, p);
      if p == paths[n - 1] { assert false; }
    }
  }

  lemma WantedSeparate(source: Source, v: View, force: set<string>)
    requires WellFormed(source)
    ensures Separate(AllWanted(source, v, force)) && AllMessages(source, AllWanted(source, v, force))
  {
    var paths := AllWanted(source, v, force);
    WantedExactly(source, v, force);
    forall i, j | 0 <= i < |paths| && 0 <= j < |paths| && i != j ensures !Under(paths[i], paths[j]) {
      assert IsMessage(source, paths[i]) && IsMessage(source, paths[j]);
      MessageNotAbove(source, paths[i], paths[j]);
    }
  }

  /** The tree after one answer for every request. */
  ghost function Translated(source: Source, v: View, force: set<string>, texts: seq<string>): View
    requires WellFormed(source) && |texts| == |AllWanted(source, v, force)|
  {
    Fill(Merged(source, v), AllWanted(source, v, force), texts, |texts|)
  }

  /** What the translated tree has at a path. */
  lemma TranslatedAt(source: Source, v: View, force: set<string>, texts: seq<string>, p: Path)
    requires WellFormed(source) && |texts| == |AllWanted(source, v, force)|
    ensures var w := Translated(source, v, force, texts);
      var paths := AllWanted(source, v, force);
      && (IsGroup(source, p) ==> p in w && w[p] == Folder)
      && (IsMessage(source, p) && Requested(source, v, force, p) ==>
            exists i :: 0 <= i < |paths| && paths[i] == p && p in w && w[p] == Leaf(texts[i]))
      && (IsMessage(source, p) && !Requested(source, v, force, p) ==> p in w && p in v && w[p] == v[p])
      && (Find(source, p) == None && p in w ==> Covered(source, p) && p in v && w[p] == v[p])
  {
    var w, paths := Translated(source, v, force, texts), AllWanted(source, v, force);
    WantedExactly(source, v, force);
    WantedSeparate(source, v, force);
    if Requested(source, v, force, p) {
      var i :| 0 <= i < |paths| && paths[i] == p;
      FillHits(Merged(source, v), paths, texts, |texts|, i);
    } else if Find(source, p).Some? {
      forall i | 0 <= i < |paths| ensures !Under(paths[i], p) {
        if Under(paths[i], p) { GroupsAbove(source, paths[i], p); }
      }
      FillMisses(Merged(source, v), paths, texts, |texts|, p);
      if IsMessage(source, p) { MessageMerged(source, p, p); }
    } else {
      if i :| 0 <= i < |paths| && Under(paths[i], p) {
        FillClears(Merged(source, v), paths, texts, |texts|, i, p);
      } else {
        FillMisses(Merged(source, v), paths, texts, |texts|, p);
      }
    }
  }

  /** The source's keys, with groups where it has groups. */
  ghost predicate KeysOfSource(source: Source, w: View) {
    forall p {:trigger SameKind(source, w, p)} :: SameKind(source, w, p)
  }

  ghost predicate SameKind(source: Source, w: View, p: Path) {
    (p in w <==> Find(source, p).Some?) && (p in w ==> (w[p] == Folder <==> IsGroup(source, p)))
  }

  /** A message that is not forced stands on an object of the target. */
  ghost predicate Conflict(source: Source, v: View, force: set<string>, p: Path) {
    IsMessage(source, p) && p in v && v[p] == Folder && KeyOf(p) !in force
  }

  /** The target ends up with exactly the source's keys, unless an unforced message stands on an object. */
  lemma KeysMatchExactly(source: Source, v: View, force: set<string>, texts: seq<string>)
    requires WellFormed(source) && IsTree(v) && |texts| == |AllWanted(source, v, force)|
    ensures KeysOfSource(source, Translated(source, v, force, texts)) <==> !exists p :: Conflict(source, v, force, p)
  {
    var w := Translated(source, v, force, texts);
    if p :| Conflict(source, v, force, p) {
      TranslatedAt(source, v, force, texts, p);
      assert !SameKind(source, w, p);
    } else {
      forall p ensures SameKind(source, w, p) {
        TranslatedAt(source, v, force, texts, p);
        assert !Conflict(source, v, force, p);
        if Find(source, p) == None && p in w {
          NothingUnderTexts(source, v, force, texts, p);
          assert false;
        }
      }
    }
  }

  /** A message whose key is an object in the target: the object stays. */
  lemma ConflictStays()
    ensures var source, v: View := Group([("a", Message("text"))]), imap[Root := Folder, Sub(Root, "a") := Folder];
      && WellFormed(source) && IsTree(v) && Conflict(source, v, {}, Sub(Root, "a"))
      && AllWanted(source, v, {}) == []
      && !KeysOfSource(source, Translated(source, v, {}, []))
  {
    var source, v: View := Group([("a", Message("text"))]), imap[Root := Folder, Sub(Root, "a") := Folder];
    OneMessage(source, "a", "text");
    forall p ensures InFolder(v, p) {}
    assert Wanted(source, 0, Root, v, {}) == [] && AllWanted(source, v, {}) == [];
    assert Conflict(source, v, {}, Sub(Root, "a"));
    KeysMatchExactly(source, v, {}, []);
  }

  lemma OneMessage(source: Source, k: string, text: string)
    requires source == Group([(k, Message(text))])
    ensures WellFormed(source) && IsMessage(source, Sub(Root, k))
  {
    forall p | IsGroup(source, p) ensures Distinct(Find(source, p).value.entries) { OnlyGroup(source, k, text, p); }
    assert Lookup(source.entries, k) == Some(Message(text));
  }

  lemma {:induction false} OnlyGroup(source: Source, k: string, text: string, p: Path)
    requires source == Group([(k, Message(text))]) && IsGroup(source, p)
    ensures p == Root
  {
    if p != Root {
      OnlyGroup(source, k, text, p.parent);
      LookupOnly(source.entries, p.key);
    }
  }

  lemma {:induction false} CoveringMessage(source: Source, p: Path) returns (c: Path)
    requires Covered(source, p)
    ensures IsMessage(source, c) && Under(c, p)
  {
    if IsMessage(source, p) { c := p; } else { c := CoveringMessage(source, p.parent); }
  }

  /** What the source does not have is left only below an unforced message on an object. */
  lemma NothingUnderTexts(source: Source, v: View, force: set<string>, texts: seq<string>, p: Path)
    requires WellFormed(source) && IsTree(v) && |texts| == |AllWanted(source, v, force)|
    requires Find(source, p) == None && p in Translated(source, v, force, texts)
    ensures exists c :: Conflict(source, v, force, c) && Under(c, p)
  {
    var paths := AllWanted(source, v, force);
    TranslatedAt(source, v, force, texts, p);
    var c := CoveringMessage(source, p);
    Unbroken(v, c, p);
    if KeyOf(c) in force {
      WantedExactly(source, v, force);
      WantedSeparate(source, v, force);
      assert Requested(source, v, force, c) && c in paths;
      var i :| 0 <= i < |paths| && paths[i] == c;
      FillClears(Merged(source, v), paths, texts, |texts|, i, p);
    }
    assert Conflict(source, v, force, c);
  }

  /** Answer i is at the key of request i; a text that is not forced stays as it was. */
  lemma TextsInPlace(source: Source, v: View, force: set<string>, texts: seq<string>)
    requires WellFormed(source) && |texts| == |AllWanted(source, v, force)|
    ensures var w := Translated(source, v, force, texts);
      var paths := AllWanted(source, v, force);
      && (forall i :: 0 <= i < |paths| ==> paths[i] in w && w[paths[i]] == Leaf(texts[i]))
      && (forall p :: IsMessage(source, p) && p in v && KeyOf(p) !in force ==> p in w && w[p] == v[p])
  {
    var paths := AllWanted(source, v, force);
    WantedSeparate(source, v, force);
    forall i | 0 <= i < |paths|
      ensures paths[i] in Translated(source, v, force, texts)
              && Translated(source, v, force, texts)[paths[i]] == Leaf(texts[i])
    {
      FillHits(Merged(source, v), paths, texts, |texts|, i);
    }
    forall p | IsMessage(source, p) && p in v && KeyOf(p) !in force
      ensures p in Translated(source, v, force, texts) && Translated(source, v, force, texts)[p] == v[p]
    {
      TranslatedAt(source, v, force, texts, p);
    }
  }

  /** A second run without forced keys asks for nothing and leaves the tree as it is. */
  lemma SecondRunIsIdle(source: Source, v: View, force: set<string>, texts: seq<string>)
    requires WellFormed(source) && |texts| == |AllWanted(source, v, force)|
    ensures var w := Translated(source, v, force, texts);
      AllWanted(source, w, {}) == [] && Merged(source, w) == w
  {
    var w := Translated(source, v, force, texts);
    OnlyRequested(source, source, |source.entries|, Root, w, {});
    if AllWanted(source, w, {}) != [] {
      TranslatedAt(source, v, force, texts, AllWanted(source, w, {})[0]);
      assert false;
    }
    forall p ensures p in Merged(source, w) <==> p in w
             ensures p in w ==> Merged(source, w)[p] == w[p]
    {
      TranslatedAt(source, v, force, texts, p);
      if IsMessage(source, p) { MessageMerged(source, p, p); }
    }
    assert Merged(source, w) == w;
  }

  /** A service that returns its texts as they are puts the source's own texts in place, whatever they contain. */
  lemma UnchangedAnswers(source: Source, paths: seq<Path>)
    requires AllMessages(source, paths)
    ensures forall i :: 0 <= i < |paths| ==> Untagged(Asked(source, paths))[i] == Find(source, paths[i]).value.text
  {
    forall i | 0 <= i < |paths| ensures Untagged(Asked(source, paths))[i] == Find(source, paths[i]).value.text {
      RoundTrip(Find(source, paths[i]).value.text);
    }
  }

  ghost predicate MessagesTranslated(source: Source, paths: seq<Path>, service: DeeplApi.Service, w: View)
    requires AllMessages(source, paths)
  {
    var asked := Asked(source, paths);
    && DeeplApi.Answers(service, asked, DeeplApi.Chunks(asked))
    && forall i :: 0 <= i < |paths| ==>
         && paths[i] in w
         && w[paths[i]] == Leaf(RemoveIgnoreTags(DeeplApi.CoerceTranslation(DeeplApi.AnswerTo(service, asked, i))))
  }

  /** With a service that answers every chunk text for text, a run succeeds and the key of each wanted message
      holds the service's answer to that message. */
  lemma RunTranslates(source: Source, v: View, force: set<string>, service: DeeplApi.Service, success: bool, w: View)
    requires WellFormed(source)
    requires Translates(source, v, force, text => DeeplApi.Translations(service, text), success, w)
    requires var asked := Asked(source, AllWanted(source, v, force));
      DeeplApi.Answers(service, asked, DeeplApi.Chunks(asked))
    ensures success && MessagesTranslated(source, AllWanted(source, v, force), service, w)
    ensures exists texts :: |texts| == |AllWanted(source, v, force)| && w == Translated(source, v, force, texts)
  {
    var paths := AllWanted(source, v, force);
    var asked := Asked(source, paths);
    DeeplApi.TranslatedInPlace(service, asked);
    var texts := if paths == [] then [] else Untagged(DeeplApi.Translations(service, asked).value);
    TextsInPlace(source, v, force, texts);
    assert w == Translated(source, v, force, texts);
  }
}
