/** The directories below `Cat/`, and how a rename or a merge moves what is in them. */
module CategoryTrees {
  import opened Collections
  import opened CategoryEdits
  import opened CategoryPaths
  import opened CatManifests

  /**
    Category directories and junctions. `dirs` holds at least the directories with junctions; a directory exists when a
    known one lies at or below it. The junctions of an item are given by the category directories they are in, and all
    have the name of the item's directory, `names(id)`.
   */
  datatype CatTree = CatTree(dirs: set<Category>, links: Entries)

  ghost predicate WellFormed(t: CatTree, names: ItemId -> string) {
    && (forall id, c :: id in t.links && c in t.links[id] ==> c in t.dirs)
    && (forall id :: '/' !in names(id))
  }

  predicate Exists(t: CatTree, p: Category) {
    exists d :: d in t.dirs && Under(p, d)
  }

  function Child(p: Category, e: string): (r: Category) {
    p + "/" + e
  }

  /** The part in front of the first slash. */
  function FirstPart(s: string): (r: string)
    ensures '/' !in r
  {
    if s == "" || s[0] == '/' then "" else [s[0]] + FirstPart(s[1..])
  }

  /** The entry of directory `p` through which `c` is reached; for `p` itself that is a junction named `n`. */
  function EntryOf(p: Category, n: string, c: Category): (r: string)
    requires Under(p, c)
  {
    if c == p then n else FirstPart(c[|p| + 1..])
  }

  /** Directory `p` has an entry named `e`: a junction or a subdirectory. */
  predicate HasEntry(t: CatTree, names: ItemId -> string, p: Category, e: string) {
    || (exists id :: id in t.links && names(id) == e && p in t.links[id])
    || Exists(t, Child(p, e))
  }

  function EntryNames(t: CatTree, names: ItemId -> string, p: Category): (r: set<string>) {
    (set id | id in t.links && p in t.links[id] :: names(id))
    + (set d | d in t.dirs && Under(p, d) && d != p :: EntryOf(p, "", d))
  }

  lemma {:induction false} FirstPartOf(e: string, tail: string)
    requires '/' !in e && (tail == "" || tail[0] == '/')
    ensures FirstPart(e + tail) == e
  {
    if e == "" {
      assert e + tail == tail;
    } else {
      assert (e + tail)[1..] == e[1..] + tail;
      FirstPartOf(e[1..], tail);
    }
  }

  lemma {:induction false} FirstPartSplit(s: string)
    ensures FirstPart(s) <= s && (s == FirstPart(s) || FirstPart(s) + "/" <= s)
  {
    if s != "" && s[0] != '/' {
      FirstPartSplit(s[1..]);
      var f := FirstPart(s[1..]);
      if s[1..] != f { assert s == [s[0]] + s[1..] && [s[0]] + (f + "/") == ([s[0]] + f) + "/"; }
    }
  }

  /** What lies below an entry of `p` lies strictly below `p` and is reached through that entry, and conversely. */
  lemma BelowChild(p: Category, e: string, c: Category)
    requires '/' !in e
    ensures Under(Child(p, e), c) <==> Under(p, c) && c != p && EntryOf(p, "", c) == e
  {
    if Under(Child(p, e), c) {
      assert p + "/" <= Child(p, e) <= c;
      var tail := c[|p| + 1 + |e|..];
      assert c == Child(p, e) + tail && c[|p| + 1..] == e + tail;
      if c != Child(p, e) { assert tail[0] == c[|Child(p, e)|] == (Child(p, e) + "/")[|Child(p, e)|]; }
      FirstPartOf(e, tail);
    }
    if Under(p, c) && c != p && EntryOf(p, "", c) == e {
      var s := c[|p| + 1..];
      FirstPartSplit(s);
      assert c == p + "/" + s;
      if s != e { assert p + "/" + (e + "/") == Child(p, e) + "/" <= c; }
    }
  }

  /** Moving the tree of one entry is moving the whole directory, as far as that entry goes. */
  lemma MovedChild(from: Category, to: Category, e: string, c: Category)
    requires Under(Child(from, e), c)
    ensures Under(from, c) && c != from
    ensures Moved(Child(from, e), Child(to, e), c) == Moved(from, to, c)
    ensures Moved(from, to, c) != to && Under(Child(to, e), Moved(from, to, c))
  {
    assert from + "/" <= Child(from, e) <= c;
    RemapShape(from, to, c);
    RemapShape(Child(from, e), Child(to, e), c);
    var tail := c[|Child(from, e)|..];
    assert c[|from|..] == "/" + e + tail;
    assert to + ("/" + e + tail) == Child(to, e) + tail;
  }

  lemma EntriesAre(t: CatTree, names: ItemId -> string, p: Category, e: string)
    requires forall id :: '/' !in names(id)
    ensures e in EntryNames(t, names, p) ==> '/' !in e
    ensures '/' !in e ==> (e in EntryNames(t, names, p) <==> HasEntry(t, names, p, e))
  {
    if '/' !in e {
      forall d | d in t.dirs
        ensures Under(Child(p, e), d) <==> Under(p, d) && d != p && EntryOf(p, "", d) == e
      {
        BelowChild(p, e, d);
      }
    }
  }

  /** A slash past the end of `q` lies in the last component. */
  lemma SlashInside(q: Category, e: string, k: int)
    requires |q| < k < |Child(q, e)| && Child(q, e)[k] == '/'
    ensures '/' in e
  {
    assert e[k - |q| - 1] == '/';
  }

  lemma ParentOf(p: Category, q: Category, e: string)
    requires '/' !in e && Under(p, Child(q, e)) && p != Child(q, e)
    ensures Under(p, q)
  {
    var c := Child(q, e);
    assert p + "/" <= c && c[|p|] == (p + "/")[|p|] == '/';
    if |p| > |q| {
      SlashInside(q, e, |p|);
    } else if |p| < |q| {
      assert q == c[..|q|] && (p + "/")[..|p| + 1] == c[..|p| + 1] == q[..|p| + 1];
    } else {
      assert p == c[..|p|] && q == c[..|q|];
    }
  }

  lemma ChildInjective(p: Category, e: string, q: Category, f: string)
    requires '/' !in e && '/' !in f && Child(p, e) == Child(q, f)
    ensures p == q && e == f
  {
    var c := Child(p, e);
    assert c[|p|] == '/' && c[|q|] == Child(q, f)[|q|] == '/';
    if |p| < |q| { SlashInside(p, e, |q|); }
    if |q| < |p| { SlashInside(q, f, |p|); }
    assert p == c[..|p|] && q == c[..|q|];
    assert e == c[|p| + 1..] && f == c[|q| + 1..];
  }

  // ---------- what a merge has moved so far ----------

  /** Entry `e` can move: neither directory lies at or below the place of `e` in the other. */
  predicate Apart(from: Category, to: Category, e: string) {
    '/' !in e && !Under(Child(to, e), from) && !Under(Child(from, e), to)
  }

  /** What lies below the new place of one entry is out of reach for another. */
  lemma ApartEntries(from: Category, to: Category, e: string, f: string, c: Category)
    requires '/' !in e && '/' !in f && (e != f || from != to)
    requires Under(Child(from, e), c) && Under(Child(to, f), c)
    ensures Under(Child(to, f), from) || Under(Child(from, e), to)
  {
    UnderBoth(Child(from, e), Child(to, f), c);
    if Child(from, e) == Child(to, f) {
      ChildInjective(from, e, to, f);
    } else if Under(Child(to, f), Child(from, e)) {
      ParentOf(Child(to, f), from, e);
    } else {
      ParentOf(Child(from, e), to, f);
    }
  }

  /** Where a junction named `n` in directory `c` is when the entries `moved` have moved. */
  function Relocated(n: string, from: Category, to: Category, moved: set<string>, c: Category): (r: Category) {
    if Under(from, c) && EntryOf(from, n, c) in moved then Moved(from, to, c) else c
  }

  function RelocatedAll(n: string, from: Category, to: Category, moved: set<string>, s: set<Category>): (r: set<Category>) {
    set c | c in s :: Relocated(n, from, to, moved, c)
  }

  lemma NothingMoves(from: Category, to: Category)
    ensures Substitute(from, to, {}) == {}
    ensures forall n, moved :: RelocatedAll(n, from, to, moved, {}) == {}
  {
  }

  lemma RelocatedBound(n: string, from: Category, to: Category, moved: set<string>, s: set<Category>)
    ensures RelocatedAll(n, from, to, moved, s) <= s + Substitute(from, to, s)
  {
  }

  /** A name no entry has: directories themselves move only with the entry they lie in. */
  const NO_NAME := "/"

  function RelocatedTree(names: ItemId -> string, from: Category, to: Category, moved: set<string>, t: CatTree): (r: CatTree) {
    CatTree(
      RelocatedAll(NO_NAME, from, to, moved, t.dirs),
      map id | id in t.links :: RelocatedAll(names(id), from, to, moved, t.links[id]))
  }

  /** Renaming entry `e` of `from` into `to`, for one junction named `n`. */
  function Renamed(n: string, from: Category, to: Category, e: string, c: Category): (r: Category) {
    if c == from && n == e then to else Moved(Child(from, e), Child(to, e), c)
  }

  function RenamedAll(n: string, from: Category, to: Category, e: string, s: set<Category>): (r: set<Category>) {
    set c | c in s :: Renamed(n, from, to, e, c)
  }

  function RenamedTree(names: ItemId -> string, from: Category, to: Category, e: string, t: CatTree): (r: CatTree) {
    CatTree(
      RenamedAll(NO_NAME, from, to, e, t.dirs),
      map id | id in t.links :: RenamedAll(names(id), from, to, e, t.links[id]))
  }

  predicate AllApart(from: Category, to: Category, moved: set<string>) {
    forall f :: f in moved ==> Apart(from, to, f)
  }

  /** What has moved with one entry is out of reach for the next. */
  lemma RelocatedStays(n: string, from: Category, to: Category, moved: set<string>, e: string, c: Category)
    requires AllApart(from, to, moved) && Apart(from, to, e) && e !in moved
    requires Under(from, c) && EntryOf(from, n, c) in moved
    ensures Renamed(n, from, to, e, Moved(from, to, c)) == Moved(from, to, c)
  {
    var f, d := EntryOf(from, n, c), Moved(from, to, c);
    RemapShape(from, to, c);
    RemapShape(Child(from, e), Child(to, e), d);
    if c != from {
      BelowChild(from, f, c);
      MovedChild(from, to, f, c);
      hide Moved, Remap, EntryOf;
      if Under(Child(from, e), d) { ApartEntries(from, to, e, f, d); }
      assert d != from;
    }
  }

  lemma RelocateOneMore(n: string, from: Category, to: Category, moved: set<string>, e: string, c: Category)
    requires AllApart(from, to, moved) && Apart(from, to, e) && e !in moved
    ensures Renamed(n, from, to, e, Relocated(n, from, to, moved, c)) == Relocated(n, from, to, moved + {e}, c)
  {
    RemapShape(Child(from, e), Child(to, e), c);
    BelowChild(from, e, c);
    if Under(from, c) && EntryOf(from, n, c) in moved {
      RelocatedStays(n, from, to, moved, e, c);
    } else if Under(Child(from, e), c) {
      MovedChild(from, to, e, c);
    } else if c == from && n == e {
      RemapShape(from, to, from);
    }
  }

  lemma RelocateAllOneMore(n: string, from: Category, to: Category, moved: set<string>, e: string, s: set<Category>)
    requires AllApart(from, to, moved) && Apart(from, to, e) && e !in moved
    ensures RenamedAll(n, from, to, e, RelocatedAll(n, from, to, moved, s)) == RelocatedAll(n, from, to, moved + {e}, s)
  {
    hide Renamed, Relocated, Apart;
    forall c | c in s
      ensures Renamed(n, from, to, e, Relocated(n, from, to, moved, c)) == Relocated(n, from, to, moved + {e}, c)
    {
      RelocateOneMore(n, from, to, moved, e, c);
    }
    var once := RelocatedAll(n, from, to, moved, s);
    var both := RelocatedAll(n, from, to, moved + {e}, s);
    forall x | x in both
      ensures x in RenamedAll(n, from, to, e, once)
    {
      var c :| c in s && Relocated(n, from, to, moved + {e}, c) == x;
      assert Relocated(n, from, to, moved, c) in once;
    }
  }

  lemma RelocateTreeOneMore(
    names: ItemId -> string, from: Category, to: Category, moved: set<string>, e: string, t: CatTree)
    requires AllApart(from, to, moved) && Apart(from, to, e) && e !in moved
    ensures RenamedTree(names, from, to, e, RelocatedTree(names, from, to, moved, t)) ==
            RelocatedTree(names, from, to, moved + {e}, t)
  {
    hide RenamedAll, RelocatedAll, Apart, AllApart;
    RelocateAllOneMore(NO_NAME, from, to, moved, e, t.dirs);
    forall id | id in t.links
      ensures RenamedAll(names(id), from, to, e, RelocatedAll(names(id), from, to, moved, t.links[id])) ==
              RelocatedAll(names(id), from, to, moved + {e}, t.links[id])
    {
      RelocateAllOneMore(names(id), from, to, moved, e, t.links[id]);
    }
  }

  // ---------- what the directories hold meanwhile ----------

  /** The entries moved so far were in `from` and not in `to`. */
  ghost predicate Moving(t: CatTree, names: ItemId -> string, from: Category, to: Category, moved: set<string>) {
    && from in t.dirs && to in t.dirs
    && forall f :: f in moved ==>
         HasEntry(t, names, from, f) && !HasEntry(t, names, to, f) && !Under(Child(from, f), to) && '/' !in f
  }

  lemma MovingApart(t: CatTree, names: ItemId -> string, from: Category, to: Category, moved: set<string>)
    requires Moving(t, names, from, to, moved)
    ensures AllApart(from, to, moved)
    ensures moved != {} ==> from != to
  {
    forall f | f in moved
      ensures Apart(from, to, f)
    {
      assert !Exists(t, Child(to, f));
    }
  }

  /** No junction arrives in `to` or leaves it under a name that has not moved. */
  lemma RelocatedToTarget(n: string, from: Category, to: Category, moved: set<string>, c: Category)
    requires AllApart(from, to, moved) && n !in moved
    ensures Relocated(n, from, to, moved, c) == to <==> c == to
  {
    if Under(from, c) && EntryOf(from, n, c) in moved {
      BelowChild(from, EntryOf(from, n, c), c);
      MovedChild(from, to, EntryOf(from, n, c), c);
    }
  }

  lemma RelocatedFromSource(n: string, from: Category, to: Category, moved: set<string>, c: Category)
    requires AllApart(from, to, moved) && (moved != {} ==> from != to)
    ensures Relocated(n, from, to, moved, c) == from <==> c == from && n !in moved
  {
    if Under(from, c) && EntryOf(from, n, c) in moved {
      if c == from {
        RemapShape(from, to, c);
      } else {
        BelowChild(from, EntryOf(from, n, c), c);
        MovedChild(from, to, EntryOf(from, n, c), c);
      }
    }
  }

  lemma DirsBelowTarget(t: CatTree, names: ItemId -> string, from: Category, to: Category, moved: set<string>, e: string)
    requires Moving(t, names, from, to, moved) && '/' !in e && e !in moved
    ensures Exists(RelocatedTree(names, from, to, moved, t), Child(to, e)) <==> Exists(t, Child(to, e))
  {
    MovingApart(t, names, from, to, moved);
    var p, cur := Child(to, e), RelocatedTree(names, from, to, moved, t);
    forall d | d in t.dirs
      ensures Under(p, Relocated(NO_NAME, from, to, moved, d)) ==> Under(p, d)
      ensures Under(p, d) ==> Exists(cur, p)
    {
      var r := Relocated(NO_NAME, from, to, moved, d);
      assert r in cur.dirs;
      if Under(from, d) && EntryOf(from, NO_NAME, d) in moved {
        var f := EntryOf(from, NO_NAME, d);
        BelowChild(from, f, d);
        MovedChild(from, to, f, d);
        BelowChild(to, f, r);
        BelowChild(to, e, r);
        if Under(p, d) {
          ApartEntries(from, to, f, e, d);
          assert Relocated(NO_NAME, from, to, moved, from) == from && from in cur.dirs;
        }
      }
    }
    if Exists(cur, p) {
      var r :| r in cur.dirs && Under(p, r);
      var d :| d in t.dirs && Relocated(NO_NAME, from, to, moved, d) == r;
    }
  }

  lemma DirsBelowSource(t: CatTree, names: ItemId -> string, from: Category, to: Category, moved: set<string>, e: string)
    requires Moving(t, names, from, to, moved) && '/' !in e
    ensures Exists(RelocatedTree(names, from, to, moved, t), Child(from, e)) <==> Exists(t, Child(from, e)) && e !in moved
  {
    MovingApart(t, names, from, to, moved);
    var p, cur := Child(from, e), RelocatedTree(names, from, to, moved, t);
    forall d | d in t.dirs
      ensures Under(p, Relocated(NO_NAME, from, to, moved, d)) ==> Exists(t, p) && e !in moved
      ensures Under(p, d) && e !in moved ==> Exists(cur, p)
    {
      var r := Relocated(NO_NAME, from, to, moved, d);
      assert r in cur.dirs;
      BelowChild(from, e, d);
      if Under(from, d) && EntryOf(from, NO_NAME, d) in moved {
        var f := EntryOf(from, NO_NAME, d);
        BelowChild(from, f, d);
        MovedChild(from, to, f, d);
        if Under(p, r) {
          ApartEntries(from, to, e, f, r);
          assert Apart(from, to, f) && Under(p, to);
        }
      }
    }
    if Exists(cur, p) {
      var r :| r in cur.dirs && Under(p, r);
      var d :| d in t.dirs && Relocated(NO_NAME, from, to, moved, d) == r;
    }
  }

  /** Moving entries changes nothing else: the target gains nothing but them, the source loses nothing but them. */
  lemma EntriesMeanwhile(t: CatTree, names: ItemId -> string, from: Category, to: Category, moved: set<string>, e: string)
    requires Moving(t, names, from, to, moved) && '/' !in e
    ensures var cur := RelocatedTree(names, from, to, moved, t);
      && (e !in moved ==> (HasEntry(cur, names, to, e) <==> HasEntry(t, names, to, e)))
      && (HasEntry(cur, names, from, e) <==> HasEntry(t, names, from, e) && e !in moved)
  {
    hide Relocated;
    MovingApart(t, names, from, to, moved);
    var cur := RelocatedTree(names, from, to, moved, t);
    DirsBelowSource(t, names, from, to, moved, e);
    if e !in moved { DirsBelowTarget(t, names, from, to, moved, e); }
    forall id | id in t.links && names(id) == e
      ensures e !in moved ==> (to in cur.links[id] <==> to in t.links[id])
      ensures from in cur.links[id] <==> from in t.links[id] && e !in moved
    {
      forall c | c in t.links[id]
        ensures e !in moved ==> (Relocated(e, from, to, moved, c) == to <==> c == to)
        ensures Relocated(e, from, to, moved, c) == from <==> c == from && e !in moved
      {
        if e !in moved { RelocatedToTarget(e, from, to, moved, c); }
        RelocatedFromSource(e, from, to, moved, c);
      }
      if from in t.links[id] && e !in moved { assert Relocated(e, from, to, moved, from) in cur.links[id]; }
      if to in t.links[id] && e !in moved { assert Relocated(e, from, to, moved, to) in cur.links[id]; }
    }
  }

  // ---------- the two commands on directories ----------

  /** A merge can only succeed without a shared entry name and without moving a directory below itself. */
  ghost predicate Mergeable(t: CatTree, names: ItemId -> string, from: Category, to: Category) {
    && !(Under(from, to) && from != to)
    && forall e :: '/' !in e ==> !(HasEntry(t, names, from, e) && HasEntry(t, names, to, e))
  }

  /** A rename needs its source, and a target that is the source or holds nothing. */
  ghost predicate Renamable(t: CatTree, names: ItemId -> string, from: Category, to: Category) {
    && Exists(t, from)
    && (from == to || (!Under(from, to) && forall e :: '/' !in e ==> !HasEntry(t, names, to, e)))
  }

  /** Knowing that the two directories themselves exist adds no entry to either. */
  lemma KnownDirectories(t: CatTree, names: ItemId -> string, from: Category, to: Category, e: string)
    requires '/' !in e && !(Under(from, to) && from != to) && (Exists(t, from) || Under(from, to))
    ensures var known := t.(dirs := t.dirs + {from, to});
      && (HasEntry(known, names, from, e) <==> HasEntry(t, names, from, e))
      && (HasEntry(known, names, to, e) <==> HasEntry(t, names, to, e))
  {
    var known := t.(dirs := t.dirs + {from, to});
    forall p | p in {from, to}
      ensures Exists(known, Child(p, e)) <==> Exists(t, Child(p, e))
    {
      assert !Under(Child(p, e), p);
      if d :| d in t.dirs && Under(from, d) {
        if Under(Child(to, e), from) { UnderTransitive(Child(to, e), from, d); }
      }
      if Under(Child(from, e), to) {
        BelowChild(from, e, to);
      }
      if Under(Child(to, e), from) && from == to { assert false; }
      if Exists(t, Child(p, e)) {
        var d :| d in t.dirs && Under(Child(p, e), d);
        assert d in known.dirs;
      }
    }
  }

  lemma UnderTransitive(p: Category, q: Category, c: Category)
    requires Under(p, q) && Under(q, c)
    ensures Under(p, c)
  {
  }

  /** With every entry moved, each junction is where the simultaneous substitution puts it. */
  lemma AllMoved(t: CatTree, names: ItemId -> string, from: Category, to: Category, moved: set<string>, id: ItemId)
    requires WellFormed(t, names) && id in t.links && EntryNames(t, names, from) <= moved
    ensures RelocatedAll(names(id), from, to, moved, t.links[id]) == Substitute(from, to, t.links[id])
  {
    forall c | c in t.links[id]
      ensures Relocated(names(id), from, to, moved, c) == Moved(from, to, c)
    {
      RemapShape(from, to, c);
      if Under(from, c) {
        assert c in t.dirs;
        if c != from { assert EntryOf(from, names(id), c) == EntryOf(from, "", c); }
        assert EntryOf(from, names(id), c) in EntryNames(t, names, from);
      }
    }
  }

  lemma NoneMoved(t: CatTree, names: ItemId -> string, from: Category, to: Category)
    ensures RelocatedTree(names, from, to, {}, t) == t
    ensures forall id :: id in t.links ==> RelocatedAll(names(id), from, to, {}, t.links[id]) == t.links[id]
  {
    forall n, s
      ensures RelocatedAll(n, from, to, {}, s) == s
    {
      assert forall c :: c in s ==> Relocated(n, from, to, {}, c) == c;
    }
  }

  /** A source that does not exist has no entries and no junctions. */
  lemma NothingThere(t: CatTree, names: ItemId -> string, from: Category, to: Category)
    requires WellFormed(t, names) && !Exists(t.(dirs := t.dirs + {to}), from)
    ensures Mergeable(t, names, from, to)
    ensures forall id :: id in t.links ==> Substitute(from, to, t.links[id]) == t.links[id]
  {
    forall d | d in t.dirs
      ensures !Under(from, d)
    {
      assert d in t.dirs + {to};
    }
    forall id, c | id in t.links && c in t.links[id]
      ensures c != from && Moved(from, to, c) == c
    {
      RemapShape(from, to, c);
    }
    forall e | '/' !in e
      ensures !HasEntry(t, names, from, e)
    {
      if Exists(t, Child(from, e)) {
        var d :| d in t.dirs && Under(Child(from, e), d);
        BelowChild(from, e, d);
      }
      if id :| id in t.links && from in t.links[id] {
        assert from in t.dirs && Under(from, from);
      }
    }
    forall id | id in t.links
      ensures Substitute(from, to, t.links[id]) == t.links[id]
    {
    }
  }

  /** What is left in the source at the end, and why that decides the merge. */
  lemma {:induction false} MergeDecided(
    t: CatTree, names: ItemId -> string, from: Category, to: Category, moved: set<string>, skipped: set<string>)
    requires WellFormed(t, names) && Exists(t.(dirs := t.dirs + {to}), from)
    requires var known := t.(dirs := t.dirs + {from, to});
             && Moving(known, names, from, to, moved) && EntryNames(known, names, from) == moved + skipped
             && moved !! skipped && forall e :: e in skipped ==> HasEntry(known, names, to, e)
    ensures var cur := RelocatedTree(names, from, to, moved, t.(dirs := t.dirs + {from, to}));
            EntryNames(cur, names, from) == skipped
    ensures Mergeable(t, names, from, to) <==> skipped == {}
  {
    hide RelocatedTree, EntryNames, HasEntry;
    var known := t.(dirs := t.dirs + {from, to});
    var cur := RelocatedTree(names, from, to, moved, known);
    forall e
      ensures e in EntryNames(cur, names, from) <==> e in skipped
    {
      EntriesAre(cur, names, from, e);
      EntriesAre(known, names, from, e);
      if '/' !in e { EntriesMeanwhile(known, names, from, to, moved, e); }
    }
    if Under(from, to) && from != to {
      var x := EntryOf(from, "", to);
      BelowChild(from, x, to);
      HasBelow(known, names, from, x, to);
      EntriesAre(known, names, from, x);
      assert x in skipped;
    } else {
      if e :| e in skipped {
        EntriesAre(known, names, from, e);
        KnownDirectories(t, names, from, to, e);
      }
      forall e | '/' !in e && skipped == {}
        ensures !(HasEntry(t, names, from, e) && HasEntry(t, names, to, e))
      {
        EntriesAre(known, names, from, e);
        KnownDirectories(t, names, from, to, e);
      }
    }
  }

  lemma HasBelow(t: CatTree, names: ItemId -> string, p: Category, e: string, d: Category)
    requires d in t.dirs && Under(Child(p, e), d)
    ensures HasEntry(t, names, p, e)
  {
  }

  /**
    Move all entries of one directory into another and remove it. Without a fault of the file system it succeeds exactly
    when the directories share no entry name and the target does not lie below the source; then every junction is where
    the substitution puts it. A merge that stops has moved some of the entries that are not in the target.
   */
  method MergeDirectory(t0: CatTree, names: ItemId -> string, from: Category, to: Category)
    returns (ok: bool, t: CatTree, ghost fault: bool, ghost moved: set<string>)
    requires WellFormed(t0, names)
    ensures ok ==> Mergeable(t0, names, from, to)
    ensures !ok && !fault ==> !Mergeable(t0, names, from, to)
    ensures t.links.Keys == t0.links.Keys
    ensures forall id :: id in t0.links ==> t.links[id] == RelocatedAll(names(id), from, to, moved, t0.links[id])
    ensures ok ==> forall id :: id in t0.links ==> t.links[id] == Substitute(from, to, t0.links[id])
  {
    hide RelocatedAll, EntryNames, HasEntry, Mergeable, Substitute;
    moved, fault := {}, false;
    t := t0.(dirs := t0.dirs + {to});
    NoneMoved(t0, names, from, to);
    if !Exists(t, from) {
      NothingThere(t0, names, from, to);
      return true, t, fault, moved;
    }
    ghost var known := t0.(dirs := t0.dirs + {from, to});
    t := t.(dirs := t.dirs + {from});
    assert t == known;
    var rest := EntryNames(t, names, from);
    ghost var skipped := {};
    NoneMoved(known, names, from, to);
    while rest != {}
      invariant !fault && EntryNames(known, names, from) == moved + skipped + rest
      invariant moved !! rest && skipped !! moved && skipped !! rest
      invariant t == RelocatedTree(names, from, to, moved, known)
      invariant Moving(known, names, from, to, moved)
      invariant forall e :: e in skipped ==> HasEntry(known, names, to, e)
    {
      var e :| e in rest;
      rest := rest - {e};
      EntriesAre(known, names, from, e);
      EntriesMeanwhile(known, names, from, to, moved, e);
      if HasEntry(t, names, to, e) {
        skipped := skipped + {e};
        continue;
      }
      var renamed := *;
      if !renamed || Under(Child(from, e), to) {
        fault := !Under(Child(from, e), to);
        BelowChild(from, e, to);
        IntoItself(t0, names, from, to);
        return false, t, fault, moved;
      }
      MovingApart(known, names, from, to, moved);
      if Under(Child(to, e), from) { HasBelow(known, names, to, e, from); }
      RelocateTreeOneMore(names, from, to, moved, e, known);
      t := RenamedTree(names, from, to, e, t);
      moved := moved + {e};
    }
    MergeDecided(t0, names, from, to, moved, skipped);
    var removed := *;
    ok := removed && EntryNames(t, names, from) == {};
    fault := !ok && EntryNames(t, names, from) == {};
    if ok {
      forall id | id in t0.links
        ensures t.links[id] == Substitute(from, to, t0.links[id])
      {
        AllMoved(known, names, from, to, moved, id);
      }
    }
  }

  lemma IntoItself(t: CatTree, names: ItemId -> string, from: Category, to: Category)
    ensures Mergeable(t, names, from, to) ==> !(Under(from, to) && from != to)
  {
  }

  /** Rename a directory; onto an existing empty directory that may also fail. */
  method RenameDirectory(t0: CatTree, names: ItemId -> string, from: Category, to: Category)
    returns (ok: bool, t: CatTree, ghost fault: bool)
    requires WellFormed(t0, names)
    ensures ok ==> Renamable(t0, names, from, to)
    ensures !ok && !fault ==> !Renamable(t0, names, from, to)
    ensures ok ==> from == to || (!Under(from, to) && !Under(to, from))
    ensures t.links.Keys == t0.links.Keys
    ensures forall id :: id in t0.links ==> t.links[id] == if ok then Substitute(from, to, t0.links[id]) else t0.links[id]
  {
    var renamed := *;
    t, fault := t0, false;
    var possible := Exists(t0, from) && (from == to || (!Under(from, to) && EntryNames(t0, names, to) == {}));
    forall e | '/' !in e
      ensures e in EntryNames(t0, names, to) <==> HasEntry(t0, names, to, e)
    {
      EntriesAre(t0, names, to, e);
    }
    forall e
      ensures e in EntryNames(t0, names, to) ==> '/' !in e
    {
      EntriesAre(t0, names, to, e);
    }
    ok := possible && renamed;
    fault := possible && !renamed;
    if ok {
      if from != to && Under(to, from) { NotEmpty(t0, names, to, from); }
      t := CatTree(Substitute(from, to, t0.dirs), map id | id in t0.links :: Substitute(from, to, t0.links[id]));
    }
  }

  /** A directory with an existing one strictly below it is not empty. */
  lemma NotEmpty(t: CatTree, names: ItemId -> string, p: Category, q: Category)
    requires Under(p, q) && p != q && Exists(t, q)
    ensures EntryNames(t, names, p) != {}
  {
    var d :| d in t.dirs && Under(q, d);
    UnderTransitive(p, q, d);
    assert |p| < |q| <= |d|;
    assert EntryOf(p, "", d) in EntryNames(t, names, p);
  }
}
