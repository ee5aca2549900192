/**
  Category membership of one item, as a value: what the metadata lists, which junctions resolve to the item, what the
  manifest recorded, and which removals were tombstoned. Every operation touches one item at a time, so its effect on a
  library is its effect on each item.

  `place` is the name a later scan reports for a junction created for a category: it stands for the path cleaning done
  when a category directory is made, and every statement below holds for every such function.
 */
module Membership {
  import opened Collections
  import opened CategoryEdits
  import opened CategoryPaths

  const UNMATCHED: Category := "unmatched"

  datatype Item = Item(
    meta: set<Category>, disk: set<Category>, manifest: set<Category>, tombs: set<Category>)

  const NO_ITEM := Item({}, {}, {}, {})

  // ---------- reconciliation ----------

  /** Listed by the metadata without a junction. */
  function Missing(s: Item): (r: set<Category>) { s.meta - s.disk }

  /** Junctions that the metadata does not list. */
  function Extra(s: Item): (r: set<Category>) { s.disk - s.meta }

  /** Extra junctions that were projected before or whose removal was tombstoned. */
  function Orphans(s: Item): (r: set<Category>) { Extra(s) * (s.manifest + s.tombs) }

  /** Hand-made junctions. */
  function Adopted(s: Item): (r: set<Category>) { Extra(s) - s.manifest - s.tombs }

  /** The decision table of a scan, all categories of the item at once. */
  function Reconciled(place: Category -> Category, s: Item): (r: Item) {
    Item(
      s.meta + Adopted(s),
      s.disk + Image(place, Missing(s)) - Image(place, Orphans(s)),
      s.manifest - Extra(s) + (s.meta + Adopted(s)),
      s.tombs)
  }

  /** The number of membership changes a scan of this item reports. */
  function Changes(s: Item): (r: nat) { |Missing(s)| + |Extra(s)| }

  /** The item as a scan takes it: when its tombstones cannot be read the scan goes on as if there were none. */
  function Taken(s: Item, read: bool): (r: Item) {
    if read then s else s.(tombs := {})
  }

  /** The outcome of a scan that may not have read the tombstones; adopting a category erases the stored one. */
  function Rescanned(place: Category -> Category, s: Item, read: bool): (r: Item) {
    Reconciled(place, Taken(s, read)).(tombs := s.tombs - Adopted(Taken(s, read)))
  }

  lemma RescannedRead(place: Category -> Category, s: Item)
    ensures Rescanned(place, s, true) == Reconciled(place, s)
  {
  }

  /**
    A scan without the tombstones differs from one with them in the tombstoned junctions that the manifest does not
    know: they are adopted, and their tombstones are gone.
   */
  lemma UnreadDifference(place: Category -> Category, s: Item)
    ensures var with, without := Reconciled(place, s), Rescanned(place, s, false);
            var revived := Extra(s) * s.tombs - s.manifest;
            && without.meta == with.meta + revived && without.tombs == with.tombs - revived
            && without.manifest == with.manifest + revived
            && (without == with <==> revived == {})
  {
  }

  /** A scan of one item in terms of its four sets. */
  lemma RescannedSets(place: Category -> Category)
    ensures forall s, read :: var r, known := Rescanned(place, s, read), s.manifest + (if read then s.tombs else {});
              && r.meta == s.meta + (s.disk - s.meta - known)
              && r.disk == s.disk + (set c | c in s.meta - s.disk :: place(c))
                           - (set c | c in (s.disk - s.meta) * known :: place(c))
              && r.manifest == s.manifest - (s.disk - s.meta) + r.meta
              && r.tombs == s.tombs - (s.disk - s.meta - known)
  {
  }

  /** What a scan that stops half-way can leave behind, apart from the manifest, which is written at the very end. */
  ghost predicate Interrupted(place: Category -> Category, s: Item, read: bool, r: Item) {
    var t := Taken(s, read);
    && s.meta <= r.meta <= s.meta + Adopted(t)
    && s.disk - Image(place, Orphans(t)) <= r.disk <= s.disk + Image(place, Missing(s))
    && r.tombs == s.tombs - (r.meta - s.meta)
  }

  /** Junctions keep the names they were created under. */
  ghost predicate Faithful(place: Category -> Category, cs: set<Category>) {
    forall c :: c in cs ==> place(c) == c
  }

  lemma FaithfulImage(place: Category -> Category, cs: set<Category>)
    requires Faithful(place, cs)
    ensures Image(place, cs) == cs
  {
  }

  /** What every operation should keep: the junctions are the metadata, and the manifest knows all of them. */
  predicate Consistent(s: Item) {
    s.disk == s.meta && s.meta <= s.manifest
  }

  /** The names that a scan writes and deletes under `Cat/` are the names it means. */
  ghost predicate TidyNames(place: Category -> Category, s: Item) {
    Image(place, Missing(s)) == Missing(s) && Image(place, Orphans(s)) == Orphans(s)
  }

  lemma FaithfulIsTidy(place: Category -> Category, s: Item)
    requires Faithful(place, Missing(s) + Orphans(s))
    ensures TidyNames(place, s)
  {
  }

  /**
    The decision table in closed form: metadata only grows, by the hand-made junctions that were neither recorded nor
    tombstoned; with tidy names the junctions become exactly the metadata and the manifest forgets what it should.
   */
  lemma DecisionTable(place: Category -> Category, s: Item)
    ensures var r := Reconciled(place, s);
      && r.meta == s.meta + (set c | c in s.disk && c !in s.meta && c !in s.manifest && c !in s.tombs)
      && r.manifest == (s.manifest - (s.disk - s.meta)) + r.meta
      && r.tombs == s.tombs
      && (TidyNames(place, s) ==> r.disk == r.meta && Consistent(r))
  {
  }

  lemma ConsistentSettles(place: Category -> Category, s: Item)
    requires Consistent(s)
    ensures Reconciled(place, s) == s && Changes(s) == 0
  {
    assert Missing(s) == {} && Extra(s) == {};
    assert Adopted(s) == {} && Orphans(s) == {};
    assert Image(place, Missing(s)) == {} && Image(place, Orphans(s)) == {};
  }

  /** A scan after which the junctions are the metadata had tidy names. */
  lemma SettledNames(place: Category -> Category, s: Item)
    requires Reconciled(place, s).disk == Reconciled(place, s).meta
    ensures TidyNames(place, s)
  {
    var once := Reconciled(place, s);
    forall c | c in Missing(s) ensures c in Image(place, Missing(s)) {
      assert c in once.meta;
    }
    forall c | c in Orphans(s) ensures c in Image(place, Orphans(s)) {
      assert c !in once.meta;
    }
    ImageFixpoint(place, Missing(s));
    ImageFixpoint(place, Orphans(s));
  }

  /**
    One pass is enough exactly when creating the missing junctions makes those names and removing the orphans removes
    those names. Otherwise a category whose directory name differs from it is re-created on every scan, and its
    directory is adopted as a second category.
   */
  lemma {:induction false} Converges(place: Category -> Category, s: Item)
    ensures
      var once := Reconciled(place, s);
      (Reconciled(place, once) == once && once.disk == once.meta) <==> TidyNames(place, s)
  {
    var once := Reconciled(place, s);
    if once.disk == once.meta {
      SettledNames(place, s);
    }
    if TidyNames(place, s) {
      DecisionTable(place, s);
      ConsistentSettles(place, once);
    }
  }

  /** The count of changes is zero exactly when the junctions are the metadata, so it tells when a library has settled. */
  lemma SecondScanReportsNothing(place: Category -> Category, s: Item)
    ensures Changes(s) == 0 <==> s.disk == s.meta
    ensures Changes(Reconciled(place, s)) == 0 <==> TidyNames(place, s)
  {
    forall t: Item
      ensures Changes(t) == 0 <==> t.disk == t.meta
    {
      assert Changes(t) == 0 ==> Missing(t) == {} && Extra(t) == {};
      assert t.disk == t.meta ==> Missing(t) == {} && Extra(t) == {};
    }
    Converges(place, s);
    if Reconciled(place, s).disk == Reconciled(place, s).meta { SettledNames(place, s); }
  }

  /** The failing family: a listed category with another directory name and no junction of its own never settles. */
  lemma UnfaithfulNeverSettles(place: Category -> Category, s: Item, c: Category)
    requires c in Missing(s) && c !in Image(place, Missing(s))
    ensures c in Missing(Reconciled(place, s)) && Changes(Reconciled(place, s)) > 0
  {
  }

  // ---------- daemon commands ----------

  /** Filing into `c`; a real category also clears `unmatched`, without a tombstone. */
  function Filed(place: Category -> Category, c: Category, s: Item): (r: Item) {
    var filed := Item(s.meta + {c}, s.disk + {place(c)}, s.manifest + {c}, s.tombs - {c});
    if c == UNMATCHED then filed else Cleared(place, filed)
  }

  /** Without the `unmatched` membership, and without a tombstone for it. */
  function Cleared(place: Category -> Category, s: Item): (r: Item) {
    Item(s.meta - {UNMATCHED}, s.disk - {place(UNMATCHED)}, s.manifest - {UNMATCHED}, s.tombs - {UNMATCHED})
  }

  /** Filing in terms of the four sets. */
  lemma FiledSets(place: Category -> Category, c: Category)
    ensures forall s ::
              var r := Filed(place, c, s);
              var gone := if c == "unmatched" then {} else {"unmatched"};
              && r.meta == s.meta + {c} - gone && r.disk == s.disk + {place(c)} - (set d | d in gone :: place(d))
              && r.manifest == s.manifest + {c} - gone && r.tombs == s.tombs - {c} - gone
  {
  }

  lemma UnfiledSets(place: Category -> Category, c: Category)
    ensures forall s :: var r := Unfiled(place, c, s);
              && r.meta == s.meta - {c} && r.disk == s.disk - {place(c)}
              && r.manifest == s.manifest - {c} && r.tombs == s.tombs + {c}
  {
  }

  /** Removing from `c` leaves a tombstone. */
  function Unfiled(place: Category -> Category, c: Category, s: Item): (r: Item) {
    Item(s.meta - {c}, s.disk - {place(c)}, s.manifest - {c}, s.tombs + {c})
  }

  /** The categories a new item gets: an import that matches no rule goes to `unmatched`. */
  function ImportCategories(matched: seq<Category>): (r: seq<Category>)
    ensures r != []
    ensures forall c :: c in r <==> c in matched || (matched == [] && c == "unmatched")
  {
    if matched == [] then [UNMATCHED] else matched
  }

  function Imported(place: Category -> Category, cs: seq<Category>): (r: Item) {
    Item(Elements(cs), Image(place, Elements(cs)), Elements(cs), {})
  }

  // ---------- moving a category tree ----------

  /** One step of the loop over an item's listed categories. */
  function RemapStep(from: Category, to: Category, c: Category, s: Item): (r: Item) {
    match Remap(from, to, c)
    case None => s
    case Some(n) => Item(s.meta + {n} - {c}, s.disk, s.manifest - {c} + {n}, s.tombs - {n} - {c})
  }

  function RemapAll(from: Category, to: Category, listing: seq<Category>, s: Item): (r: Item) {
    if listing == [] then s
    else RemapStep(from, to, listing[|listing| - 1], RemapAll(from, to, listing[..|listing| - 1], s))
  }

  /** Some step writes a name that the same or a later step drops again. */
  ghost predicate Captures(from: Category, to: Category, listing: seq<Category>) {
    exists j, k :: 0 <= j <= k < |listing| && Under(from, listing[j]) && Under(from, listing[k])
                   && Moved(from, to, listing[j]) == listing[k]
  }

  /** Step `j` of the loop writes `x`. */
  predicate Writes(from: Category, to: Category, listing: seq<Category>, j: nat, x: Category)
    requires j < |listing|
  {
    Under(from, listing[j]) && Moved(from, to, listing[j]) == x
  }

  /** How the loop treats `x` when it sees one more category. */
  lemma RemapOneMore(from: Category, to: Category, front: seq<Category>, c: Category, s: Item, x: Category)
    ensures var before, r := RemapAll(from, to, front, s), RemapAll(from, to, front + [c], s);
      && r.disk == before.disk
      && (x in r.meta <==> !(x == c && Under(from, x)) && (x in before.meta || (Under(from, c) && Moved(from, to, c) == x)))
      && (x in r.manifest <==>
          (Under(from, c) && Moved(from, to, c) == x) || (x in before.manifest && !(x == c && Under(from, x))))
      && (x in r.tombs ==> x in before.tombs)
  {
  }

  /** Seeing one more category does not change step `j`. */
  lemma WritesOneMore(from: Category, to: Category, front: seq<Category>, c: Category, j: nat, x: Category)
    requires j < |front|
    ensures Writes(from, to, front + [c], j, x) == Writes(from, to, front, j, x)
    ensures x in (front + [c])[j..] <==> x in front[j..] || x == c
    ensures x in (front + [c])[j + 1..] <==> x in front[j + 1..] || x == c
  {
    assert (front + [c])[j..] == front[j..] + [c];
    assert (front + [c])[j + 1..] == front[j + 1..] + [c];
  }

  /** Which categories survive the step-by-step edits: the last step that mentions a category decides. */
  lemma {:induction false} RemapAllMembers(from: Category, to: Category, listing: seq<Category>, s: Item, x: Category)
    requires NoDuplicates(listing)
    ensures var r := RemapAll(from, to, listing, s);
      && r.disk == s.disk
      && (x in r.meta <==>
          || (x in s.meta && !(x in listing && Under(from, x)))
          || (exists j :: 0 <= j < |listing| && Writes(from, to, listing, j, x) && !(x in listing[j..] && Under(from, x))))
      && (x in r.manifest <==>
          || (x in s.manifest && !(x in listing && Under(from, x)))
          || (exists j :: 0 <= j < |listing| && Writes(from, to, listing, j, x) && !(x in listing[j + 1..] && Under(from, x))))
      && (x in r.tombs ==> x in s.tombs)
  {
    if listing != [] {
      var n := |listing| - 1;
      var front, c := listing[..n], listing[n];
      RemapAllMembers(from, to, front, s, x);
      assert listing == front + [c];
      RemapOneMore(from, to, front, c, s, x);
      assert Writes(from, to, listing, n, x) <==> Under(from, c) && Moved(from, to, c) == x;
      assert listing[n..] == [c] && listing[n + 1..] == [];
      hide Under, Moved, RemapAll, Writes;
      forall j | 0 <= j < n
        ensures Writes(from, to, listing, j, x) == Writes(from, to, front, j, x)
        ensures Writes(from, to, listing, j, x) ==> (x in listing[j..] <==> x in front[j..] || x == c)
        ensures Writes(from, to, listing, j, x) ==> (x in listing[j + 1..] <==> x in front[j + 1..] || x == c)
      {
        WritesOneMore(from, to, front, c, j, x);
      }
    }
  }

  /** The categories of an item that move with the tree at `from`. */
  function Tree(from: Category, cs: set<Category>): (r: set<Category>) {
    set c | c in cs && Under(from, c)
  }

  /** One rename or merge command as one item sees it: the directory moved, then the loop over the listed categories. */
  function TreeMoved(place: Category -> Category, from: Category, to: Category, listing: seq<Category>, s: Item): (r: Item) {
    RemapAll(from, to, listing, s.(disk := Substitute(place(from), place(to), s.disk)))
  }

  predicate SomeWrites(from: Category, to: Category, listing: seq<Category>, x: Category) {
    exists j :: 0 <= j < |listing| && Writes(from, to, listing, j, x)
  }

  lemma SubstituteMembers(from: Category, to: Category, listing: seq<Category>, cs: set<Category>, x: Category)
    requires Enumerates(listing, cs)
    ensures x in Substitute(from, to, Tree(from, cs)) <==> SomeWrites(from, to, listing, x)
    ensures x in Substitute(from, to, cs) <==> (x in cs && !Under(from, x)) || SomeWrites(from, to, listing, x)
  {
    assert forall c :: c in cs <==> c in Elements(listing);
    forall c | c in cs && Moved(from, to, c) == x
      ensures if Under(from, c) then SomeWrites(from, to, listing, x) else c == x
    {
      RemapShape(from, to, c);
      assert c in listing;
      var j :| 0 <= j < |listing| && listing[j] == c;
      assert Under(from, c) ==> Writes(from, to, listing, j, x);
    }
    if x in cs && !Under(from, x) {
      RemapShape(from, to, x);
      assert Moved(from, to, x) == x;
    }
    if j :| 0 <= j < |listing| && Writes(from, to, listing, j, x) {
      assert listing[j] in Elements(listing);
      assert listing[j] in Tree(from, cs);
    }
  }

  /**
    Editing category by category equals the simultaneous substitution exactly when no step drops what the same or an
    earlier step wrote.
   */
  lemma RemapIsSubstitution(from: Category, to: Category, listing: seq<Category>, s: Item)
    requires Enumerates(listing, s.meta)
    ensures RemapAll(from, to, listing, s).meta == Substitute(from, to, s.meta) <==> !Captures(from, to, listing)
    ensures !Captures(from, to, listing) ==>
              RemapAll(from, to, listing, s).manifest ==
              s.manifest - Tree(from, s.meta) + Substitute(from, to, Tree(from, s.meta))
  {
    var r := RemapAll(from, to, listing, s);
    assert forall c :: c in s.meta <==> c in Elements(listing);
    if Captures(from, to, listing) {
      var j, k :| 0 <= j <= k < |listing| && Under(from, listing[j]) && Under(from, listing[k])
                  && Moved(from, to, listing[j]) == listing[k];
      CapturedIsLost(from, to, listing, s, j, k);
    } else {
      forall x
        ensures x in r.meta <==> x in Substitute(from, to, s.meta)
        ensures x in r.manifest <==> x in s.manifest - Tree(from, s.meta) + Substitute(from, to, Tree(from, s.meta))
      {
        UncapturedIsKept(from, to, listing, s, x);
      }
    }
  }

  lemma CapturedIsLost(from: Category, to: Category, listing: seq<Category>, s: Item, j: nat, k: nat)
    requires Enumerates(listing, s.meta)
    requires j <= k < |listing| && Under(from, listing[j]) && Under(from, listing[k])
    requires Moved(from, to, listing[j]) == listing[k]
    ensures listing[k] in Substitute(from, to, s.meta)
    ensures listing[k] !in RemapAll(from, to, listing, s).meta
  {
    var x := listing[k];
    SubstituteMembers(from, to, listing, s.meta, x);
    RemapAllMembers(from, to, listing, s, x);
    assert Writes(from, to, listing, j, x);
    forall i | 0 <= i < |listing| && Writes(from, to, listing, i, x)
      ensures x in listing[i..]
    {
      RemapInjective(from, to, listing[i], listing[j]);
      InTail(listing, i, k);
    }
    hide Writes, Under, Moved, Substitute, RemapAll;
  }

  lemma InTail(listing: seq<Category>, i: nat, k: nat)
    requires i <= k < |listing|
    ensures listing[k] in listing[i..]
  {
  }

  lemma WrittenThenDropped(from: Category, to: Category, listing: seq<Category>, j: nat, x: Category)
    requires j < |listing| && Writes(from, to, listing, j, x)
    ensures x in listing[j..] && Under(from, x) ==> Captures(from, to, listing)
  {
  }

  lemma UncapturedIsKept(from: Category, to: Category, listing: seq<Category>, s: Item, x: Category)
    requires Enumerates(listing, s.meta) && !Captures(from, to, listing)
    ensures var r := RemapAll(from, to, listing, s);
      && (x in r.meta <==> x in Substitute(from, to, s.meta))
      && (x in r.manifest <==> x in s.manifest - Tree(from, s.meta) + Substitute(from, to, Tree(from, s.meta)))
  {
    SubstituteMembers(from, to, listing, s.meta, x);
    RemapAllMembers(from, to, listing, s, x);
    assert x in Elements(listing) <==> x in listing;
    forall j | 0 <= j < |listing| && Writes(from, to, listing, j, x)
      ensures !(x in listing[j..] && Under(from, x)) && !(x in listing[j + 1..] && Under(from, x))
    {
      assert listing[j + 1..] == listing[j..][1..];
      WrittenThenDropped(from, to, listing, j, x);
    }
    hide Writes, Under, Substitute, RemapAll;
    assert x in Tree(from, s.meta) <==> x in s.meta && Under(from, x);
  }

  /** Names that are not nested never capture, in whatever order the categories are listed. */
  lemma SeparateTreesNeverCapture(from: Category, to: Category, listing: seq<Category>)
    requires !Under(from, to) && !Under(to, from)
    ensures !Captures(from, to, listing)
  {
    if Captures(from, to, listing) {
      var j, k :| 0 <= j <= k < |listing| && Under(from, listing[j]) && Under(from, listing[k])
                  && Moved(from, to, listing[j]) == listing[k];
      RemapShape(from, to, listing[j]);
      UnderBoth(from, to, listing[k]);
    }
  }

  /**
    Renaming a tree and renaming it back, each category by category in any order, restores the metadata of an item that
    had nothing below the new name, when neither name lies below the other.
   */
  lemma RenameThereAndBack(from: Category, to: Category, first: seq<Category>, second: seq<Category>, s: Item)
    requires !Under(from, to) && !Under(to, from)
    requires forall c :: c in s.meta ==> !Under(to, c)
    requires Enumerates(first, s.meta) && Enumerates(second, RemapAll(from, to, first, s).meta)
    ensures RemapAll(to, from, second, RemapAll(from, to, first, s)).meta == s.meta
  {
    SeparateTreesNeverCapture(from, to, first);
    RemapIsSubstitution(from, to, first, s);
    SeparateTreesNeverCapture(to, from, second);
    RemapIsSubstitution(to, from, second, RemapAll(from, to, first, s));
    RenameBack(from, to, s.meta);
  }

  /** Renaming a tree to its own name drops every category of the tree from the metadata, without tombstones. */
  lemma RenameToItselfUnfiles(from: Category, listing: seq<Category>, s: Item)
    requires Enumerates(listing, s.meta)
    ensures RemapAll(from, from, listing, s).meta == s.meta - Tree(from, s.meta)
    ensures RemapAll(from, from, listing, s).tombs <= s.tombs
    ensures Captures(from, from, listing) <==> Tree(from, s.meta) != {}
  {
    var r := RemapAll(from, from, listing, s);
    assert forall c :: c in s.meta <==> c in Elements(listing);
    forall x
      ensures x in r.meta <==> x in s.meta - Tree(from, s.meta)
      ensures x in r.tombs ==> x in s.tombs
    {
      RemapAllMembers(from, from, listing, s, x);
      forall j | 0 <= j < |listing| && Writes(from, from, listing, j, x)
        ensures x in listing[j..] && Under(from, x)
      {
        RemapShape(from, from, listing[j]);
        assert listing[j..][0] == x;
      }
    }
    forall c | c in Tree(from, s.meta)
      ensures Captures(from, from, listing)
    {
      assert c in Elements(listing);
      var j :| 0 <= j < |listing| && listing[j] == c;
      RemapShape(from, from, c);
      assert Moved(from, from, listing[j]) == listing[j];
    }
    if Captures(from, from, listing) {
      var j, k :| 0 <= j <= k < |listing| && Under(from, listing[j]) && Under(from, listing[k])
                  && Moved(from, from, listing[j]) == listing[k];
      assert listing[j] in Elements(listing);
      assert listing[j] in Tree(from, s.meta);
    }
  }
}
