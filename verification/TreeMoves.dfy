/** What renaming or merging a category tree does to an item, given what the directories allow. */
module TreeMoves {
  import opened Collections
  import opened CategoryEdits
  import opened CategoryPaths
  import opened CatManifests
  import opened CategoryTrees
  import opened Membership

  /** In a merge that can succeed, a category with a junction is never moved onto a name the loop drops. */
  lemma MergeNeverCaptures(t: CatTree, names: ItemId -> string, from: Category, to: Category, id: ItemId, c: Category)
    requires WellFormed(t, names) && Mergeable(t, names, from, to)
    requires id in t.links && c in t.links[id] && Under(from, c)
    ensures !Under(from, Moved(from, to, c))
  {
    var d, e := Moved(from, to, c), EntryOf(from, names(id), c);
    RemapShape(from, to, c);
    EntriesAre(t, names, from, e);
    if c != from { BelowChild(from, e, c); }
    assert HasEntry(t, names, from, e);
    if Under(from, d) {
      UnderBoth(from, to, d);
      if from != to {
        MovedChild(from, to, e, c);
        UnderBoth(Child(to, e), from, d);
        if Under(from, Child(to, e)) && from != Child(to, e) { ParentOf(from, to, e); }
        UnderTransitive(Child(to, e), from, c);
        HasBelow(t, names, to, e, c);
      }
    }
  }

  /**
    A successful merge keeps every category of an item whose junctions are in place, however the two names are related:
    its metadata is the simultaneous substitution. Only a category without a junction can be lost.
   */
  lemma MergeKeepsListed(
    place: Category -> Category, t: CatTree, names: ItemId -> string, from: Category, to: Category, id: ItemId,
    listing: seq<Category>, s: Item)
    requires WellFormed(t, names) && Mergeable(t, names, from, to)
    requires s.disk == Recorded(t.links, id) && Enumerates(listing, s.meta)
    ensures TreeMoved(place, from, to, listing, s).meta != Substitute(from, to, s.meta) ==>
              exists c :: c in s.meta - s.disk && Under(from, c) && Moved(from, to, c) in s.meta
  {
    RemapIsSubstitution(from, to, listing, s.(disk := Substitute(place(from), place(to), s.disk)));
    if Captures(from, to, listing) {
      var j, k :| 0 <= j <= k < |listing| && Under(from, listing[j]) && Under(from, listing[k])
                  && Moved(from, to, listing[j]) == listing[k];
      assert listing[j] in Elements(listing) && listing[k] in Elements(listing);
      if listing[j] in s.disk { MergeNeverCaptures(t, names, from, to, id, listing[j]); }
      assert listing[j] in s.meta - s.disk;
    }
  }

  /** A rename that can succeed moves every category as the substitution says, unless it renames a tree to itself. */
  lemma RenameKeepsListed(
    place: Category -> Category, t: CatTree, names: ItemId -> string, from: Category, to: Category,
    listing: seq<Category>, s: Item)
    requires (forall id :: '/' !in names(id)) && Renamable(t, names, from, to) && Enumerates(listing, s.meta)
    ensures from != to ==> TreeMoved(place, from, to, listing, s).meta == Substitute(from, to, s.meta)
    ensures from == to ==> TreeMoved(place, from, to, listing, s).meta == s.meta - Tree(from, s.meta)
  {
    var moved := s.(disk := Substitute(place(from), place(to), s.disk));
    if from == to {
      RenameToItselfUnfiles(from, listing, moved);
    } else {
      if Under(to, from) {
        var e := EntryOf(to, "", from);
        BelowChild(to, e, from);
        var d :| d in t.dirs && Under(from, d);
        UnderTransitive(Child(to, e), from, d);
        HasBelow(t, names, to, e, d);
      }
      SeparateTreesNeverCapture(from, to, listing);
      RemapIsSubstitution(from, to, listing, moved);
    }
  }

  /**
    The condition matters: an item lists `A/B/B/C` and `A/B/C`, and its junctions and the directory `A/B/B` are gone,
    as after a relocation that was not scanned yet. Then `A/B` can be merged into `A`, and `A/B/C` is lost.
   */
  lemma MergeIntoParentLoses(names: ItemId -> string, id: ItemId)
    requires forall o :: '/' !in names(o)
    ensures var t := CatTree({"A/B"}, map[id := {}]);
      var listing := ["A/B/B/C", "A/B/C"];
      var s := Item(Elements(listing), t.links[id], {}, {});
      && WellFormed(t, names) && Mergeable(t, names, "A/B", "A")
      && Substitute("A/B", "A", s.meta) == {"A/B/C", "A/C"}
      && RemapAll("A/B", "A", listing, s).meta == {"A/C"}
  {
    var t := CatTree({"A/B"}, map[id := {}]);
    var listing := ["A/B/B/C", "A/B/C"];
    var s := Item(Elements(listing), {}, {}, {});
    assert Moved("A/B", "A", "A/B/B/C") == "A/B/C";
    assert Moved("A/B", "A", "A/B/C") == "A/C";
    assert s.meta == {"A/B/B/C", "A/B/C"};
    assert listing[..1] == ["A/B/B/C"] && listing[..1][..0] == [];
    var s1 := RemapStep("A/B", "A", "A/B/B/C", s);
    assert RemapAll("A/B", "A", listing[..1], s) == s1;
    assert s1.meta == {"A/B/C"};
    assert RemapAll("A/B", "A", listing, s) == RemapStep("A/B", "A", "A/B/C", s1);
    forall e
      ensures !Under(Child("A/B", e), "A/B")
    {
      assert |Child("A/B", e)| > |"A/B"|;
    }
  }

  /**
    After a merge that stopped part-way nothing is listed under new names yet, but the junctions that moved look made
    by hand: the next scan adopts them, so the item is in the old and in the new category.
   */
  lemma FailedMergeAdopts(
    place: Category -> Category, n: string, from: Category, to: Category, moved: set<string>, s: Item)
    requires Consistent(s)
    requires var r := s.(disk := RelocatedAll(n, from, to, moved, s.disk)); Faithful(place, s.meta + r.disk)
    ensures var r := s.(disk := RelocatedAll(n, from, to, moved, s.disk));
      var after := Reconciled(place, r);
      && after.meta == s.meta + (r.disk - s.manifest - s.tombs)
      && Consistent(after)
      && forall c :: c in s.meta && Under(from, c) && EntryOf(from, n, c) in moved ==>
           && c in after.meta
           && (Moved(from, to, c) in after.meta <==>
               Moved(from, to, c) in s.meta || Moved(from, to, c) !in s.manifest + s.tombs)
  {
    var r := s.(disk := RelocatedAll(n, from, to, moved, s.disk));
    FaithfulIsTidy(place, r);
    DecisionTable(place, r);
    forall c | c in s.meta && Under(from, c) && EntryOf(from, n, c) in moved
      ensures Moved(from, to, c) in r.disk
    {
      assert Relocated(n, from, to, moved, c) == Moved(from, to, c);
    }
  }
}
