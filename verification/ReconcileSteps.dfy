/** The loops of a scan as functions on one item's membership, and how the membership is read off the files. */
module ReconcileSteps {
  import opened Collections
  import opened CategoryEdits
  import opened CatManifests
  import opened Membership

  /** One item as the metadata files, the junctions and some manifest show it. */
  function ViewOf(
    metadata: map<ItemId, Metadata>, links: map<ItemId, set<Category>>, entries: Entries, id: ItemId): (r: Item)
  {
    var text := if id in metadata then metadata[id] else Metadata([], []);
    Item(
      Elements(text.categories),
      Recorded(links, id),
      Recorded(entries, id),
      Elements(text.removed))
  }

  /** Another manifest changes the manifest part of every view and nothing else. */
  lemma ManifestViews(texts: map<ItemId, Metadata>, links: map<ItemId, set<Category>>, before: Entries, after: Entries)
    ensures forall id :: ViewOf(texts, links, after, id) ==
                         ViewOf(texts, links, before, id).(manifest := Recorded(after, id))
    ensures forall id :: ViewOf(texts, links, before, id).manifest == Recorded(before, id)
  {
  }

  /** Moving directories changes the junction part of every view and nothing else. */
  lemma MovedViews(texts: map<ItemId, Metadata>, before: map<ItemId, set<Category>>, after: map<ItemId, set<Category>>,
                   entries: Entries)
    ensures forall id :: ViewOf(texts, after, entries, id) ==
                         ViewOf(texts, before, entries, id).(disk := Recorded(after, id))
    ensures forall id :: ViewOf(texts, before, entries, id).disk == Recorded(before, id)
  {
  }

  // ---------- the scan's loops, as values ----------

  /** After the metadata-driven loop has seen the listed categories `seen`. */
  function Projected(place: Category -> Category, s: Item, seen: set<Category>): (r: Item) {
    Item(s.meta, s.disk + Image(place, seen - s.disk), s.manifest + seen, s.tombs)
  }

  /** After the junction-driven loop has also seen the extra junctions `seen`. */
  function Settled(place: Category -> Category, s: Item, read: bool, seen: set<Category>): (r: Item) {
    var t := Taken(s, read);
    Item(
      s.meta + seen * Adopted(t),
      s.disk + Image(place, Missing(s)) - Image(place, seen * Orphans(t)),
      s.manifest + s.meta - seen + seen * Adopted(t),
      s.tombs - seen * Adopted(t))
  }

  lemma ProjectStep(place: Category -> Category, s: Item, seen: set<Category>, c: Category)
    requires seen <= s.meta && c in s.meta && c !in seen
    ensures var p, q := Projected(place, s, seen), Projected(place, s, seen + {c});
      && (c in s.disk ==> q == p.(manifest := p.manifest + {c}) && seen + {c} - s.disk == seen - s.disk)
      && (c !in s.disk ==> q == p.(disk := p.disk + {place(c)}, manifest := p.manifest + {c})
                           && |seen + {c} - s.disk| == |seen - s.disk| + 1)
  {
    if c !in s.disk {
      assert seen + {c} - s.disk == (seen - s.disk) + {c};
      ImageInsert(place, seen - s.disk, c);
    } else {
      assert seen + {c} - s.disk == seen - s.disk;
    }
  }

  lemma ProjectedNone(place: Category -> Category, s: Item)
    ensures Projected(place, s, {}) == s
  {
  }

  lemma ProjectedAll(place: Category -> Category, s: Item, read: bool)
    ensures Projected(place, s, s.meta) == Settled(place, s, read, {})
  {
  }

  lemma SettleOrphan(place: Category -> Category, s: Item, read: bool, seen: set<Category>, c: Category)
    requires seen <= Extra(s) && c in Orphans(Taken(s, read)) && c !in seen
    ensures var p := Settled(place, s, read, seen);
      Settled(place, s, read, seen + {c}) == p.(disk := p.disk - {place(c)}, manifest := p.manifest - {c})
  {
  }

  lemma SettleAdopted(place: Category -> Category, s: Item, read: bool, seen: set<Category>, c: Category)
    requires seen <= Extra(s) && c in Adopted(Taken(s, read)) && c !in seen
    ensures var p := Settled(place, s, read, seen);
      Settled(place, s, read, seen + {c}) ==
      p.(meta := p.meta + {c}, manifest := p.manifest + {c}, tombs := p.tombs - {c})
  {
  }

  lemma SettleTest(place: Category -> Category, s: Item, read: bool, seen: set<Category>, c: Category)
    requires seen <= Extra(s) && c in Extra(s) && c !in seen
    ensures c in Settled(place, s, read, seen).manifest <==> c in s.manifest
    ensures c in Orphans(Taken(s, read)) <==> c in s.manifest || (read && c in s.tombs)
    ensures c in Adopted(Taken(s, read)) <==> c !in Orphans(Taken(s, read))
  {
  }

  lemma SettledAll(place: Category -> Category, s: Item, read: bool)
    ensures Settled(place, s, read, Extra(s)) == Rescanned(place, s, read)
  {
  }

  /** The extra junctions of an item among some scanned pairs. */
  function ExtraSeen(id: ItemId, pairs: seq<(ItemId, Category)>, s: Item): (r: set<Category>) {
    set c | c in Extra(s) && (id, c) in pairs
  }

  lemma ExtraSeenEnds(id: ItemId, pairs: seq<(ItemId, Category)>, s: Item)
    requires forall c :: (id, c) in pairs <==> c in s.disk
    ensures ExtraSeen(id, pairs[..0], s) == {} && ExtraSeen(id, pairs, s) == Extra(s)
    ensures {} <= Extra(s)
  {
  }

  lemma ExtraSeenSnoc(id: ItemId, pairs: seq<(ItemId, Category)>, k: nat, s: Item)
    requires k < |pairs| && NoDuplicates(pairs)
    requires forall c :: (id, c) in pairs <==> c in s.disk
    ensures var (pid, c) := pairs[k];
      var seen := ExtraSeen(id, pairs[..k], s);
      && (pid == id ==> c in s.disk) && seen <= Extra(s)
      && (if pid == id && c !in s.meta
          then c in Extra(s) && c !in seen && ExtraSeen(id, pairs[..k + 1], s) == seen + {c}
          else ExtraSeen(id, pairs[..k + 1], s) == seen)
      && (c !in seen ==> |seen + {c}| == |seen| + 1)
  {
    var (pid, c) := pairs[k];
    PrefixSnoc(pairs, k);
    assert (pid, c) in pairs && (pid, c) !in pairs[..k];
  }

  lemma StoppedProjecting(place: Category -> Category, s: Item, read: bool, seen: set<Category>)
    requires seen <= s.meta
    ensures Interrupted(place, s, read, Projected(place, s, seen))
  {
  }

  lemma StoppedSettling(place: Category -> Category, s: Item, read: bool, seen: set<Category>)
    requires seen <= Extra(s)
    ensures Interrupted(place, s, read, Settled(place, s, read, seen))
  {
  }

  /** Stopping right after the metadata edit of an adoption. */
  lemma StoppedAdopting(place: Category -> Category, s: Item, read: bool, seen: set<Category>, c: Category)
    requires seen <= Extra(s) && c in Adopted(Taken(s, read)) && c !in seen
    ensures var p := Settled(place, s, read, seen);
      Interrupted(place, s, read, p.(meta := p.meta + {c}, tombs := p.tombs - {c}))
  {
  }

  /** Stopping before or after an item also counts as stopping early. */
  lemma StoppedAround(place: Category -> Category)
    ensures forall s, read :: Interrupted(place, s, read, s)
    ensures forall s, read :: Interrupted(place, s, read, Rescanned(place, s, read))
  {
  }

  /** How far a scan got does not depend on the manifest, which is written at the end. */
  lemma ManifestLater(place: Category -> Category)
    ensures forall s, read, r: Item, m :: Interrupted(place, s, read, r) ==> Interrupted(place, s, read, r.(manifest := m))
  {
  }

  lemma EditView(text: Metadata, add: seq<Category>, remove: seq<Category>, drop: seq<Category>)
    ensures var edited := ApplyCategoryEdits(text, add, remove, drop);
      && Elements(edited.categories) ==
           Elements(text.categories) + Elements(add) - Elements(remove) - Elements(drop)
      && Elements(edited.removed) ==
           Elements(text.removed) - Elements(add) - Elements(drop) + Elements(remove)
  {
  }

  /** The (item, category) pairs a scan changes: those without a junction and those without a metadata entry. */
  ghost function MissingPairs(before: map<ItemId, Item>, ids: set<ItemId>): (r: set<(ItemId, Category)>) {
    set id, c | id in ids && id in before && c in Missing(before[id]) :: (id, c)
  }

  ghost function ExtraPairs(before: map<ItemId, Item>, ids: set<ItemId>): (r: set<(ItemId, Category)>) {
    set id, c | id in ids && id in before && c in Extra(before[id]) :: (id, c)
  }

  ghost function TotalChanges(before: map<ItemId, Item>, ids: set<ItemId>): (r: nat) {
    |MissingPairs(before, ids)| + |ExtraPairs(before, ids)|
  }

  lemma {:induction false} TaggedCardinality(id: ItemId, cs: set<Category>)
    ensures |set c | c in cs :: (id, c)| == |cs|
  {
    if cs != {} {
      var x :| x in cs;
      TaggedCardinality(id, cs - {x});
      assert (set c | c in cs :: (id, c)) == (set c | c in cs - {x} :: (id, c)) + {(id, x)};
    }
  }

  lemma TotalNone(before: map<ItemId, Item>)
    ensures TotalChanges(before, {}) == 0
  {
  }

  lemma TotalInsert(before: map<ItemId, Item>, ids: set<ItemId>, id: ItemId)
    requires id !in ids && id in before
    ensures TotalChanges(before, ids + {id}) == TotalChanges(before, ids) + Changes(before[id])
  {
    var missing, extra := set c | c in Missing(before[id]) :: (id, c), set c | c in Extra(before[id]) :: (id, c);
    assert MissingPairs(before, ids + {id}) == MissingPairs(before, ids) + missing;
    assert ExtraPairs(before, ids + {id}) == ExtraPairs(before, ids) + extra;
    TaggedCardinality(id, Missing(before[id]));
    TaggedCardinality(id, Extra(before[id]));
  }
}
