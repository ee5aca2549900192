/** The library a daemon works on, and the commands and the scan that keep its categories in step. */
module Libraries {
  import opened Collections
  import opened CategoryEdits
  import opened CategoryPaths
  import opened CatManifests
  import opened CategoryTrees
  import opened Membership
  import opened TreeMoves
  import opened MembershipRuns
  import opened ReconcileSteps

  class Library {
    /** The name a scan reports for a junction made for a category. */
    const place: Category -> Category
    /** `metadata.toml` of every item directory, by item id. */
    var metadata: map<ItemId, Metadata>
    /** The categories whose junctions resolve to the item. */
    var links: map<ItemId, set<Category>>
    /** The manifest file. */
    var stored: Entries
    /** Sorting and dropping repetitions when an item is indexed; only the elements matter here. */
    const listing: seq<Category> -> seq<Category>
    /** The name of an item's directory, which its junctions carry. */
    const names: ItemId -> string
    /** The query index. */
    var index: map<ItemId, seq<Category>>

    /** Open a library as it is found on disk; the index starts empty. */
    constructor (place: Category -> Category, listing: seq<Category> -> seq<Category>, names: ItemId -> string,
                 metadata: map<ItemId, Metadata>, links: map<ItemId, set<Category>>, stored: Entries)
      requires forall cs :: Enumerates(listing(cs), Elements(cs))
      requires forall id :: '/' !in names(id)
      ensures this.place == place && this.listing == listing && this.names == names && index == map[]
      ensures forall id :: View(id) == ViewOf(metadata, links, stored, id)
      ensures Configured()
    {
      this.place, this.listing, this.names := place, listing, names;
      this.metadata, this.links, this.stored, this.index := metadata, links, stored, map[];
    }

    /** Listing an item's categories names each of them once, and directory names are single path components. */
    ghost predicate Configured() {
      && (forall cs :: Enumerates(listing(cs), Elements(cs)))
      && (forall id :: '/' !in names(id))
    }

    /** The index shows the metadata files as they are now. */
    ghost predicate Current()
      reads this
    {
      && index.Keys == metadata.Keys
      && forall id :: id in index ==> Enumerates(index[id], Elements(metadata[id].categories))
    }

    ghost function View(id: ItemId): (r: Item)
      reads this
    {
      ViewOf(metadata, links, stored, id)
    }

    /** What the index lists for an item. */
    function Indexed(id: ItemId): (r: seq<Category>)
      reads this`index
    {
      if id in index then index[id] else []
    }

    /** An item as the runs of events see it. */
    ghost function Shown(id: ItemId): (r: State)
      reads this
    {
      State(View(id), Indexed(id))
    }

    /** The category directories: those of the junctions, and `bare` ones without any. */
    function Directories(bare: set<Category>): (r: CatTree)
      reads this
    {
      CatTree(bare + (set id, c | id in links.Keys && c in links[id] :: c), links)
    }

    // ---------- file-system primitives; each of them can fail ----------

    method CreateCategoryLink(id: ItemId, c: Category) returns (ok: bool)
      modifies this`links
      ensures links == if ok then old(links)[id := Recorded(old(links), id) + {place(c)}]
                       else old(links)
    {
      ok := *;
      if ok {
        links := links[id := Recorded(links, id) + {place(c)}];
      }
    }

    method RemoveCategoryLink(id: ItemId, c: Category) returns (ok: bool)
      modifies this`links
      ensures links == if ok then old(links)[id := Recorded(old(links), id) - {place(c)}]
                       else old(links)
    {
      ok := *;
      if ok {
        links := links[id := Recorded(links, id) - {place(c)}];
      }
    }

    /**
      Write the manifest file in place, one line for each item. A write that fails may have cut it off; what can still be
      read are some of the lines.
     */
    method SaveManifest(manifest: CatManifest) returns (ok: bool)
      modifies this`stored
      ensures ok ==> stored == manifest.entries
      ensures !ok ==> stored == old(stored) || CutOff(manifest.entries, stored)
    {
      ok := *;
      var begun: bool := *;
      if ok {
        stored := manifest.entries;
      } else if begun {
        var gone: set<ItemId> := *;
        stored := manifest.entries - gone;
      }
    }

    /** Read the manifest file; a file that cannot be read or parsed is an error. */
    method LoadManifest() returns (ok: bool, manifest: CatManifest)
      ensures fresh(manifest) && manifest.entries == stored
    {
      ok := *;
      manifest := new CatManifest(stored);
    }

    /** Read every metadata file into the index. */
    method RebuildIndex() returns (ok: bool)
      requires Configured()
      modifies this`index
      ensures ok ==> Current()
      ensures !ok ==> index == old(index)
    {
      ok := *;
      if ok {
        index := map id | id in metadata :: listing(metadata[id].categories);
      }
    }

    /**
      Locked read-modify-write of one metadata file. The file is replaced as a whole or not at all; on some systems the
      replacement can be reported as a failure although it happened, when the directory cannot be flushed after it.
     */
    method EditItemCategories(id: ItemId, add: seq<Category>, remove: seq<Category>, drop: seq<Category>)
      returns (ok: bool, edited: bool)
      modifies this`metadata
      ensures ok ==> edited
      ensures edited ==> id in index && id in old(metadata)
      ensures metadata == if edited then old(metadata)[id := ApplyCategoryEdits(old(metadata)[id], add, remove, drop)]
                          else old(metadata)
    {
      edited := *;
      var flushed: bool := *;
      if id !in index || id !in metadata {
        edited := false;
      }
      ok := edited && flushed;
      if edited {
        metadata := metadata[id := ApplyCategoryEdits(metadata[id], add, remove, drop)];
      }
    }

    /** All junctions that resolve to an indexed item, each listed once, in some order. */
    method ScanCatMemberships() returns (pairs: seq<(ItemId, Category)>)
      ensures NoDuplicates(pairs)
      ensures forall id, c :: (id, c) in pairs <==> id in index && id in links && c in links[id]
    {
      pairs := [];
      var all := set id, c | id in links.Keys && id in index && c in links[id] :: (id, c);
      var rest := all;
      while rest != {}
        invariant rest <= all
        invariant forall p :: p in all <==> p in rest || p in pairs
        invariant forall p :: p in rest ==> p !in pairs
        invariant NoDuplicates(pairs)
      {
        var p :| p in rest;
        pairs := pairs + [p];
        rest := rest - {p};
      }
    }

    // ---------- the scan ----------

    /** Only item `id` looks different from before. */
    twostate predicate OnlyAt(id: ItemId, manifest: CatManifest)
      reads this, manifest
    {
      && index == old(index) && metadata.Keys == old(metadata.Keys) && stored == old(stored)
      && forall o :: o != id ==>
           ViewOf(metadata, links, manifest.entries, o) == old(ViewOf(metadata, links, manifest.entries, o))
    }

    ghost function Seen(id: ItemId, manifest: CatManifest): (v: Item)
      reads this, manifest
      ensures v.manifest == Recorded(manifest.entries, id)
    {
      ViewOf(metadata, links, manifest.entries, id)
    }

    // ---------- the primitives, by what they change in the view of one item ----------

    method Record(id: ItemId, c: Category, manifest: CatManifest)
      modifies manifest
      ensures OnlyAt(id, manifest)
      ensures Seen(id, manifest) == var v := old(Seen(id, manifest)); v.(manifest := v.manifest + {c})
    {
      manifest.Insert(id, c);
    }

    method Forget(id: ItemId, c: Category, manifest: CatManifest)
      modifies manifest
      ensures OnlyAt(id, manifest)
      ensures Seen(id, manifest) == var v := old(Seen(id, manifest)); v.(manifest := v.manifest - {c})
    {
      manifest.Remove(id, c);
    }

    method Link(id: ItemId, c: Category, manifest: CatManifest) returns (ok: bool)
      modifies this`links
      ensures OnlyAt(id, manifest)
      ensures Seen(id, manifest) == var v := old(Seen(id, manifest));
                if ok then v.(disk := v.disk + {place(c)}) else v
    {
      ok := CreateCategoryLink(id, c);
    }

    method Unlink(id: ItemId, c: Category, manifest: CatManifest) returns (ok: bool)
      modifies this`links
      ensures OnlyAt(id, manifest)
      ensures Seen(id, manifest) == var v := old(Seen(id, manifest));
                if ok then v.(disk := v.disk - {place(c)}) else v
    {
      ok := RemoveCategoryLink(id, c);
    }

    /** Add one category to the metadata. */
    method AddTo(id: ItemId, c: Category, manifest: CatManifest) returns (ok: bool)
      modifies this`metadata
      ensures OnlyAt(id, manifest)
      ensures var v := old(Seen(id, manifest));
                Seen(id, manifest) == v.(meta := v.meta + {c}, tombs := v.tombs - {c})
                || (!ok && Seen(id, manifest) == v)
    {
      ghost var before := metadata;
      var edited;
      ok, edited := EditItemCategories(id, [c], [], []);
      if edited { EditView(before[id], [c], [], []); }
    }

    /** Remove one category from the metadata, leaving a tombstone. */
    method RemoveFrom(id: ItemId, c: Category, manifest: CatManifest) returns (ok: bool)
      modifies this`metadata
      ensures OnlyAt(id, manifest)
      ensures var v := old(Seen(id, manifest));
                Seen(id, manifest) == v.(meta := v.meta - {c}, tombs := v.tombs + {c})
                || (!ok && Seen(id, manifest) == v)
    {
      ghost var before := metadata;
      var edited;
      ok, edited := EditItemCategories(id, [], [c], []);
      if edited { EditView(before[id], [], [c], []); }
    }

    /** Replace one category by another without a tombstone; with no replacement the category is just dropped. */
    method Replace(id: ItemId, c: Category, n: Option<Category>, manifest: CatManifest) returns (ok: bool)
      modifies this`metadata
      ensures OnlyAt(id, manifest)
      ensures var v := old(Seen(id, manifest));
                var more := if n.Some? then {n.value} else {};
                Seen(id, manifest) == v.(meta := v.meta + more - {c}, tombs := v.tombs - more - {c})
                || (!ok && Seen(id, manifest) == v)
    {
      ghost var before := metadata;
      var add := if n.Some? then [n.value] else [];
      var edited;
      ok, edited := EditItemCategories(id, add, [], [c]);
      if edited { EditView(before[id], add, [], [c]); }
    }

    /** One listed category: in sync, or its junction is made anew. */
    method ProjectOne(id: ItemId, category: Category, disk: set<(ItemId, Category)>, manifest: CatManifest,
                      ghost s: Item, ghost seen: set<Category>) returns (ok: bool, changed: bool)
      requires Seen(id, manifest) == Projected(place, s, seen)
      requires seen <= s.meta && category in s.meta && category !in seen
      requires (id, category) in disk <==> category in s.disk
      modifies this`links, manifest
      ensures OnlyAt(id, manifest)
      ensures Seen(id, manifest) == Projected(place, s, if ok then seen + {category} else seen)
      ensures changed <==> category !in s.disk
    {
      hide ViewOf;
      ProjectStep(place, s, seen, category);
      changed := (id, category) !in disk;
      if changed {
        ok := Link(id, category, manifest);
        if !ok {
          return;
        }
      }
      Record(id, category, manifest);
      ok := true;
    }

    /** Metadata-driven direction: every listed category gets a live junction. */
    method ProjectItem(id: ItemId, disk: set<(ItemId, Category)>, manifest: CatManifest, ghost s: Item)
      returns (ok: bool, changes: nat, ghost seen: set<Category>)
      requires id in index && Enumerates(index[id], s.meta)
      requires s == Seen(id, manifest)
      requires forall c :: (id, c) in disk <==> c in s.disk
      modifies this`links, manifest
      ensures OnlyAt(id, manifest)
      ensures seen <= s.meta && Seen(id, manifest) == Projected(place, s, seen)
      ensures ok ==> seen == s.meta && changes == |Missing(s)|
    {
      hide ViewOf, Projected;
      ok, changes, seen := true, 0, {};
      var categories := index[id];
      ProjectedNone(place, s);
      for i := 0 to |categories|
        invariant ok
        invariant seen == Elements(categories[..i]) <= s.meta
        invariant OnlyAt(id, manifest)
        invariant Seen(id, manifest) == Projected(place, s, seen)
        invariant changes == |seen - s.disk|
      {
        PrefixSnoc(categories, i);
        assert categories[i] in Elements(categories);
        ProjectStep(place, s, seen, categories[i]);
        var changed;
        ok, changed := ProjectOne(id, categories[i], disk, manifest, s, seen);
        if !ok {
          return;
        }
        if changed {
          changes := changes + 1;
        }
        seen := seen + {categories[i]};
      }
      assert categories[..|categories|] == categories;
    }

    /** One extra junction: removed when known or tombstoned, adopted otherwise. */
    method SettleOne(id: ItemId, category: Category, tombstones: map<ItemId, seq<Category>>, manifest: CatManifest,
                     ghost s: Item, ghost seen: set<Category>) returns (ok: bool)
      requires id in tombstones ==> Elements(tombstones[id]) == s.tombs
      requires Seen(id, manifest) == Settled(place, s, id in tombstones, seen)
      requires seen <= Extra(s) && category in Extra(s) && category !in seen
      modifies this`links, this`metadata, manifest
      ensures OnlyAt(id, manifest)
      ensures ok ==> Seen(id, manifest) == Settled(place, s, id in tombstones, seen + {category})
      ensures Interrupted(place, s, id in tombstones, Seen(id, manifest))
    {
      hide ViewOf, Settled, Interrupted, Adopted, Orphans;
      ghost var read := id in tombstones;
      StoppedSettling(place, s, read, seen);
      StoppedSettling(place, s, read, seen + {category});
      SettleTest(place, s, read, seen, category);
      var known := manifest.Contains(id, category);
      var suppressed := id in tombstones && category in tombstones[id];
      assert read ==> (suppressed <==> category in Elements(tombstones[id]));
      if known || suppressed {
        SettleOrphan(place, s, read, seen, category);
        ok := Unlink(id, category, manifest);
        if ok {
          Forget(id, category, manifest);
        }
      } else {
        SettleAdopted(place, s, read, seen, category);
        StoppedAdopting(place, s, read, seen, category);
        ok := AddTo(id, category, manifest);
        if ok {
          Record(id, category, manifest);
        }
      }
    }

    /** Junction-driven direction: a junction the metadata does not list is removed or adopted. */
    method SettleItem(id: ItemId, onDisk: seq<(ItemId, Category)>, tombstones: map<ItemId, seq<Category>>,
                      manifest: CatManifest, ghost s: Item)
      returns (ok: bool, changes: nat)
      requires id in index && Enumerates(index[id], s.meta)
      requires NoDuplicates(onDisk) && forall c :: (id, c) in onDisk <==> c in s.disk
      requires id in tombstones ==> Elements(tombstones[id]) == s.tombs
      requires Seen(id, manifest) == Settled(place, s, id in tombstones, {})
      modifies this`links, this`metadata, manifest
      ensures OnlyAt(id, manifest)
      ensures ok ==> Seen(id, manifest) == Settled(place, s, id in tombstones, Extra(s)) && changes == |Extra(s)|
      ensures Interrupted(place, s, id in tombstones, Seen(id, manifest))
    {
      hide ViewOf, Settled, ExtraSeen, Extra, NoDuplicates, Interrupted;
      ok, changes := true, 0;
      ghost var seen := {};
      ExtraSeenEnds(id, onDisk, s);
      var metadataCategories := Elements(index[id]);
      for k := 0 to |onDisk|
        invariant ok
        invariant seen == ExtraSeen(id, onDisk[..k], s)
        invariant OnlyAt(id, manifest)
        invariant Seen(id, manifest) == Settled(place, s, id in tombstones, seen)
        invariant changes == |seen|
      {
        var (diskId, category) := onDisk[k];
        ExtraSeenSnoc(id, onDisk, k, s);
        if diskId != id || category in metadataCategories {
          continue;
        }
        ok := SettleOne(id, category, tombstones, manifest, s, seen);
        if !ok {
          return;
        }
        changes := changes + 1;
        seen := seen + {category};
      }
      assert onDisk[..|onDisk|] == onDisk;
      StoppedSettling(place, s, id in tombstones, seen);
    }

    /** What the scan read about one item before it changed anything; the tombstones may be missing. */
    ghost predicate WasRead(id: ItemId, onDisk: seq<(ItemId, Category)>, tombstones: map<ItemId, seq<Category>>, s: Item)
      reads this`index
    {
      && id in index && Enumerates(index[id], s.meta)
      && (forall c :: (id, c) in onDisk <==> c in s.disk)
      && (id in tombstones ==> Elements(tombstones[id]) == s.tombs)
    }

    /**
      Read the junctions of all items and the tombstones of those whose metadata can be read at this moment. A metadata
      file that cannot be read is passed over, although it was readable when the index was built.
     */
    method ReadScan() returns (onDisk: seq<(ItemId, Category)>, tombstones: map<ItemId, seq<Category>>)
      requires Current()
      ensures NoDuplicates(onDisk) && tombstones.Keys <= index.Keys
      ensures forall id :: id in index ==> WasRead(id, onDisk, tombstones, View(id))
    {
      onDisk := ScanCatMemberships();
      var unread: set<ItemId> := *;
      tombstones := map id | id in index && id !in unread :: metadata[id].removed;
    }

    method ReconcileItem(id: ItemId, onDisk: seq<(ItemId, Category)>, tombstones: map<ItemId, seq<Category>>,
                         manifest: CatManifest, ghost s: Item) returns (ok: bool, changes: nat)
      requires NoDuplicates(onDisk) && WasRead(id, onDisk, tombstones, s)
      requires s == Seen(id, manifest)
      modifies this`links, this`metadata, manifest
      ensures OnlyAt(id, manifest)
      ensures ok ==> Seen(id, manifest) == Rescanned(place, s, id in tombstones) && changes == Changes(s)
      ensures Interrupted(place, s, id in tombstones, Seen(id, manifest))
    {
      hide ViewOf, Projected, Settled, Rescanned, Interrupted, Enumerates, NoDuplicates;
      ghost var seen, read := {}, id in tombstones;
      var extra;
      var disk := set p | p in onDisk;
      ok, changes, seen := ProjectItem(id, disk, manifest, s);
      StoppedProjecting(place, s, read, seen);
      if !ok {
        return;
      }
      ProjectedAll(place, s, read);
      ok, extra := SettleItem(id, onDisk, tombstones, manifest, s);
      SettledAll(place, s, read);
      changes := changes + extra;
    }

    /** Everything the library shows, item by item. */
    ghost function Snapshot(): (r: map<ItemId, Item>)
      reads this
    {
      map id | id in index :: View(id)
    }

    function Progress(s: Item, done: bool, read: bool): (r: Item) {
      if done then Rescanned(place, s, read) else s
    }

    lemma ProgressFacts()
      ensures forall s, read :: Progress(s, true, read) == Rescanned(place, s, read)
      ensures forall s, read :: Progress(s, false, read) == s
      ensures forall s, done, read :: Interrupted(place, s, read, Progress(s, done, read))
    {
      hide Rescanned, Interrupted;
      StoppedAround(place);
    }

    /** The loop over all indexed items, in any order; `origin` is what the library showed before. */
    method ReconcileItems(onDisk: seq<(ItemId, Category)>, tombstones: map<ItemId, seq<Category>>,
                          manifest: CatManifest, ghost origin: ItemId -> Item, ghost before: map<ItemId, Item>)
      returns (ok: bool, changes: nat)
      requires NoDuplicates(onDisk)
      requires forall id :: Seen(id, manifest) == origin(id)
      requires forall id :: id in index ==> id in before && before[id] == origin(id)
      requires forall id :: id in index ==> WasRead(id, onDisk, tombstones, origin(id))
      modifies this`links, this`metadata, manifest
      ensures metadata.Keys == old(metadata.Keys)
      ensures ok ==> forall id :: Seen(id, manifest) == Progress(origin(id), id in index, id in tombstones)
      ensures ok ==> changes == TotalChanges(before, index.Keys)
      ensures forall id :: Interrupted(place, origin(id), id in tombstones, Seen(id, manifest))
    {
      hide ViewOf, Rescanned, Interrupted, TotalChanges, WasRead, NoDuplicates, Progress, Changes;
      ghost var done: set<ItemId> := {};
      var rest := index.Keys;
      ok, changes := true, 0;
      ProgressFacts();
      TotalNone(before);
      while rest != {}
        invariant ok
        invariant forall id :: id in index.Keys <==> id in done || id in rest
        invariant forall id :: id in rest ==> id !in done
        invariant metadata.Keys == old(metadata.Keys)
        invariant forall id :: Seen(id, manifest) == Progress(origin(id), id in done, id in tombstones)
        invariant changes == TotalChanges(before, done)
      {
        var id :| id in rest;
        var n;
        ok, n := ReconcileItem(id, onDisk, tombstones, manifest, origin(id));
        if !ok {
          return;
        }
        TotalInsert(before, done, id);
        changes := changes + n;
        done, rest := done + {id}, rest - {id};
      }
      assert done == index.Keys;
    }

    /**
      Reconcile the junctions against metadata, manifest and tombstones. On success every indexed item is reconciled, by
      its tombstones as far as they could be read, and the count is the number of missing plus the number of extra
      junctions. On failure nothing worse happened than stopping early, and the manifest file is untouched; or only the
      writing of the manifest failed.
     */
    method ReconcileCategories() returns (r: Option<nat>, ghost read: set<ItemId>)
      requires Current()
      modifies this
      ensures index == old(index) && metadata.Keys == old(metadata.Keys)
      ensures r.Some? ==> forall id ::
                View(id) == if id in index then Rescanned(place, old(View(id)), id in read) else old(View(id))
      ensures r.Some? ==> r.value == TotalChanges(old(Snapshot()), index.Keys)
      ensures r.None? ==>
                (stored == old(stored) && forall id :: Interrupted(place, old(View(id)), id in read, View(id)))
                || forall id :: UpToManifest(View(id), Progress(old(View(id)), id in index, id in read))
    {
      hide ViewOf, Rescanned, TotalChanges, CutOff, WasRead, UpToManifest;
      var onDisk, tombstones := ReadScan();
      read := tombstones.Keys;
      var ok, manifest := LoadManifest();
      StoppedAround(place);
      ShownBy(manifest);
      if !ok {
        return None, read;
      }
      ghost var texts, junctions, entries := metadata, links, stored;
      ghost var origin := (id: ItemId) => ViewOf(texts, junctions, entries, id);
      var changes;
      ok, changes := ReconcileItems(onDisk, tombstones, manifest, origin, Snapshot());
      if ok {
        ok := SaveManifest(manifest);
      }
      ShownBy(manifest);
      ManifestLater(place);
      r := if ok then Some(changes) else None;
    }

    /** The view through the manifest file differs from the one through a manifest in memory in that one part. */
    lemma ShownBy(manifest: CatManifest)
      ensures forall id :: View(id) == Seen(id, manifest).(manifest := Recorded(stored, id))
      ensures stored == manifest.entries ==> forall id :: View(id) == Seen(id, manifest)
      ensures CutOff(manifest.entries, stored) ==> forall id :: UpToManifest(View(id), Seen(id, manifest))
    {
    }

    /** Of a manifest file some lines are left. */
    ghost predicate CutOff(full: Entries, cut: Entries) {
      forall id :: Recorded(cut, id) == Recorded(full, id) || Recorded(cut, id) == {}
    }

    // ---------- the scan command ----------

    /**
      The category part of a scan: re-index, reconcile, re-index. When it stops, either the manifest is as it was and
      every item is within what an interrupted scan shows, or all items are reconciled and only the manifest file or the
      index is behind.
     */
    method Scan() returns (r: Option<nat>, ghost read: set<ItemId>)
      requires Configured()
      modifies this
      ensures metadata.Keys == old(metadata.Keys)
      ensures r.Some? ==> Current() && forall id :: id in metadata ==>
                Next(place, old(Shown(id)), Event.Scan(id in read), Shown(id))
      ensures r.Some? ==> forall id :: id in metadata ==>
                var v := old(View(id));
                var known := v.manifest + (if id in read then v.tombs else {});
                && View(id).meta == v.meta + (v.disk - v.meta - known)
                && View(id).disk == v.disk + (set c | c in v.meta - v.disk :: place(c))
                                    - (set c | c in (v.disk - v.meta) * known :: place(c))
                && View(id).manifest == v.manifest - (v.disk - v.meta) + View(id).meta
                && View(id).tombs == v.tombs - (v.disk - v.meta - known)
      ensures r.None? ==> forall id :: id in metadata ==>
                Next(place, old(Shown(id)), Event.ScanStopped(id in read), Shown(id))
      ensures r.None? ==>
                (stored == old(stored) && forall id :: Interrupted(place, old(View(id)), id in read, View(id)))
                || forall id :: id in metadata ==> UpToManifest(View(id), Rescanned(place, old(View(id)), id in read))
    {
      hide ViewOf, Rescanned, Interrupted, TotalChanges, Current, Next, IndexedLately;
      RescannedSets(place);
      r, read := IndexAndReconcile();
      var ok := r.Some?;
      if ok {
        ok := RebuildIndex();
        if !ok {
          r := None;
        }
      }
      forall id | id in metadata
        ensures r.Some? ==> Next(place, old(Shown(id)), Event.Scan(id in read), Shown(id))
        ensures r.None? ==> Next(place, old(Shown(id)), Event.ScanStopped(id in read), Shown(id))
      {
        ScanSteps(place, old(Shown(id)), id in read, Shown(id));
        if ok { ShownFresh(id); }
      }
    }

    method IndexAndReconcile() returns (r: Option<nat>, ghost read: set<ItemId>)
      requires Configured()
      modifies this
      ensures metadata.Keys == old(metadata.Keys)
      ensures r.Some? ==> forall id :: id in metadata ==> View(id) == Rescanned(place, old(View(id)), id in read)
      ensures r.None? ==>
                (stored == old(stored) && forall id ::
                   Interrupted(place, old(View(id)), id in read, View(id)) && View(id).manifest == old(View(id)).manifest)
                || forall id :: id in metadata ==> UpToManifest(View(id), Rescanned(place, old(View(id)), id in read))
      ensures forall id :: id in metadata ==> IndexedLately(old(Shown(id)), Indexed(id))
    {
      hide ViewOf, Rescanned, Interrupted, TotalChanges, Current, UpToManifest;
      StoppedAround(place);
      ghost var before := stored;
      ManifestViews(metadata, links, stored, stored);
      var ok := RebuildIndex();
      if !ok {
        return None, {};
      }
      forall id | id in metadata
        ensures Fresh(Shown(id))
      {
        ShownFresh(id);
      }
      IndexCovers();
      r, read := ReconcileCategories();
      ManifestViews(metadata, links, before, stored);
    }

    lemma IndexCovers()
      requires Current()
      ensures index.Keys == metadata.Keys
    {
    }

    // ---------- commands ----------

    /** Drop the `unmatched` membership everywhere; the manifest record goes only when the rest went. */
    method ClearUnmatched(id: ItemId, manifest: CatManifest) returns (ok: bool)
      modifies this`metadata, this`links, manifest
      ensures OnlyAt(id, manifest)
      ensures var v, r := old(Seen(id, manifest)), Seen(id, manifest);
        && (ok ==> r == Cleared(place, v))
        && v.meta - {UNMATCHED} <= r.meta <= v.meta
        && v.disk - {place(UNMATCHED)} <= r.disk <= v.disk
        && v.tombs - {UNMATCHED} <= r.tombs <= v.tombs
    {
      hide ViewOf;
      ok := Replace(id, UNMATCHED, None, manifest);
      if !ok { return; }
      ok := Unlink(id, UNMATCHED, manifest);
      if !ok { return; }
      Forget(id, UNMATCHED, manifest);
    }

    /** File one item: metadata first, then the junction, then the manifest; a real category clears `unmatched`. */
    method FileItem(id: ItemId, c: Category, manifest: CatManifest) returns (ok: bool)
      modifies this`metadata, this`links, manifest
      ensures OnlyAt(id, manifest)
      ensures ok ==> Seen(id, manifest) == Filed(place, c, old(Seen(id, manifest)))
      ensures PartlyFiled(place, c, old(Seen(id, manifest)), Seen(id, manifest))
    {
      hide ViewOf;
      ok := AddTo(id, c, manifest);
      if !ok { return; }
      ok := Link(id, c, manifest);
      if !ok { return; }
      Record(id, c, manifest);
      if c != UNMATCHED {
        ok := ClearUnmatched(id, manifest);
      }
    }

    method UnfileItem(id: ItemId, c: Category, manifest: CatManifest) returns (ok: bool)
      modifies this`metadata, this`links, manifest
      ensures OnlyAt(id, manifest)
      ensures ok ==> Seen(id, manifest) == Unfiled(place, c, old(Seen(id, manifest)))
      ensures PartlyUnfiled(place, c, old(Seen(id, manifest)), Seen(id, manifest))
    {
      hide ViewOf;
      ok := RemoveFrom(id, c, manifest);
      if !ok { return; }
      ok := Unlink(id, c, manifest);
      if !ok { return; }
      Forget(id, c, manifest);
    }

    method FileItems(ids: seq<ItemId>, c: Category, manifest: CatManifest, ghost origin: ItemId -> Item)
      returns (ok: bool)
      requires forall id :: Seen(id, manifest) == origin(id)
      modifies this`metadata, this`links, manifest
      ensures metadata.Keys == old(metadata.Keys)
      ensures ok ==> forall id :: Seen(id, manifest) == if id in ids then Filed(place, c, origin(id)) else origin(id)
      ensures forall id :: PartlyFiled(place, c, origin(id), Seen(id, manifest))
      ensures forall id :: id !in ids ==> Seen(id, manifest) == origin(id)
    {
      hide ViewOf, PartlyFiled, Filed;
      FiledFacts(place, c);
      ok := true;
      for i := 0 to |ids|
        invariant ok && metadata.Keys == old(metadata.Keys)
        invariant forall id :: Seen(id, manifest) == if id in ids[..i] then Filed(place, c, origin(id)) else origin(id)
      {
        assert ids[..i + 1] == ids[..i] + [ids[i]];
        ok := FileItem(ids[i], c, manifest);
        if !ok { return; }
      }
      assert ids[..|ids|] == ids;
    }

    /** File several items into one category, with one manifest write at the end. */
    method FileAndSave(ids: seq<ItemId>, c: Category) returns (ok: bool)
      modifies this`metadata, this`links, this`stored
      ensures metadata.Keys == old(metadata.Keys)
      ensures ok ==> forall id :: View(id) == if id in ids then Filed(place, c, old(View(id))) else old(View(id))
      ensures !ok ==> forall id :: FiledLeft(place, c, id in ids, old(Shown(id)), Shown(id))
      ensures !ok && stored != old(stored) ==> forall id ::
                UpToManifest(View(id), if id in ids then Filed(place, c, old(View(id))) else old(View(id)))
    {
      hide ViewOf, Filed, PartlyFiled, CutOff, UpToManifest;
      ghost var texts, junctions, entries := metadata, links, stored;
      ghost var origin := (id: ItemId) => ViewOf(texts, junctions, entries, id);
      var manifest;
      ok, manifest := LoadManifest();
      FiledFacts(place, c);
      ShownBy(manifest);
      if !ok {
        return;
      }
      ok := FileItems(ids, c, manifest, origin);
      if ok {
        ok := SaveManifest(manifest);
      }
      ShownBy(manifest);
      ManifestLaterFiled(place, c);
    }

    /** The same, then re-index. */
    method AddItemsCategory(ids: seq<ItemId>, c: Category) returns (ok: bool)
      requires Configured()
      modifies this
      ensures metadata.Keys == old(metadata.Keys)
      ensures ok ==> Current() && forall id :: id in metadata ==>
                Next(place, old(Shown(id)), if id in ids then Event.File(c) else Event.Reindex, Shown(id))
      ensures !ok ==> forall id ::
                Next(place, old(Shown(id)), if id in ids then Event.FileStopped(c) else Event.ManifestCut, Shown(id))
      ensures !ok && stored != old(stored) ==> forall id ::
                UpToManifest(View(id), if id in ids then Filed(place, c, old(View(id))) else old(View(id)))
      ensures ok ==> forall id :: id !in ids ==> View(id) == old(View(id))
      ensures ok ==> forall id :: id in ids ==>
                var v := old(View(id));
                var gone := if c == "unmatched" then {} else {"unmatched"};
                && View(id).meta == v.meta + {c} - gone
                && View(id).disk == v.disk + {place(c)} - (set d | d in gone :: place(d))
                && View(id).manifest == v.manifest + {c} - gone && View(id).tombs == v.tombs - {c} - gone
    {
      hide ViewOf, Filed, FiledLeft, Next, Current;
      FiledSets(place, c);
      ok := FileAndSave(ids, c);
      if ok {
        ok := RebuildIndex();
      }
      forall id
        ensures ok && id in metadata ==>
                  Next(place, old(Shown(id)), if id in ids then Event.File(c) else Event.Reindex, Shown(id))
        ensures !ok ==>
                  Next(place, old(Shown(id)), if id in ids then Event.FileStopped(c) else Event.ManifestCut, Shown(id))
      {
        FileSteps(place, c, id in ids, old(Shown(id)), Shown(id));
        if ok && id in metadata { ShownFresh(id); }
      }
    }

    method UnfileItems(ids: seq<ItemId>, c: Category, manifest: CatManifest, ghost origin: ItemId -> Item)
      returns (ok: bool)
      requires forall id :: Seen(id, manifest) == origin(id)
      modifies this`metadata, this`links, manifest
      ensures metadata.Keys == old(metadata.Keys)
      ensures ok ==> forall id :: Seen(id, manifest) == if id in ids then Unfiled(place, c, origin(id)) else origin(id)
      ensures forall id :: PartlyUnfiled(place, c, origin(id), Seen(id, manifest))
      ensures forall id :: id !in ids ==> Seen(id, manifest) == origin(id)
    {
      hide ViewOf, PartlyUnfiled, Unfiled;
      UnfiledFacts(place, c);
      ok := true;
      for i := 0 to |ids|
        invariant ok && metadata.Keys == old(metadata.Keys)
        invariant forall id :: Seen(id, manifest) == if id in ids[..i] then Unfiled(place, c, origin(id)) else origin(id)
      {
        assert ids[..i + 1] == ids[..i] + [ids[i]];
        ok := UnfileItem(ids[i], c, manifest);
        if !ok { return; }
      }
      assert ids[..|ids|] == ids;
    }

    /** Remove several items from one category, with one manifest write at the end. */
    method UnfileAndSave(ids: seq<ItemId>, c: Category) returns (ok: bool)
      modifies this`metadata, this`links, this`stored
      ensures metadata.Keys == old(metadata.Keys)
      ensures ok ==> forall id :: View(id) == if id in ids then Unfiled(place, c, old(View(id))) else old(View(id))
      ensures !ok ==> forall id :: UnfiledLeft(place, c, id in ids, old(Shown(id)), Shown(id))
      ensures !ok && stored != old(stored) ==> forall id ::
                UpToManifest(View(id), if id in ids then Unfiled(place, c, old(View(id))) else old(View(id)))
    {
      hide ViewOf, Unfiled, PartlyUnfiled, CutOff, UpToManifest;
      ghost var texts, junctions, entries := metadata, links, stored;
      ghost var origin := (id: ItemId) => ViewOf(texts, junctions, entries, id);
      var manifest;
      ok, manifest := LoadManifest();
      UnfiledFacts(place, c);
      ShownBy(manifest);
      if !ok {
        return;
      }
      ok := UnfileItems(ids, c, manifest, origin);
      if ok {
        ok := SaveManifest(manifest);
      }
      ShownBy(manifest);
      ManifestLaterUnfiled(place, c);
    }

    /** The same, then re-index. */
    method RemoveItemsCategory(ids: seq<ItemId>, c: Category) returns (ok: bool)
      requires Configured()
      modifies this
      ensures metadata.Keys == old(metadata.Keys)
      ensures ok ==> Current() && forall id :: id in metadata ==>
                Next(place, old(Shown(id)), if id in ids then Event.Unfile(c) else Event.Reindex, Shown(id))
      ensures !ok ==> forall id ::
                Next(place, old(Shown(id)), if id in ids then Event.UnfileStopped(c) else Event.ManifestCut, Shown(id))
      ensures !ok && stored != old(stored) ==> forall id ::
                UpToManifest(View(id), if id in ids then Unfiled(place, c, old(View(id))) else old(View(id)))
      ensures ok ==> forall id :: id !in ids ==> View(id) == old(View(id))
      ensures ok ==> forall id :: id in ids ==>
                var v := old(View(id));
                && View(id).meta == v.meta - {c} && View(id).disk == v.disk - {place(c)}
                && View(id).manifest == v.manifest - {c} && View(id).tombs == v.tombs + {c}
    {
      hide ViewOf, Unfiled, UnfiledLeft, Next, Current;
      UnfiledSets(place, c);
      ok := UnfileAndSave(ids, c);
      if ok {
        ok := RebuildIndex();
      }
      forall id
        ensures ok && id in metadata ==>
                  Next(place, old(Shown(id)), if id in ids then Event.Unfile(c) else Event.Reindex, Shown(id))
        ensures !ok ==>
                  Next(place, old(Shown(id)), if id in ids then Event.UnfileStopped(c) else Event.ManifestCut, Shown(id))
      {
        UnfileSteps(place, c, id in ids, old(Shown(id)), Shown(id));
        if ok && id in metadata { ShownFresh(id); }
      }
    }

    // ---------- moving a category tree ----------

    /**
      Move a category directory with everything below it, by one rename or entry by entry into another directory. It
      succeeds only when the directories allow it, and without a fault of the file system always then. When it fails
      some of it may have moved. `before` is what the library showed, `after` what it shows now.
     */
    method MoveDirectory(from: Category, to: Category, merge: bool, bare: set<Category>, manifest: CatManifest,
                         ghost before: ItemId -> Item)
      returns (ok: bool, ghost after: ItemId -> Item, ghost fault: bool, ghost moved: set<string>)
      requires Configured()
      requires forall id :: Seen(id, manifest) == before(id)
      modifies this`links
      ensures forall id :: Seen(id, manifest) == after(id)
      ensures ok ==> old(Movable(from, to, merge, bare))
      ensures !ok && !fault ==> !old(Movable(from, to, merge, bare))
      ensures forall id :: after(id) == before(id).(disk := after(id).disk)
      ensures ok ==> forall id :: after(id).disk == Substitute(place(from), place(to), before(id).disk)
      ensures !ok ==> forall id ::
                after(id).disk == RelocatedAll(names(id), place(from), place(to), moved, before(id).disk)
    {
      hide ViewOf, RelocatedAll, Substitute, Movable, Recorded;
      ghost var junctions := links;
      ok, fault, moved := MoveLinks(from, to, merge, bare);
      MovedViews(metadata, junctions, links, manifest.entries);
      ghost var texts, now, entries := metadata, links, manifest.entries;
      after := (id: ItemId) => ViewOf(texts, now, entries, id);
    }

    method MoveLinks(from: Category, to: Category, merge: bool, bare: set<Category>)
      returns (ok: bool, ghost fault: bool, ghost moved: set<string>)
      requires Configured()
      modifies this`links
      ensures ok ==> old(Movable(from, to, merge, bare))
      ensures !ok && !fault ==> !old(Movable(from, to, merge, bare))
      ensures ok ==> forall id :: Recorded(links, id) == Substitute(place(from), place(to), Recorded(old(links), id))
      ensures !ok ==> forall id ::
                Recorded(links, id) == RelocatedAll(names(id), place(from), place(to), moved, Recorded(old(links), id))
    {
      hide RelocatedAll, Substitute, Mergeable, Renamable;
      var t := Directories(bare);
      moved := {};
      NoneMoved(t, names, place(from), place(to));
      NothingMoves(place(from), place(to));
      if merge {
        ok, t, fault, moved := MergeDirectory(t, names, place(from), place(to));
      } else {
        ok, t, fault := RenameDirectory(t, names, place(from), place(to));
      }
      links := t.links;
    }

    /** The directories allow the rename or the merge. */
    ghost predicate Movable(from: Category, to: Category, merge: bool, bare: set<Category>)
      reads this
    {
      if merge then Mergeable(Directories(bare), names, place(from), place(to))
      else Renamable(Directories(bare), names, place(from), place(to))
    }

    /** The loop over one item's listed categories. */
    method RemapItem(id: ItemId, from: Category, to: Category, manifest: CatManifest, ghost s: Item) returns (ok: bool)
      requires id in index && s == Seen(id, manifest)
      modifies this`metadata, manifest
      ensures OnlyAt(id, manifest)
      ensures ok ==> Seen(id, manifest) == RemapAll(from, to, index[id], s)
      ensures PartlyRemapped(from, to, index[id], s, Seen(id, manifest).meta, Seen(id, manifest).tombs)
      ensures Seen(id, manifest).disk == s.disk
    {
      hide ViewOf;
      var categories := index[id];
      ok := true;
      for i := 0 to |categories|
        invariant ok
        invariant OnlyAt(id, manifest)
        invariant Seen(id, manifest) == RemapAll(from, to, categories[..i], s)
        invariant Seen(id, manifest).disk == s.disk
      {
        assert categories[..i + 1][..i] == categories[..i];
        var target := Remap(from, to, categories[i]);
        if target.Some? {
          ok := Replace(id, categories[i], target, manifest);
          if !ok {
            assert RemappedUpTo(from, to, categories, i, s, Seen(id, manifest).meta, Seen(id, manifest).tombs)
                   || RemappedUpTo(from, to, categories, i + 1, s, Seen(id, manifest).meta, Seen(id, manifest).tombs);
            return;
          }
          Forget(id, categories[i], manifest);
          Record(id, target.value, manifest);
        }
      }
      assert categories[..|categories|] == categories;
      assert RemappedUpTo(from, to, categories, |categories|, s, Seen(id, manifest).meta, Seen(id, manifest).tombs);
    }

    /** The loop over all indexed items; `origin` is what the library showed before. */
    method RemapItems(from: Category, to: Category, manifest: CatManifest, ghost origin: ItemId -> Item) returns (ok: bool)
      requires forall id :: Seen(id, manifest) == origin(id)
      modifies this`metadata, manifest
      ensures metadata.Keys == old(metadata.Keys)
      ensures ok ==> forall id :: id in index ==> Seen(id, manifest) == RemapAll(from, to, index[id], origin(id))
      ensures forall id :: id !in index ==> Seen(id, manifest) == origin(id)
      ensures forall id :: id in index ==> var now := Seen(id, manifest);
                PartlyRemapped(from, to, index[id], origin(id), now.meta, now.tombs)
      ensures forall id :: Seen(id, manifest).disk == origin(id).disk
    {
      hide ViewOf, RemapAll, PartlyRemapped;
      var rest := index.Keys;
      ghost var done: set<ItemId> := {};
      ok := true;
      RemapFacts(from, to);
      while rest != {}
        invariant ok && metadata.Keys == old(metadata.Keys)
        invariant forall id :: id in index.Keys <==> id in done || id in rest
        invariant forall id :: id in rest ==> id !in done
        invariant forall id :: Seen(id, manifest) ==
                    if id in done then RemapAll(from, to, index[id], origin(id)) else origin(id)
        invariant forall id :: Seen(id, manifest).disk == origin(id).disk
      {
        var id :| id in rest;
        ok := RemapItem(id, from, to, manifest, origin(id));
        if !ok { return; }
        assert index[id][..|index[id]|] == index[id];
        done, rest := done + {id}, rest - {id};
      }
    }

    /**
      The directories first, then the rewriting of metadata and manifest entries; loading the manifest, which happens in
      between, can fail.
     */
    method MoveTreeOfItems(from: Category, to: Category, merge: bool, bare: set<Category>, manifest: CatManifest,
                           ghost before: ItemId -> Item)
      returns (ok: bool)
      requires Configured()
      requires forall id :: Seen(id, manifest) == before(id)
      modifies this`links, this`metadata, manifest
      ensures metadata.Keys == old(metadata.Keys)
      ensures ok ==> old(Movable(from, to, merge, bare))
      ensures ok ==> forall id :: Seen(id, manifest) == TreeMoved(place, from, to, Indexed(id), before(id))
      ensures forall id :: PartlyMoved(place, from, to, Indexed(id), before(id), Seen(id, manifest))
    {
      hide ViewOf, RemapAll, PartlyRemapped, Substitute, Movable, RelocatedAll;
      RemapFacts(from, to);
      RemapNothing(from, to);
      ghost var after, fault, moved;
      ok, after, fault, moved := MoveDirectory(from, to, merge, bare, manifest, before);
      forall id
        ensures after(id).disk <= before(id).disk + Substitute(place(from), place(to), before(id).disk)
      {
        RelocatedBound(names(id), place(from), place(to), moved, before(id).disk);
      }
      var loaded: bool := *;
      ok := ok && loaded;
      if ok {
        ok := RemapItems(from, to, manifest, after);
      }
    }

    /** Move the directories, rewrite metadata and manifest, save. */
    method MoveAndSave(from: Category, to: Category, merge: bool, bare: set<Category>) returns (ok: bool)
      requires Configured()
      modifies this`links, this`metadata, this`stored
      ensures metadata.Keys == old(metadata.Keys)
      ensures ok ==> old(Movable(from, to, merge, bare))
      ensures ok ==> forall id :: View(id) == TreeMoved(place, from, to, Indexed(id), old(View(id)))
      ensures !ok ==> forall id :: MovedLeft(place, from, to, old(Shown(id)), Shown(id))
      ensures !ok && stored != old(stored) ==> forall id ::
                UpToManifest(View(id), TreeMoved(place, from, to, Indexed(id), old(View(id))))
    {
      hide ViewOf, TreeMoved, Substitute, PartlyRemapped, PartlyMoved, Movable, CutOff, UpToManifest;
      ghost var texts, junctions, entries := metadata, links, stored;
      ghost var before := (id: ItemId) => ViewOf(texts, junctions, entries, id);
      var manifest := new CatManifest(stored);
      ShownBy(manifest);
      ok := MoveTreeOfItems(from, to, merge, bare, manifest, before);
      if ok {
        ok := SaveManifest(manifest);
      }
      ShownBy(manifest);
      ManifestOnly(place, from, to);
    }

    /** Rename or merge, then re-index. */
    method MoveCategory(from: Category, to: Category, merge: bool, bare: set<Category>) returns (ok: bool)
      requires Configured()
      modifies this
      ensures metadata.Keys == old(metadata.Keys)
      ensures ok ==> old(Movable(from, to, merge, bare)) && Current()
      ensures ok ==> forall id :: id in metadata ==> Next(place, old(Shown(id)), Event.MoveTree(from, to), Shown(id))
      ensures !ok ==> forall id :: Next(place, old(Shown(id)), Event.MoveTreeStopped(from, to), Shown(id))
      ensures !ok && stored != old(stored) ==> forall id ::
                UpToManifest(View(id), TreeMoved(place, from, to, old(Indexed(id)), old(View(id))))
      ensures ok && (merge || from != to) ==> forall id :: id in metadata && old(InPlace(id, from, to)) ==>
                View(id).meta == Substitute(from, to, old(View(id)).meta)
    {
      hide ViewOf, TreeMoved, MovedLeft, Movable, Next, Current;
      forall id | InPlace(id, from, to) && Movable(from, to, merge, bare) && (merge || from != to)
        ensures TreeMoved(place, from, to, Indexed(id), View(id)).meta == Substitute(from, to, View(id).meta)
      {
        MoveKeepsListed(id, from, to, merge, bare);
      }
      ok := MoveAndSave(from, to, merge, bare);
      if ok {
        ok := RebuildIndex();
      }
      forall id
        ensures ok && id in metadata ==> Next(place, old(Shown(id)), Event.MoveTree(from, to), Shown(id))
        ensures !ok ==> Next(place, old(Shown(id)), Event.MoveTreeStopped(from, to), Shown(id))
      {
        MoveSteps(place, from, to, old(Shown(id)), Shown(id));
        if ok && id in metadata { ShownFresh(id); }
      }
    }

    /** Every listed category has its junction, the index is up to date, and the two directories have their names. */
    ghost predicate InPlace(id: ItemId, from: Category, to: Category)
      reads this
    {
      Fresh(Shown(id)) && View(id).meta <= View(id).disk && place(from) == from && place(to) == to
    }

    lemma MoveKeepsListed(id: ItemId, from: Category, to: Category, merge: bool, bare: set<Category>)
      requires Configured() && InPlace(id, from, to) && Movable(from, to, merge, bare) && (merge || from != to)
      ensures TreeMoved(place, from, to, Indexed(id), View(id)).meta == Substitute(from, to, View(id).meta)
    {
      hide Mergeable, Renamable;
      if merge {
        MergeKeepsListed(place, Directories(bare), names, from, to, id, Indexed(id), View(id));
      } else {
        RenameKeepsListed(place, Directories(bare), names, from, to, Indexed(id), View(id));
      }
    }

    lemma ShownFresh(id: ItemId)
      requires Current() && id in metadata
      ensures Fresh(Shown(id))
    {
    }

    // ---------- items come and go ----------

    /** Unlink the indexed categories and remove the item directory; the manifest is not touched yet. */
    method RemoveItemFiles(id: ItemId) returns (ok: bool)
      requires id in index
      modifies this`links, this`metadata
      ensures forall o :: o != id ==> View(o) == old(View(o))
      ensures ok ==> View(id) == NO_ITEM.(manifest := old(View(id)).manifest) && id !in metadata
      ensures !ok ==> View(id) == old(View(id)).(disk := View(id).disk) && View(id).disk <= old(View(id)).disk
    {
      for i := 0 to |index[id]|
        invariant metadata == old(metadata)
        invariant forall o :: o != id ==> Recorded(links, o) == old(Recorded(links, o))
        invariant Recorded(links, id) <= old(Recorded(links, id))
      {
        ok := RemoveCategoryLink(id, index[id][i]);
        if !ok { return; }
      }
      ok := *;
      ok := ok && id in metadata;
      if ok {
        metadata, links := metadata - {id}, links - {id};
      }
    }

    /** Unlink, remove the item directory, forget the item in the manifest, re-index. */
    method DeleteItem(id: ItemId) returns (r: Option<bool>)
      requires Configured()
      modifies this
      ensures r.Some? ==> forall o :: o != id ==> View(o) == old(View(o))
      ensures r.None? ==> forall o :: o != id ==> Next(place, old(Shown(o)), Event.ManifestCut, Shown(o))
      ensures r == Some(false) ==> id !in old(index) && Shown(id) == old(Shown(id))
      ensures r == Some(true) ==> id in old(index) && Current() && Next(place, old(Shown(id)), Event.Delete, Shown(id))
      ensures r == Some(true) ==> id !in metadata && View(id) == Item({}, {}, {}, {}) && Indexed(id) == []
      ensures r.None? ==> Next(place, old(Shown(id)), Event.DeleteStopped, Shown(id))
    {
      hide ViewOf, Current, Next, UpToManifest;
      if id !in index {
        return Some(false);
      }
      var ok := RemoveItemFiles(id);
      if ok {
        ok := ForgetItem(id);
      }
      CutSteps(place);
      DeleteSteps(place, old(Shown(id)), Shown(id));
      if !ok {
        return None;
      }
      ok := RebuildIndex();
      r := if ok then Some(true) else None;
      if ok { GoneFromIndex(id); }
      DeleteSteps(place, old(Shown(id)), Shown(id));
    }

    /** Drop every manifest record of one item. */
    method ForgetItem(id: ItemId) returns (ok: bool)
      modifies this`stored
      ensures ok ==> View(id) == old(View(id)).(manifest := {}) && forall o :: o != id ==> View(o) == old(View(o))
      ensures !ok ==> forall o :: UpToManifest(View(o), old(View(o)))
      ensures !ok ==> View(id) == old(View(id)).(manifest := View(id).manifest)
                      && View(id).manifest <= old(View(id)).manifest
    {
      hide ViewOf, CutOff;
      ghost var before := stored;
      var manifest;
      ok, manifest := LoadManifest();
      manifest.RemoveItem(id);
      ManifestViews(metadata, links, stored, manifest.entries);
      if ok {
        ok := SaveManifest(manifest);
      }
      ManifestViews(metadata, links, before, stored);
      if !ok && stored != before { CutRecords(manifest.entries, stored); }
    }

    lemma CutRecords(full: Entries, cut: Entries)
      requires CutOff(full, cut)
      ensures forall id :: Recorded(cut, id) == Recorded(full, id) || Recorded(cut, id) == {}
    {
    }

    lemma GoneFromIndex(id: ItemId)
      requires Current() && id !in metadata
      ensures Indexed(id) == []
    {
    }

    /** Write the metadata of a new item, then its junctions. */
    method WriteNewItem(id: ItemId, cs: seq<Category>) returns (ok: bool)
      requires id !in metadata && id !in links
      modifies this`links, this`metadata
      ensures forall o :: o != id ==> View(o) == old(View(o))
      ensures View(id).manifest == old(View(id)).manifest && View(id).tombs == {}
      ensures View(id).meta <= Elements(cs) && View(id).disk <= Image(place, Elements(cs))
      ensures ok ==> View(id).meta == Elements(cs) && View(id).disk == Image(place, Elements(cs)) && id in metadata
    {
      ok := *;
      var written: bool := *;
      if ok || written {
        metadata := metadata[id := Metadata(cs, [])];
      }
      if !ok { return; }
      for i := 0 to |cs|
        invariant ok && metadata == old(metadata)[id := Metadata(cs, [])]
        invariant forall o :: o != id ==> Recorded(links, o) == old(Recorded(links, o))
        invariant Recorded(links, id) == Image(place, Elements(cs[..i])) <= Image(place, Elements(cs))
      {
        PrefixSnoc(cs, i);
        ImageInsert(place, Elements(cs[..i]), cs[i]);
        assert cs[i] in Elements(cs);
        ok := CreateCategoryLink(id, cs[i]);
        if !ok { return; }
      }
      assert cs[..|cs|] == cs;
    }

    /** Record the junctions an import just made. */
    method RecordProjectedCategories(id: ItemId, cs: seq<Category>) returns (ok: bool)
      modifies this`stored
      ensures ok ==> forall o ::
                View(o) == if o == id then old(View(o)).(manifest := old(View(o)).manifest + Elements(cs)) else old(View(o))
      ensures !ok ==> forall o :: o != id ==> UpToManifest(View(o), old(View(o)))
      ensures !ok ==> View(id) == old(View(id)).(manifest := View(id).manifest)
                      && View(id).manifest <= old(View(id)).manifest + Elements(cs)
    {
      hide ViewOf, CutOff;
      ghost var before := stored;
      ManifestViews(metadata, links, stored, stored);
      if cs == [] {
        return true;
      }
      var manifest;
      ok, manifest := LoadManifest();
      if !ok {
        return;
      }
      for i := 0 to |cs|
        invariant stored == before
        invariant forall o :: Recorded(manifest.entries, o) ==
                              if o == id then Recorded(stored, id) + Elements(cs[..i]) else Recorded(stored, o)
      {
        PrefixSnoc(cs, i);
        manifest.Insert(id, cs[i]);
      }
      assert cs[..|cs|] == cs;
      ManifestViews(metadata, links, stored, manifest.entries);
      ok := SaveManifest(manifest);
      ManifestViews(metadata, links, before, stored);
      if !ok && stored != before { CutRecords(manifest.entries, stored); }
    }

    /**
      Import a new item: metadata first, then its junctions, then their record in the manifest. A connector import
      with no matching rule is filed under `unmatched`; a manual import has no categories.
     */
    method ImportItem(id: ItemId, matched: seq<Category>, connector: bool) returns (ok: bool)
      requires Configured()
      requires id !in metadata && id !in links
      modifies this
      ensures ok ==> forall o :: o != id ==> View(o) == old(View(o))
      ensures !ok ==> forall o :: o != id ==> Next(place, old(Shown(o)), Event.ManifestCut, Shown(o))
      ensures var cs := if connector then ImportCategories(matched) else [];
        Next(place, old(Shown(id)), if ok then Event.Import(cs) else Event.ImportStopped(cs), Shown(id))
      ensures ok ==> Current()
      ensures ok && connector && matched != [] ==> View(id).meta == Elements(matched)
      ensures ok && connector && matched == [] ==> View(id).meta == {"unmatched"}
      ensures ok && !connector ==> View(id).meta == {}
      ensures ok ==> View(id).disk == (set c | c in View(id).meta :: place(c)) && View(id).tombs == {}
      ensures ok ==> View(id).manifest == old(View(id)).manifest + View(id).meta
    {
      hide ViewOf, Current, Image, Elements, Next, Fresh, UpToManifest;
      CutSteps(place);
      var cs := if connector then ImportCategories(matched) else [];
      NewItem(id);
      ok := WriteNewItem(id, cs);
      if ok {
        ok := RecordProjectedCategories(id, cs);
      }
      ImportSteps(place, cs, old(Shown(id)), Shown(id));
      if ok {
        ok := RebuildIndex();
        if ok { ShownFresh(id); }
      }
      ImportSteps(place, cs, old(Shown(id)), Shown(id));
      if ok { ImportedItem(matched, connector, View(id).meta); }
    }

    lemma ImportedItem(matched: seq<Category>, connector: bool, meta: set<Category>)
      requires meta == Elements(if connector then ImportCategories(matched) else [])
      ensures connector && matched != [] ==> meta == Elements(matched)
      ensures connector && matched == [] ==> meta == {"unmatched"}
      ensures !connector ==> meta == {}
      ensures Image(place, meta) == set c | c in meta :: place(c)
    {
    }

    lemma NewItem(id: ItemId)
      requires id !in metadata && id !in links
      ensures View(id) == NO_ITEM.(manifest := View(id).manifest)
    {
    }
  }
}
