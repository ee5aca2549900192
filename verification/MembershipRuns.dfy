/** Whole runs of scans, hand edits of the library and daemon commands, seen from one item. */
module MembershipRuns {
  import opened Collections
  import opened CategoryEdits
  import opened CategoryPaths
  import opened Membership

  /**
    One item and what the query index lists for it; an item that is not indexed has an empty list. The index is
    refreshed by a command that succeeds, by a scan and on request, and stays as it was when a command fails.
   */
  datatype State = State(item: Item, indexed: seq<Category>)

  /**
    `read` says whether a scan could read the item's tombstones. `ManifestCut` is what another item's command does to
    this one when writing the manifest file fails, `ManifestReplaced` what one does that runs at the same time and saves
    the manifest it had loaded before. `Skipped` is a scan or a rebuild of the index that passes the item over because its
    metadata cannot be parsed at that moment.
   */
  datatype Event =
    | Scan(read: bool)
    | ScanStopped(read: bool)
    | Reindex
    | Skipped
    | ManifestCut
    | ManifestReplaced(recorded: set<Category>)
    | HandUnlink(gone: set<Category>)
    | HandLink(made: set<Category>)
    | EditMetadata(meta: set<Category>, tombs: set<Category>)
    | File(c: Category)
    | FileStopped(c: Category)
    | Unfile(c: Category)
    | UnfileStopped(c: Category)
    | MoveTree(from: Category, to: Category)
    | MoveTreeStopped(from: Category, to: Category)
    | Import(categories: seq<Category>)
    | ImportStopped(categories: seq<Category>)
    | Delete
    | DeleteStopped

  /** A filing that failed part-way, apart from the manifest, which is saved at the very end. */
  ghost predicate PartlyFiled(place: Category -> Category, c: Category, s: Item, r: Item) {
    && s.meta - {UNMATCHED} <= r.meta <= s.meta + {c}
    && s.disk - {place(UNMATCHED)} <= r.disk <= s.disk + {place(c)}
    && s.tombs - {c, UNMATCHED} <= r.tombs <= s.tombs
  }

  /** A removal that failed part-way: the metadata edit is one write, the manifest is saved at the very end. */
  ghost predicate PartlyUnfiled(place: Category -> Category, c: Category, s: Item, r: Item) {
    && ((r.meta == s.meta && r.tombs == s.tombs) || (r.meta == s.meta - {c} && r.tombs == s.tombs + {c}))
    && s.disk - {place(c)} <= r.disk <= s.disk
  }

  /** The first few categories of the listing were rewritten; `meta` and `tombs` are what the metadata now holds. */
  ghost predicate PartlyRemapped(
    from: Category, to: Category, listing: seq<Category>, s: Item, meta: set<Category>, tombs: set<Category>)
  {
    exists k :: 0 <= k <= |listing| && RemappedUpTo(from, to, listing, k, s, meta, tombs)
  }

  predicate RemappedUpTo(
    from: Category, to: Category, listing: seq<Category>, k: nat, s: Item, meta: set<Category>, tombs: set<Category>)
    requires k <= |listing|
  {
    var t := RemapAll(from, to, listing[..k], s);
    meta == t.meta && tombs == t.tombs
  }

  /** A rename or merge that failed part-way: some directories moved, the first few categories were rewritten. */
  ghost predicate PartlyMoved(
    place: Category -> Category, from: Category, to: Category, listing: seq<Category>, s: Item, r: Item)
  {
    && PartlyRemapped(from, to, listing, s.(disk := r.disk), r.meta, r.tombs)
    && r.disk <= s.disk + Substitute(place(from), place(to), s.disk)
  }

  lemma RemapFacts(from: Category, to: Category)
    ensures forall listing, s: Item :: PartlyRemapped(from, to, listing, s, s.meta, s.tombs)
    ensures forall listing, s :: var r := RemapAll(from, to, listing, s);
              PartlyRemapped(from, to, listing, s, r.meta, r.tombs)
  {
    forall listing: seq<Category>, s: Item
      ensures PartlyRemapped(from, to, listing, s, s.meta, s.tombs)
      ensures var r := RemapAll(from, to, listing, s); PartlyRemapped(from, to, listing, s, r.meta, r.tombs)
    {
      var r := RemapAll(from, to, listing, s);
      assert listing[..0] == [] && listing[..|listing|] == listing;
      assert RemappedUpTo(from, to, listing, 0, s, s.meta, s.tombs);
      assert RemappedUpTo(from, to, listing, |listing|, s, r.meta, r.tombs);
    }
  }

  lemma RemapNothing(from: Category, to: Category)
    ensures forall s :: RemapAll(from, to, [], s) == s
  {
  }

  /** How far a move got does not depend on the manifest, which is written at the end. */
  lemma ManifestOnly(place: Category -> Category, from: Category, to: Category)
    ensures forall listing, s, r: Item, m :: PartlyMoved(place, from, to, listing, s, r) ==>
              PartlyMoved(place, from, to, listing, s, r.(manifest := m))
  {
  }

  /** Filing twice is filing once, and a command that stops at a later item has filed the earlier ones. */
  lemma FiledFacts(place: Category -> Category, c: Category)
    ensures forall s :: Filed(place, c, Filed(place, c, s)) == Filed(place, c, s)
    ensures forall s :: PartlyFiled(place, c, s, s)
    ensures forall s :: PartlyFiled(place, c, s, Filed(place, c, s))
    ensures forall s, r :: PartlyFiled(place, c, Filed(place, c, s), r) ==> PartlyFiled(place, c, s, r)
  {
  }

  lemma ManifestLaterFiled(place: Category -> Category, c: Category)
    ensures forall s, r: Item, m :: PartlyFiled(place, c, s, r) ==> PartlyFiled(place, c, s, r.(manifest := m))
  {
  }

  lemma ManifestLaterUnfiled(place: Category -> Category, c: Category)
    ensures forall s, r: Item, m :: PartlyUnfiled(place, c, s, r) ==> PartlyUnfiled(place, c, s, r.(manifest := m))
  {
  }

  lemma UnfiledFacts(place: Category -> Category, c: Category)
    ensures forall s :: Unfiled(place, c, Unfiled(place, c, s)) == Unfiled(place, c, s)
    ensures forall s :: PartlyUnfiled(place, c, s, s)
    ensures forall s :: PartlyUnfiled(place, c, s, Unfiled(place, c, s))
    ensures forall s, r :: PartlyUnfiled(place, c, Unfiled(place, c, s), r) ==> PartlyUnfiled(place, c, s, r)
  {
  }

  /** The index lists the item as its metadata is now. */
  ghost predicate Fresh(s: State) {
    Enumerates(s.indexed, s.item.meta)
  }

  /** The index was read before or after the metadata of `s` last changed. */
  ghost predicate IndexedLately(s: State, indexed: seq<Category>) {
    indexed == s.indexed || Enumerates(indexed, s.item.meta)
  }

  /** The item as it should be, unless its line in the manifest file was lost in a failing write. */
  predicate UpToManifest(r: Item, whole: Item) {
    r == whole || r == whole.(manifest := {})
  }

  /** What a command that does not finish leaves of an item; only its last steps write the manifest and the index. */
  ghost predicate Left(s: State, r: State, partly: bool, whole: Item) {
    r.indexed == s.indexed && ((partly && r.item.manifest == s.item.manifest) || UpToManifest(r.item, whole))
  }

  ghost predicate Next(place: Category -> Category, s: State, e: Event, r: State) {
    match e
    case Scan(read) => r.item == Rescanned(place, s.item, read) && Fresh(r)
    case ScanStopped(read) =>
      && IndexedLately(s, r.indexed)
      && ((Interrupted(place, s.item, read, r.item) && r.item.manifest == s.item.manifest)
          || UpToManifest(r.item, Rescanned(place, s.item, read)))
    case Reindex => r.item == s.item && Fresh(r)
    case Skipped => r == s.(indexed := [])
    case ManifestCut => r.indexed == s.indexed && UpToManifest(r.item, s.item)
    case ManifestReplaced(recorded) => r == s.(item := s.item.(manifest := recorded))
    case HandUnlink(gone) => r == s.(item := s.item.(disk := s.item.disk - gone))
    case HandLink(made) => r == s.(item := s.item.(disk := s.item.disk + made))
    case EditMetadata(meta, tombs) => r == s.(item := s.item.(meta := meta, tombs := tombs))
    case File(c) => r.item == Filed(place, c, s.item) && Fresh(r)
    case FileStopped(c) => Left(s, r, PartlyFiled(place, c, s.item, r.item), Filed(place, c, s.item))
    case Unfile(c) => r.item == Unfiled(place, c, s.item) && Fresh(r)
    case UnfileStopped(c) => Left(s, r, PartlyUnfiled(place, c, s.item, r.item), Unfiled(place, c, s.item))
    case MoveTree(from, to) => r.item == TreeMoved(place, from, to, s.indexed, s.item) && Fresh(r)
    case MoveTreeStopped(from, to) =>
      Left(s, r, PartlyMoved(place, from, to, s.indexed, s.item, r.item), TreeMoved(place, from, to, s.indexed, s.item))
    case Import(categories) =>
      && s.item == NO_ITEM.(manifest := s.item.manifest) && Fresh(r)
      && r.item == Imported(place, categories).(manifest := s.item.manifest + Elements(categories))
    case ImportStopped(categories) =>
      && s.item == NO_ITEM.(manifest := s.item.manifest) && r.indexed == s.indexed
      && r.item.meta <= Elements(categories) && r.item.disk <= Image(place, Elements(categories)) && r.item.tombs == {}
      && r.item.manifest <= s.item.manifest + Elements(categories)
    case Delete => r == State(NO_ITEM, [])
    case DeleteStopped =>
      && r.indexed == s.indexed
      && (r.item == s.item.(disk := r.item.disk) || r.item == NO_ITEM.(manifest := r.item.manifest))
      && r.item.disk <= s.item.disk && r.item.manifest <= s.item.manifest
  }

  ghost predicate MovedLeft(place: Category -> Category, from: Category, to: Category, s: State, r: State) {
    Left(s, r, PartlyMoved(place, from, to, s.indexed, s.item, r.item), TreeMoved(place, from, to, s.indexed, s.item))
  }

  lemma MoveSteps(place: Category -> Category, from: Category, to: Category, s: State, r: State)
    ensures r.item == TreeMoved(place, from, to, s.indexed, s.item) && Fresh(r) ==> Next(place, s, MoveTree(from, to), r)
    ensures r.item == TreeMoved(place, from, to, s.indexed, s.item) && r.indexed == s.indexed ==>
              MovedLeft(place, from, to, s, r)
    ensures MovedLeft(place, from, to, s, r) ==> Next(place, s, MoveTreeStopped(from, to), r)
  {
  }

  /** What the command leaves of an item it was given (`given`) and of another one. */
  ghost predicate FiledLeft(place: Category -> Category, c: Category, given: bool, s: State, r: State) {
    Left(s, r, if given then PartlyFiled(place, c, s.item, r.item) else r.item == s.item,
         if given then Filed(place, c, s.item) else s.item)
  }

  lemma FileSteps(place: Category -> Category, c: Category, given: bool, s: State, r: State)
    ensures r.item == (if given then Filed(place, c, s.item) else s.item) && Fresh(r) ==>
              Next(place, s, if given then File(c) else Reindex, r)
    ensures r.item == (if given then Filed(place, c, s.item) else s.item) && r.indexed == s.indexed ==>
              FiledLeft(place, c, given, s, r)
    ensures FiledLeft(place, c, given, s, r) ==> Next(place, s, if given then FileStopped(c) else ManifestCut, r)
  {
  }

  /** What the command leaves of an item it was given (`given`) and of another one. */
  ghost predicate UnfiledLeft(place: Category -> Category, c: Category, given: bool, s: State, r: State) {
    Left(s, r, if given then PartlyUnfiled(place, c, s.item, r.item) else r.item == s.item,
         if given then Unfiled(place, c, s.item) else s.item)
  }

  lemma UnfileSteps(place: Category -> Category, c: Category, given: bool, s: State, r: State)
    ensures r.item == (if given then Unfiled(place, c, s.item) else s.item) && Fresh(r) ==>
              Next(place, s, if given then Unfile(c) else Reindex, r)
    ensures r.item == (if given then Unfiled(place, c, s.item) else s.item) && r.indexed == s.indexed ==>
              UnfiledLeft(place, c, given, s, r)
    ensures UnfiledLeft(place, c, given, s, r) ==> Next(place, s, if given then UnfileStopped(c) else ManifestCut, r)
  {
  }

  lemma ImportSteps(place: Category -> Category, cs: seq<Category>, s: State, r: State)
    requires s.item == NO_ITEM.(manifest := s.item.manifest)
    ensures r.item == Imported(place, cs).(manifest := s.item.manifest + Elements(cs)) && Fresh(r) ==>
              Next(place, s, Import(cs), r)
    ensures (&& r.indexed == s.indexed && r.item.tombs == {}
             && r.item.meta <= Elements(cs) && r.item.disk <= Image(place, Elements(cs))
             && r.item.manifest <= s.item.manifest + Elements(cs))
            ==> Next(place, s, ImportStopped(cs), r)
  {
  }

  lemma DeleteSteps(place: Category -> Category, s: State, r: State)
    ensures r == State(NO_ITEM, []) ==> Next(place, s, Delete, r)
    ensures (&& r.indexed == s.indexed && r.item.disk <= s.item.disk && r.item.manifest <= s.item.manifest
             && (r.item == s.item.(disk := r.item.disk) || r.item == NO_ITEM.(manifest := r.item.manifest)))
            ==> Next(place, s, DeleteStopped, r)
  {
  }

  lemma CutSteps(place: Category -> Category)
    ensures forall s: State, r: State :: r.indexed == s.indexed && UpToManifest(r.item, s.item) ==>
              Next(place, s, ManifestCut, r)
    ensures forall i :: UpToManifest(i, i)
  {
  }

  lemma ScanSteps(place: Category -> Category, s: State, read: bool, r: State)
    ensures r.item == Rescanned(place, s.item, read) && Fresh(r) ==> Next(place, s, Scan(read), r)
    ensures IndexedLately(s, r.indexed) && Interrupted(place, s.item, read, r.item) && r.item.manifest == s.item.manifest ==>
              Next(place, s, ScanStopped(read), r)
    ensures IndexedLately(s, r.indexed) && UpToManifest(r.item, Rescanned(place, s.item, read)) ==>
              Next(place, s, ScanStopped(read), r)
  {
  }

  /** Events whose outcome for the item is fixed. */
  predicate Complete(e: Event) {
    && !e.ScanStopped? && !e.FileStopped? && !e.UnfileStopped? && !e.MoveTreeStopped? && !e.ImportStopped?
    && !e.DeleteStopped? && !e.ManifestCut?
  }

  ghost predicate Run(place: Category -> Category, states: seq<State>, events: seq<Event>) {
    && |states| == |events| + 1
    && forall i :: 0 <= i < |events| ==> Next(place, states[i], events[i], states[i + 1])
  }

  // ---------- removals stay removed ----------

  /** Removed through the daemon: not listed, and tombstoned. */
  predicate Suppressed(s: Item, c: Category) {
    c !in s.meta && c in s.tombs
  }

  /** No step of a rename or merge writes or drops `c`: no indexed category of the tree is `c` or moves to it. */
  predicate Untouched(from: Category, to: Category, indexed: seq<Category>, c: Category) {
    forall d :: d in indexed && Under(from, d) ==> d != c && Moved(from, to, d) != c
  }

  /**
    Events that are not a decision about `c`, as far as a caller can tell beforehand: from the index for a rename, and
    from junctions and manifest for a scan that cannot read the tombstones.
   */
  predicate LeavesAlone(s: State, e: Event, c: Category) {
    match e
    case Scan(read) => read || c !in s.item.disk || c in s.item.manifest
    case ScanStopped(read) => read || c !in s.item.disk || c in s.item.manifest
    case EditMetadata(meta, tombs) => c !in meta && c in tombs
    case File(d) => c != d && c != UNMATCHED
    case FileStopped(d) => c != d && c != UNMATCHED
    case MoveTree(from, to) => Untouched(from, to, s.indexed, c)
    case MoveTreeStopped(from, to) => Untouched(from, to, s.indexed, c)
    case Delete => false
    case DeleteStopped => false
    case _ => true
  }

  /** The edits of a rename keep a category suppressed if and only if they do not touch it. */
  lemma {:induction false} RemapKeepsSuppression(
    from: Category, to: Category, listing: seq<Category>, s: Item, c: Category)
    requires Suppressed(s, c)
    ensures Suppressed(RemapAll(from, to, listing, s), c) <==> Untouched(from, to, listing, c)
    ensures c in RemapAll(from, to, listing, s).tombs <==> Untouched(from, to, listing, c)
  {
    if listing != [] {
      var n := |listing| - 1;
      var front, d := listing[..n], listing[n];
      RemapKeepsSuppression(from, to, front, s, c);
      RemapShape(from, to, d);
      assert forall x :: x in listing <==> x in front || x == d;
    }
  }

  lemma StepKeepsSuppression(place: Category -> Category, s: State, e: Event, r: State, c: Category)
    requires Next(place, s, e, r) && Suppressed(s.item, c) && LeavesAlone(s, e, c)
    ensures Suppressed(r.item, c)
  {
    match e
    case MoveTree(from, to) =>
      var moved := s.item.(disk := Substitute(place(from), place(to), s.item.disk));
      RemapKeepsSuppression(from, to, s.indexed, moved, c);
    case MoveTreeStopped(from, to) =>
      var moved := s.item.(disk := Substitute(place(from), place(to), s.item.disk));
      RemapKeepsSuppression(from, to, s.indexed, moved, c);
      if !UpToManifest(r.item, TreeMoved(place, from, to, s.indexed, s.item)) {
        var partly := s.item.(disk := r.item.disk);
        var k :| 0 <= k <= |s.indexed| && RemappedUpTo(from, to, s.indexed, k, partly, r.item.meta, r.item.tombs);
        assert forall d :: d in s.indexed[..k] ==> d in s.indexed;
        RemapKeepsSuppression(from, to, s.indexed[..k], partly, c);
      }
    case _ =>
  }

  /** For an event with a fixed outcome the condition is also necessary. */
  lemma CompleteStepDecides(place: Category -> Category, s: State, e: Event, r: State, c: Category)
    requires Next(place, s, e, r) && Suppressed(s.item, c) && Complete(e)
    ensures Suppressed(r.item, c) <==> LeavesAlone(s, e, c)
  {
    if LeavesAlone(s, e, c) {
      StepKeepsSuppression(place, s, e, r, c);
    } else if e.MoveTree? {
      var moved := s.item.(disk := Substitute(place(e.from), place(e.to), s.item.disk));
      RemapKeepsSuppression(e.from, e.to, s.indexed, moved, c);
    }
  }

  /** For one that stops, some outcome that it allows loses the removal. */
  lemma StoppedStepMayLose(place: Category -> Category, s: State, e: Event, c: Category)
    requires Suppressed(s.item, c) && !Complete(e) && !LeavesAlone(s, e, c)
    ensures exists r :: Next(place, s, e, r) && !Suppressed(r.item, c)
  {
    match e
    case ScanStopped(read) =>
      var r := s.(item := Rescanned(place, s.item, read));
      assert Next(place, s, e, r) && !Suppressed(r.item, c);
    case FileStopped(d) =>
      var r := s.(item := Filed(place, d, s.item));
      assert Next(place, s, e, r) && !Suppressed(r.item, c);
    case MoveTreeStopped(from, to) =>
      var moved := s.item.(disk := Substitute(place(from), place(to), s.item.disk));
      RemapKeepsSuppression(from, to, s.indexed, moved, c);
      var r := s.(item := TreeMoved(place, from, to, s.indexed, s.item));
      assert Next(place, s, e, r) && !Suppressed(r.item, c);
    case DeleteStopped =>
      var r := s.(item := NO_ITEM.(manifest := s.item.manifest));
      assert Next(place, s, e, r) && !Suppressed(r.item, c);
  }

  /**
    Safety over whole runs: once a category was removed through the daemon, no run of hand-made and hand-deleted
    junctions, scans, commands and changes to the manifest, complete or stopped anywhere, ever lists it again, as long as
    no event is a decision about it. For a run of complete events that condition is exact.
   */
  lemma RemovalIsFinal(
    place: Category -> Category, states: seq<State>, events: seq<Event>, c: Category)
    requires Run(place, states, events)
    requires Suppressed(states[0].item, c)
    ensures (forall i :: 0 <= i < |events| ==> LeavesAlone(states[i], events[i], c)) ==>
              forall i :: 0 <= i < |states| ==> Suppressed(states[i].item, c)
    ensures (forall i :: 0 <= i < |events| ==> Complete(events[i])) ==>
              ((forall i :: 0 <= i < |events| ==> LeavesAlone(states[i], events[i], c)) <==>
               forall i :: 0 <= i < |states| ==> Suppressed(states[i].item, c))
  {
    if forall i :: 0 <= i < |events| ==> LeavesAlone(states[i], events[i], c) {
      for k := 0 to |events|
        invariant forall i :: 0 <= i <= k ==> Suppressed(states[i].item, c)
      {
        StepKeepsSuppression(place, states[k], events[k], states[k + 1], c);
      }
    }
    if forall i :: 0 <= i < |states| ==> Suppressed(states[i].item, c) {
      forall i | 0 <= i < |events| && Complete(events[i])
        ensures LeavesAlone(states[i], events[i], c)
      {
        CompleteStepDecides(place, states[i], events[i], states[i + 1], c);
      }
    }
  }

  /** Removing through the daemon establishes the starting point, also when the command fails after its edit. */
  lemma UnfileSuppresses(place: Category -> Category, s: State, c: Category, r: State)
    requires Next(place, s, Unfile(c), r) || (Next(place, s, UnfileStopped(c), r) && r.item.tombs != s.item.tombs)
    ensures Suppressed(r.item, c)
  {
  }

  /**
    The one removal that another command undoes: filing into any real category erases the tombstone of `unmatched`, so
    a hand-made `unmatched` junction is adopted again although nobody added the item to it.
   */
  lemma UnmatchedComesBack(place: Category -> Category, s: Item, c: Category)
    requires c != UNMATCHED
    ensures
      var removed := Unfiled(place, UNMATCHED, s);
      var filed := Filed(place, c, removed);
      var linked := filed.(disk := filed.disk + {UNMATCHED});
      Suppressed(removed, UNMATCHED) && UNMATCHED in Reconciled(place, linked).meta
  {
  }

  /**
    Why the index matters. A removal that stops after its edit leaves the index as it was. Renaming the category then
    rewrites what the index lists: the item is filed under the new name, the tombstone is gone, and a junction made by
    hand brings the removed category back.
   */
  lemma StaleIndexUndoesRemoval(place: Category -> Category, c: Category, to: Category)
    requires place(c) == c && place(to) == to && !Under(c, to)
    ensures exists states: seq<State> ::
              && Run(place, states, [UnfileStopped(c), MoveTree(c, to), HandLink({c}), Scan(true)])
              && states[0] == State(Item({c}, {c}, {c}, {}), [c])
              && Suppressed(states[1].item, c)
              && states[2].item.meta == {to} && states[2].item.tombs == {}
              && c in states[4].item.meta
  {
    hide Reconciled, TreeMoved, Rescanned;
    var s0 := State(Item({c}, {c}, {c}, {}), [c]);
    var s1 := State(Item({}, {c}, {c}, {c}), [c]);
    var s2 := State(Item({to}, {to}, {to}, {}), [to]);
    var s3 := State(Item({to}, {to, c}, {to}, {}), [to]);
    var s4 := State(Item({to, c}, {to, c}, {to, c}, {}), [to, c]);
    assert Next(place, s0, UnfileStopped(c), s1);
    RenameRemoved(place, c, to);
    assert Next(place, s1, MoveTree(c, to), s2);
    assert Next(place, s2, HandLink({c}), s3);
    AdoptRemoved(place, c, to);
    RescannedRead(place, s3.item);
    assert Next(place, s3, Scan(true), s4);
    assert Run(place, [s0, s1, s2, s3, s4], [UnfileStopped(c), MoveTree(c, to), HandLink({c}), Scan(true)]);
  }

  lemma RenameRemoved(place: Category -> Category, c: Category, to: Category)
    requires place(c) == c && place(to) == to && c != to
    ensures TreeMoved(place, c, to, [c], Item({}, {c}, {c}, {c})) == Item({to}, {to}, {to}, {})
  {
    var s := Item({}, {to}, {c}, {c});
    assert Substitute(c, to, {c}) == {to};
    assert [c][..0] == [] && RemapAll(c, to, [], s) == s;
    assert RemapAll(c, to, [c], s) == RemapStep(c, to, c, s);
  }

  lemma AdoptRemoved(place: Category -> Category, c: Category, to: Category)
    requires c != to
    ensures Reconciled(place, Item({to}, {to, c}, {to}, {})) == Item({to, c}, {to, c}, {to, c}, {})
  {
    var s := Item({to}, {to, c}, {to}, {});
    assert Missing(s) == {} && Extra(s) == {c} && Orphans(s) == {} && Adopted(s) == {c};
    assert Image(place, Missing(s)) == {} && Image(place, Orphans(s)) == {};
  }

  /**
    Why reading the tombstones matters. A category is removed, somebody makes a junction for it, and a scan that cannot
    read the item's metadata for a moment adopts the junction and erases the tombstone.
   */
  lemma UnreadTombstoneUndoesRemoval(place: Category -> Category, c: Category)
    requires place(c) == c
    ensures exists states: seq<State> ::
              && Run(place, states, [Unfile(c), HandLink({c}), Scan(false)])
              && states[0] == State(Item({c}, {c}, {c}, {}), [c])
              && Suppressed(states[1].item, c) && Suppressed(states[2].item, c)
              && states[3].item == Item({c}, {c}, {c}, {})
  {
    var s0 := State(Item({c}, {c}, {c}, {}), [c]);
    var s1 := State(Item({}, {}, {}, {c}), []);
    var s2 := State(Item({}, {c}, {}, {c}), []);
    assert Fresh(s0) && Fresh(s1);
    UnreadAdopts(place, c);
    hide Rescanned, Fresh;
    assert Next(place, s0, Unfile(c), s1);
    assert Next(place, s1, HandLink({c}), s2);
    assert Next(place, s2, Scan(false), s0);
    assert Run(place, [s0, s1, s2, s0], [Unfile(c), HandLink({c}), Scan(false)]);
  }

  lemma UnreadAdopts(place: Category -> Category, c: Category)
    ensures Rescanned(place, Item({}, {c}, {}, {c}), false) == Item({c}, {c}, {c}, {})
  {
    var t := Item({}, {c}, {}, {});
    assert Missing(t) == {} && Extra(t) == {c} && Orphans(t) == {} && Adopted(t) == {c};
    assert Image(place, Missing(t)) == {} && Image(place, Orphans(t)) == {};
  }

  // ---------- deleted junctions come back ----------

  predicate OnlyUnlinksAndScans(e: Event) {
    e.Scan? || e.ScanStopped? || e.HandUnlink? || e.Reindex? || e.Skipped? || e.ManifestCut? || e.ManifestReplaced?
  }

  lemma UnlinkOrScan(place: Category -> Category, s: State, e: Event, r: State)
    requires Next(place, s, e, r) && OnlyUnlinksAndScans(e)
    requires s.item.disk <= s.item.meta && Faithful(place, s.item.meta)
    ensures r.item.meta == s.item.meta && r.item.tombs == s.item.tombs && r.item.disk <= s.item.meta
    ensures e.Scan? ==> Consistent(r.item)
  {
    var i := s.item;
    assert Extra(i) == {} && Orphans(i) == {} && Adopted(i) == {};
    if e.Scan? || e.ScanStopped? {
      var t := Taken(i, e.read);
      assert Extra(t) == {} && Orphans(t) == {} && Adopted(t) == {};
    }
    assert Image(place, Missing(i)) == Missing(i) by { FaithfulImage(place, Missing(i)); }
    assert Image(place, Orphans(i)) == {};
    DecisionTable(place, i);
  }

  /**
    Deleting junctions by hand, one by one or all of them in a relocation, is not a removal: however deletions, scans and
    changes to the manifest alternate, the metadata and the tombstones never change, and each complete scan restores
    exactly the metadata membership.
   */
  lemma DeletedJunctionsComeBack(place: Category -> Category, states: seq<State>, events: seq<Event>)
    requires Run(place, states, events)
    requires states[0].item.disk <= states[0].item.meta && Faithful(place, states[0].item.meta)
    requires forall e :: e in events ==> OnlyUnlinksAndScans(e)
    ensures forall i :: 0 <= i < |states| ==>
              && states[i].item.meta == states[0].item.meta && states[i].item.tombs == states[0].item.tombs
              && states[i].item.disk <= states[0].item.meta
    ensures forall i :: 0 <= i < |events| && events[i].Scan? ==> Consistent(states[i + 1].item)
  {
    hide Next;
    for k := 0 to |events|
      invariant forall i :: 0 <= i <= k ==>
                  && states[i].item.meta == states[0].item.meta && states[i].item.tombs == states[0].item.tombs
                  && states[i].item.disk <= states[0].item.meta
      invariant forall i :: 0 <= i < k && events[i].Scan? ==> Consistent(states[i + 1].item)
    {
      assert events[k] in events;
      UnlinkOrScan(place, states[k], events[k], states[k + 1]);
    }
  }

  // ---------- commands keep the projection in step ----------

  /** A successful command whose directory names are the categories it means. */
  ghost predicate FaithfulCommand(place: Category -> Category, s: State, e: Event) {
    match e
    case Scan(_) => true
    case Reindex => true
    case File(c) => place(c) == c && place(UNMATCHED) == UNMATCHED
    case Unfile(c) => place(c) == c
    case MoveTree(from, to) => place(from) == from && place(to) == to && !Captures(from, to, s.indexed)
    case Import(categories) => Faithful(place, Elements(categories))
    case Delete => true
    case _ => false
  }

  lemma CommandKeepsConsistent(place: Category -> Category, s: State, e: Event, r: State)
    requires Next(place, s, e, r) && Consistent(s.item) && Fresh(s) && FaithfulCommand(place, s, e)
    ensures Consistent(r.item) && Fresh(r)
  {
    match e
    case Scan(read) => ConsistentSettles(place, Taken(s.item, read));
    case MoveTree(from, to) =>
      var moved := s.item.(disk := Substitute(place(from), place(to), s.item.disk));
      RemapIsSubstitution(from, to, s.indexed, moved);
      RemapAllMembers(from, to, s.indexed, moved, from);
      forall c | c in r.item.meta
        ensures c in r.item.manifest
      {
        var d :| d in s.item.meta && Moved(from, to, d) == c;
        RemapShape(from, to, d);
        if Under(from, d) { assert d in Tree(from, s.item.meta); }
      }
    case Import(categories) => FaithfulImage(place, Elements(categories));
    case _ =>
  }

  /**
    No scan is needed between commands: every run of successful ones keeps `D = M`, `M` within the manifest, and the
    index up to date.
   */
  lemma CommandsStayConsistent(place: Category -> Category, states: seq<State>, events: seq<Event>)
    requires Run(place, states, events) && Consistent(states[0].item) && Fresh(states[0])
    requires forall i :: 0 <= i < |events| ==> FaithfulCommand(place, states[i], events[i])
    ensures forall i :: 0 <= i < |states| ==> Consistent(states[i].item) && Fresh(states[i])
  {
    hide Next, FaithfulCommand, Fresh, Consistent;
    for k := 0 to |events|
      invariant forall i :: 0 <= i <= k ==> Consistent(states[i].item) && Fresh(states[i])
    {
      CommandKeepsConsistent(place, states[k], events[k], states[k + 1]);
    }
  }

  /** For a category that is new to the item, a faithful directory name is also necessary. */
  lemma FilingNeedsFaithfulName(place: Category -> Category, s: Item, c: Category)
    requires Consistent(s) && c !in s.meta && c != UNMATCHED && place(UNMATCHED) == UNMATCHED
    ensures Consistent(Filed(place, c, s)) <==> place(c) == c
    ensures UNMATCHED !in Filed(place, c, s).meta + Filed(place, c, s).disk + Filed(place, c, s).manifest
    ensures UNMATCHED !in Filed(place, c, s).tombs
  {
    var r := Filed(place, c, s);
    if Consistent(r) {
      assert c in r.meta;
      assert c in r.disk;
    }
  }

  /** Removing a listed category keeps the projection in step exactly when its directory has its name. */
  lemma UnfilingNeedsFaithfulName(place: Category -> Category, s: Item, c: Category)
    requires Consistent(s) && c in s.meta
    ensures Consistent(Unfiled(place, c, s)) <==> place(c) == c
  {
  }
}
