/**
  Commands that load, edit and save the manifest file at the same time. No lock covers the file: each command saves what
  it loaded with its own edits, so it takes back whatever was saved in between.
 */
module ManifestRaces {
  import opened Collections
  import opened CategoryEdits
  import opened CatManifests
  import opened Membership

  /** One recorded junction. */
  datatype Record = Record(id: ItemId, category: Category)

  datatype Change = Put(record: Record) | Drop(record: Record) | DropItem(id: ItemId)

  function Apply(change: Change, records: set<Record>): (r: set<Record>) {
    match change
    case Put(x) => records + {x}
    case Drop(x) => records - {x}
    case DropItem(id) => set x | x in records && x.id != id
  }

  /** What a command holds: the manifest it loaded, with its changes; `base` is the version of the file it loaded. */
  datatype Held = Held(records: set<Record>, base: nat, changes: seq<Change>)

  /**
    One version of the file: a whole save, or what a reader sees of one that is under way or failed, as the file is
    written in place.
   */
  datatype Version = Whole(base: nat, changes: seq<Change>) | Torn(records: set<Record>)

  type Thread = nat

  datatype World = World(file: set<Record>, held: map<Thread, Held>, versions: seq<Version>)

  datatype Event =
    | Load(thread: Thread)
    | Edit(thread: Thread, change: Change)
    | Tear(records: set<Record>)
    | Save(thread: Thread)

  function Next(w: World, e: Event): (r: World) {
    match e
    case Load(t) => w.(held := w.held[t := Held(w.file, |w.versions|, [])])
    case Edit(t, change) =>
      if t !in w.held then w
      else
        var h := w.held[t];
        w.(held := w.held[t := Held(Apply(change, h.records), h.base, h.changes + [change])])
    case Tear(records) => w.(file := records, versions := w.versions + [Torn(records)])
    case Save(t) =>
      if t !in w.held then w
      else
        var h := w.held[t];
        World(h.records, w.held - {t}, w.versions + [Whole(h.base, h.changes)])
  }

  function Run(w: World, events: seq<Event>): (r: World) {
    if events == [] then w else Next(Run(w, events[..|events| - 1]), events[|events| - 1])
  }

  // ---------- the reference: surviving saves, one after another ----------

  /** What the last change that concerns a record makes of it. */
  function Verdict(changes: seq<Change>, x: Record): (r: Option<bool>) {
    if changes == [] then None
    else
      match changes[|changes| - 1]
      case Put(y) => if x == y then Some(true) else Verdict(changes[..|changes| - 1], x)
      case Drop(y) => if x == y then Some(false) else Verdict(changes[..|changes| - 1], x)
      case DropItem(id) => if x.id == id then Some(false) else Verdict(changes[..|changes| - 1], x)
  }

  /** Every save was loaded from an earlier version. */
  predicate Based(versions: seq<Version>) {
    forall k :: 0 <= k < |versions| && versions[k].Whole? ==> versions[k].base <= k
  }

  /** The versions that version `k` was made from: the others have been overwritten. */
  function Surviving(versions: seq<Version>, k: nat): (r: set<nat>)
    requires Based(versions) && k <= |versions|
  {
    if k == 0 then {}
    else if versions[k - 1].Torn? then {k}
    else {k} + Surviving(versions, versions[k - 1].base)
  }

  /** Is the record there after the first `k` versions, when only those in `alive` take place, one after another? */
  predicate Replayed(versions: seq<Version>, alive: set<nat>, k: nat, start: set<Record>, x: Record)
    requires k <= |versions|
  {
    if k == 0 then x in start
    else if k !in alive then Replayed(versions, alive, k - 1, start, x)
    else
      match versions[k - 1]
      case Torn(records) => x in records
      case Whole(_, changes) =>
        match Verdict(changes, x)
        case Some(present) => present
        case None => Replayed(versions, alive, k - 1, start, x)
  }

  /** The last of the first `k` versions that takes place and decides about the record; 0 if none does. */
  function Decider(versions: seq<Version>, alive: set<nat>, k: nat, x: Record): (r: nat)
    requires k <= |versions|
    ensures r <= k
  {
    if k == 0 then 0
    else if k in alive && (versions[k - 1].Torn? || Verdict(versions[k - 1].changes, x).Some?) then k
    else Decider(versions, alive, k - 1, x)
  }

  /** The content of version `k`. */
  ghost function Content(versions: seq<Version>, k: nat, start: set<Record>, x: Record): (r: bool)
    requires Based(versions) && k <= |versions|
  {
    Replayed(versions, Surviving(versions, k), k, start, x)
  }

  lemma {:induction false} AliveBelow(
    versions: seq<Version>, a: set<nat>, b: set<nat>, k: nat, start: set<Record>, x: Record)
    requires k <= |versions| && forall i :: 0 < i <= k ==> (i in a <==> i in b)
    ensures Replayed(versions, a, k, start, x) == Replayed(versions, b, k, start, x)
  {
    if k > 0 { AliveBelow(versions, a, b, k - 1, start, x); }
  }

  lemma {:induction false} SkipDead(
    versions: seq<Version>, alive: set<nat>, j: nat, k: nat, start: set<Record>, x: Record)
    requires j <= k <= |versions| && forall i :: j < i <= k ==> i !in alive
    ensures Replayed(versions, alive, k, start, x) == Replayed(versions, alive, j, start, x)
  {
    if j < k { SkipDead(versions, alive, j, k - 1, start, x); }
  }

  lemma {:induction false} SurvivingBelow(versions: seq<Version>, k: nat)
    requires Based(versions) && k <= |versions|
    ensures forall i :: i in Surviving(versions, k) ==> 0 < i <= k
  {
    if k > 0 && versions[k - 1].Whole? { SurvivingBelow(versions, versions[k - 1].base); }
  }

  /** A save has the content of the version it was loaded from, but for the records its own changes decide about. */
  lemma ContentStep(versions: seq<Version>, k: nat, start: set<Record>, x: Record)
    requires Based(versions) && 0 < k <= |versions| && versions[k - 1].Whole?
    ensures Content(versions, k, start, x) ==
            match Verdict(versions[k - 1].changes, x)
            case Some(present) => present
            case None => Content(versions, versions[k - 1].base, start, x)
  {
    var base := versions[k - 1].base;
    var alive := Surviving(versions, k);
    SurvivingBelow(versions, base);
    assert alive == {k} + Surviving(versions, base);
    SkipDead(versions, alive, base, k - 1, start, x);
    AliveBelow(versions, alive, Surviving(versions, base), base, start, x);
  }

  lemma {:induction false} Extend(
    versions: seq<Version>, v: Version, alive: set<nat>, k: nat, start: set<Record>, x: Record)
    requires k <= |versions|
    ensures Replayed(versions + [v], alive, k, start, x) == Replayed(versions, alive, k, start, x)
  {
    if k > 0 { Extend(versions, v, alive, k - 1, start, x); }
  }

  lemma {:induction false} SurvivingExtend(versions: seq<Version>, v: Version, k: nat)
    requires Based(versions) && Based(versions + [v]) && k <= |versions|
    ensures Surviving(versions + [v], k) == Surviving(versions, k)
  {
    if k > 0 && versions[k - 1].Whole? { SurvivingExtend(versions, v, versions[k - 1].base); }
  }

  lemma ContentExtend(versions: seq<Version>, v: Version, k: nat, start: set<Record>, x: Record)
    requires Based(versions) && Based(versions + [v]) && k <= |versions|
    ensures Content(versions + [v], k, start, x) == Content(versions, k, start, x)
  {
    SurvivingExtend(versions, v, k);
    Extend(versions, v, Surviving(versions, k), k, start, x);
  }

  // ---------- every run ----------

  /** A command holds the version it loaded, with its changes made to it. */
  ghost predicate Holds(w: World, h: Held, start: set<Record>)
    requires Based(w.versions)
  {
    && h.base <= |w.versions|
    && forall x :: x in h.records <==>
         match Verdict(h.changes, x)
         case Some(present) => present
         case None => Content(w.versions, h.base, start, x)
  }

  ghost predicate Inv(w: World, start: set<Record>) {
    && Based(w.versions)
    && (forall x :: x in w.file <==> Content(w.versions, |w.versions|, start, x))
    && forall t :: t in w.held ==> Holds(w, w.held[t], start)
  }

  lemma VerdictSnoc(changes: seq<Change>, change: Change, records: set<Record>, x: Record)
    ensures x in Apply(change, records) <==>
            match Verdict([change], x) case Some(present) => present case None => x in records
    ensures Verdict(changes + [change], x) ==
            if Verdict([change], x).Some? then Verdict([change], x) else Verdict(changes, x)
  {
    assert (changes + [change])[..|changes|] == changes;
    assert [change][..0] == [];
  }

  lemma HoldsExtend(w: World, n: World, v: Version, h: Held, start: set<Record>)
    requires Based(w.versions) && Holds(w, h, start) && n.versions == w.versions + [v] && Based(n.versions)
    ensures Holds(n, h, start)
  {
    forall x
      ensures Content(n.versions, h.base, start, x) == Content(w.versions, h.base, start, x)
    {
      ContentExtend(w.versions, v, h.base, start, x);
    }
  }

  lemma HeldExtend(w: World, n: World, v: Version, start: set<Record>)
    requires Inv(w, start) && n.versions == w.versions + [v] && Based(n.versions)
    requires forall t :: t in n.held ==> t in w.held && n.held[t] == w.held[t]
    ensures forall t :: t in n.held ==> Holds(n, n.held[t], start)
  {
    forall t | t in n.held
      ensures Holds(n, n.held[t], start)
    {
      HoldsExtend(w, n, v, w.held[t], start);
    }
  }

  lemma EditKeepsHeld(w: World, h: Held, change: Change, start: set<Record>)
    requires Based(w.versions) && Holds(w, h, start)
    ensures Holds(w, Held(Apply(change, h.records), h.base, h.changes + [change]), start)
  {
    hide Apply, Verdict, Content;
    forall x
      ensures x in Apply(change, h.records) <==>
              match Verdict(h.changes + [change], x)
              case Some(present) => present
              case None => Content(w.versions, h.base, start, x)
    {
      VerdictSnoc(h.changes, change, h.records, x);
    }
  }

  lemma SaveKeepsFile(w: World, t: Thread, start: set<Record>)
    requires Inv(w, start) && t in w.held
    ensures var n := Next(w, Save(t)); forall x :: x in n.file <==> Content(n.versions, |n.versions|, start, x)
  {
    hide Content, Verdict, Apply;
    var n, h := Next(w, Save(t)), w.held[t];
    forall x
      ensures x in n.file <==> Content(n.versions, |n.versions|, start, x)
    {
      ContentStep(n.versions, |n.versions|, start, x);
      ContentExtend(w.versions, Whole(h.base, h.changes), h.base, start, x);
    }
  }

  lemma StepKeepsInv(w: World, e: Event, start: set<Record>)
    requires Inv(w, start)
    ensures Inv(Next(w, e), start)
  {
    var n := Next(w, e);
    match e
    case Load(t) =>
    case Edit(t, change) =>
      if t in w.held { EditKeepsHeld(w, w.held[t], change, start); }
    case Tear(records) =>
      HeldExtend(w, n, Torn(records), start);
    case Save(t) =>
      if t in w.held {
        HeldExtend(w, n, Whole(w.held[t].base, w.held[t].changes), start);
        SaveKeepsFile(w, t, start);
      }
  }

  /**
    Whatever commands interleave, and wherever a save is cut off: the file holds exactly what the surviving saves give
    one after another. A save survives when the file was made from it, load by load; the others were overwritten.
   */
  lemma {:induction false} FileIsSurvivors(w: World, events: seq<Event>)
    requires w.held == map[] && w.versions == []
    ensures Inv(Run(w, events), w.file)
  {
    if events != [] {
      hide Next, Inv;
      FileIsSurvivors(w, events[..|events| - 1]);
      StepKeepsInv(Run(w, events[..|events| - 1]), events[|events| - 1], w.file);
    }
  }

  // ---------- which records are wrong ----------

  /** All of the first `n` versions: as if each save had been loaded from the version before it. */
  function Everyone(n: nat): (r: set<nat>)
    ensures forall k :: k in r <==> 0 < k <= n
  {
    if n == 0 then {} else Everyone(n - 1) + {n}
  }

  /** What a version decides about a record. */
  predicate Decision(versions: seq<Version>, k: nat, start: set<Record>, x: Record)
    requires k <= |versions|
  {
    if k == 0 then x in start
    else
      match versions[k - 1]
      case Torn(records) => x in records
      case Whole(_, changes) => Verdict(changes, x) == Some(true)
  }

  lemma {:induction false} DeciderDecides(versions: seq<Version>, alive: set<nat>, k: nat, start: set<Record>, x: Record)
    requires k <= |versions|
    ensures Replayed(versions, alive, k, start, x) <==> Decision(versions, Decider(versions, alive, k, x), start, x)
  {
    if k > 0 { DeciderDecides(versions, alive, k - 1, start, x); }
  }

  lemma {:induction false} LastDecider(versions: seq<Version>, a: set<nat>, b: set<nat>, k: nat, x: Record)
    requires k <= |versions| && forall i :: i in a && i <= k ==> i in b
    ensures Decider(versions, b, k, x) in a ==> Decider(versions, a, k, x) == Decider(versions, b, k, x)
    ensures Decider(versions, a, k, x) <= Decider(versions, b, k, x)
  {
    if k > 0 { LastDecider(versions, a, b, k - 1, x); }
  }

  /**
    A record is in the file exactly as the last surviving save that concerns it left it. It is as all saves in order
    would have left it if the last of all that concern it survives, and otherwise exactly if both decide alike.
   */
  lemma WrongRecords(w: World, events: seq<Event>, x: Record)
    requires w.held == map[] && w.versions == []
    ensures
      var n := Run(w, events);
      var last := |n.versions|;
      && Based(n.versions)
      && var survivor, latest :=
           Decider(n.versions, Surviving(n.versions, last), last, x), Decider(n.versions, Everyone(last), last, x);
         && (x in n.file <==> Decision(n.versions, survivor, w.file, x))
         && (latest in Surviving(n.versions, last) ==> survivor == latest)
         && survivor <= latest
         && ((x in n.file <==> Replayed(n.versions, Everyone(last), last, w.file, x)) <==>
             (Decision(n.versions, survivor, w.file, x) <==> Decision(n.versions, latest, w.file, x)))
  {
    hide Run, Decider, Decision, Replayed, Surviving;
    FileIsSurvivors(w, events);
    var n := Run(w, events);
    var last := |n.versions|;
    var alive, all := Surviving(n.versions, last), Everyone(last);
    DeciderDecides(n.versions, alive, last, w.file, x);
    DeciderDecides(n.versions, all, last, w.file, x);
    SurvivingBelow(n.versions, last);
    LastDecider(n.versions, alive, all, last, x);
  }

  /** Each save was loaded from the version just before it, so commands took turns. */
  predicate InTurn(versions: seq<Version>) {
    forall k :: 0 <= k < |versions| && versions[k].Whole? ==> versions[k].base == k
  }

  lemma {:induction false} InTurnSurvives(versions: seq<Version>, k: nat, start: set<Record>, x: Record)
    requires InTurn(versions) && k <= |versions|
    ensures Content(versions, k, start, x) == Replayed(versions, Everyone(|versions|), k, start, x)
  {
    if k > 0 {
      InTurnSurvives(versions, k - 1, start, x);
      if versions[k - 1].Whole? { ContentStep(versions, k, start, x); }
    }
  }

  /** Commands that take turns lose nothing: the file is what all saves give one after another. */
  lemma TurnsLoseNothing(w: World, events: seq<Event>, x: Record)
    requires w.held == map[] && w.versions == [] && InTurn(Run(w, events).versions)
    ensures var n := Run(w, events);
            x in n.file <==> Replayed(n.versions, Everyone(|n.versions|), |n.versions|, w.file, x)
  {
    hide Run, Replayed;
    FileIsSurvivors(w, events);
    InTurnSurvives(Run(w, events).versions, |Run(w, events).versions|, w.file, x);
  }

  /** Two commands that both loaded the file before either saved: the record of the first is lost. */
  lemma RaceForgets(start: set<Record>, x: Record, y: Record)
    requires x !in start && x != y
    ensures var w := Run(World(start, map[], []), [Load(0), Load(1), Edit(0, Put(x)), Edit(1, Put(y)), Save(0), Save(1)]);
            && w.file == start + {y} && |w.versions| == 2
            && forall r :: Replayed(w.versions, Everyone(2), 2, start, r) <==> r in start + {x, y}
  {
    hide Replayed, Everyone;
    var events := [Load(0), Load(1), Edit(0, Put(x)), Edit(1, Put(y)), Save(0), Save(1)];
    var none, mine, other := Held(start, 0, []), Held(start + {x}, 0, [Put(x)]), Held(start + {y}, 0, [Put(y)]);
    var worlds := [
      World(start, map[], []),
      World(start, map[0 := none], []),
      World(start, map[0 := none, 1 := none], []),
      World(start, map[0 := mine, 1 := none], []),
      World(start, map[0 := mine, 1 := other], []),
      World(start + {x}, map[1 := other], [Whole(0, [Put(x)])]),
      World(start + {y}, map[], [Whole(0, [Put(x)]), Whole(0, [Put(y)])])];
    assert [] + [Put(x)] == [Put(x)] && [] + [Put(y)] == [Put(y)];
    assert worlds[1] == Next(worlds[0], events[0]) && worlds[2] == Next(worlds[1], events[1]);
    assert worlds[3] == Next(worlds[2], events[2]) && worlds[4] == Next(worlds[3], events[3]);
    assert worlds[5] == Next(worlds[4], events[4]) && worlds[6] == Next(worlds[5], events[5]);
    RunThrough(worlds, events);
    InOrder(start, x, y);
  }

  lemma InOrder(start: set<Record>, x: Record, y: Record)
    ensures var versions := [Whole(0, [Put(x)]), Whole(0, [Put(y)])];
            forall r :: Replayed(versions, Everyone(2), 2, start, r) <==> r in start + {x, y}
  {
    var versions := [Whole(0, [Put(x)]), Whole(0, [Put(y)])];
    forall r
      ensures Replayed(versions, Everyone(2), 2, start, r) <==> r in start + {x, y}
    {
      VerdictOne(x, r);
      VerdictOne(y, r);
      assert Replayed(versions, Everyone(2), 1, start, r) <==> r in start + {x};
    }
  }

  lemma VerdictOne(x: Record, r: Record)
    ensures Verdict([Put(x)], r) == if r == x then Some(true) else None
  {
    assert [Put(x)][..0] == [];
  }

  /** The worlds a run goes through. */
  lemma {:induction false} RunThrough(worlds: seq<World>, events: seq<Event>)
    requires |worlds| == |events| + 1
    requires forall k :: 0 <= k < |events| ==> worlds[k + 1] == Next(worlds[k], events[k])
    ensures Run(worlds[0], events) == worlds[|events|]
  {
    if events != [] {
      RunThrough(worlds[..|events|], events[..|events| - 1]);
    }
  }

  // ---------- what it means for an item ----------

  /** What the manifest file records for one item. */
  function RecordedFor(records: set<Record>, id: ItemId): (r: set<Category>) {
    set x | x in records && x.id == id :: x.category
  }

  /** The changes are those of the manifest object: one record more or less, or all records of one item gone. */
  lemma AppliedFor(records: set<Record>, x: Record, id: ItemId)
    ensures RecordedFor(Apply(Put(x), records), id) ==
            if id == x.id then RecordedFor(records, id) + {x.category} else RecordedFor(records, id)
    ensures RecordedFor(Apply(Drop(x), records), id) ==
            if id == x.id then RecordedFor(records, id) - {x.category} else RecordedFor(records, id)
    ensures RecordedFor(Apply(DropItem(x.id), records), id) == if id == x.id then {} else RecordedFor(records, id)
  {
    forall c
      ensures c in RecordedFor(Apply(Put(x), records), id) <==>
              c in if id == x.id then RecordedFor(records, id) + {x.category} else RecordedFor(records, id)
      ensures c in RecordedFor(Apply(Drop(x), records), id) <==>
              c in if id == x.id then RecordedFor(records, id) - {x.category} else RecordedFor(records, id)
      ensures c in RecordedFor(Apply(DropItem(x.id), records), id) <==>
              c in if id == x.id then {} else RecordedFor(records, id)
    {
      RecordsOf(records, id, c);
      RecordsOf(Apply(Put(x), records), id, c);
      RecordsOf(Apply(Drop(x), records), id, c);
      RecordsOf(Apply(DropItem(x.id), records), id, c);
    }
  }

  lemma RecordsOf(records: set<Record>, id: ItemId, c: Category)
    ensures c in RecordedFor(records, id) <==> Record(id, c) in records
  {
    if Record(id, c) in records { assert Record(id, c).category == c; }
  }

  /**
    However the manifest came to be, a scan of an item whose junctions are its metadata changes nothing but its
    records, reports nothing, and leaves the item consistent.
   */
  lemma ScanRestoresRecords(place: Category -> Category, s: Item, read: bool, recorded: set<Category>)
    requires s.disk == s.meta
    ensures Rescanned(place, s.(manifest := recorded), read) == s.(manifest := recorded + s.meta)
    ensures Changes(s.(manifest := recorded)) == 0
    ensures Consistent(s.(manifest := recorded + s.meta))
  {
    var t := Taken(s.(manifest := recorded), read);
    assert Missing(t) == {} && Extra(t) == {} && Orphans(t) == {} && Adopted(t) == {};
    assert Image(place, {}) == {};
  }

  /**
    What a wrong record can cost before that scan. A category dropped from the metadata by hand comes back exactly if
    its record was lost, and a junction made by hand is taken away again exactly if a record of it was left over or
    the category is tombstoned.
   */
  lemma RecordDecides(place: Category -> Category, s: Item, c: Category)
    requires s.disk == s.meta && Faithful(place, s.meta + {c})
    ensures var edited := s.(meta := s.meta - {c});
            c in s.meta && c !in s.tombs ==>
              (c in Reconciled(place, edited).meta <==> c !in s.manifest)
              && (c in Reconciled(place, edited).disk <==> c !in s.manifest)
    ensures var linked := s.(disk := s.disk + {c});
            c !in s.meta ==>
              (c in Reconciled(place, linked).meta <==> c !in s.manifest && c !in s.tombs)
              && (c in Reconciled(place, linked).disk <==> c !in s.manifest && c !in s.tombs)
  {
  }
}
