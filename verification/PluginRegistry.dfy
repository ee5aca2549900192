/** The table of live plugin runs: registration in two steps, cancellation, and guards dropped at any time. */
module PluginRegistries {
  const ID_LIMIT: nat := 0x1_0000_0000_0000_0000

  /** The n-th registration of the process. */
  type Run = nat

  /** The 64-bit id of a registration; the counter wraps around. */
  function IdOf(run: Run): (id: nat)
    ensures id < ID_LIMIT
  {
    run % ID_LIMIT
  }

  /** `Fetched`: has its id but is not in the table yet. `Guarded`: inserted, its guard is alive. `Ended`: guard dropped. */
  datatype Phase = Fetched | Guarded | Ended

  /**
    `next` counts registrations, `table` maps ids to the run that owns the entry, `draining` are the runs taken out by
    a `cancel_all` that has not reached them yet, `signals` counts how often each run was signalled, and `wins` how
    often a cancellation by id reported success.
   */
  datatype State = State(
    next: nat, table: map<nat, Run>, phases: seq<Phase>, draining: set<Run>, signals: map<Run, nat>, wins: map<Run, nat>)

  const EMPTY := State(0, map[], [], {}, map[], map[])

  /** The atomic steps; threads interleave them in any order. */
  datatype Step =
    | FetchId
    | Insert(run: Run)
    | Cancel(id: nat)
    | TakeAll
    | Signal(run: Run)
    | DropGuard(run: Run)

  function Count(counts: map<Run, nat>, run: Run): (n: nat) {
    if run in counts then counts[run] else 0
  }

  function Bump(counts: map<Run, nat>, run: Run): (r: map<Run, nat>) {
    counts[run := Count(counts, run) + 1]
  }

  predicate Enabled(s: State, step: Step) {
    match step
    case Insert(run) => run < |s.phases| && s.phases[run] == Fetched
    case Signal(run) => run in s.draining
    case DropGuard(run) => run < |s.phases| && s.phases[run] == Guarded
    case _ => true
  }

  function Apply(s: State, step: Step): (r: State)
    requires Enabled(s, step)
  {
    match step
    case FetchId => s.(next := s.next + 1, phases := s.phases + [Fetched])
    case Insert(run) => s.(table := s.table[IdOf(run) := run], phases := s.phases[run := Guarded])
    case Cancel(id) =>
      if id in s.table then
        var run := s.table[id];
        s.(table := s.table - {id}, signals := Bump(s.signals, run), wins := Bump(s.wins, run))
      else s
    case TakeAll => s.(table := map[], draining := s.draining + s.table.Values)
    case Signal(run) => s.(draining := s.draining - {run}, signals := Bump(s.signals, run))
    case DropGuard(run) => s.(table := s.table - {IdOf(run)}, phases := s.phases[run := Ended])
  }

  /** The steps of a run are possible one after the other. */
  predicate Possible(s: State, steps: seq<Step>)
    decreases |steps|
  {
    steps == [] || (Enabled(s, steps[0]) && Possible(Apply(s, steps[0]), steps[1..]))
  }

  function After(s: State, steps: seq<Step>): (r: State)
    requires Possible(s, steps)
    decreases |steps|
  {
    if steps == [] then s else After(Apply(s, steps[0]), steps[1..])
  }

  /** The run has an entry under its own id. */
  predicate Listed(s: State, run: Run) {
    IdOf(run) in s.table && s.table[IdOf(run)] == run
  }

  /** A signal was sent to the run, or is on its way. */
  predicate Cancelled(s: State, run: Run) {
    Count(s.signals, run) > 0 || run in s.draining
  }

  ghost predicate Inv(s: State) {
    && s.next == |s.phases| <= ID_LIMIT
    && (forall id :: id in s.table ==> s.table[id] < s.next && IdOf(s.table[id]) == id)
    && (forall run :: run in s.draining ==> run < s.next)
    && (forall run :: run in s.signals ==> run < s.next)
    && (forall run :: run in s.wins ==> run < s.next)
    && (forall run :: 0 <= run < s.next ==> RunOk(s, run))
  }

  /**
    A run is listed exactly while its guard lives and it was not cancelled; it is signalled at most once, at most one
    cancellation by id succeeds for it, and a run that was not inserted yet cannot have been cancelled.
   */
  predicate RunOk(s: State, run: Run)
    requires run < |s.phases|
  {
    && (Listed(s, run) <==> s.phases[run] == Guarded && !Cancelled(s, run))
    && Count(s.signals, run) + (if run in s.draining then 1 else 0) <= 1
    && Count(s.wins, run) <= Count(s.signals, run)
    && (s.phases[run] == Fetched ==> !Cancelled(s, run))
  }

  /** Within the id space two different runs have different ids. */
  lemma IdsDiffer(a: Run, b: Run)
    requires a < 0x1_0000_0000_0000_0000 && b < 0x1_0000_0000_0000_0000 && IdOf(a) == IdOf(b)
    ensures a == b
  {
  }

  lemma StepKeepsInv(s: State, step: Step)
    requires Inv(s) && Enabled(s, step) && (step == FetchId ==> s.next < ID_LIMIT)
    ensures Inv(Apply(s, step))
  {
    var r := Apply(s, step);
    forall run | 0 <= run < r.next
      ensures RunOk(r, run)
    {
      if run < s.next { assert RunOk(s, run); }
      StepKeepsRun(s, step, run);
    }
  }

  lemma StepKeepsRun(s: State, step: Step, run: Run)
    requires Inv(s) && Enabled(s, step) && (step == FetchId ==> s.next < ID_LIMIT)
    requires run < Apply(s, step).next
    ensures RunOk(Apply(s, step), run)
  {
    if run < s.next { assert RunOk(s, run); }
    assert IdOf(run) == run;
  }

  lemma StartInOrder()
    ensures Inv(EMPTY)
  {
  }

  /**
    Main result: from an empty registry, whatever the interleaving of up to 2^64 registrations, every run is listed
    exactly while its guard lives and it was not cancelled, and is signalled and reported as cancelled at most once.
   */
  lemma EveryRunInOrder(steps: seq<Step>)
    requires Possible(EMPTY, steps) && Fetches(steps) <= 0x1_0000_0000_0000_0000
    ensures var s := After(EMPTY, steps);
      && |s.phases| == s.next == Fetches(steps)
      && forall run :: 0 <= run < s.next ==>
           && (Listed(s, run) <==> s.phases[run] == Guarded && !Cancelled(s, run))
           && Count(s.signals, run) <= 1 && Count(s.wins, run) <= Count(s.signals, run)
  {
    StartInOrder();
    RunKeepsInv(EMPTY, steps);
    RunCounts(EMPTY, steps);
    var s := After(EMPTY, steps);
    forall run | 0 <= run < s.next
      ensures Listed(s, run) <==> s.phases[run] == Guarded && !Cancelled(s, run)
      ensures Count(s.signals, run) <= 1 && Count(s.wins, run) <= Count(s.signals, run)
    {
      assert RunOk(s, run);
    }
  }

  lemma {:induction false} RunKeepsInv(s: State, steps: seq<Step>)
    requires Inv(s) && Possible(s, steps)
    requires s.next + Fetches(steps) <= ID_LIMIT
    ensures Inv(After(s, steps))
    decreases |steps|
  {
    if steps != [] {
      assert Fetches(steps) == (if steps[0] == FetchId then 1 else 0) + Fetches(steps[1..]);
      StepKeepsInv(s, steps[0]);
      RunKeepsInv(Apply(s, steps[0]), steps[1..]);
    }
  }

  lemma {:induction false} RunCounts(s: State, steps: seq<Step>)
    requires Possible(s, steps)
    ensures After(s, steps).next == s.next + Fetches(steps)
    decreases |steps|
  {
    if steps != [] { RunCounts(Apply(s, steps[0]), steps[1..]); }
  }

  /** Each step of a run takes place, after those before it. */
  lemma {:induction false} StepAfterRun(s: State, steps: seq<Step>, step: Step)
    requires Possible(s, steps) && Enabled(After(s, steps), step)
    ensures Possible(s, steps + [step]) && After(s, steps + [step]) == Apply(After(s, steps), step)
    ensures Fetches(steps + [step]) == Fetches(steps) + if step == FetchId then 1 else 0
    decreases |steps|
  {
    if steps == [] {
      assert ([] + [step])[1..] == [];
    } else {
      assert (steps + [step])[1..] == steps[1..] + [step];
      StepAfterRun(Apply(s, steps[0]), steps[1..], step);
    }
  }

  function Fetches(steps: seq<Step>): (n: nat) {
    if steps == [] then 0 else (if steps[0] == FetchId then 1 else 0) + Fetches(steps[1..])
  }

  // ---------- what follows for single runs ----------

  lemma {:induction false} CancelledStays(s: State, steps: seq<Step>, run: Run)
    requires Possible(s, steps) && Cancelled(s, run)
    ensures Cancelled(After(s, steps), run)
    decreases |steps|
  {
    if steps != [] {
      CancelledStays(Apply(s, steps[0]), steps[1..], run);
    }
  }

  lemma {:induction false} InsertedStays(s: State, steps: seq<Step>, run: Run)
    requires Possible(s, steps) && run < |s.phases| && s.phases[run] != Fetched
    ensures var t := After(s, steps); run < |t.phases| && t.phases[run] != Fetched
    decreases |steps|
  {
    if steps != [] {
      InsertedStays(Apply(s, steps[0]), steps[1..], run);
    }
  }

  /** `cancel(id)` reports success at most once: after it did, the id is never found again. */
  lemma CancelWinsOnce(s: State, id: nat, steps: seq<Step>)
    requires Inv(s) && id in s.table && Possible(Apply(s, Cancel(id)), steps)
    requires s.next + Fetches(steps) <= ID_LIMIT
    ensures id !in After(Apply(s, Cancel(id)), steps).table
  {
    var run := s.table[id];
    var r := Apply(s, Cancel(id));
    StepKeepsInv(s, Cancel(id));
    RunKeepsInv(r, steps);
    CancelledStays(r, steps, run);
    var t := After(r, steps);
    if id in t.table {
      assert RunOk(t, t.table[id]);
      IdsDiffer(run, t.table[id]);
    }
  }

  /** Dropping a guard, however late, leaves the entries of all other runs alone. */
  lemma DropRemovesOnlyItself(s: State, run: Run, other: Run)
    requires Inv(s) && Enabled(s, DropGuard(run)) && other != run && Listed(s, other)
    ensures Listed(Apply(s, DropGuard(run)), other)
    ensures !Listed(Apply(s, DropGuard(run)), run)
  {
  }

  /** After a `cancel_all` has sent its signals, every run inserted before it was signalled or has ended. */
  lemma CancelAllReachesEveryone(s: State, steps: seq<Step>, run: Run)
    requires Inv(s) && Possible(Apply(s, TakeAll), steps)
    requires s.next + Fetches(steps) <= ID_LIMIT
    requires run < s.next && s.phases[run] != Fetched
    requires After(Apply(s, TakeAll), steps).draining == {}
    ensures run < |After(Apply(s, TakeAll), steps).phases|
    ensures var t := After(Apply(s, TakeAll), steps); Count(t.signals, run) == 1 || t.phases[run] == Ended
  {
    var r := Apply(s, TakeAll);
    StepKeepsInv(s, TakeAll);
    RunKeepsInv(r, steps);
    InsertedStays(r, steps, run);
    var t := After(r, steps);
    assert RunOk(s, run) && RunOk(r, run) && RunOk(t, run);
    if s.phases[run] == Guarded {
      CancelledStays(r, steps, run);
    } else {
      EndedStays(r, steps, run);
    }
  }

  lemma {:induction false} EndedStays(s: State, steps: seq<Step>, run: Run)
    requires Possible(s, steps) && run < |s.phases| && s.phases[run] == Ended
    ensures var t := After(s, steps); run < |t.phases| && t.phases[run] == Ended
    decreases |steps|
  {
    if steps != [] {
      EndedStays(Apply(s, steps[0]), steps[1..], run);
    }
  }

  /** The cancel arm of a run's wait is ready: its sender fired or was dropped. */
  predicate CancelArmReady(s: State, run: Run) {
    Count(s.signals, run) > 0 || (run !in s.draining && !Listed(s, run))
  }

  /** While its guard lives, a run ends as cancelled only because somebody cancelled it. */
  lemma OnlyASignalCancels(s: State, run: Run)
    requires Inv(s) && run < s.next && s.phases[run] == Guarded
    ensures CancelArmReady(s, run) <==> Count(s.signals, run) == 1
  {
    assert RunOk(s, run);
  }

  /** Beyond 2^64 registrations an id comes back, and inserting it silently cancels the run that had it. */
  lemma WrappedIdTakesOver(s: State, run: Run)
    requires Listed(s, run) && !Cancelled(s, run) && Enabled(s, Insert(run + 0x1_0000_0000_0000_0000))
    ensures var t := Apply(s, Insert(run + 0x1_0000_0000_0000_0000)); CancelArmReady(t, run) && !Cancelled(t, run)
  {
  }

  /** Every entry belongs to a run of its own that nobody has cancelled. */
  lemma EntriesAreRuns(s: State)
    requires Inv(s)
    ensures forall id, other :: id in s.table && other in s.table && s.table[id] == s.table[other] ==> id == other
    ensures forall id :: id in s.table ==>
              Listed(s, s.table[id]) && s.table[id] !in s.draining && Count(s.signals, s.table[id]) == 0
    ensures forall run :: Listed(s, run) ==> exists id :: id in s.table && s.table[id] == run
  {
    forall id | id in s.table
      ensures Listed(s, s.table[id]) && s.table[id] !in s.draining && Count(s.signals, s.table[id]) == 0
    {
      assert RunOk(s, s.table[id]);
    }
    forall run | Listed(s, run)
      ensures exists id :: id in s.table && s.table[id] == run
    {
      assert IdOf(run) in s.table;
    }
  }

  /** The runs behind some entries. */
  function Runs(s: State, ids: set<nat>): (r: set<Run>) {
    set id | id in ids && id in s.table :: s.table[id]
  }

  lemma RunsWithout(s: State, ids: set<nat>, id: nat)
    requires Inv(s) && id in ids && id in s.table
    ensures Runs(s, ids - {id}) == Runs(s, ids) - {s.table[id]} && s.table[id] in Runs(s, ids)
    ensures Listed(s, s.table[id]) && s.table[id] !in s.draining && Count(s.signals, s.table[id]) == 0
  {
    EntriesAreRuns(s);
  }

  /** A signal that was sent stays sent. */
  lemma StillReady(before: State, after: State, fired: set<Run>)
    requires forall run :: run in fired ==> Count(before.signals, run) == 1 && Count(after.signals, run) == 1
    ensures forall run :: run in fired ==> CancelArmReady(after, run)
  {
  }

  lemma AllRuns(s: State)
    requires Inv(s)
    ensures Runs(s, s.table.Keys) == s.table.Values && Runs(s, {}) == {}
    ensures forall run :: run in Runs(s, s.table.Keys) <==> Listed(s, run)
  {
    EntriesAreRuns(s);
  }

  // ---------- the registry object ----------

  /** One entry of the table, as shown to the user. */
  datatype Entry = Entry(plugin: string, action: string, startedAtMs: nat)

  class PluginProcessRegistry {
    /** The atomic counter. */
    var nextId: nat
    var entries: map<nat, Entry>
    ghost var model: State

    ghost predicate Valid()
      reads this
    {
      nextId == model.next % ID_LIMIT && entries.Keys == model.table.Keys
    }

    constructor ()
      ensures Valid() && model == EMPTY
    {
      nextId, entries, model := 0, map[], EMPTY;
    }

    /** First half of registering: take the next id. */
    method FetchNextId() returns (id: nat, ghost run: Run)
      requires Valid()
      modifies this
      ensures Valid() && model == Apply(old(model), FetchId)
      ensures run == old(model).next && id == IdOf(run)
      ensures entries == old(entries)
    {
      id, run := nextId, model.next;
      nextId := (nextId + 1) % ID_LIMIT;
      model := Apply(model, FetchId);
    }

    /** Second half: put the entry in under the table's lock. */
    method InsertEntry(id: nat, entry: Entry, ghost run: Run)
      requires Valid() && Enabled(model, Insert(run)) && id == IdOf(run)
      modifies this
      ensures Valid() && model == Apply(old(model), Insert(run))
      ensures entries == old(entries)[id := entry]
    {
      entries := entries[id := entry];
      model := Apply(model, Insert(run));
    }

    /** Remove and signal one run; says whether there was one. */
    method CancelRun(id: nat) returns (found: bool)
      requires Valid()
      modifies this
      ensures Valid() && model == Apply(old(model), Cancel(id))
      ensures found <==> id in old(entries)
      ensures entries == old(entries) - {id}
    {
      found := id in entries;
      if found {
        entries := entries - {id};
      }
      model := Apply(model, Cancel(id));
    }

    /** First half of cancelling everything: take the whole table under the lock. */
    method TakeEntries() returns (drained: map<nat, Entry>)
      requires Valid()
      modifies this
      ensures Valid() && model == Apply(old(model), TakeAll)
      ensures drained == old(entries) && entries == map[]
    {
      drained, entries := entries, map[];
      model := Apply(model, TakeAll);
    }

    /**
      Second half, once per taken run and without the lock: fire its signal. It is the only one the run ever gets, and
      nothing else about any run changes.
     */
    method SendSignal(ghost run: Run)
      requires Valid() && Inv(model) && Enabled(model, Signal(run))
      modifies this`model
      ensures Valid() && Inv(model) && model == Apply(old(model), Signal(run))
      ensures Count(old(model).signals, run) == 0 && Count(model.signals, run) == 1 && run !in model.draining
      ensures CancelArmReady(model, run) && !Listed(model, run)
      ensures forall other :: other != run ==>
                && Count(model.signals, other) == Count(old(model).signals, other)
                && (other in model.draining <==> other in old(model).draining)
    {
      StepKeepsInv(model, Signal(run));
      assert RunOk(model, run);
      model := Apply(model, Signal(run));
      assert RunOk(model, run);
    }

    /** Cancel every live run: each run that had an entry is signalled once, and all others are left alone. */
    method CancelAll()
      requires Valid() && Inv(model)
      modifies this
      ensures Valid() && Inv(model) && entries == map[]
      ensures forall run :: Listed(old(model), run) ==> Count(model.signals, run) == 1 && CancelArmReady(model, run)
      ensures forall run :: !Listed(old(model), run) ==>
                Count(model.signals, run) == Count(old(model).signals, run)
      ensures model.draining == old(model).draining && model.phases == old(model).phases
    {
      hide Inv, RunOk, CancelArmReady, Runs, Listed;
      ghost var start := model;
      StepKeepsInv(model, TakeAll);
      AllRuns(model);
      var drained := TakeEntries();
      var rest := drained.Keys;
      ghost var fired: set<Run> := {};
      while rest != {}
        invariant Valid() && Inv(model) && entries == map[] && rest <= start.table.Keys
        invariant model.phases == start.phases
        invariant fired + Runs(start, rest) == Runs(start, start.table.Keys) && fired !! Runs(start, rest)
        invariant model.draining == start.draining + Runs(start, rest) && start.draining !! fired
        invariant forall run :: run in fired ==> CancelArmReady(model, run) && Count(model.signals, run) == 1
        invariant forall run :: run !in fired ==> Count(model.signals, run) == Count(start.signals, run)
      {
        var id :| id in rest;
        RunsWithout(start, rest, id);
        ghost var before := model;
        SendSignal(start.table[id]);
        rest, fired := rest - {id}, fired + {start.table[id]};
        StillReady(before, model, fired - {start.table[id]});
      }
    }

    /** A guard goes away: forget its run. */
    method Deregister(id: nat, ghost run: Run)
      requires Valid() && Enabled(model, DropGuard(run)) && id == IdOf(run)
      modifies this
      ensures Valid() && model == Apply(old(model), DropGuard(run))
      ensures entries == old(entries) - {id}
    {
      entries := entries - {id};
      model := Apply(model, DropGuard(run));
    }

    /** The live runs, oldest first. */
    method List() returns (ids: seq<nat>)
      requires Valid()
      ensures forall i, j :: 0 <= i < j < |ids| ==> ids[i] < ids[j]
      ensures forall id :: id in ids <==> id in entries
    {
      ids := [];
      var rest := entries.Keys;
      while rest != {}
        invariant rest <= entries.Keys
        invariant forall i, j :: 0 <= i < j < |ids| ==> ids[i] < ids[j]
        invariant forall id :: id in entries <==> id in rest || id in ids
        invariant forall i, id :: 0 <= i < |ids| && id in rest ==> ids[i] < id
      {
        var least := Least(rest);
        ids, rest := ids + [least], rest - {least};
      }
    }
  }

  /** The smallest element of a non-empty set. */
  method Least(s: set<nat>) returns (least: nat)
    requires s != {}
    ensures least in s && forall x :: x in s ==> least <= x
  {
    least :| least in s;
    var rest := s - {least};
    while rest != {}
      invariant rest < s && least in s && least !in rest
      invariant forall x :: x in s ==> x in rest || least <= x
    {
      var x :| x in rest;
      rest := rest - {x};
      if x < least { least := x; }
    }
  }
}
