/** The cron loop: jobs fire when due, with no catch-up for instants that passed unseen. */
module CronSchedulers {
  import opened Collections

  type Time = int
  type JobId(==)

  /** Ten years, in the unit of `Time`: where a job without a next instant is parked. */
  const DAY: Time := 86_400
  const PARKED: Time := 3650 * DAY

  /** The first instant of a cron expression strictly after a time. */
  type Schedule = Time -> Option<Time>

  datatype Entry = Entry(job: JobId, plugin: string, schedule: Schedule)

  /** What a cron iterator promises: it only moves forward, and skips nothing between the time asked and its answer. */
  ghost predicate Iterator(s: Schedule) {
    && (forall t :: s(t).Some? ==> t < s(t).value)
    && (forall t, u :: s(t).Some? && t <= u < s(t).value ==> s(u) == s(t))
    && (forall t, u :: s(t).None? && t <= u ==> s(u).None?)
  }

  predicate Scheduled(s: Schedule, x: Time) {
    s(x - 1) == Some(x)
  }

  /** `x` is the first scheduled instant after `t`. */
  ghost predicate FirstAfter(s: Schedule, t: Time, x: Time) {
    t < x && Scheduled(s, x) && forall y :: t < y < x ==> !Scheduled(s, y)
  }

  /** `s(t)` is the first scheduled instant after `t`, and is missing only when there is none. */
  lemma AfterIsFirst(s: Schedule, t: Time)
    requires Iterator(s)
    ensures s(t).Some? ==> Scheduled(s, s(t).value) && forall x :: t < x < s(t).value ==> !Scheduled(s, x)
    ensures s(t).None? ==> forall x :: t < x ==> !Scheduled(s, x)
  {
  }

  /** The next instant after `now`, or ten years on. */
  function NextFire(s: Schedule, now: Time): (r: Time) {
    match s(now)
    case Some(x) => x
    case None => now + PARKED
  }

  // ---------- one job under the loop ----------

  datatype Slot = Slot(entry: Entry, next: Time)

  /** A job fired at `at` for the instant `due`. */
  datatype Firing = Firing(entry: Entry, due: Time, at: Time)

  function TickedSlot(slot: Slot, now: Time): (r: Slot) {
    if slot.next > now then slot else slot.(next := NextFire(slot.entry.schedule, now))
  }

  /** One pass over the schedule at time `now`. */
  function Ticked(schedule: seq<Slot>, now: Time): (r: seq<Slot>)
    ensures |r| == |schedule|
    ensures forall i :: 0 <= i < |r| ==> r[i] == TickedSlot(schedule[i], now)
  {
    seq(|schedule|, i requires 0 <= i < |schedule| => TickedSlot(schedule[i], now))
  }

  function Fired(schedule: seq<Slot>, now: Time, paused: bool, disabled: set<string>): (r: seq<Firing>) {
    if schedule == [] then []
    else
      var slot := schedule[0];
      (if slot.next > now || paused || slot.entry.plugin in disabled then [] else [Firing(slot.entry, slot.next, now)])
      + Fired(schedule[1..], now, paused, disabled)
  }

  /** A schedule entry and the clock reading it was loaded with. */
  datatype Load = Load(entry: Entry, now: Time)

  /** Entries without a next instant are dropped. */
  function Kept(loads: seq<Load>): (r: seq<Load>)
    ensures forall i :: 0 <= i < |r| ==> r[i] in loads && r[i].entry.schedule(r[i].now).Some?
  {
    if loads == [] then []
    else (if loads[0].entry.schedule(loads[0].now).None? then [] else [loads[0]]) + Kept(loads[1..])
  }

  function Loaded(loads: seq<Load>): (r: seq<Slot>)
    ensures |r| == |Kept(loads)|
    ensures forall i :: 0 <= i < |r| ==> r[i] == LoadedSlot(Kept(loads)[i])
  {
    var kept := Kept(loads);
    seq(|kept|, i requires 0 <= i < |kept| => LoadedSlot(kept[i]))
  }

  function LoadedSlot(load: Load): (r: Slot) {
    Slot(load.entry, NextFire(load.entry.schedule, load.now))
  }

  lemma LoadedCons(load: Load, rest: seq<Load>)
    ensures Loaded([load] + rest) ==
            (if load.entry.schedule(load.now).None? then [] else [LoadedSlot(load)]) + Loaded(rest)
  {
    assert ([load] + rest)[1..] == rest;
  }

  lemma LoadedFrom(loads: seq<Load>, i: nat, slots: seq<Slot>)
    requires i < |loads|
    ensures var load, next := loads[i], loads[i].entry.schedule(loads[i].now);
            slots + Loaded(loads[i..]) ==
            (if next.Some? then slots + [Slot(load.entry, next.value)] else slots) + Loaded(loads[i + 1..])
  {
    assert loads[i..] == [loads[i]] + loads[i + 1..];
    LoadedCons(loads[i], loads[i + 1..]);
    LoadedSlotIs(loads[i]);
    hide Loaded, LoadedSlot;
  }

  lemma LoadedNone()
    ensures Loaded([]) == []
  {
  }

  lemma LoadedSlotIs(load: Load)
    ensures load.entry.schedule(load.now).Some? ==> LoadedSlot(load) == Slot(load.entry, load.entry.schedule(load.now).value)
  {
  }

  /** The slot is that of a loaded entry, due at its first instant after the time it was loaded with. */
  ghost predicate DueFrom(loads: seq<Load>, slot: Slot) {
    exists load :: load in loads && load.entry == slot.entry && FirstAfter(load.entry.schedule, load.now, slot.next)
  }

  /** Loaded are exactly the entries with a next instant, each due at that instant. */
  lemma {:induction false} LoadedAre(loads: seq<Load>, slot: Slot)
    requires forall load :: load in loads ==> Iterator(load.entry.schedule)
    ensures slot in Loaded(loads) <==> DueFrom(loads, slot)
  {
    if loads != [] {
      var load, rest := loads[0], loads[1..];
      assert loads == [load] + rest;
      LoadedCons(load, rest);
      LoadedAre(rest, slot);
      LoadedSlotIs(load);
      AfterIsFirst(load.entry.schedule, load.now);
      hide Loaded, LoadedSlot, Iterator;
      if DueFrom(loads, slot) && !DueFrom(rest, slot) {
        assert load.entry == slot.entry && FirstAfter(load.entry.schedule, load.now, slot.next);
      }
      if DueFrom(rest, slot) {
        var other :| other in rest && other.entry == slot.entry && FirstAfter(other.entry.schedule, other.now, slot.next);
        assert other in loads;
      }
    }
  }

  // ---------- the loop ----------

  /** How long to sleep when no job is scheduled. */
  const IDLE: Time := 3600

  class CronLoop {
    var schedule: seq<Slot>
    var fired: seq<Firing>

    constructor (loads: seq<Load>)
      ensures schedule == Loaded(loads) && fired == []
    {
      schedule, fired := Loaded(loads), [];
    }

    /** Compute the next instant of each entry, one after the other, dropping entries without one. */
    method NextFireTimes(loads: seq<Load>) returns (slots: seq<Slot>)
      ensures slots == Loaded(loads)
    {
      hide Loaded, NextFire;
      slots := [];
      assert loads[0..] == loads && loads[|loads|..] == [];
      LoadedNone();
      for i := 0 to |loads|
        invariant slots + Loaded(loads[i..]) == Loaded(loads)
      {
        LoadedFrom(loads, i, slots);
        var next := loads[i].entry.schedule(loads[i].now);
        if next.Some? {
          slots := slots + [Slot(loads[i].entry, next.value)];
        }
      }
    }

    /**
      Replace the schedule. Every job with a next instant is in it, due at its first instant after the clock reading it
      was loaded with, so nothing that passed before is made up for; what was fired is not affected.
     */
    method Reload(loads: seq<Load>)
      requires forall load :: load in loads ==> Iterator(load.entry.schedule)
      modifies this`schedule
      ensures schedule == Loaded(loads)
      ensures forall slot :: slot in schedule <==> DueFrom(loads, slot)
    {
      schedule := NextFireTimes(loads);
      forall slot
        ensures slot in Loaded(loads) <==> DueFrom(loads, slot)
      {
        LoadedAre(loads, slot);
      }
    }

    /** The time until the soonest job is due. */
    method UntilDue(now: Time) returns (wait: Time)
      ensures 0 <= wait
      ensures schedule == [] ==> wait == 3_600
      ensures schedule != [] && wait > 0 ==> forall i :: 0 <= i < |schedule| ==> now + wait <= schedule[i].next
      ensures schedule != [] ==> exists i :: 0 <= i < |schedule| && schedule[i].next <= now + wait
    {
      if schedule == [] {
        return IDLE;
      }
      var soonest := schedule[0].next;
      var k := 1;
      while k < |schedule|
        invariant 1 <= k <= |schedule|
        invariant forall i :: 0 <= i < k ==> soonest <= schedule[i].next
        invariant exists i :: 0 <= i < k && schedule[i].next == soonest
      {
        if schedule[k].next < soonest {
          soonest := schedule[k].next;
        }
        k := k + 1;
      }
      wait := if soonest > now then soonest - now else 0;
    }

    /** Fire the due jobs of plugins that may run, and move every due job forward from now. */
    method Tick(now: Time, paused: bool, disabled: set<string>)
      modifies this
      ensures schedule == Ticked(old(schedule), now)
      ensures fired == old(fired) + Fired(old(schedule), now, paused, disabled)
    {
      hide Fired, NextFire;
      ghost var before := schedule;
      ghost var log := fired;
      var i := 0;
      while i < |schedule|
        invariant i <= |schedule| == |before|
        invariant forall k :: 0 <= k < i ==> schedule[k] == TickedSlot(before[k], now)
        invariant forall k :: i <= k < |before| ==> schedule[k] == before[k]
        invariant fired + Fired(before[i..], now, paused, disabled) == log + Fired(before, now, paused, disabled)
      {
        var slot := schedule[i];
        FiredFrom(before, i, now, paused, disabled);
        if slot.next <= now {
          if !paused && slot.entry.plugin !in disabled {
            fired := fired + [Firing(slot.entry, slot.next, now)];
          }
          schedule := schedule[i := slot.(next := NextFire(slot.entry.schedule, now))];
        }
        i := i + 1;
      }
      assert before[i..] == [];
      FiredNothing(now, paused, disabled);
    }
  }

  lemma FiredNothing(now: Time, paused: bool, disabled: set<string>)
    ensures Fired([], now, paused, disabled) == []
  {
  }

  lemma FiredFrom(schedule: seq<Slot>, i: nat, now: Time, paused: bool, disabled: set<string>)
    requires i < |schedule|
    ensures Fired(schedule[i..], now, paused, disabled) ==
            (if schedule[i].next > now || paused || schedule[i].entry.plugin in disabled then []
             else [Firing(schedule[i].entry, schedule[i].next, now)]) + Fired(schedule[i + 1..], now, paused, disabled)
  {
  }

  // ---------- runs ----------

  datatype Event =
    | Reload(loads: seq<Load>)
    | Tick(now: Time, paused: bool, disabled: set<string>)

  datatype Cron = Cron(schedule: seq<Slot>, fired: seq<Firing>)

  function Next(c: Cron, e: Event): (r: Cron) {
    match e
    case Reload(loads) => c.(schedule := Loaded(loads))
    case Tick(now, paused, disabled) =>
      Cron(Ticked(c.schedule, now), c.fired + Fired(c.schedule, now, paused, disabled))
  }

  function Run(events: seq<Event>): (r: Cron) {
    if events == [] then Cron([], []) else Next(Run(events[..|events| - 1]), events[|events| - 1])
  }

  /** The event reads no time before `from` and none after `to`. */
  predicate Within(e: Event, from: Time, to: Time) {
    match e
    case Reload(loads) => from <= to && forall i :: 0 <= i < |loads| ==> from <= loads[i].now <= to
    case Tick(now, _, _) => from <= now <= to
  }

  ghost predicate WellFormed(e: Event) {
    e.Reload? ==>
      && (forall i, j :: 0 <= i < j < |e.loads| ==> e.loads[i].entry.job != e.loads[j].entry.job)
      && (forall i :: 0 <= i < |e.loads| ==> Iterator(e.loads[i].entry.schedule))
  }

  /** A run on a clock that never goes back: `clock[k]` lies between the readings of event `k - 1` and of event `k`. */
  ghost predicate OnClock(events: seq<Event>, clock: seq<Time>) {
    && |clock| == |events| + 1
    && forall k :: 0 <= k < |events| ==> WellFormed(events[k]) && Within(events[k], clock[k], clock[k + 1])
  }

  // ---------- at most once, never early ----------

  predicate Distinct(schedule: seq<Slot>) {
    forall i, j :: 0 <= i < j < |schedule| ==> schedule[i].entry.job != schedule[j].entry.job
  }

  /** Firings of one job follow one another: each is for an instant later than the moment of the one before. */
  predicate Ordered(fired: seq<Firing>) {
    && (forall i :: 0 <= i < |fired| ==> fired[i].due <= fired[i].at)
    && (forall i, j :: 0 <= i < j < |fired| && fired[i].entry.job == fired[j].entry.job ==> fired[i].at < fired[j].due)
  }

  ghost predicate Inv(c: Cron, now: Time) {
    && Distinct(c.schedule)
    && (forall i :: 0 <= i < |c.schedule| ==> Iterator(c.schedule[i].entry.schedule))
    && Ordered(c.fired)
    && (forall k :: 0 <= k < |c.fired| ==> c.fired[k].at <= now)
    && (forall i, k :: 0 <= i < |c.schedule| && 0 <= k < |c.fired| && c.fired[k].entry.job == c.schedule[i].entry.job ==>
          c.fired[k].at < c.schedule[i].next)
  }

  lemma {:induction false} KeptDistinct(loads: seq<Load>)
    requires forall i, j :: 0 <= i < j < |loads| ==> loads[i].entry.job != loads[j].entry.job
    ensures forall i, j :: 0 <= i < j < |Kept(loads)| ==> Kept(loads)[i].entry.job != Kept(loads)[j].entry.job
  {
    if loads != [] {
      KeptDistinct(loads[1..]);
    }
  }

  /** What one pass fires: due jobs of plugins that may run, for the instants in the schedule. */
  lemma {:induction false} FiredAre(schedule: seq<Slot>, now: Time, paused: bool, disabled: set<string>, x: Firing)
    ensures x in Fired(schedule, now, paused, disabled) <==>
            x.at == now && x.due <= now && !paused && x.entry.plugin !in disabled && Slot(x.entry, x.due) in schedule
  {
    if schedule != [] {
      FiredAre(schedule[1..], now, paused, disabled, x);
    }
  }

  lemma {:induction false} FiredOnce(schedule: seq<Slot>, now: Time, paused: bool, disabled: set<string>)
    requires Distinct(schedule)
    ensures OncePerJob(Fired(schedule, now, paused, disabled))
  {
    if schedule != [] {
      FiredOnce(schedule[1..], now, paused, disabled);
      var rest := Fired(schedule[1..], now, paused, disabled);
      forall k | 0 <= k < |rest|
        ensures rest[k].entry.job != schedule[0].entry.job
      {
        FiredAre(schedule[1..], now, paused, disabled, rest[k]);
      }
    }
  }

  predicate OncePerJob(fired: seq<Firing>) {
    forall i, j :: 0 <= i < j < |fired| ==> fired[i].entry.job != fired[j].entry.job
  }

  lemma TickKeepsInv(c: Cron, e: Event, clock: Time, after: Time)
    requires e.Tick? && Inv(c, clock) && Within(e, clock, after)
    ensures Inv(Next(c, e), after)
  {
    hide Fired, NextFire;
    var n := Next(c, e);
    var f := Fired(c.schedule, e.now, e.paused, e.disabled);
    FiredOnce(c.schedule, e.now, e.paused, e.disabled);
    forall k | 0 <= k < |f|
      ensures f[k].due <= e.now && f[k].at == e.now
      ensures exists i :: 0 <= i < |c.schedule| && c.schedule[i] == Slot(f[k].entry, f[k].due)
    {
      FiredAre(c.schedule, e.now, e.paused, e.disabled, f[k]);
    }
    forall i | 0 <= i < |c.schedule|
      ensures n.schedule[i].entry == c.schedule[i].entry
      ensures n.schedule[i].next > e.now && n.schedule[i].next >= c.schedule[i].next
    {
      NothingLeftDue(c.schedule, e.now, i);
    }
  }

  lemma ReloadKeepsInv(c: Cron, e: Event, clock: Time, after: Time)
    requires e.Reload? && Inv(c, clock) && WellFormed(e) && Within(e, clock, after)
    ensures Inv(Next(c, e), after)
  {
    KeptDistinct(e.loads);
  }

  lemma {:induction false} RunKeepsInv(events: seq<Event>, clock: seq<Time>)
    requires OnClock(events, clock)
    ensures Inv(Run(events), clock[|events|])
  {
    if events != [] {
      var n := |events| - 1;
      RunKeepsInv(events[..n], clock[..n + 1]);
      assert WellFormed(events[n]) && Within(events[n], clock[n], clock[n + 1]);
      if events[n].Tick? {
        TickKeepsInv(Run(events[..n]), events[n], clock[n], clock[n + 1]);
      } else {
        ReloadKeepsInv(Run(events[..n]), events[n], clock[n], clock[n + 1]);
      }
    }
  }

  /**
    Across reloads, pauses and disabled plugins, no job fires early and no two firings of a job are for the same
    instant: the later one is for an instant after the moment the earlier one fired.
   */
  lemma AtMostOnce(events: seq<Event>, clock: seq<Time>, i: nat, j: nat)
    requires OnClock(events, clock)
    requires i < j < |Run(events).fired| && Run(events).fired[i].entry.job == Run(events).fired[j].entry.job
    ensures var a, b := Run(events).fired[i], Run(events).fired[j];
            a.due <= a.at < b.due <= b.at
  {
    RunKeepsInv(events, clock);
  }

  /** A tick leaves no job due at its own time. */
  lemma NothingLeftDue(schedule: seq<Slot>, now: Time, i: nat)
    requires i < |schedule| && Iterator(schedule[i].entry.schedule)
    ensures Ticked(schedule, now)[i].next > now
  {
  }

  // ---------- what fires, without the loop's state ----------

  /** When the loop last looked at slot `i`: at the last tick, or when the slot was loaded. */
  function Seen(events: seq<Event>, i: nat): (r: Time)
    requires i < |Run(events).schedule|
  {
    match events[|events| - 1]
    case Tick(now, _, _) => now
    case Reload(loads) => Kept(loads)[i].now
  }

  /** The schedule had run dry at some time up to `seen`, and is parked for 3650 days from there. */
  ghost predicate ParkedSince(s: Schedule, seen: Time, next: Time) {
    exists t :: t <= seen && s(t).None? && next == t + 3_650 * 86_400
  }

  /** The next instant is the first one since then; a schedule that has run dry is parked. */
  lemma {:induction false} NextIsFirstUnseen(events: seq<Event>, clock: seq<Time>, i: nat)
    requires OnClock(events, clock) && i < |Run(events).schedule|
    ensures var slot, seen := Run(events).schedule[i], Seen(events, i);
            var s := slot.entry.schedule;
            && Iterator(s) && seen <= clock[|events|]
            && (s(seen).Some? ==> s(seen) == Some(slot.next))
            && (s(seen).None? ==> !Scheduled(s, slot.next) && ParkedSince(s, seen, slot.next))
  {
    var n := |events| - 1;
    RunKeepsInv(events, clock);
    assert WellFormed(events[n]) && Within(events[n], clock[n], clock[n + 1]);
    match events[n]
    case Reload(loads) =>
      assert Kept(loads)[i] in loads;
    case Tick(now, _, _) =>
      NextIsFirstUnseen(events[..n], clock[..n + 1], i);
      TickedNext(Run(events[..n]).schedule[i], Seen(events[..n], i), now);
  }

  lemma TickedNext(slot: Slot, seen: Time, now: Time)
    requires var s := slot.entry.schedule;
             && Iterator(s) && seen <= now && (s(seen).Some? ==> s(seen) == Some(slot.next))
             && (s(seen).None? ==> !Scheduled(s, slot.next) && ParkedSince(s, seen, slot.next))
    ensures var s, next := slot.entry.schedule, TickedSlot(slot, now).next;
            && (s(now).Some? ==> s(now) == Some(next))
            && (s(now).None? ==> !Scheduled(s, next) && ParkedSince(s, now, next))
  {
    AfterIsFirst(slot.entry.schedule, now);
  }

  /** Distinct jobs: the slot of an entry is the one with its job. */
  lemma SlotOf(schedule: seq<Slot>, i: nat, x: Time)
    requires Distinct(schedule) && i < |schedule|
    ensures Slot(schedule[i].entry, x) in schedule <==> schedule[i].next == x
  {
    if schedule[i].next == x { assert schedule[i] == Slot(schedule[i].entry, x); }
  }

  /**
    A tick fires job `i` exactly when the daemon is not paused, the plugin is enabled and some scheduled instant has
    come since the loop last looked, and then it fires once, for the first such instant. The one exception is a schedule
    that has run dry: it is parked and fires at an instant it does not contain.
   */
  lemma FiresForFirstUnseen(events: seq<Event>, clock: seq<Time>, e: Event, i: nat, x: Time)
    requires OnClock(events, clock) && i < |Run(events).schedule|
    requires e.Tick? && clock[|events|] <= e.now
    ensures var c, entry, seen := Run(events), Run(events).schedule[i].entry, Seen(events, i);
            var fires := Firing(entry, x, e.now) in Fired(c.schedule, e.now, e.paused, e.disabled);
            var dry := entry.schedule(seen).None?;
            && (!dry ==> (fires <==>
                  && !e.paused && entry.plugin !in e.disabled
                  && seen < x <= e.now && Scheduled(entry.schedule, x)
                  && forall y :: seen < y < x ==> !Scheduled(entry.schedule, y)))
            && (dry ==> (fires <==>
                  && !e.paused && entry.plugin !in e.disabled && x <= e.now && x == c.schedule[i].next))
            && (dry && fires ==> !Scheduled(entry.schedule, x))
  {
    hide Fired;
    RunKeepsInv(events, clock);
    NextIsFirstUnseen(events, clock, i);
    var c := Run(events);
    hide Run, Seen, OnClock;
    FiredAre(c.schedule, e.now, e.paused, e.disabled, Firing(c.schedule[i].entry, x, e.now));
    SlotOf(c.schedule, i, x);
    AfterIsFirst(c.schedule[i].entry.schedule, Seen(events, i));
  }

  /**
    Why the clock must not go back. A reload that reads time `t` makes a job due again at or before `at` exactly when
    `t` lies before some instant up to `at`: never for `t >= at`, and always for a `t` before the instant that fired.
   */
  lemma ReloadRepeats(s: Schedule, t: Time, at: Time)
    requires Iterator(s) && s(t).Some?
    ensures s(t).value <= at <==> exists x :: t < x <= at && Scheduled(s, x)
  {
    AfterIsFirst(s, t);
  }

  /**
    A run on a clock that steps back: a job fires at its instant `x`, the schedule is reloaded at a time before `x`, and
    the job fires for the same instant again.
   */
  lemma ClockStepFiresTwice(e: Entry, t: Time, x: Time)
    requires Iterator(e.schedule) && FirstAfter(e.schedule, t, x)
    ensures var load, tick := Event.Reload([Load(e, t)]), Event.Tick(x, false, {});
            Run([load, tick, load, tick]).fired == [Firing(e, x, x), Firing(e, x, x)]
  {
    AfterIsFirst(e.schedule, t);
    assert e.schedule(t) == Some(x);
    var load, tick := Event.Reload([Load(e, t)]), Event.Tick(x, false, {});
    var slots, f := [Slot(e, x)], Firing(e, x, x);
    assert [Load(e, t)] == [Load(e, t)] + [];
    LoadedCons(Load(e, t), []);
    assert Loaded([Load(e, t)]) == slots;
    FiredFrom(slots, 0, x, false, {});
    assert slots[0..] == slots && slots[1..] == [] && Fired(slots, x, false, {}) == [f];
    var ticked := [TickedSlot(slots[0], x)];
    assert Ticked(slots, x) == ticked;
    RunSnoc([], load);
    assert [] + [load] == [load] && Run([load]) == Cron(slots, []);
    RunSnoc([load], tick);
    assert [load] + [tick] == [load, tick] && Run([load, tick]) == Cron(ticked, [f]);
    RunSnoc([load, tick], load);
    assert [load, tick] + [load] == [load, tick, load] && Run([load, tick, load]) == Cron(slots, [f]);
    RunSnoc([load, tick, load], tick);
    assert [load, tick, load] + [tick] == [load, tick, load, tick];
  }

  lemma RunSnoc(events: seq<Event>, e: Event)
    ensures Run(events + [e]) == Next(Run(events), e)
  {
    assert (events + [e])[..|events|] == events;
  }
}
