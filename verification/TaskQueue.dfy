/** The daemon's in-memory task queue, shared by every thread that runs a task. */
module TaskQueues {
  import opened Collections

  type TaskId = nat
  type Task = string

  datatype State = Queued | Running | Completed | Failed

  datatype Record = Record(id: TaskId, task: Task, state: State, message: Option<string>)

  predicate Finished(s: State) {
    s == Completed || s == Failed
  }

  // ---------- the queue ----------

  datatype Queue = Queue(nextId: TaskId, running: bool, queued: seq<Record>, history: seq<Record>)

  const EMPTY: Queue := Queue(1, false, [], [])

  /** Index of the first record with an id, or the length when there is none. */
  function IndexOf(records: seq<Record>, id: TaskId): (i: nat)
    ensures i <= |records|
    ensures i < |records| ==> records[i].id == id
    ensures forall j :: 0 <= j < i ==> records[j].id != id
  {
    if records == [] || records[0].id == id then 0 else 1 + IndexOf(records[1..], id)
  }

  function Without(records: seq<Record>, id: TaskId): (r: seq<Record>) {
    if records == [] then []
    else (if records[0].id == id then [] else [records[0]]) + Without(records[1..], id)
  }

  /** `i` is the position of the first record with the id. */
  ghost predicate FirstOf(records: seq<Record>, i: int, id: TaskId)
    requires 0 <= i < |records|
  {
    records[i].id == id && forall j :: 0 <= j < i ==> records[j].id != id
  }

  lemma {:induction false} WithoutMembers(records: seq<Record>, id: TaskId)
    ensures forall r :: r in Without(records, id) <==> r in records && r.id != id
  {
    if records != [] {
      WithoutMembers(records[1..], id);
      assert records == [records[0]] + records[1..];
    }
  }

  lemma WithoutNone(id: TaskId)
    ensures Without([], id) == []
  {
  }

  lemma WithoutFrom(records: seq<Record>, i: nat, id: TaskId, kept: seq<Record>)
    requires i < |records|
    ensures kept + Without(records[i..], id) ==
            (if records[i].id == id then kept else kept + [records[i]]) + Without(records[i + 1..], id)
  {
    assert records[i..][1..] == records[i + 1..];
  }

  function Enqueued(q: Queue, task: Task): (r: Queue) {
    var record := Record(q.nextId, task, Queued, None);
    Queue(q.nextId + 1, q.running, q.queued + [record], q.history + [record])
  }

  function Marked(q: Queue, id: TaskId): (r: Queue) {
    var i := IndexOf(q.history, id);
    q.(running := true,
       history := if i < |q.history| then q.history[i := q.history[i].(state := Running)] else q.history)
  }

  function Concluded(q: Queue, record: Record): (r: Queue) {
    var i := IndexOf(q.history, record.id);
    q.(running := false,
       queued := Without(q.queued, record.id),
       history := if i < |q.history| then q.history[i := record] else q.history + [record])
  }

  class TaskQueueState {
    var nextId: TaskId
    var running: bool
    var queued: seq<Record>
    var history: seq<Record>

    function Value(): (r: Queue)
      reads this
    {
      Queue(nextId, running, queued, history)
    }

    constructor ()
      ensures Value() == EMPTY
    {
      nextId, running, queued, history := 1, false, [], [];
    }

    method Enqueue(task: Task) returns (record: Record)
      modifies this
      ensures Value() == Enqueued(old(Value()), task)
      ensures record == Record(old(nextId), task, Queued, None) && nextId == old(nextId) + 1
      ensures queued == old(queued) + [record] && history == old(history) + [record] && running == old(running)
    {
      record := Record(nextId, task, Queued, None);
      nextId := nextId + 1;
      queued := queued + [record];
      history := history + [record];
    }

    method Find(id: TaskId) returns (i: nat)
      ensures i == IndexOf(history, id)
    {
      i := 0;
      while i < |history| && history[i].id != id
        invariant i <= |history|
        invariant IndexOf(history, id) == i + IndexOf(history[i..], id)
      {
        assert history[i..][1..] == history[i + 1..];
        i := i + 1;
      }
    }

    method MarkRunning(id: TaskId)
      modifies this
      ensures Value() == Marked(old(Value()), id)
      ensures running && queued == old(queued) && nextId == old(nextId) && |history| == |old(history)|
      ensures forall i :: 0 <= i < |history| ==>
                history[i] == if FirstOf(old(history), i, id) then old(history)[i].(state := Running) else old(history)[i]
    {
      running := true;
      var i := Find(id);
      if i < |history| {
        history := history[i := history[i].(state := Running)];
      }
    }

    method Retain(id: TaskId)
      modifies this`queued
      ensures queued == Without(old(queued), id)
    {
      hide Without;
      var kept := [];
      var i := 0;
      assert queued[0..] == queued && queued[|queued|..] == [];
      WithoutNone(id);
      while i < |queued|
        invariant i <= |queued| && queued == old(queued)
        invariant kept + Without(queued[i..], id) == Without(queued, id)
      {
        WithoutFrom(queued, i, id, kept);
        if queued[i].id != id {
          kept := kept + [queued[i]];
        }
        i := i + 1;
      }
      assert queued[i..] == [];
      queued := kept;
    }

    method Finish(record: Record)
      modifies this
      ensures Value() == Concluded(old(Value()), record)
      ensures !running && nextId == old(nextId) && |old(history)| <= |history| <= |old(history)| + 1
      ensures forall r :: r in queued <==> r in old(queued) && r.id != record.id
      ensures forall i :: 0 <= i < |old(history)| ==>
                history[i] == if FirstOf(old(history), i, record.id) then record else old(history)[i]
      ensures |history| > |old(history)| <==> forall i :: 0 <= i < |old(history)| ==> old(history)[i].id != record.id
      ensures |history| > |old(history)| ==> history[|old(history)|] == record
    {
      WithoutMembers(queued, record.id);
      running := false;
      Retain(record.id);
      var i := Find(record.id);
      if i < |history| {
        history := history[i := record];
      } else {
        history := history + [record];
      }
    }
  }

  // ---------- threads ----------

  type Thread = nat

  /** A thread's own copy of its record, from `enqueue` to `finish`. */
  datatype Stage = Accepted(record: Record) | Started(record: Record)

  datatype System = System(queue: Queue, threads: map<Thread, Stage>)

  const START: System := System(EMPTY, map[])

  /** The next step of one thread: a new task, or what follows for the one it has. */
  datatype Step = Step(thread: Thread, task: Task, failed: bool, message: Option<string>)

  function Next(s: System, e: Step): (r: System) {
    if e.thread !in s.threads then
      var record := Record(s.queue.nextId, e.task, Queued, None);
      System(Enqueued(s.queue, e.task), s.threads[e.thread := Accepted(record)])
    else
      match s.threads[e.thread]
      case Accepted(record) => System(Marked(s.queue, record.id), s.threads[e.thread := Started(record)])
      case Started(record) =>
        var result := record.(state := if e.failed then Failed else Completed, message := e.message);
        System(Concluded(s.queue, result), s.threads - {e.thread})
  }

  function Run(s: System, steps: seq<Step>): (r: System) {
    if steps == [] then s else Next(Run(s, steps[..|steps| - 1]), steps[|steps| - 1])
  }

  // ---------- invariant ----------

  function Ids(records: seq<Record>): (r: seq<TaskId>)
    ensures |r| == |records|
    ensures forall i :: 0 <= i < |r| ==> r[i] == records[i].id
  {
    seq(|records|, i requires 0 <= i < |records| => records[i].id)
  }

  /** Ids of the records that are not finished, in order. */
  function Unfinished(records: seq<Record>): (r: seq<TaskId>) {
    if records == [] then []
    else
      var last := records[|records| - 1];
      Unfinished(records[..|records| - 1]) + (if Finished(last.state) then [] else [last.id])
  }

  predicate Numbered(history: seq<Record>) {
    forall i :: 0 <= i < |history| ==> history[i].id == i + 1
  }

  predicate Held(s: System, t: Thread)
    requires t in s.threads && Numbered(s.queue.history)
  {
    var r := s.threads[t].record;
    && 1 <= r.id <= |s.queue.history|
    && s.queue.history[r.id - 1] == r.(state := if s.threads[t].Accepted? then Queued else Running)
  }

  predicate InFlight(s: System, id: TaskId) {
    exists t :: t in s.threads && s.threads[t].record.id == id
  }

  /** Each thread holds an unfinished record. */
  ghost predicate AllHeld(s: System)
    requires Numbered(s.queue.history)
  {
    forall t :: t in s.threads ==> Held(s, t)
  }

  /** No two threads hold the same record. */
  ghost predicate OwnIds(threads: map<Thread, Stage>) {
    forall t, u :: t in threads && u in threads && threads[t].record.id == threads[u].record.id ==> t == u
  }

  /** Each unfinished record is held by a thread. */
  ghost predicate Covered(s: System) {
    forall i :: 0 <= i < |s.queue.history| && !Finished(s.queue.history[i].state) ==> InFlight(s, i + 1)
  }

  ghost predicate Owned(s: System)
    requires Numbered(s.queue.history)
  {
    AllHeld(s) && OwnIds(s.threads) && Covered(s)
  }

  ghost predicate Inv(s: System) {
    && Numbered(s.queue.history)
    && s.queue.nextId == |s.queue.history| + 1
    && Ids(s.queue.queued) == Unfinished(s.queue.history)
    && Owned(s)
    && (s.queue.running ==> exists t :: t in s.threads && s.threads[t].Started?)
  }

  function Drop(ids: seq<TaskId>, id: TaskId): (r: seq<TaskId>) {
    if ids == [] then [] else (if ids[0] == id then [] else [ids[0]]) + Drop(ids[1..], id)
  }

  lemma {:induction false} DropAppend(a: seq<TaskId>, b: seq<TaskId>, id: TaskId)
    ensures Drop(a + b, id) == Drop(a, id) + Drop(b, id)
  {
    if a == [] {
      assert a + b == b;
    } else {
      assert (a + b)[1..] == a[1..] + b;
      DropAppend(a[1..], b, id);
    }
  }

  lemma {:induction false} DropAbsent(ids: seq<TaskId>, id: TaskId)
    requires id !in ids
    ensures Drop(ids, id) == ids
  {
    if ids != [] {
      DropAbsent(ids[1..], id);
    }
  }

  lemma {:induction false} IdsWithout(records: seq<Record>, id: TaskId)
    ensures Ids(Without(records, id)) == Drop(Ids(records), id)
  {
    if records != [] {
      IdsWithout(records[1..], id);
      assert Ids(records)[1..] == Ids(records[1..]);
    }
  }

  lemma {:induction false} UnfinishedSnoc(history: seq<Record>, r: Record)
    ensures Unfinished(history + [r]) == Unfinished(history) + Own(r)
  {
  }

  lemma {:induction false} UnfinishedIds(history: seq<Record>, id: TaskId)
    requires Numbered(history)
    ensures id in Unfinished(history) <==> 1 <= id <= |history| && !Finished(history[id - 1].state)
  {
    if history != [] {
      UnfinishedIds(history[..|history| - 1], id);
    }
  }

  lemma IndexNumbered(history: seq<Record>, id: TaskId)
    requires Numbered(history) && 1 <= id <= |history|
    ensures IndexOf(history, id) == id - 1
  {
    assert history[id - 1].id == id;
  }

  /** Replacing an unfinished record only takes its id out of the list when the new state is a final one. */
  function Own(r: Record): (ids: seq<TaskId>) {
    if Finished(r.state) then [] else [r.id]
  }

  lemma DropOwn(r: Record, id: TaskId)
    ensures Drop(Own(r), id) == if r.id == id then [] else Own(r)
  {
  }

  lemma {:induction false} UnfinishedUpdate(history: seq<Record>, i: nat, r: Record)
    requires Numbered(history) && i < |history| && r.id == i + 1 && !Finished(history[i].state)
    ensures Unfinished(history[i := r]) == if Finished(r.state) then Drop(Unfinished(history), r.id) else Unfinished(history)
  {
    hide Unfinished, Drop;
    var n := |history| - 1;
    var front, last := history[..n], history[n];
    assert history == front + [last];
    UnfinishedSnoc(front, last);
    UnfinishedIds(front, r.id);
    DropAppend(Unfinished(front), Own(last), r.id);
    DropOwn(last, r.id);
    if i == n {
      assert history[i := r] == front + [r];
      UnfinishedSnoc(front, r);
      DropAbsent(Unfinished(front), r.id);
    } else {
      assert history[i := r] == front[i := r] + [last];
      UnfinishedUpdate(front, i, r);
      UnfinishedSnoc(front[i := r], last);
    }
  }

  // ---------- every interleaving ----------

  lemma InvStart()
    ensures Inv(START)
  {
  }

  lemma EnqueueKeepsInv(s: System, e: Step)
    requires Inv(s) && e.thread !in s.threads
    ensures Inv(Next(s, e))
  {
    hide Unfinished, Owned;
    var n := Next(s, e);
    var record := Record(s.queue.nextId, e.task, Queued, None);
    UnfinishedSnoc(s.queue.history, record);
    assert Ids(n.queue.queued) == Ids(s.queue.queued) + [record.id];
    EnqueueOwned(s, n, e.thread, record);
    if t :| t in s.threads && s.threads[t].Started? && s.queue.running {
      assert n.threads[t].Started?;
    }
  }

  lemma EnqueueOwned(s: System, n: System, t: Thread, r: Record)
    requires Numbered(s.queue.history) && Owned(s) && t !in s.threads
    requires r.id == |s.queue.history| + 1 && r.state == Queued
    requires n.queue.history == s.queue.history + [r] && n.threads == s.threads[t := Accepted(r)]
    ensures Numbered(n.queue.history) && Owned(n)
  {
    hide Covered, InFlight;
    EnqueueCovered(s, n, t, r);
    forall u | u in s.threads
      ensures Held(n, u) && s.threads[u].record.id != r.id
    {
      assert Held(s, u);
    }
  }

  lemma EnqueueCovered(s: System, n: System, t: Thread, r: Record)
    requires Covered(s) && t !in s.threads && r.id == |s.queue.history| + 1
    requires n.queue.history == s.queue.history + [r] && n.threads == s.threads[t := Accepted(r)]
    ensures Covered(n)
  {
    Carry(s, n, t);
    assert n.threads[t].record.id == r.id;
    assert InFlight(n, r.id);
  }

  /** Tasks of the other threads stay in flight. */
  lemma Carry(s: System, n: System, t: Thread)
    requires forall u :: u in s.threads && u != t ==> u in n.threads && n.threads[u] == s.threads[u]
    ensures forall id :: InFlight(s, id) && !(t in s.threads && s.threads[t].record.id == id) ==> InFlight(n, id)
  {
  }

  /** The other threads are as they were. */
  ghost predicate SameOthers(s: System, n: System, t: Thread) {
    forall u :: u != t ==> (u in n.threads <==> u in s.threads) && (u in n.threads ==> n.threads[u] == s.threads[u])
  }

  /** Both later steps of a task replace its own record, and it leaves the threads when that is finished. */
  lemma ReplaceOwned(s: System, n: System, t: Thread, r: Record)
    requires Numbered(s.queue.history) && Owned(s) && t in s.threads && s.threads[t].record.id == r.id
    requires 1 <= r.id <= |s.queue.history| && n.queue.history == s.queue.history[r.id - 1 := r] && SameOthers(s, n, t)
    requires if t in n.threads then n.threads[t] == Started(n.threads[t].record)
                                    && r == n.threads[t].record.(state := Running)
             else Finished(r.state)
    ensures Numbered(n.queue.history) && Owned(n)
  {
    hide Covered, InFlight;
    ReplaceCovered(s, n, t, r);
    forall u | u in n.threads
      ensures Held(n, u)
    {
      if u != t {
        assert Held(s, u);
        assert s.threads[u].record.id != r.id;
      }
    }
  }

  lemma ReplaceCovered(s: System, n: System, t: Thread, r: Record)
    requires Covered(s) && t in s.threads && s.threads[t].record.id == r.id
    requires 1 <= r.id <= |s.queue.history| && n.queue.history == s.queue.history[r.id - 1 := r] && SameOthers(s, n, t)
    requires if t in n.threads then n.threads[t].record.id == r.id else Finished(r.state)
    ensures Covered(n)
  {
    Carry(s, n, t);
    if t in n.threads { assert InFlight(n, r.id); }
  }

  /** What marking a thread's record does. */
  lemma MarkStep(s: System, e: Step)
    requires Numbered(s.queue.history) && e.thread in s.threads && Held(s, e.thread) && s.threads[e.thread].Accepted?
    ensures var n, r := Next(s, e), s.threads[e.thread].record;
            var running := r.(state := Running);
            && 1 <= r.id <= |s.queue.history| && SameOthers(s, n, e.thread) && !Finished(s.queue.history[r.id - 1].state)
            && n.queue == Queue(s.queue.nextId, true, s.queue.queued, s.queue.history[r.id - 1 := running])
            && n.threads == s.threads[e.thread := Started(r)]
  {
    IndexNumbered(s.queue.history, s.threads[e.thread].record.id);
  }

  lemma MarkKeepsInv(s: System, e: Step)
    requires Inv(s) && e.thread in s.threads && s.threads[e.thread].Accepted?
    ensures Inv(Next(s, e))
  {
    hide Unfinished, Ids, Next, SameOthers, Held, OwnIds, Covered;
    assert Held(s, e.thread);
    MarkStep(s, e);
    hide Owned, AllHeld;
    var n := Next(s, e);
    var r := s.threads[e.thread].record;
    UnfinishedUpdate(s.queue.history, r.id - 1, r.(state := Running));
    ReplaceOwned(s, n, e.thread, r.(state := Running));
    assert n.threads[e.thread].Started?;
  }

  /** What finishing a thread's record does. */
  lemma FinishStep(s: System, e: Step)
    requires Numbered(s.queue.history) && e.thread in s.threads && Held(s, e.thread) && s.threads[e.thread].Started?
    ensures var n, r := Next(s, e), s.threads[e.thread].record;
            var result := r.(state := if e.failed then Failed else Completed, message := e.message);
            && 1 <= r.id <= |s.queue.history| && SameOthers(s, n, e.thread) && !Finished(s.queue.history[r.id - 1].state)
            && n.queue == Queue(s.queue.nextId, false, Without(s.queue.queued, r.id), s.queue.history[r.id - 1 := result])
            && n.threads == s.threads - {e.thread}
  {
    hide Without;
    IndexNumbered(s.queue.history, s.threads[e.thread].record.id);
  }

  lemma FinishKeepsInv(s: System, e: Step)
    requires Inv(s) && e.thread in s.threads && s.threads[e.thread].Started?
    ensures Inv(Next(s, e))
  {
    hide Unfinished, Without, Ids, Next, SameOthers, Drop, Held, OwnIds, Covered;
    assert Held(s, e.thread);
    FinishStep(s, e);
    hide Owned, AllHeld;
    var n := Next(s, e);
    var r := s.threads[e.thread].record;
    var result := r.(state := if e.failed then Failed else Completed, message := e.message);
    UnfinishedUpdate(s.queue.history, r.id - 1, result);
    IdsWithout(s.queue.queued, r.id);
    ReplaceOwned(s, n, e.thread, result);
  }

  lemma {:induction false} StepKeepsInv(s: System, e: Step)
    requires Inv(s)
    ensures Inv(Next(s, e))
  {
    if e.thread !in s.threads {
      EnqueueKeepsInv(s, e);
    } else if s.threads[e.thread].Accepted? {
      MarkKeepsInv(s, e);
    } else {
      FinishKeepsInv(s, e);
    }
  }

  lemma {:induction false} RunKeepsInv(s: System, steps: seq<Step>)
    requires Inv(s)
    ensures Inv(Run(s, steps))
  {
    if steps != [] {
      RunKeepsInv(s, steps[..|steps| - 1]);
      StepKeepsInv(Run(s, steps[..|steps| - 1]), steps[|steps| - 1]);
    }
  }

  /**
    The history lists the ids from 1 in order, the queue lists exactly the unfinished ones, one for each thread at
    work, `running` means a task is running, and with no task in flight nothing is left over.
   */
  ghost predicate Orderly(s: System) {
    var q := s.queue;
    && q.nextId == |q.history| + 1
    && (forall i :: 0 <= i < |q.history| ==> q.history[i].id == i + 1)
    && (forall id: TaskId :: id in Ids(q.queued) <==> 1 <= id <= |q.history| && !Finished(q.history[id - 1].state))
    && (forall i, j :: 0 <= i < j < |q.queued| ==> q.queued[i].id < q.queued[j].id)
    && |q.queued| == |s.threads|
    && (q.running ==> AnyRunning(q) && q.queued != [])
    && (s.threads == map[] ==> !q.running && q.queued == [])
  }

  /** However the threads interleave, the queue is orderly after every step. */
  lemma {:induction false} EveryRun(steps: seq<Step>)
    ensures Orderly(Run(START, steps))
  {
    hide Orderly, Run;
    InvStart();
    RunKeepsInv(START, steps);
    InvIsOrderly(Run(START, steps));
  }

  lemma InvIsOrderly(s: System)
    requires Inv(s)
    ensures Orderly(s)
  {
    hide Unfinished, AnyRunning, Owned;
    var q := s.queue;
    forall id: TaskId
      ensures id in Ids(q.queued) <==> 1 <= id <= |q.history| && !Finished(q.history[id - 1].state)
    {
      UnfinishedIds(q.history, id);
    }
    UnfinishedIncreasing(q.history);
    forall i, j | 0 <= i < j < |q.queued|
      ensures q.queued[i].id < q.queued[j].id
    {
      assert Unfinished(q.history)[i] < Unfinished(q.history)[j];
    }
    QueueCountsThreads(s);
    RunningIsStarted(s);
    if q.running {
      var t :| t in s.threads && s.threads[t].Started?;
      assert t in s.threads.Keys;
      assert |s.threads| > 0;
    }
  }

  lemma {:induction false} UnfinishedIncreasing(history: seq<Record>)
    requires Numbered(history)
    ensures Increasing(Unfinished(history))
  {
    if history != [] {
      var n := |history| - 1;
      var front, last := history[..n], history[n];
      assert history == front + [last];
      UnfinishedIncreasing(front);
      UnfinishedSnoc(front, last);
      hide Unfinished;
      var ids := Unfinished(front);
      forall i | 0 <= i < |ids|
        ensures ids[i] <= |front|
      {
        UnfinishedIds(front, ids[i]);
      }
    }
  }

  predicate Increasing(ids: seq<TaskId>) {
    forall i, j :: 0 <= i < j < |ids| ==> ids[i] < ids[j]
  }

  function RecordIds(threads: map<Thread, Stage>): (r: set<TaskId>) {
    set t | t in threads :: threads[t].record.id
  }

  /** The unfinished ids are those of the records that threads hold. */
  lemma UnfinishedAreHeld(s: System, id: TaskId)
    requires Inv(s)
    ensures id in Unfinished(s.queue.history) <==> id in RecordIds(s.threads)
  {
    hide Unfinished, Ids;
    UnfinishedIds(s.queue.history, id);
    if id in Unfinished(s.queue.history) {
      assert InFlight(s, id - 1 + 1);
    }
    if id in RecordIds(s.threads) {
      var t :| t in s.threads && s.threads[t].record.id == id;
      assert Held(s, t);
    }
  }

  /** The queue holds one record for each thread that is running a task. */
  lemma QueueCountsThreads(s: System)
    requires Inv(s)
    ensures |s.queue.queued| == |s.threads|
  {
    hide Unfinished, AllHeld, Covered, RecordIds;
    var ids := Unfinished(s.queue.history);
    UnfinishedIncreasing(s.queue.history);
    DistinctCount(ids);
    forall id
      ensures id in Elements(ids) <==> id in RecordIds(s.threads)
    {
      UnfinishedAreHeld(s, id);
    }
    assert Elements(ids) == RecordIds(s.threads);
    OwnIdsCount(s.threads);
  }

  lemma OwnIdsCount(threads: map<Thread, Stage>)
    requires OwnIds(threads)
    ensures |RecordIds(threads)| == |threads|
  {
    InjectiveCount(threads.Keys, t requires t in threads => threads[t].record.id, RecordIds(threads));
  }

  lemma {:induction false} DistinctCount(ids: seq<TaskId>)
    requires Increasing(ids)
    ensures |Elements(ids)| == |ids|
  {
    if ids != [] {
      var n := |ids| - 1;
      DistinctCount(ids[..n]);
      ElementsSnoc(ids[..n], ids[n]);
      assert ids == ids[..n] + [ids[n]];
      assert ids[n] !in ids[..n];
      hide Increasing;
    }
  }

  lemma {:induction false} InjectiveCount(dom: set<Thread>, f: Thread --> TaskId, image: set<TaskId>)
    requires forall t :: t in dom ==> f.requires(t)
    requires forall t, u :: t in dom && u in dom && f(t) == f(u) ==> t == u
    requires image == set t | t in dom :: f(t)
    ensures |image| == |dom|
  {
    if dom != {} {
      var t :| t in dom;
      InjectiveCount(dom - {t}, f, image - {f(t)});
    }
  }

  // ---------- tasks only move forward ----------

  /** No record is lost, no state goes back, and a finished record is final. */
  ghost predicate Forward(a: Queue, b: Queue) {
    && |a.history| <= |b.history|
    && forall i :: 0 <= i < |a.history| ==>
         var before, after := a.history[i], b.history[i];
         && after.id == before.id && after.task == before.task
         && (before.state != Queued ==> after.state != Queued)
         && (Finished(before.state) ==> after == before)
  }

  lemma {:induction false} StatesMoveForward(s: System, steps: seq<Step>)
    requires Inv(s)
    ensures Forward(s.queue, Run(s, steps).queue)
  {
    if steps != [] {
      var front := steps[..|steps| - 1];
      StatesMoveForward(s, front);
      RunKeepsInv(s, front);
      StepForward(Run(s, front), steps[|steps| - 1]);
    }
  }

  lemma StepForward(s: System, e: Step)
    requires Inv(s)
    ensures Forward(s.queue, Next(s, e).queue)
  {
    hide Unfinished, IndexOf, Without, Ids, InFlight;
    if e.thread in s.threads {
      var r := s.threads[e.thread].record;
      assert Held(s, e.thread);
      IndexNumbered(s.queue.history, r.id);
    }
  }

  /** What one step does to the history: a new record, or the record of the thread is running, or it has its outcome. */
  lemma StepRecords(s: System, e: Step)
    requires Inv(s)
    ensures
      var before, after := s.queue.history, Next(s, e).queue.history;
      if e.thread !in s.threads then after == before + [Record(|before| + 1, e.task, Queued, None)]
      else
        var k := s.threads[e.thread].record.id - 1;
        && 0 <= k < |before|
        && after == before[k := if s.threads[e.thread].Accepted? then before[k].(state := Running)
                                else if e.failed then before[k].(state := Failed, message := e.message)
                                else before[k].(state := Completed, message := e.message)]
    ensures e.thread in s.threads && s.threads[e.thread].Started? ==> e.thread !in Next(s, e).threads
  {
    hide Unfinished, IndexOf, Without, Ids, InFlight;
    if e.thread in s.threads {
      assert Held(s, e.thread);
      IndexNumbered(s.queue.history, s.threads[e.thread].record.id);
    }
  }

  // ---------- what `running` says ----------

  predicate AnyRunning(q: Queue) {
    exists i :: 0 <= i < |q.history| && q.history[i].state == Running
  }

  /**
    `running` says whether a task is running, until a task finishes beside another one that is running: the flag is
    cleared for both.
   */
  lemma {:induction false} FlagAfterStep(s: System, e: Step)
    requires Inv(s) && s.queue.running == AnyRunning(s.queue)
    ensures var n := Next(s, e);
            n.queue.running == AnyRunning(n.queue)
            <==>
            !(e.thread in s.threads && s.threads[e.thread].Started?
              && exists t :: t in s.threads && t != e.thread && s.threads[t].Started?)
  {
    hide Unfinished, IndexOf, Without, Inv, AnyRunning;
    var n := Next(s, e);
    StepKeepsInv(s, e);
    RunningIsStarted(s);
    RunningIsStarted(n);
    if e.thread in s.threads && s.threads[e.thread].Accepted? {
      assert n.threads[e.thread].Started?;
    }
    if t :| t in s.threads && t != e.thread && s.threads[t].Started? {
      assert n.threads[t].Started?;
    }
    if t :| t in n.threads && n.threads[t].Started? && t != e.thread {
      assert s.threads[t].Started?;
    }
  }

  lemma RunningIsStarted(s: System)
    requires Inv(s)
    ensures AnyRunning(s.queue) <==> exists t :: t in s.threads && s.threads[t].Started?
  {
  }

  /** Two overlapping tasks: the first to finish leaves the daemon reporting that it is idle. */
  lemma IdleWhileRunning(task: Task, message: Option<string>)
    ensures exists steps :: var q := Run(START, steps).queue; !q.running && AnyRunning(q)
  {
    hide Run, Next;
    var a, b := Step(0, task, false, message), Step(1, task, false, message);
    var q, r := Record(1, task, Queued, None), Record(2, task, Queued, None);
    var s1 := System(Queue(2, false, [q], [q]), map[0 := Accepted(q)]);
    var s2 := System(Queue(3, false, [q, r], [q, r]), map[0 := Accepted(q), 1 := Accepted(r)]);
    var s3 := System(Queue(3, true, [q, r], [q.(state := Running), r]), map[0 := Started(q), 1 := Accepted(r)]);
    var both := [q.(state := Running), r.(state := Running)];
    var s4 := System(Queue(3, true, [q, r], both), map[0 := Started(q), 1 := Started(r)]);
    OverlapStarts(task, message);
    OverlapGoesOn(task, message);
    var s5 := Next(s4, a);
    RunSnoc(START, [], a);
    RunSnoc(START, [a], b);
    RunSnoc(START, [a, b], a);
    RunSnoc(START, [a, b, a], b);
    RunSnoc(START, [a, b, a, b], a);
    assert [] + [a] == [a] && [a] + [b] == [a, b] && [a, b] + [a] == [a, b, a];
    assert [a, b, a] + [b] == [a, b, a, b] && [a, b, a, b] + [a] == [a, b, a, b, a];
    assert Run(START, [a, b, a, b, a]) == s5;
    assert s5.queue.history[1].state == Running;
  }

  lemma OverlapStarts(task: Task, message: Option<string>)
    ensures var a, b := Step(0, task, false, message), Step(1, task, false, message);
            var q, r := Record(1, task, Queued, None), Record(2, task, Queued, None);
            && Run(START, []) == START
            && Next(START, a) == System(Queue(2, false, [q], [q]), map[0 := Accepted(q)])
            && Next(Next(START, a), b) ==
               System(Queue(3, false, [q, r], [q, r]), map[0 := Accepted(q), 1 := Accepted(r)])
  {
  }

  /** The first task starts, the second starts, the first finishes. */
  lemma OverlapGoesOn(task: Task, message: Option<string>)
    ensures var a, b := Step(0, task, false, message), Step(1, task, false, message);
            var q, r := Record(1, task, Queued, None), Record(2, task, Queued, None);
            var s2 := System(Queue(3, false, [q, r], [q, r]), map[0 := Accepted(q), 1 := Accepted(r)]);
            var s3 := System(Queue(3, true, [q, r], [q.(state := Running), r]), map[0 := Started(q), 1 := Accepted(r)]);
            var both := [q.(state := Running), r.(state := Running)];
            var s4 := System(Queue(3, true, [q, r], both), map[0 := Started(q), 1 := Started(r)]);
            && Next(s2, a) == s3 && Next(s3, b) == s4
            && !Next(s4, a).queue.running && |Next(s4, a).queue.history| == 2
            && Next(s4, a).queue.history[1].state == Running
  {
  }

  lemma RunSnoc(s: System, steps: seq<Step>, e: Step)
    ensures Run(s, steps + [e]) == Next(Run(s, steps), e)
  {
    assert (steps + [e])[..|steps|] == steps;
  }
}
