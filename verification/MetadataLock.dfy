/** Lock files and metadata revisions: writers of `metadata.toml` under any interleaving. */
module MetadataLocks {
  import opened Collections

  type Text = string
  type Dir = string

  // ---------- lock names ----------

  predicate Plain(c: char) {
    'a' <= c <= 'z' || 'A' <= c <= 'Z' || '0' <= c <= '9' || c == '-' || c == '_'
  }

  function Clean(key: string): (r: string)
    ensures |r| == |key|
    ensures forall i :: 0 <= i < |key| ==> r[i] == if Plain(key[i]) then key[i] else '_'
  {
    seq(|key|, i requires 0 <= i < |key| => if Plain(key[i]) then key[i] else '_')
  }

  function LockName(key: string): (r: string) {
    (if key == "" then "lock" else Clean(key)) + ".lock"
  }

  const ALPHANUMERIC: string := "abcdefghijklmnopqrstuvwxyz" + "ABCDEFGHIJKLMNOPQRSTUVWXYZ" + "0123456789"

  /**
    Every lock name is one file name of letters, digits, `-` and `_` before its extension, so it has no path separator, no
    drive and no second extension, and each such character of the key stands for itself.
   */
  lemma LockNameIsPlain(key: string)
    ensures var name := LockName(key);
            && |name| > 5 && name[|name| - 5..] == ".lock"
            && forall i :: 0 <= i < |name| - 5 ==> name[i] in ALPHANUMERIC + "-_"
    ensures key == "" ==> LockName(key) == "lock.lock"
    ensures key != "" ==>
              && |LockName(key)| == |key| + 5
              && forall i :: 0 <= i < |key| ==>
                   LockName(key)[i] == if key[i] in ALPHANUMERIC + "-_" then key[i] else '_'
  {
    hide Plain;
    PlainChars();
    assert forall c :: c in "lock" ==> c in ALPHANUMERIC + "-_";
    assert '_' in ALPHANUMERIC + "-_";
    hide ALPHANUMERIC;
    if key == "" {
      assert LockName(key)[..4] == "lock";
    }
  }

  lemma PlainChars()
    ensures forall c :: Plain(c) <==> c in ALPHANUMERIC + "-_"
  {
    forall c
      ensures Plain(c) <==> c in ALPHANUMERIC + "-_"
    {
      LowerCase(c);
      UpperCase(c);
    }
  }

  lemma LowerCase(c: char)
    ensures 'a' <= c <= 'z' <==> c in "abcdefghijklmnopqrstuvwxyz"
  {
  }

  lemma UpperCase(c: char)
    ensures 'A' <= c <= 'Z' <==> c in "ABCDEFGHIJKLMNOPQRSTUVWXYZ"
  {
  }

  /** Keys share a lock exactly when they differ only where both have a character that is written as an underscore. */
  lemma SharedLock(a: string, b: string)
    requires a != ""
    ensures b != "" ==>
              (LockName(a) == LockName(b) <==>
               && |a| == |b|
               && forall i :: 0 <= i < |a| ==>
                    a[i] == b[i] || (a[i] !in ALPHANUMERIC + "-" && b[i] !in ALPHANUMERIC + "-"))
    ensures LockName(a) == LockName("") <==> a == "lock"
  {
    assert LockName(a)[..|LockName(a)| - 5] == Clean(a);
    if b != "" {
      assert LockName(b)[..|LockName(b)| - 5] == Clean(b);
    }
    assert LockName("")[..4] == "lock";
    MaskedChars();
    assert forall i :: 0 <= i < 4 ==> "lock"[i] in ALPHANUMERIC + "-" && Clean("lock")[i] == "lock"[i];
    hide Plain, Masked, Clean, ALPHANUMERIC;
    CleanAgrees(a, b);
    CleanAgrees(a, "lock");
    assert Clean("lock") == "lock";
    if LockName(a) == LockName("") {
      assert forall i :: 0 <= i < 4 ==> a[i] == "lock"[i];
    }
  }

  /** What is written as an underscore. */
  predicate Masked(c: char) {
    Clean([c]) == "_"
  }

  lemma MaskedChars()
    ensures forall c :: Masked(c) <==> c !in ALPHANUMERIC + "-"
  {
    PlainChars();
    hide Plain, ALPHANUMERIC;
    forall c
      ensures Masked(c) <==> c !in ALPHANUMERIC + "-"
    {
      assert Masked(c) <==> Clean([c])[0] == '_';
      assert c in ALPHANUMERIC + "-_" <==> c in ALPHANUMERIC + "-" || c == '_';
      assert '_' !in ALPHANUMERIC + "-" by { UnderscoreOut(); }
    }
  }

  lemma UnderscoreOut()
    ensures '_' !in ALPHANUMERIC + "-"
  {
  }

  lemma CleanAgrees(a: string, b: string)
    ensures Clean(a) == Clean(b) <==>
            |a| == |b| && forall i :: 0 <= i < |a| ==> a[i] == b[i] || (Masked(a[i]) && Masked(b[i]))
  {
    hide Plain;
    forall i | 0 <= i < |a| && i < |b|
      ensures Clean(a)[i] == Clean(b)[i] <==> a[i] == b[i] || (Masked(a[i]) && Masked(b[i]))
    {
      CleanChar(a[i], b[i]);
    }
  }

  lemma CleanChar(c: char, d: char)
    ensures (if Plain(c) then c else '_') == (if Plain(d) then d else '_') <==> c == d || (Masked(c) && Masked(d))
  {
    assert Masked(c) <==> Clean([c])[0] == '_';
    assert Masked(d) <==> Clean([d])[0] == '_';
  }

  /** Build the lock name character by character. */
  method LockFile(key: string) returns (name: string)
    ensures name == LockName(key)
  {
    var component := "";
    for i := 0 to |key|
      invariant component == Clean(key)[..i]
    {
      if Plain(key[i]) {
        component := component + [key[i]];
      } else {
        component := component + "_";
      }
    }
    if component == "" {
      component := "lock";
    }
    name := component + ".lock";
  }

  // ---------- writers ----------

  /** What a write command does to the text it reads: replace it if its revision is as expected, or edit it. */
  datatype Plan = Patch(expected: string, candidate: Text) | Edit(edit: Text -> Option<Text>)

  datatype Job = Job(key: string, dir: Dir, plan: Plan)

  /** The new text for a text that was read. */
  function Outcome(plan: Plan, revision: Text -> string, text: Text): (r: Option<Text>) {
    match plan
    case Patch(expected, candidate) => if revision(text) == expected then Some(candidate) else None
    case Edit(edit) => edit(text)
  }

  datatype Answer = Ok | Conflict | Failure

  /** Where a thread is in its command. */
  datatype Phase =
    | Trying(job: Job)
    | Locked(job: Job)
    | Read(job: Job, seen: Text)
    | Staged(job: Job, seen: Text, text: Text)
    | Closing(job: Job, answer: Answer)
    | Done(job: Job, answer: Answer)

  type Thread = nat

  /** One replacement of `metadata.toml`, and whether the directory was flushed after it. */
  datatype Write = Write(thread: Thread, job: Job, seen: Text, replaced: Text, text: Text, flushed: bool)

  datatype World = World(
    locks: set<string>,
    meta: map<Dir, Text>,
    staging: map<Dir, Text>,
    copies: map<Dir, Text>,
    threads: map<Thread, Phase>,
    writes: seq<Write>)

  /** How a file operation goes: it works, fails without effect, or fails when its file is already in place. */
  datatype Luck = Works | FailsEarly | FailsLate

  datatype Event =
    | Begin(thread: Thread, job: Job)
    | Advance(thread: Thread, luck: Luck)
    | External(dir: Dir, text: Text)

  function Next(revision: Text -> string, w: World, e: Event): (r: World) {
    match e
    case Begin(t, job) => if t in w.threads then w else w.(threads := w.threads[t := Trying(job)])
    case External(dir, text) => w.(meta := w.meta[dir := text])
    case Advance(t, luck) =>
      if t !in w.threads then w
      else
        var (n, phase) := Act(revision, w, t, luck);
        n.(threads := w.threads[t := phase])
  }

  /** The files after a thread's next step, and where the step takes the thread. */
  function Act(revision: Text -> string, w: World, t: Thread, luck: Luck): (r: (World, Phase))
    requires t in w.threads
  {
    match w.threads[t]
    case Trying(job) => TryLock(w, job, luck)
    case Locked(job) =>
      (w, if job.dir in w.meta && luck == Works then Read(job, w.meta[job.dir]) else Closing(job, Failure))
    case Read(job, seen) => Decide(revision, w, job, seen, luck)
    case Staged(job, seen, _) => Replace(w, t, job, seen, luck)
    case Closing(job, answer) =>
      (if luck == Works then w.(locks := w.locks - {LockName(job.key)}) else w, Done(job, answer))
    case Done(job, answer) => (w, Done(job, answer))
  }

  function TryLock(w: World, job: Job, luck: Luck): (r: (World, Phase)) {
    var name := LockName(job.key);
    if name in w.locks then (w, Done(job, Conflict))
    else
      match luck
      case Works => (w.(locks := w.locks + {name}), Locked(job))
      case FailsEarly => (w, Done(job, Failure))
      case FailsLate => (w.(locks := w.locks + {name}), Done(job, Failure))
  }

  /** After reading: a mismatch goes to the daemon's own copy, anything else is staged in a temporary file. */
  function Decide(revision: Text -> string, w: World, job: Job, seen: Text, luck: Luck): (r: (World, Phase)) {
    match Outcome(job.plan, revision, seen)
    case None =>
      if job.plan.Patch? && luck != FailsEarly then
        (w.(copies := w.copies[job.dir := job.plan.candidate]), Closing(job, if luck == Works then Conflict else Failure))
      else
        (w, Closing(job, Failure))
    case Some(text) =>
      if job.plan.Edit? && text == seen then (w, Closing(job, Ok))
      else if job.dir in w.staging || luck == FailsEarly then (w, Closing(job, Failure))
      else
        (w.(staging := w.staging[job.dir := text]),
         if luck == Works then Staged(job, seen, text) else Closing(job, Failure))
  }

  /** Rename the temporary file over `metadata.toml`; flushing the directory afterwards can still fail. */
  function Replace(w: World, t: Thread, job: Job, seen: Text, luck: Luck): (r: (World, Phase)) {
    if luck == FailsEarly || job.dir !in w.staging || job.dir !in w.meta then (w, Closing(job, Failure))
    else
      (w.(meta := w.meta[job.dir := w.staging[job.dir]],
          staging := w.staging - {job.dir},
          writes := w.writes + [Write(t, job, seen, w.meta[job.dir], w.staging[job.dir], luck == Works)]),
       Closing(job, if luck == Works then Ok else Failure))
  }

  function Run(revision: Text -> string, w: World, events: seq<Event>): (r: World) {
    if events == [] then w else Next(revision, Run(revision, w, events[..|events| - 1]), events[|events| - 1])
  }

  // ---------- every run: mutual exclusion, whole texts, honest answers ----------

  predicate Critical(p: Phase) {
    p.Locked? || p.Read? || p.Staged? || p.Closing?
  }

  /** A thread inside its critical section has its lock file, and no other thread has the same one. */
  ghost predicate Exclusive(w: World) {
    && (forall t :: t in w.threads && Critical(w.threads[t]) ==> LockName(w.threads[t].job.key) in w.locks)
    && (forall t, u | t in w.threads && u in w.threads && Critical(w.threads[t]) && Critical(w.threads[u]) ::
          LockName(w.threads[t].job.key) == LockName(w.threads[u].job.key) ==> t == u)
  }

  /** A staged text is the thread's own, computed from the text it read. */
  ghost predicate StagedOwn(revision: Text -> string, w: World) {
    && (forall t | t in w.threads && w.threads[t].Staged? ::
          var p := w.threads[t];
          p.job.dir in w.staging && w.staging[p.job.dir] == p.text && Outcome(p.job.plan, revision, p.seen) == Some(p.text))
    && (forall t, u | t in w.threads && u in w.threads && w.threads[t].Staged? && w.threads[u].Staged? ::
          w.threads[t].job.dir == w.threads[u].job.dir ==> t == u)
  }

  predicate Answered(p: Phase, answer: Answer) {
    (p.Closing? || p.Done?) && p.answer == answer
  }

  /** Each write is the outcome of its plan on the text that was read, by a thread that answers Ok if it was flushed. */
  ghost predicate Logged(revision: Text -> string, w: World) {
    && (forall k | 0 <= k < |w.writes| ::
          var x := w.writes[k];
          && Outcome(x.job.plan, revision, x.seen) == Some(x.text)
          && x.thread in w.threads && w.threads[x.thread].job == x.job
          && Answered(w.threads[x.thread], if x.flushed then Ok else Failure))
    && (forall i, j :: 0 <= i < j < |w.writes| ==> w.writes[i].thread != w.writes[j].thread)
    && (forall t | t in w.threads && Answered(w.threads[t], Ok) && w.threads[t].job.plan.Patch? ::
          exists k :: 0 <= k < |w.writes| && w.writes[k].thread == t)
  }

  ghost predicate Inv(revision: Text -> string, w: World) {
    Exclusive(w) && StagedOwn(revision, w) && Logged(revision, w)
  }

  /** What a step does to the lock files. */
  lemma LockStep(revision: Text -> string, w: World, t: Thread, luck: Luck, n: World, q: Phase)
    requires t in w.threads && (n, q) == Act(revision, w, t, luck)
    ensures var name := LockName(w.threads[t].job.key);
            && q.job == w.threads[t].job
            && (|| (n.locks == w.locks && (Critical(q) ==> Critical(w.threads[t])))
                || (name !in w.locks && n.locks == w.locks + {name} && !Critical(w.threads[t]))
                || (n.locks == w.locks - {name} && Critical(w.threads[t]) && !Critical(q)))
  {
    hide LockName, Outcome;
  }

  /** What a step does to the staged files. */
  lemma StagingStep(revision: Text -> string, w: World, t: Thread, luck: Luck, n: World, q: Phase)
    requires t in w.threads && (n, q) == Act(revision, w, t, luck)
    ensures q.job == w.threads[t].job
    ensures var dir := w.threads[t].job.dir;
            if q.Staged? then
              && dir !in w.staging && n.staging == w.staging[dir := q.text]
              && Outcome(q.job.plan, revision, q.seen) == Some(q.text)
            else
              || n.staging == w.staging
              || (dir !in w.staging && n.staging - {dir} == w.staging)
              || (w.threads[t].Staged? && n.staging == w.staging - {dir})
  {
    hide LockName, Outcome;
  }

  /** What a step does to the metadata files. */
  lemma WriteStep(revision: Text -> string, w: World, t: Thread, luck: Luck, n: World, q: Phase)
    requires t in w.threads && (n, q) == Act(revision, w, t, luck)
    ensures var p := w.threads[t];
            && q.job == p.job
            && (n.writes == w.writes ==>
                  && n.meta == w.meta
                  && (Answered(q, Ok) ==> Answered(p, Ok) || (p.Read? && p.job.plan.Edit?)))
            && (n.writes != w.writes ==>
                  && p.Staged? && p.job.dir in w.staging && p.job.dir in w.meta
                  && Answered(q, if luck == Works then Ok else Failure)
                  && n.meta == w.meta[p.job.dir := w.staging[p.job.dir]]
                  && n.writes == w.writes + [Write(t, p.job, p.seen, w.meta[p.job.dir], w.staging[p.job.dir],
                                                   luck == Works)])
            && (p.Closing? || p.Done? ==> Answered(q, p.answer))
  {
    hide LockName, Outcome;
  }

  lemma StepKeepsExclusive(revision: Text -> string, w: World, e: Event)
    requires Exclusive(w)
    ensures Exclusive(Next(revision, w, e))
  {
    if e.Advance? && e.thread in w.threads {
      hide LockName, Act;
      var (n, q) := Act(revision, w, e.thread, e.luck);
      LockStep(revision, w, e.thread, e.luck, n, q);
    }
  }

  lemma StepKeepsStagedOwn(revision: Text -> string, w: World, e: Event)
    requires StagedOwn(revision, w)
    ensures StagedOwn(revision, Next(revision, w, e))
  {
    if e.Advance? && e.thread in w.threads {
      hide LockName, Outcome, Act;
      var (n, q) := Act(revision, w, e.thread, e.luck);
      StagingStep(revision, w, e.thread, e.luck, n, q);
    }
  }

  lemma StepKeepsLogged(revision: Text -> string, w: World, e: Event)
    requires StagedOwn(revision, w) && Logged(revision, w)
    ensures Logged(revision, Next(revision, w, e))
  {
    hide LockName, Outcome, Act;
    var m := Next(revision, w, e);
    if e.Advance? && e.thread in w.threads {
      var (n, q) := Act(revision, w, e.thread, e.luck);
      WriteStep(revision, w, e.thread, e.luck, n, q);
      assert w.writes <= m.writes;
      forall t | t in m.threads && Answered(m.threads[t], Ok) && m.threads[t].job.plan.Patch?
        ensures exists k :: 0 <= k < |m.writes| && m.writes[k].thread == t
      {
        if t == e.thread && m.writes != w.writes {
          assert m.writes[|w.writes|].thread == t;
        } else {
          var k :| 0 <= k < |w.writes| && w.writes[k].thread == t;
          assert m.writes[k].thread == t;
        }
      }
    }
  }

  /** No command has started; lock files and staged files may be left over from an earlier process. */
  ghost predicate Idle(w: World) {
    w.threads == map[] && w.writes == []
  }

  lemma {:induction false} RunKeepsInv(revision: Text -> string, start: World, events: seq<Event>)
    requires Idle(start)
    ensures Inv(revision, Run(revision, start, events))
  {
    if events != [] {
      hide Next, Exclusive, StagedOwn, Logged;
      var n := |events| - 1;
      var w := Run(revision, start, events[..n]);
      RunKeepsInv(revision, start, events[..n]);
      StepKeepsExclusive(revision, w, events[n]);
      StepKeepsStagedOwn(revision, w, events[n]);
      StepKeepsLogged(revision, w, events[n]);
    }
  }

  /** Two threads are never in a critical section for the same lock name. */
  lemma {:induction false} MutualExclusion(revision: Text -> string, start: World, events: seq<Event>, t: Thread, u: Thread)
    requires Idle(start)
    requires var w := Run(revision, start, events);
             t in w.threads && u in w.threads && t != u && Critical(w.threads[t]) && Critical(w.threads[u])
    ensures var w := Run(revision, start, events);
            LockName(w.threads[t].job.key) != LockName(w.threads[u].job.key)
  {
    RunKeepsInv(revision, start, events);
  }

  /** The thread put a candidate in the place of the file, after reading a text of the expected revision. */
  predicate Patched(revision: Text -> string, writes: seq<Write>, t: Thread, candidate: Text, expected: string) {
    exists k :: 0 <= k < |writes| && writes[k].thread == t
                && writes[k].text == candidate && revision(writes[k].seen) == expected
  }

  /** The thread replaced the file and flushed the directory afterwards. */
  predicate Flushed(writes: seq<Write>, t: Thread) {
    exists k :: 0 <= k < |writes| && writes[k].thread == t && writes[k].flushed
  }

  /**
    A patch replaces the file at most once, always with its candidate after reading the expected revision. It answers Ok
    only if it did; and if it did, it answers Ok exactly when the directory was flushed afterwards, and Failure otherwise.
   */
  lemma {:induction false} PatchAnswers(revision: Text -> string, start: World, events: seq<Event>, t: Thread)
    requires Idle(start)
    requires var w := Run(revision, start, events);
             t in w.threads && (w.threads[t].Done? || w.threads[t].Closing?) && w.threads[t].job.plan.Patch?
    ensures var w := Run(revision, start, events);
            var plan := w.threads[t].job.plan;
            var patched := Patched(revision, w.writes, t, plan.candidate, plan.expected);
            && (w.threads[t].answer == Ok <==> patched && Flushed(w.writes, t))
            && (patched && !Flushed(w.writes, t) ==> w.threads[t].answer == Failure)
            && ((exists k :: 0 <= k < |w.writes| && w.writes[k].thread == t) ==> patched)
            && forall i, j :: 0 <= i < j < |w.writes| ==> !(w.writes[i].thread == w.writes[j].thread == t)
  {
    RunKeepsInv(revision, start, events);
    var w := Run(revision, start, events);
    if w.threads[t].answer == Ok {
      assert Answered(w.threads[t], Ok);
      var k :| 0 <= k < |w.writes| && w.writes[k].thread == t;
      assert w.writes[k].job == w.threads[t].job;
    }
  }

  /** The file of an item changes only by a logged write or from outside; a mismatch goes to the daemon's own copy. */
  lemma ConflictLeavesMetadata(revision: Text -> string, w: World, t: Thread, luck: Luck)
    requires t in w.threads && w.threads[t].Read? && w.threads[t].job.plan.Patch?
    ensures var n, p := Next(revision, w, Advance(t, luck)), w.threads[t];
            && n.meta == w.meta && n.writes == w.writes && n.locks == w.locks
            && (n.threads[t].Staged? ==> revision(p.seen) == p.job.plan.expected && n.copies == w.copies)
            && (revision(p.seen) != p.job.plan.expected ==>
                  && n.staging == w.staging
                  && n.threads[t] == Closing(p.job, if luck == Works then Conflict else Failure)
                  && n.copies == if luck != FailsEarly then w.copies[p.job.dir := p.job.plan.candidate] else w.copies)
  {
  }

  /** An edit that leaves the text as it is touches no file and answers Ok. */
  lemma UnchangedEdit(revision: Text -> string, w: World, t: Thread, luck: Luck)
    requires t in w.threads && w.threads[t].Read? && w.threads[t].job.plan.Edit?
    requires w.threads[t].job.plan.edit(w.threads[t].seen) == Some(w.threads[t].seen)
    ensures Next(revision, w, Advance(t, luck)) == w.(threads := w.threads[t := Closing(w.threads[t].job, Ok)])
  {
  }

  /** A lock file whose owner is gone is never removed: the key answers with a conflict for good. */
  lemma {:induction false} LeftoverLocks(revision: Text -> string, w: World, events: seq<Event>, name: string)
    requires Exclusive(w) && name in w.locks
    requires forall t :: t in w.threads && Critical(w.threads[t]) ==> LockName(w.threads[t].job.key) != name
    ensures var n := Run(revision, w, events);
            && Exclusive(n) && name in n.locks
            && forall t :: t in n.threads && Critical(n.threads[t]) ==> LockName(n.threads[t].job.key) != name
  {
    if events != [] {
      hide LockName, Act;
      var k := |events| - 1;
      LeftoverLocks(revision, w, events[..k], name);
      var m, e := Run(revision, w, events[..k]), events[k];
      StepKeepsExclusive(revision, m, e);
      if e.Advance? && e.thread in m.threads {
        var (n, q) := Act(revision, m, e.thread, e.luck);
        LockStep(revision, m, e.thread, e.luck, n, q);
      }
    }
  }

  /** A staged file left behind by a failed write to `dir`: no thread that is about to rename it. */
  ghost predicate LeftStaged(w: World, dir: Dir) {
    && dir in w.staging
    && forall t :: t in w.threads && w.threads[t].Staged? ==> w.threads[t].job.dir != dir
  }

  /**
    A staged file whose writer is gone is never removed either, and no writer replaces the metadata of that directory
    again: only a change from outside can.
   */
  lemma {:induction false} LeftoverStaging(revision: Text -> string, w: World, events: seq<Event>, dir: Dir)
    requires LeftStaged(w, dir)
    ensures var n := Run(revision, w, events);
            && LeftStaged(n, dir)
            && (forall k :: |w.writes| <= k < |n.writes| ==> n.writes[k].job.dir != dir)
            && w.writes <= n.writes
    ensures (forall e :: e in events && e.External? ==> e.dir != dir) && dir in w.meta ==>
              var n := Run(revision, w, events); dir in n.meta && n.meta[dir] == w.meta[dir]
  {
    if events != [] {
      hide LockName, Act, Outcome;
      var k := |events| - 1;
      LeftoverStaging(revision, w, events[..k], dir);
      var m, e := Run(revision, w, events[..k]), events[k];
      assert events == events[..k] + [e];
      if e.Advance? && e.thread in m.threads {
        var (n, q) := Act(revision, m, e.thread, e.luck);
        StagingStep(revision, m, e.thread, e.luck, n, q);
        WriteStep(revision, m, e.thread, e.luck, n, q);
      }
    }
  }

  // ---------- writers that share a key ----------

  /** Every command on `dir` uses one lock name, and nothing outside the daemon touches the file. */
  ghost predicate Keyed(events: seq<Event>, dir: Dir, name: string) {
    forall k :: 0 <= k < |events| ==>
      match events[k]
      case Begin(_, job) => job.dir == dir ==> LockName(job.key) == name
      case External(d, _) => d != dir
      case Advance(_, _) => true
  }

  /** The text that the plans of the logged writes to `dir` give when each is applied to the result of the one before. */
  ghost function Replay(revision: Text -> string, writes: seq<Write>, dir: Dir, text: Text): (r: Option<Text>) {
    if writes == [] then Some(text)
    else
      var n := |writes| - 1;
      var before := Replay(revision, writes[..n], dir, text);
      if writes[n].job.dir != dir || before.None? then before
      else Outcome(writes[n].job.plan, revision, before.value)
  }

  predicate Lossless(writes: seq<Write>, dir: Dir) {
    forall k :: 0 <= k < |writes| && writes[k].job.dir == dir ==> writes[k].seen == writes[k].replaced
  }

  ghost predicate Serial(revision: Text -> string, w: World, dir: Dir, name: string, initial: Text) {
    && dir in w.meta
    && (forall t :: t in w.threads && w.threads[t].job.dir == dir ==> LockName(w.threads[t].job.key) == name)
    && (forall t :: t in w.threads && w.threads[t].job.dir == dir && (w.threads[t].Read? || w.threads[t].Staged?) ==>
          w.threads[t].seen == w.meta[dir])
    && Lossless(w.writes, dir)
    && Replay(revision, w.writes, dir, initial) == Some(w.meta[dir])
  }

  /** What a step does to the text a thread goes by. */
  lemma SeenStep(revision: Text -> string, w: World, t: Thread, luck: Luck, n: World, q: Phase)
    requires t in w.threads && (n, q) == Act(revision, w, t, luck)
    ensures var p := w.threads[t];
            && (q.Read? ==> p.Locked? && p.job.dir in w.meta && q.seen == w.meta[p.job.dir] && n.writes == w.writes)
            && (q.Staged? ==> p.Read? && q.seen == p.seen && n.writes == w.writes)
  {
    hide LockName, Outcome;
  }

  /** A write by a thread that holds the only lock for `dir` extends the replay. */
  lemma WriteKeepsSerial(revision: Text -> string, w: World, n: World, t: Thread, flushed: bool, dir: Dir, initial: Text)
    requires StagedOwn(revision, w) && dir in w.meta && Lossless(w.writes, dir)
    requires Replay(revision, w.writes, dir, initial) == Some(w.meta[dir])
    requires t in w.threads && w.threads[t].Staged? && (w.threads[t].job.dir == dir ==> w.threads[t].seen == w.meta[dir])
    requires var p := w.threads[t];
             && p.job.dir in w.staging && p.job.dir in w.meta
             && n.meta == w.meta[p.job.dir := w.staging[p.job.dir]]
             && n.writes == w.writes + [Write(t, p.job, p.seen, w.meta[p.job.dir], w.staging[p.job.dir], flushed)]
    ensures Lossless(n.writes, dir) && dir in n.meta && Replay(revision, n.writes, dir, initial) == Some(n.meta[dir])
  {
  }

  lemma StepKeepsSerial(revision: Text -> string, w: World, e: Event, dir: Dir, name: string, initial: Text)
    requires Inv(revision, w) && Serial(revision, w, dir, name, initial) && Keyed([e], dir, name)
    ensures Serial(revision, Next(revision, w, e), dir, name, initial)
  {
    hide LockName, Outcome, Act, Replay;
    assert [e][0] == e;
    if e.Advance? && e.thread in w.threads {
      var (n, q) := Act(revision, w, e.thread, e.luck);
      SeenStep(revision, w, e.thread, e.luck, n, q);
      WriteStep(revision, w, e.thread, e.luck, n, q);
      if n.writes != w.writes {
        WriteKeepsSerial(revision, w, n, e.thread, e.luck == Works, dir, initial);
        OnlyStaged(w, e.thread);
      }
    }
  }

  /** While a thread has a text staged, no other thread goes by a text under the same lock. */
  lemma OnlyStaged(w: World, t: Thread)
    requires Exclusive(w) && t in w.threads && w.threads[t].Staged?
    ensures forall u | u in w.threads && u != t && (w.threads[u].Read? || w.threads[u].Staged?) ::
              LockName(w.threads[u].job.key) != LockName(w.threads[t].job.key)
  {
  }

  lemma {:induction false} RunKeepsSerial(
    revision: Text -> string, start: World, events: seq<Event>, dir: Dir, name: string)
    requires Idle(start) && dir in start.meta && Keyed(events, dir, name)
    ensures Serial(revision, Run(revision, start, events), dir, name, start.meta[dir])
  {
    if events != [] {
      hide Next, Serial, Inv;
      var n := |events| - 1;
      RunKeepsSerial(revision, start, events[..n], dir, name);
      RunKeepsInv(revision, start, events[..n]);
      assert [events[n]][0] == events[n];
      StepKeepsSerial(revision, Run(revision, start, events[..n]), events[n], dir, name, start.meta[dir]);
    }
  }

  /**
    Writers that share a lock name never lose an update: however they interleave and whatever fails, each write replaced
    the very text its writer had read, a patch replaced a text of the expected revision, and the file holds what the
    logged plans give when they are applied one after another.
   */
  lemma {:induction false} NoLostUpdate(revision: Text -> string, start: World, events: seq<Event>, dir: Dir, name: string)
    requires Idle(start) && dir in start.meta && Keyed(events, dir, name)
    ensures var w := Run(revision, start, events);
            && dir in w.meta
            && Replay(revision, w.writes, dir, start.meta[dir]) == Some(w.meta[dir])
            && Lossless(w.writes, dir)
            && forall k :: 0 <= k < |w.writes| && w.writes[k].job.dir == dir && w.writes[k].job.plan.Patch? ==>
                 revision(w.writes[k].replaced) == w.writes[k].job.plan.expected
  {
    RunKeepsSerial(revision, start, events, dir, name);
    RunKeepsInv(revision, start, events);
  }

  // ---------- writers with different keys ----------

  /** The worlds a run goes through. */
  lemma {:induction false} RunThrough(revision: Text -> string, worlds: seq<World>, events: seq<Event>)
    requires |worlds| == |events| + 1
    requires forall k :: 0 <= k < |events| ==> worlds[k + 1] == Next(revision, worlds[k], events[k])
    ensures Run(revision, worlds[0], events) == worlds[|events|]
  {
    if events != [] {
      RunThrough(revision, worlds[..|events|], events[..|events| - 1]);
    }
  }

  /** An edit and a patch of the same file, in turn, step by step; the edit lands first. */
  function Race(a: Job, b: Job): (r: seq<Event>) {
    [Begin(0, a), Begin(1, b), Advance(0, Works), Advance(1, Works), Advance(0, Works), Advance(1, Works),
     Advance(0, Works), Advance(0, Works), Advance(1, Works), Advance(1, Works)]
  }

  function OneItem(dir: Dir, text: Text): (r: World) {
    World({}, map[dir := text], map[], map[], map[], [])
  }

  /** The worlds the race goes through. */
  ghost function RaceWorlds(x: Text, y: Text, z: Text, a: Job, b: Job): (r: seq<World>)
    ensures |r| == 11
  {
    var d, l, m := a.dir, LockName(a.key), LockName(b.key);
    var first := [Write(0, a, x, x, y, true)];
    var before, between, after := map[d := x], map[d := y], map[d := z];
    [ OneItem(d, x),
      World({}, before, map[], map[], map[0 := Trying(a)], []),
      World({}, before, map[], map[], map[0 := Trying(a), 1 := Trying(b)], []),
      World({l}, before, map[], map[], map[0 := Locked(a), 1 := Trying(b)], []),
      World({l, m}, before, map[], map[], map[0 := Locked(a), 1 := Locked(b)], []),
      World({l, m}, before, map[], map[], map[0 := Read(a, x), 1 := Locked(b)], []),
      World({l, m}, before, map[], map[], map[0 := Read(a, x), 1 := Read(b, x)], []),
      World({l, m}, before, map[d := y], map[], map[0 := Staged(a, x, y), 1 := Read(b, x)], []),
      World({l, m}, between, map[], map[], map[0 := Closing(a, Ok), 1 := Read(b, x)], first),
      World({l, m}, between, map[d := z], map[], map[0 := Closing(a, Ok), 1 := Staged(b, x, z)], first),
      World({l, m}, after, map[], map[], map[0 := Closing(a, Ok), 1 := Closing(b, Ok)],
            first + [Write(1, b, x, y, z, true)])]
  }

  ghost predicate Racing(revision: Text -> string, x: Text, y: Text, a: Job, b: Job) {
    && a.dir == b.dir && a.plan.Edit? && a.plan.edit(x) == Some(y) && y != x
    && b.plan.Patch? && b.plan.expected == revision(x)
  }

  lemma RaceStart(revision: Text -> string, x: Text, y: Text, a: Job, b: Job, k: nat)
    requires Racing(revision, x, y, a, b) && LockName(a.key) != LockName(b.key) && k < 5
    ensures var w := RaceWorlds(x, y, b.plan.candidate, a, b);
            w[k + 1] == Next(revision, w[k], Race(a, b)[k])
  {
    hide LockName;
  }

  lemma RaceEdit(revision: Text -> string, x: Text, y: Text, a: Job, b: Job, k: nat)
    requires Racing(revision, x, y, a, b) && 5 <= k < 8
    ensures var w := RaceWorlds(x, y, b.plan.candidate, a, b);
            w[k + 1] == Next(revision, w[k], Race(a, b)[k])
  {
    hide LockName;
  }

  lemma RacePatch(revision: Text -> string, x: Text, y: Text, a: Job, b: Job, k: nat)
    requires Racing(revision, x, y, a, b) && 8 <= k < 10
    ensures var w := RaceWorlds(x, y, b.plan.candidate, a, b);
            w[k + 1] == Next(revision, w[k], Race(a, b)[k])
  {
    hide LockName;
  }

  /** Under different lock names the patch replaces a text its caller never saw, and the edit is lost. */
  lemma RaceLosesEdit(revision: Text -> string, x: Text, y: Text, a: Job, b: Job)
    requires Racing(revision, x, y, a, b) && LockName(a.key) != LockName(b.key)
    ensures var w := Run(revision, OneItem(a.dir, x), Race(a, b));
            && w.threads == map[0 := Closing(a, Ok), 1 := Closing(b, Ok)]
            && w.writes == [Write(0, a, x, x, y, true), Write(1, b, x, y, b.plan.candidate, true)]
            && w.meta == map[a.dir := b.plan.candidate]
  {
    hide LockName, Next, Run;
    var worlds := RaceWorlds(x, y, b.plan.candidate, a, b);
    forall k | 0 <= k < 10
      ensures worlds[k + 1] == Next(revision, worlds[k], Race(a, b)[k])
    {
      if k < 5 {
        RaceStart(revision, x, y, a, b, k);
      } else if k < 8 {
        RaceEdit(revision, x, y, a, b, k);
      } else {
        RacePatch(revision, x, y, a, b, k);
      }
    }
    RunThrough(revision, worlds, Race(a, b));
  }

  ghost predicate OnlyJobs(events: seq<Event>, a: Job, b: Job) {
    forall k :: 0 <= k < |events| ==> !events[k].External? && (events[k].Begin? ==> events[k].job == a || events[k].job == b)
  }

  /** An edit and a patch of one file are safe together exactly when their keys share a lock name. */
  lemma SafeIffSameLock(revision: Text -> string, x: Text, y: Text, a: Job, b: Job)
    requires Racing(revision, x, y, a, b)
    ensures LockName(a.key) == LockName(b.key)
            <==>
            forall events | OnlyJobs(events, a, b) :: Lossless(Run(revision, OneItem(a.dir, x), events).writes, a.dir)
  {
    var start := OneItem(a.dir, x);
    if LockName(a.key) == LockName(b.key) {
      forall events | OnlyJobs(events, a, b)
        ensures Lossless(Run(revision, start, events).writes, a.dir)
      {
        NoLostUpdate(revision, start, events, a.dir, LockName(a.key));
      }
    } else {
      RaceLosesEdit(revision, x, y, a, b);
      assert OnlyJobs(Race(a, b), a, b);
      var w := Run(revision, start, Race(a, b));
      assert w.writes[1] == Write(1, b, x, y, b.plan.candidate, true);
      assert !Lossless(w.writes, a.dir);
    }
  }

  /** A directory key and the key of a generated item id never share a lock. */
  lemma ItemIdKeyDiffers(dirKey: string, id: string)
    requires "All/" <= dirKey && "lr:" <= id
    ensures LockName(dirKey) != LockName(id)
  {
    assert LockName(dirKey)[0] == Clean(dirKey)[0] == 'A';
    assert LockName(id)[0] == Clean(id)[0] == 'l';
  }

  // ---------- a flush that fails ----------

  /** A patch whose flush fails after the rename, and the same patch again. */
  function Retry(b: Job): (r: seq<Event>) {
    [Begin(0, b), Advance(0, Works), Advance(0, Works), Advance(0, Works), Advance(0, FailsLate), Advance(0, Works),
     Begin(1, b), Advance(1, Works), Advance(1, Works), Advance(1, Works), Advance(1, Works)]
  }

  /** The worlds the two patches go through. */
  ghost function RetryWorlds(x: Text, z: Text, b: Job): (r: seq<World>)
    ensures |r| == 12
  {
    var d, l := b.dir, LockName(b.key);
    var before, after, log, failed := map[d := x], map[d := z], [Write(0, b, x, x, z, false)], Done(b, Failure);
    [ OneItem(d, x),
      World({}, before, map[], map[], map[0 := Trying(b)], []),
      World({l}, before, map[], map[], map[0 := Locked(b)], []),
      World({l}, before, map[], map[], map[0 := Read(b, x)], []),
      World({l}, before, map[d := z], map[], map[0 := Staged(b, x, z)], []),
      World({l}, after, map[], map[], map[0 := Closing(b, Failure)], log),
      World({}, after, map[], map[], map[0 := failed], log),
      World({}, after, map[], map[], map[0 := failed, 1 := Trying(b)], log),
      World({l}, after, map[], map[], map[0 := failed, 1 := Locked(b)], log),
      World({l}, after, map[], map[], map[0 := failed, 1 := Read(b, z)], log),
      World({l}, after, map[], map[d := z], map[0 := failed, 1 := Closing(b, Conflict)], log),
      World({}, after, map[], map[d := z], map[0 := failed, 1 := Done(b, Conflict)], log)]
  }

  ghost predicate Retried(revision: Text -> string, x: Text, b: Job) {
    b.plan.Patch? && b.plan.expected == revision(x) && revision(b.plan.candidate) != revision(x)
  }

  lemma RetryStart(revision: Text -> string, x: Text, b: Job, k: nat)
    requires Retried(revision, x, b) && k < 3
    ensures var w := RetryWorlds(x, b.plan.candidate, b);
            w[k + 1] == Next(revision, w[k], Retry(b)[k])
  {
    hide LockName;
  }

  lemma RetryFirst(revision: Text -> string, x: Text, b: Job, k: nat)
    requires Retried(revision, x, b) && 3 <= k < 5
    ensures var w := RetryWorlds(x, b.plan.candidate, b);
            w[k + 1] == Next(revision, w[k], Retry(b)[k])
  {
    hide LockName;
  }

  lemma RetrySecond(revision: Text -> string, x: Text, b: Job, k: nat)
    requires Retried(revision, x, b) && 5 <= k < 8
    ensures var w := RetryWorlds(x, b.plan.candidate, b);
            w[k + 1] == Next(revision, w[k], Retry(b)[k])
  {
    hide LockName;
  }

  lemma RetryEnd(revision: Text -> string, x: Text, b: Job, k: nat)
    requires Retried(revision, x, b) && 8 <= k < 11
    ensures var w := RetryWorlds(x, b.plan.candidate, b);
            w[k + 1] == Next(revision, w[k], Retry(b)[k])
  {
    hide LockName;
  }

  /** A patch whose flush fails answers with a failure, and its retry with a conflict, although its text is in place. */
  lemma UnflushedPatchConflicts(revision: Text -> string, x: Text, b: Job)
    requires Retried(revision, x, b)
    ensures var w := Run(revision, OneItem(b.dir, x), Retry(b));
            && w.threads == map[0 := Done(b, Failure), 1 := Done(b, Conflict)]
            && w.meta == map[b.dir := b.plan.candidate] && w.locks == {} && w.staging == map[]
  {
    hide LockName, Next, Run;
    var worlds := RetryWorlds(x, b.plan.candidate, b);
    forall k | 0 <= k < 11
      ensures worlds[k + 1] == Next(revision, worlds[k], Retry(b)[k])
    {
      if k < 3 {
        RetryStart(revision, x, b, k);
      } else if k < 5 {
        RetryFirst(revision, x, b, k);
      } else if k < 8 {
        RetrySecond(revision, x, b, k);
      } else {
        RetryEnd(revision, x, b, k);
      }
    }
    RunThrough(revision, worlds, Retry(b));
  }

  // ---------- the patch command, among other threads ----------

  lemma RunSnoc(revision: Text -> string, w: World, events: seq<Event>, e: Event)
    ensures Run(revision, w, events + [e]) == Next(revision, Run(revision, w, events), e)
  {
  }

  class MetadataStore {
    var world: World
    ghost var trace: seq<Event>
    ghost const start: World
    const revision: Text -> string

    constructor (world: World, revision: Text -> string)
      requires Idle(world)
      ensures Valid() && trace == [] && start == world && this.revision == revision
    {
      this.world, this.revision := world, revision;
      trace, start := [], world;
    }

    /** The world is what the events so far made of it. */
    ghost predicate Valid()
      reads this
    {
      Idle(start) && world == Run(revision, start, trace)
    }

    /** Any number of steps of other threads, and of changes from outside. */
    method Others(t: Thread, events: seq<Event>)
      requires Valid()
      requires t in world.threads
      modifies this
      ensures Valid() && old(trace) <= trace
      ensures t in world.threads && world.threads[t] == old(world.threads[t])
    {
      for i := 0 to |events|
        invariant Valid() && old(trace) <= trace
        invariant t in world.threads && world.threads[t] == old(world.threads[t])
      {
        if events[i].External? || events[i].thread != t {
          RunSnoc(revision, start, trace, events[i]);
          world := Next(revision, world, events[i]);
          trace := trace + [events[i]];
        }
      }
    }

    /** Take the step that turns the world into `after`. */
    ghost method Took(t: Thread, luck: Luck, before: World)
      requires Idle(start) && before == Run(revision, start, trace)
      requires world == Next(revision, before, Advance(t, luck))
      modifies this`trace
      ensures Valid() && trace == old(trace) + [Advance(t, luck)]
    {
      RunSnoc(revision, start, trace, Advance(t, luck));
      trace := trace + [Advance(t, luck)];
    }

    /** Other threads, the log of writes and the daemon's own copies are as before. */
    ghost predicate Elsewhere(before: World, after: World, t: Thread) {
      && before.copies == after.copies && before.writes == after.writes
      && forall u :: u != t ==>
           (u in after.threads <==> u in before.threads) && (u in after.threads ==> after.threads[u] == before.threads[u])
    }

    /** Create the lock file for the key; it stays behind when writing to it fails. */
    method Acquire(t: Thread, job: Job) returns (got: bool, answer: Answer)
      requires Valid() && t in world.threads && world.threads[t] == Trying(job)
      modifies this
      ensures Valid() && old(trace) <= trace
      ensures t in world.threads
      ensures got ==> world.threads[t] == Locked(job)
      ensures !got ==> world.threads[t] == Done(job, answer)
      ensures !got ==> answer == if old(LockName(job.key) in world.locks) then Conflict else Failure
      ensures got ==> LockName(job.key) !in old(world).locks && world.locks == old(world).locks + {LockName(job.key)}
      ensures !got ==> world.locks == old(world).locks ||
                       (answer == Failure && world.locks == old(world).locks + {LockName(job.key)})
      ensures Elsewhere(old(world), world, t) && world.meta == old(world).meta && world.staging == old(world).staging
    {
      ghost var before := world;
      var name := LockFile(job.key);
      if name in world.locks {
        world := world.(threads := world.threads[t := Done(job, Conflict)]);
        Took(t, Works, before);
        return false, Conflict;
      }
      var created, written := *, *;
      if created {
        world := world.(locks := world.locks + {name});
      }
      got, answer := created && written, Failure;
      world := world.(threads := world.threads[t := if got then Locked(job) else Done(job, Failure)]);
      Took(t, if got then Works else if created then FailsLate else FailsEarly, before);
    }

    /** Remove the lock file; a failure to do so is ignored. */
    method Release(t: Thread, job: Job, answer: Answer)
      requires Valid() && t in world.threads && world.threads[t] == Closing(job, answer)
      modifies this
      ensures Valid() && old(trace) <= trace
      ensures t in world.threads && world.threads[t] == Done(job, answer)
      ensures world.locks == old(world).locks || world.locks == old(world).locks - {LockName(job.key)}
      ensures Elsewhere(old(world), world, t) && world.meta == old(world).meta && world.staging == old(world).staging
    {
      ghost var before := world;
      var name := LockFile(job.key);
      var removed := *;
      if removed {
        world := world.(locks := world.locks - {name});
      }
      world := world.(threads := world.threads[t := Done(job, answer)]);
      Took(t, if removed then Works else FailsEarly, before);
    }

    /** Read the current text under the lock. */
    method ReadText(t: Thread, job: Job) returns (text: Option<Text>)
      requires Valid() && t in world.threads && world.threads[t] == Locked(job)
      modifies this
      ensures Valid() && old(trace) <= trace
      ensures t in world.threads
      ensures world.threads[t] == if text.Some? then Read(job, text.value) else Closing(job, Failure)
      ensures text.Some? ==> job.dir in old(world).meta && text.value == old(world).meta[job.dir]
      ensures Elsewhere(old(world), world, t) && world.locks == old(world).locks
      ensures world.meta == old(world).meta && world.staging == old(world).staging
    {
      ghost var before := world;
      var ok := *;
      text := if ok && job.dir in world.meta then Some(world.meta[job.dir]) else None;
      world := world.(threads := world.threads[t := if text.Some? then Read(job, text.value) else Closing(job, Failure)]);
      Took(t, if ok then Works else FailsEarly, before);
    }

    /** Stage the candidate when the revision is the expected one; otherwise keep it beside the item. */
    method Compare(t: Thread, job: Job, seen: Text) returns (staged: bool, answer: Answer)
      requires Valid() && t in world.threads && world.threads[t] == Read(job, seen) && job.plan.Patch?
      modifies this
      ensures Valid() && old(trace) <= trace
      ensures t in world.threads
      ensures staged ==> world.threads[t] == Staged(job, seen, job.plan.candidate) && revision(seen) == job.plan.expected
      ensures !staged ==> world.threads[t] == Closing(job, answer) && answer != Ok
      ensures revision(seen) != job.plan.expected ==> world.meta == old(world.meta) && !staged
    {
      hide LockName;
      ghost var before := world;
      var created, ok := *, *;
      staged, answer := false, Failure;
      if revision(seen) != job.plan.expected {
        if created {
          world := world.(copies := world.copies[job.dir := job.plan.candidate]);
          answer := if ok then Conflict else Failure;
        }
        world := world.(threads := world.threads[t := Closing(job, answer)]);
        Took(t, if created then (if ok then Works else FailsLate) else FailsEarly, before);
        return;
      }
      created := created && job.dir !in world.staging;
      if created {
        world := world.(staging := world.staging[job.dir := job.plan.candidate]);
      }
      staged := created && ok;
      world := world.(threads :=
        world.threads[t := if staged then Staged(job, seen, job.plan.candidate) else Closing(job, Failure)]);
      Took(t, if staged then Works else if created then FailsLate else FailsEarly, before);
    }

    /** Rename the staged file over the metadata, then flush the directory, which can fail when the file is replaced. */
    method Rename(t: Thread, job: Job, seen: Text, text: Text) returns (answer: Answer)
      requires Valid() && t in world.threads && world.threads[t] == Staged(job, seen, text)
      modifies this
      ensures Valid() && old(trace) <= trace
      ensures t in world.threads && world.threads[t] == Closing(job, answer)
      ensures answer == Ok || answer == Failure
      ensures if world.writes == old(world).writes then
                answer == Failure && world.meta == old(world).meta && world.staging == old(world).staging
              else
                && job.dir in old(world).staging && job.dir in old(world).meta
                && world.meta == old(world).meta[job.dir := old(world).staging[job.dir]]
                && world.staging == old(world).staging - {job.dir}
                && world.writes == old(world).writes + [Write(t, job, seen, old(world).meta[job.dir],
                                                              old(world).staging[job.dir], answer == Ok)]
      ensures world.locks == old(world).locks && world.copies == old(world).copies
      ensures forall u :: u != t ==> (u in world.threads <==> u in old(world).threads)
      ensures forall u :: u != t && u in world.threads ==> world.threads[u] == old(world).threads[u]
    {
      hide LockName;
      ghost var before := world;
      var renamed, flushed := *, *;
      answer := Failure;
      if renamed && job.dir in world.staging && job.dir in world.meta {
        var content := world.staging[job.dir];
        world := world.(
          writes := world.writes + [Write(t, job, seen, world.meta[job.dir], content, flushed)],
          meta := world.meta[job.dir := content],
          staging := world.staging - {job.dir});
        answer := if flushed then Ok else Failure;
      }
      world := world.(threads := world.threads[t := Closing(job, answer)]);
      Took(t, if renamed then (if flushed then Works else FailsLate) else FailsEarly, before);
    }

    /** Between acquiring the lock and dropping it, with steps of other threads after each of its own. */
    method UnderLock(t: Thread, job: Job, others: nat -> seq<Event>) returns (answer: Answer)
      requires Valid() && t in world.threads && world.threads[t] == Locked(job) && job.plan.Patch?
      modifies this
      ensures Valid() && old(trace) <= trace
      ensures t in world.threads && world.threads[t] == Closing(job, answer)
    {
      hide Run, LockName;
      var current := ReadText(t, job);
      Others(t, others(0));
      if current.None? {
        return Failure;
      }
      var staged;
      staged, answer := Compare(t, job, current.value);
      Others(t, others(1));
      if staged {
        answer := Rename(t, job, current.value, job.plan.candidate);
        Others(t, others(2));
      }
    }

    /**
      Write metadata only if the current revision is the expected one. Whatever the other threads do meanwhile, the
      answer is Ok exactly when this thread put its candidate in the place of the file after reading the expected
      revision and flushed the directory; if only the flush failed the answer is Failure. As long as all writers of the
      directory use its key and nothing outside touches it, the text it replaced is the one it had read.
     */
    method WriteMetadataIfRevision(
      t: Thread, dir: Dir, candidate: Text, expected: string, others: nat -> nat -> seq<Event>)
      returns (answer: Answer)
      requires Valid() && t !in world.threads
      modifies this
      ensures Valid() && old(trace) <= trace
      ensures t in world.threads && world.threads[t] == Done(Job(dir, dir, Patch(expected, candidate)), answer)
      ensures answer == Ok <==> Patched(revision, world.writes, t, candidate, expected) && Flushed(world.writes, t)
      ensures Patched(revision, world.writes, t, candidate, expected) && !Flushed(world.writes, t) ==> answer == Failure
      ensures dir in start.meta && Keyed(trace, dir, LockName(dir)) ==> Lossless(world.writes, dir)
    {
      hide Run, LockName;
      var job := Job(dir, dir, Patch(expected, candidate));
      RunSnoc(revision, start, trace, Begin(t, job));
      world := world.(threads := world.threads[t := Trying(job)]);
      trace := trace + [Begin(t, job)];
      Others(t, others(0)(0));
      var got;
      got, answer := Acquire(t, job);
      Others(t, others(0)(1));
      if got {
        answer := UnderLock(t, job, others(1));
        Release(t, job, answer);
        Others(t, others(0)(2));
      }
      PatchAnswers(revision, start, trace, t);
      if dir in start.meta && Keyed(trace, dir, LockName(dir)) {
        NoLostUpdate(revision, start, trace, dir, LockName(dir));
      }
    }
  }
}
