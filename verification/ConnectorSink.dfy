/** The connector sink: buffered save sessions, their imports, and attachments that arrive before or after them. */
module ConnectorSinks {
  import opened Collections

  type SessionId = Option<string>

  /** One uploaded attachment; `serial` tells two uploads apart even when their contents are equal. */
  datatype Attachment = Attachment(serial: nat, sessionId: SessionId, parent: Option<string>)

  /** One normalized connector item. */
  type Item = string

  /** The library directory an import wrote to. */
  type ItemDir = nat

  datatype Session = Session(
    sessionId: SessionId, items: seq<Item>, attachments: seq<Attachment>, outcome: Option<ItemDir>)

  /** An attachment together with the item it was written to. */
  datatype Delivery = Delivery(attachment: Attachment, itemDir: ItemDir)

  const NO_ATTACHMENT := Attachment(0, None, None)

  const MAX_COMPLETED: nat := 16

  // ---------- the retained window, declaratively ----------

  function Completed(sessions: seq<Session>): (n: nat)
    ensures n <= |sessions|
  {
    if sessions == [] then 0
    else (if sessions[0].outcome.Some? then 1 else 0) + Completed(sessions[1..])
  }

  /** All pending sessions and the last `keep` completed ones, in order. */
  function Window(sessions: seq<Session>, keep: nat): (r: seq<Session>) {
    if sessions == [] then []
    else if sessions[0].outcome.Some? && Completed(sessions) > keep then Window(sessions[1..], keep)
    else [sessions[0]] + Window(sessions[1..], keep)
  }

  lemma {:induction false} CompletedAppend(a: seq<Session>, b: seq<Session>)
    ensures Completed(a + b) == Completed(a) + Completed(b)
  {
    if a == [] {
      assert a + b == b;
    } else {
      assert (a + b)[1..] == a[1..] + b;
      CompletedAppend(a[1..], b);
    }
  }

  /** The completed sessions in order. */
  function Done(sessions: seq<Session>): (r: seq<Session>)
    ensures |r| == Completed(sessions)
  {
    if sessions == [] then []
    else (if sessions[0].outcome.Some? then [sessions[0]] else []) + Done(sessions[1..])
  }

  lemma {:induction false} WindowSmall(sessions: seq<Session>, keep: nat)
    requires Completed(sessions) <= keep
    ensures Window(sessions, keep) == sessions
  {
    if sessions != [] {
      WindowSmall(sessions[1..], keep);
    }
  }

  lemma DoneCons(s: Session, rest: seq<Session>)
    ensures Done([s] + rest) == (if s.outcome.Some? then [s] + Done(rest) else Done(rest))
    ensures Completed([s] + rest) == Completed(rest) + if s.outcome.Some? then 1 else 0
  {
  }

  lemma WindowCons(s: Session, rest: seq<Session>, keep: nat)
    ensures Window([s] + rest, keep) ==
            if s.outcome.Some? && Completed([s] + rest) > keep then Window(rest, keep) else [s] + Window(rest, keep)
  {
  }

  /** The last `keep` elements. */
  function Last(done: seq<Session>, keep: nat): (r: seq<Session>)
    ensures |r| <= keep
  {
    if |done| <= keep then done else done[|done| - keep..]
  }

  lemma LastCons(s: Session, done: seq<Session>, keep: nat)
    ensures Last([s] + done, keep) == if |done| >= keep then Last(done, keep) else [s] + Last(done, keep)
  {
  }

  /** How many completed sessions are too many. */
  function Excess(sessions: seq<Session>, keep: nat): (n: nat) {
    if Completed(sessions) > keep then Completed(sessions) - keep else 0
  }

  /** One session of the table, seen from the front. */
  lemma PruneStep(sessions: seq<Session>, i: nat, keep: nat)
    requires i < |sessions|
    ensures var s, here, next := sessions[i], sessions[i..], sessions[i + 1..];
            if Excess(here, keep) > 0 && s.outcome.Some?
            then Window(here, keep) == Window(next, keep) && Excess(next, keep) == Excess(here, keep) - 1
            else Window(here, keep) == [s] + Window(next, keep) && Excess(next, keep) == Excess(here, keep)
  {
    hide Window, Completed;
    assert sessions[i..] == [sessions[i]] + sessions[i + 1..];
    DoneCons(sessions[i], sessions[i + 1..]);
    WindowCons(sessions[i], sessions[i + 1..], keep);
  }

  lemma WindowNone(keep: nat)
    ensures Window([], keep) == []
  {
  }

  lemma {:induction false} WindowDone(sessions: seq<Session>, keep: nat)
    ensures Done(Window(sessions, keep)) == Last(Done(sessions), keep)
  {
    if sessions != [] {
      hide Done, Window, Completed, Last;
      var first, rest := sessions[0], sessions[1..];
      assert sessions == [first] + rest;
      WindowDone(rest, keep);
      DoneCons(first, rest);
      DoneCons(first, Window(rest, keep));
      WindowCons(first, rest, keep);
      LastCons(first, Done(rest), keep);
    }
  }

  /** Pruning keeps session `i`: it is pending, or fewer than `keep` completed ones come after it. */
  ghost predicate Stays(sessions: seq<Session>, i: nat, keep: nat)
    requires i < |sessions|
  {
    sessions[i].outcome.None? || |set j | i < j < |sessions| && sessions[j].outcome.Some?| < keep
  }

  lemma {:induction false} CompletedAfter(sessions: seq<Session>, i: nat)
    requires i <= |sessions|
    ensures Completed(sessions[i..]) == |set j | i <= j < |sessions| && sessions[j].outcome.Some?|
    decreases |sessions| - i
  {
    hide Completed;
    NoneCompleted();
    if i < |sessions| {
      CompletedAfter(sessions, i + 1);
      assert sessions[i..] == [sessions[i]] + sessions[i + 1..];
      DoneCons(sessions[i], sessions[i + 1..]);
      OneMoreAfter(sessions, i);
    } else {
      assert sessions[i..] == [];
    }
  }

  lemma NoneCompleted()
    ensures Completed([]) == 0
  {
  }

  lemma OneMoreAfter(sessions: seq<Session>, i: nat)
    requires i < |sessions|
    ensures |set j | i <= j < |sessions| && sessions[j].outcome.Some?|
         == |set j | i + 1 <= j < |sessions| && sessions[j].outcome.Some?| + if sessions[i].outcome.Some? then 1 else 0
  {
    var here := set j | i <= j < |sessions| && sessions[j].outcome.Some?;
    var next := set j | i + 1 <= j < |sessions| && sessions[j].outcome.Some?;
    assert here == if sessions[i].outcome.Some? then next + {i} else next;
  }

  /** The window of the table from `i` on, session by session: `f` lists the positions that stay. */
  lemma {:induction false} WindowPositions(sessions: seq<Session>, i: nat, keep: nat) returns (f: seq<nat>)
    requires i <= |sessions|
    ensures |f| == |Window(sessions[i..], keep)|
    ensures forall k :: 0 <= k < |f| ==> i <= f[k] < |sessions| && Window(sessions[i..], keep)[k] == sessions[f[k]]
    ensures forall k, l :: 0 <= k < l < |f| ==> f[k] < f[l]
    ensures forall p :: i <= p < |sessions| ==> (p in f <==> Stays(sessions, p, keep))
    decreases |sessions| - i
  {
    if i == |sessions| {
      WindowNone(keep);
      return [];
    }
    hide Window, Stays;
    f := WindowPositions(sessions, i + 1, keep);
    WindowAt(sessions, i, keep);
    if Stays(sessions, i, keep) {
      f := [i] + f;
    }
  }

  lemma WindowAt(sessions: seq<Session>, i: nat, keep: nat)
    requires i < |sessions|
    ensures Window(sessions[i..], keep) ==
            if Stays(sessions, i, keep) then [sessions[i]] + Window(sessions[i + 1..], keep)
            else Window(sessions[i + 1..], keep)
  {
    hide Completed, Window;
    assert sessions[i..] == [sessions[i]] + sessions[i + 1..];
    WindowCons(sessions[i], sessions[i + 1..], keep);
    DoneCons(sessions[i], sessions[i + 1..]);
    CompletedAfter(sessions, i + 1);
    assert (set j | i + 1 <= j < |sessions| && sessions[j].outcome.Some?)
        == (set j | i < j < |sessions| && sessions[j].outcome.Some?);
  }

  /**
    The window keeps exactly the pending sessions and the last `keep` completed ones, in order, and never more than
    `keep` completed ones; with no more than that it is the whole table.
   */
  lemma {:induction false} WindowKeeps(sessions: seq<Session>, keep: nat)
    ensures var w := Window(sessions, keep);
      && (exists f: seq<nat> ::
            && |f| == |w| && (forall k, l :: 0 <= k < l < |f| ==> f[k] < f[l])
            && (forall k :: 0 <= k < |f| ==> f[k] < |sessions| && w[k] == sessions[f[k]])
            && forall p :: 0 <= p < |sessions| ==> (p in f <==> Stays(sessions, p, keep)))
      && Completed(w) <= keep
      && (Completed(sessions) <= keep ==> w == sessions)
  {
    var f := WindowPositions(sessions, 0, keep);
    assert sessions[0..] == sessions;
    WindowDone(sessions, keep);
    if Completed(sessions) <= keep { WindowSmall(sessions, keep); }
    assert Completed(Window(sessions, keep)) == |Done(Window(sessions, keep))|;
  }

  // ---------- conservation of attachments ----------

  /** The attachments waiting in sessions that were not imported yet. */
  function Waiting(sessions: seq<Session>): (r: multiset<Attachment>) {
    if sessions == [] then multiset{}
    else (if sessions[0].outcome.None? then multiset(sessions[0].attachments) else multiset{}) + Waiting(sessions[1..])
  }

  function Delivered(deliveries: seq<Delivery>): (r: multiset<Attachment>) {
    if deliveries == [] then multiset{}
    else Delivered(deliveries[..|deliveries| - 1]) + multiset{deliveries[|deliveries| - 1].attachment}
  }

  function Deliveries(attachments: seq<Attachment>, dir: ItemDir): (r: seq<Delivery>)
    ensures |r| == |attachments|
    ensures forall i :: 0 <= i < |r| ==> r[i] == Delivery(attachments[i], dir)
  {
    seq(|attachments|, i requires 0 <= i < |attachments| => Delivery(attachments[i], dir))
  }

  lemma {:induction false} DeliveredAll(attachments: seq<Attachment>, dir: ItemDir)
    ensures Delivered(Deliveries(attachments, dir)) == multiset(attachments)
  {
    if attachments != [] {
      var n := |attachments| - 1;
      DeliveredAll(attachments[..n], dir);
      assert Deliveries(attachments, dir)[..n] == Deliveries(attachments[..n], dir);
      assert attachments == attachments[..n] + [attachments[n]];
    }
  }

  lemma {:induction false} DeliveredAppend(a: seq<Delivery>, b: seq<Delivery>)
    ensures Delivered(a + b) == Delivered(a) + Delivered(b)
  {
    if b == [] {
      assert a + b == a;
    } else {
      var n := |b| - 1;
      assert (a + b)[..|a + b| - 1] == a + b[..n];
      DeliveredAppend(a, b[..n]);
    }
  }

  /** Importing a batch of attachments delivers each of them once more. */
  lemma DeliverAll(deliveries: seq<Delivery>, attachments: seq<Attachment>, dir: ItemDir)
    ensures Delivered(deliveries + Deliveries(attachments, dir)) == Delivered(deliveries) + multiset(attachments)
  {
    DeliveredAppend(deliveries, Deliveries(attachments, dir));
    DeliveredAll(attachments, dir);
  }

  lemma {:induction false} WaitingAppend(a: seq<Session>, b: seq<Session>)
    ensures Waiting(a + b) == Waiting(a) + Waiting(b)
  {
    if a == [] {
      assert a + b == b;
    } else {
      assert (a + b)[1..] == a[1..] + b;
      WaitingAppend(a[1..], b);
    }
  }

  /** Replacing one session changes only its own share of what waits. */
  lemma WaitingUpdate(sessions: seq<Session>, i: nat, s: Session) returns (rest: multiset<Attachment>)
    requires i < |sessions|
    ensures Waiting(sessions) == rest + Waiting([sessions[i]])
    ensures Waiting(sessions[i := s]) == rest + Waiting([s])
  {
    hide Waiting;
    var a, b := sessions[..i], sessions[i + 1..];
    rest := Waiting(a) + Waiting(b);
    assert sessions == a + ([sessions[i]] + b) && sessions[i := s] == a + ([s] + b);
    WaitingAppend(a, [sessions[i]] + b);
    WaitingAppend(a, [s] + b);
    WaitingAppend([sessions[i]], b);
    WaitingAppend([s], b);
  }

  lemma WaitingOne(s: Session)
    ensures Waiting([s]) == if s.outcome.None? then multiset(s.attachments) else multiset{}
  {
  }

  /** Renewing the items of a session, importing it, or giving it one more attachment. */
  lemma WaitingChanges(sessions: seq<Session>, i: nat, s: Session, items: seq<Item>, dir: ItemDir, more: Attachment)
    requires i < |sessions| && s == sessions[i]
    ensures Waiting(sessions[i := s.(items := items)]) == Waiting(sessions)
    ensures s.outcome.None? ==>
              Waiting(sessions) == Waiting(sessions[i := s.(outcome := Some(dir))]) + multiset(s.attachments)
    ensures s.outcome.None? ==>
              Waiting(sessions[i := s.(attachments := s.attachments + [more])]) == Waiting(sessions) + multiset{more}
  {
    var imported, fuller := s.(outcome := Some(dir)), s.(attachments := s.attachments + [more]);
    var r1 := WaitingUpdate(sessions, i, s.(items := items));
    var r2 := WaitingUpdate(sessions, i, imported);
    var r3 := WaitingUpdate(sessions, i, fuller);
    WaitingOne(s);
    WaitingOne(s.(items := items));
    WaitingOne(imported);
    WaitingOne(fuller);
  }

  lemma {:induction false} WindowKeepsWaiting(sessions: seq<Session>, keep: nat)
    ensures Waiting(Window(sessions, keep)) == Waiting(sessions)
  {
    if sessions != [] {
      WindowKeepsWaiting(sessions[1..], keep);
      var w := Window(sessions[1..], keep);
      assert ([sessions[0]] + w)[1..] == w;
    }
  }

  /** Items the library imported, each with the directory made for it. */
  type Imports = set<(Item, ItemDir)>

  ghost predicate AllWritten(sessions: seq<Session>, deliveries: seq<Delivery>, imports: Imports) {
    forall s :: s in sessions ==> Written(s, deliveries, imports)
  }

  /** A completed session has its first item and everything it had buffered in one library item. */
  ghost predicate Written(s: Session, deliveries: seq<Delivery>, imports: Imports) {
    s.outcome.Some? ==>
      && s.items != [] && (s.items[0], s.outcome.value) in imports
      && forall a :: a in s.attachments ==> Delivery(a, s.outcome.value) in deliveries
  }

  lemma WrittenGrows(sessions: seq<Session>, before: seq<Delivery>, after: seq<Delivery>, old': Imports, new': Imports)
    requires AllWritten(sessions, before, old') && before <= after && old' <= new'
    ensures AllWritten(sessions, after, new')
  {
  }

  lemma WrittenUpdate(sessions: seq<Session>, i: nat, s: Session, deliveries: seq<Delivery>, imports: Imports)
    requires i < |sessions| && AllWritten(sessions, deliveries, imports) && Written(s, deliveries, imports)
    ensures AllWritten(sessions[i := s], deliveries, imports)
  {
  }

  lemma WrittenAt(sessions: seq<Session>, i: nat, deliveries: seq<Delivery>, imports: Imports)
    requires AllWritten(sessions, deliveries, imports) && i < |sessions|
    ensures Written(sessions[i], deliveries, imports)
  {
  }

  lemma WrittenSnoc(sessions: seq<Session>, s: Session, deliveries: seq<Delivery>, imports: Imports)
    requires AllWritten(sessions, deliveries, imports) && s.outcome.None?
    ensures AllWritten(sessions + [s], deliveries, imports)
  {
  }

  lemma WrittenByImport(s: Session, dir: ItemDir, before: seq<Delivery>, imports: Imports)
    requires s.items != [] && (s.items[0], dir) in imports
    ensures Written(s.(outcome := Some(dir)), before + Deliveries(s.attachments, dir), imports)
  {
  }

  /** Which session an attachment goes to: the first with its id, else the youngest when it may fall back to it. */
  function Route(sessions: seq<Session>, a: Attachment): (r: Option<nat>)
    ensures r.Some? ==> r.value < |sessions|
    ensures r.Some? ==>
              if exists s :: s in sessions && s.sessionId == a.sessionId
              then sessions[r.value].sessionId == a.sessionId
                   && forall j :: 0 <= j < r.value ==> sessions[j].sessionId != a.sessionId
              else (a.sessionId == None || a.parent != None) && r.value == |sessions| - 1
    ensures r.None? ==> (forall s :: s in sessions ==> s.sessionId != a.sessionId)
                         && ((a.sessionId != None && a.parent == None) || sessions == [])
  {
    match FirstWithId(sessions, a.sessionId)
    case Some(i) => Some(i)
    case None => if MayFallBack(a) && |sessions| > 0 then Some(|sessions| - 1) else None
  }

  /** An upload without a session id, or one that belongs to a parent item, may go to the youngest session. */
  predicate MayFallBack(a: Attachment) {
    a.sessionId.None? || a.parent.Some?
  }

  function FirstWithId(sessions: seq<Session>, id: SessionId): (r: Option<nat>)
    ensures r.Some? ==> r.value < |sessions| && sessions[r.value].sessionId == id
                        && forall j :: 0 <= j < r.value ==> sessions[j].sessionId != id
    ensures r.None? ==> forall s :: s in sessions ==> s.sessionId != id
  {
    if sessions == [] then None
    else if sessions[0].sessionId == id then Some(0)
    else match FirstWithId(sessions[1..], id) case None => None case Some(i) => Some(i + 1)
  }

  class DaemonSink {
    var sessions: seq<Session>
    /** Attachments written into the library, each with its item. */
    ghost var deliveries: seq<Delivery>
    /** Attachments the sink took responsibility for. */
    ghost var taken: multiset<Attachment>
    ghost var imports: Imports
    /** The next directory an import creates. */
    var nextDir: ItemDir

    /**
      Every attachment taken in waits in one pending session or was delivered to one item, and never both; and what an
      imported session had buffered went to the item of that session.
     */
    ghost predicate Conserved()
      reads this
    {
      && taken == Waiting(sessions) + Delivered(deliveries)
      && AllWritten(sessions, deliveries, imports)
    }

    constructor ()
      ensures sessions == [] && Conserved() && taken == multiset{} && deliveries == []
    {
      sessions, deliveries, taken, imports, nextDir := [], [], multiset{}, {}, 0;
    }

    /** One import into the library; it writes the item with all its attachments or fails without writing. */
    method ImportConnectorItem(item: Item, attachments: seq<Attachment>) returns (dir: Option<ItemDir>)
      modifies this`nextDir, this`deliveries, this`imports
      ensures dir.None? ==> deliveries == old(deliveries) && imports == old(imports) && nextDir == old(nextDir)
      ensures dir.Some? ==> deliveries == old(deliveries) + Deliveries(attachments, dir.value)
      ensures dir.Some? ==> imports == old(imports) + {(item, dir.value)}
      ensures dir.Some? ==> dir.value == old(nextDir) < nextDir
    {
      var ok := *;
      if !ok {
        return None;
      }
      dir := Some(nextDir);
      deliveries := deliveries + Deliveries(attachments, nextDir);
      imports := imports + {(item, nextDir)};
      nextDir := nextDir + 1;
    }

    /** Write a late attachment into an item that was imported before. */
    method SaveToItem(dir: ItemDir, attachment: Attachment) returns (ok: bool)
      modifies this`deliveries
      ensures deliveries == if ok then old(deliveries) + [Delivery(attachment, dir)] else old(deliveries)
    {
      ok := *;
      if ok {
        deliveries := deliveries + [Delivery(attachment, dir)];
      }
    }

    /** Import one pending session with everything it buffered, under its first item. */
    method ImportSession(i: nat) returns (ok: bool)
      requires Conserved() && i < |sessions| && sessions[i].outcome.None? && sessions[i].items != []
      modifies this`sessions, this`nextDir, this`deliveries, this`imports
      ensures Conserved() && |sessions| == |old(sessions)|
      ensures old(deliveries) <= deliveries && nextDir >= old(nextDir)
      ensures !ok ==> sessions == old(sessions)
      ensures ok ==> sessions == old(sessions)[i := sessions[i]] && Imported(old(sessions)[i], sessions[i], old(nextDir))
      ensures ok ==> sessions[i].outcome.Some? && imports == old(imports) + {(sessions[i].items[0], sessions[i].outcome.value)}
      ensures !ok ==> imports == old(imports)
    {
      hide Waiting, Delivered, Deliveries, AllWritten, Written;
      ghost var before, was := deliveries, imports;
      var session := sessions[i];
      var dir := ImportConnectorItem(session.items[0], session.attachments);
      ok := dir.Some?;
      if ok {
        DeliverAll(before, session.attachments, dir.value);
        WaitingChanges(sessions, i, session, [], dir.value, NO_ATTACHMENT);
        WrittenGrows(sessions, before, deliveries, was, imports);
        WrittenByImport(session, dir.value, before, imports);
        WrittenUpdate(sessions, i, session.(outcome := dir), deliveries, imports);
        sessions := sessions[i := session.(outcome := dir)];
      }
    }

    /** Try to import every pending session that has metadata; stop at the first failure. */
    method TryImport() returns (ok: bool)
      requires Conserved()
      modifies this`sessions, this`nextDir, this`deliveries, this`imports
      ensures Conserved()
      ensures |sessions| == |old(sessions)| && old(deliveries) <= deliveries
      ensures AllImported(old(sessions), sessions, old(nextDir))
      ensures OnlyFromSessions(old(imports), imports, sessions)
      ensures ok ==> forall s :: s in sessions && s.outcome.None? ==> s.items == []
    {
      hide Waiting, Delivered, Deliveries, AllWritten;
      for i := 0 to |sessions|
        invariant Conserved() && |sessions| == |old(sessions)| && old(deliveries) <= deliveries
        invariant nextDir >= old(nextDir)
        invariant forall j :: 0 <= j < i ==> Imported(old(sessions)[j], sessions[j], old(nextDir))
        invariant forall j :: i <= j < |sessions| ==> sessions[j] == old(sessions)[j]
        invariant forall j :: 0 <= j < i && sessions[j].outcome.None? ==> sessions[j].items == []
        invariant OnlyFromSessions(old(imports), imports, sessions)
      {
        if sessions[i].outcome.Some? || sessions[i].items == [] {
          continue;
        }
        ghost var was, before := imports, sessions;
        ok := ImportSession(i);
        if !ok {
          return;
        }
        OneMoreImport(old(imports), was, imports, before, i, sessions[i]);
      }
      ok := true;
    }

    /** Drop the oldest completed sessions beyond the window, keeping the order of the rest. */
    method PruneCompleted()
      modifies this`sessions
      ensures sessions == Window(old(sessions), 16)
    {
      var completed := Completed(sessions);
      if completed <= MAX_COMPLETED { WindowSmall(sessions, MAX_COMPLETED); }
      if completed < MAX_COMPLETED {
        return;
      }
      var toDrop := completed - MAX_COMPLETED;
      if toDrop == 0 {
        return;
      }
      WindowNone(MAX_COMPLETED);
      assert sessions[0..] == sessions && sessions[|sessions|..] == [];
      hide Window, Excess;
      var kept := [];
      for i := 0 to |sessions|
        invariant sessions == old(sessions)
        invariant toDrop == Excess(sessions[i..], MAX_COMPLETED)
        invariant kept + Window(sessions[i..], MAX_COMPLETED) == Window(sessions, MAX_COMPLETED)
      {
        PruneStep(sessions, i, MAX_COMPLETED);
        if toDrop > 0 && sessions[i].outcome.Some? {
          toDrop := toDrop - 1;
        } else {
          kept := kept + [sessions[i]];
        }
      }
      sessions := kept;
    }

    /** The position of the first pending session with this id. */
    method FindPending(id: SessionId) returns (r: Option<nat>)
      ensures r.Some? ==>
                && r.value < |sessions| && sessions[r.value].sessionId == id && sessions[r.value].outcome == None
                && forall j :: 0 <= j < r.value ==> sessions[j].sessionId != id || sessions[j].outcome != None
      ensures r.None? ==> forall s :: s in sessions ==> s.sessionId != id || s.outcome != None
    {
      for i := 0 to |sessions|
        invariant forall j :: 0 <= j < i ==> !Matches(sessions[j], id)
      {
        if Matches(sessions[i], id) {
          return Some(i);
        }
      }
      r := None;
    }

    /**
      Take in the metadata of a save, import whatever is ready, and prune. `full` is the table before pruning: the old
      one with the session renewed or added, in which sessions were imported in place. On success the table is its
      window, and the save was imported: its first item into a new directory, together with everything the pending
      session of that id had buffered.
     */
    method AcceptImport(id: SessionId, items: seq<Item>) returns (ok: bool, ghost full: seq<Session>)
      requires Conserved()
      modifies this`sessions, this`nextDir, this`deliveries, this`imports
      ensures Conserved()
      ensures old(deliveries) <= deliveries && taken == old(taken)
      ensures AllImported(Renewed(old(sessions), id, items), full, old(nextDir))
      ensures OnlyFromSessions(old(imports), imports, full)
      ensures sessions == if ok then Window(full, 16) else full
      ensures ok ==> Completed(sessions) <= 16
      ensures ok ==> forall s :: s in sessions && s.outcome.None? ==> s.items == []
      ensures ok && items != [] ==>
                exists dir :: dir >= old(nextDir) && (items[0], dir) in imports && BufferWritten(old(sessions), id, dir)
    {
      hide Waiting, Delivered, Deliveries, Window, AllWritten, Renewed, OnlyFromSessions, Completed, AllImported;
      var position := FindPending(id);
      FirstPendingIs(sessions, id, position);
      ghost var at := if position.Some? then position.value else |sessions|;
      if position.Some? {
        var renewed := sessions[position.value].(items := items);
        WaitingChanges(sessions, position.value, sessions[position.value], items, 0, NO_ATTACHMENT);
        WrittenUpdate(sessions, position.value, renewed, deliveries, imports);
        sessions := sessions[position.value := renewed];
      } else {
        var session := Session(id, items, [], None);
        WaitingAppend(sessions, [session]);
        WaitingOne(session);
        WrittenSnoc(sessions, session, deliveries, imports);
        sessions := sessions + [session];
      }
      ghost var table := sessions;
      ok := TryImport();
      full := sessions;
      if ok {
        ImportedAt(table, full, old(nextDir), at);
        WrittenAt(sessions, at, deliveries, imports);
        PruneAll();
      }
    }

    /** What the first pending session of this id had buffered went to `dir`. */
    ghost predicate BufferWritten(before: seq<Session>, id: SessionId, dir: ItemDir)
      reads this`deliveries
    {
      forall p, a :: FirstPending(before, id, p) && a in before[p].attachments ==> Delivery(a, dir) in deliveries
    }

    /** Pruning never touches what still waits. */
    method PruneAll()
      requires Conserved()
      modifies this`sessions
      ensures Conserved() && sessions == Window(old(sessions), 16)
      ensures Completed(sessions) <= 16
      ensures forall s :: s in sessions ==> s in old(sessions)
    {
      hide Waiting, Delivered, Deliveries, Window;
      WindowKeepsWaiting(sessions, MAX_COMPLETED);
      WindowKeeps(sessions, MAX_COMPLETED);
      WindowMembers(sessions, MAX_COMPLETED);
      PruneCompleted();
    }

    /**
      Take in one attachment: into a pending session, into the item of a completed one, as an item of its own, or into
      a session of its own. `kept` says whether the sink took responsibility for it; after an error it did so exactly
      when the attachment went into a pending session whose import then failed. `item` is the top-level item made from
      the attachment's title or file name when it stands alone.
     */
    method AcceptAttachment(attachment: Attachment, item: Item)
      returns (ok: bool, ghost kept: bool, ghost full: seq<Session>)
      requires Conserved()
      modifies this`sessions, this`nextDir, this`deliveries, this`imports, this`taken
      ensures Conserved()
      ensures taken == if kept then old(taken) + multiset{attachment} else old(taken)
      ensures ok ==> kept
      ensures old(deliveries) <= deliveries
      ensures !ok && !kept ==> sessions == old(sessions) && deliveries == old(deliveries) && imports == old(imports)
      ensures match Route(old(sessions), attachment)
        case Some(i) =>
          if old(sessions)[i].outcome.Some? then
            && full == old(sessions) && imports == old(imports)
            && (ok ==> deliveries == old(deliveries) + [Delivery(attachment, old(sessions)[i].outcome.value)])
            && sessions == if ok then Window(full, 16) else full
          else
            && kept && AllImported(
                 old(sessions)[i := old(sessions)[i].(attachments := old(sessions)[i].attachments + [attachment])], full,
                 old(nextDir))
            && OnlyFromSessions(old(imports), imports, full)
            && sessions == if ok then Window(full, 16) else full
        case None =>
          if attachment.parent.None? then
            && sessions == old(sessions)
            && (ok ==> exists dir :: dir >= old(nextDir) && imports == old(imports) + {(item, dir)}
                         && deliveries == old(deliveries) + [Delivery(attachment, dir)])
          else
            && ok && sessions == old(sessions) + [Session(attachment.sessionId, [], [attachment], None)]
            && deliveries == old(deliveries) && imports == old(imports)
    {
      hide Waiting, Delivered, Deliveries, Window, AllWritten, Route, AllImported, OnlyFromSessions, Completed, Imported;
      var position := Route(sessions, attachment);
      full := sessions;
      if position.None? {
        if attachment.parent.None? {
          ok := TakeStandalone(attachment, item);
          kept := ok;
        } else {
          TakeOrphan(attachment);
          ok, kept := true, true;
        }
        return;
      }
      if sessions[position.value].outcome.Some? {
        ok := TakeLate(position.value, attachment);
        kept := ok;
      } else {
        TakeBuffered(position.value, attachment);
        kept := true;
        ok := TryImport();
        full := sessions;
      }
      if ok {
        PruneAll();
      }
    }

    /** An attachment that belongs to no session becomes an item of its own. */
    method TakeStandalone(attachment: Attachment, item: Item) returns (ok: bool)
      requires Conserved()
      modifies this`nextDir, this`deliveries, this`imports, this`taken
      ensures Conserved()
      ensures !ok ==> deliveries == old(deliveries) && imports == old(imports) && taken == old(taken)
      ensures ok ==> taken == old(taken) + multiset{attachment}
      ensures ok ==> exists dir ::
                (dir >= old(nextDir) && imports == old(imports) + {(item, dir)}
                 && deliveries == old(deliveries) + [Delivery(attachment, dir)])
    {
      hide Waiting, Delivered, AllWritten;
      ghost var before, was := deliveries, imports;
      var dir := ImportConnectorItem(item, [attachment]);
      ok := dir.Some?;
      if ok {
        DeliverAll(before, [attachment], dir.value);
        WrittenGrows(sessions, before, deliveries, was, imports);
        taken := taken + multiset{attachment};
        assert Deliveries([attachment], dir.value) == [Delivery(attachment, dir.value)];
      }
    }

    /** A child attachment without a session waits in one of its own. */
    method TakeOrphan(attachment: Attachment)
      requires Conserved()
      modifies this`sessions, this`taken
      ensures Conserved() && taken == old(taken) + multiset{attachment}
      ensures sessions == old(sessions) + [Session(attachment.sessionId, [], [attachment], None)]
    {
      hide Waiting, Delivered, AllWritten;
      var session := Session(attachment.sessionId, [], [attachment], None);
      WaitingAppend(sessions, [session]);
      WaitingOne(session);
      WrittenSnoc(sessions, session, deliveries, imports);
      sessions := sessions + [session];
      taken := taken + multiset{attachment};
    }

    /** A late attachment goes straight into the item of its session. */
    method TakeLate(i: nat, attachment: Attachment) returns (ok: bool)
      requires Conserved() && i < |sessions| && sessions[i].outcome.Some?
      modifies this`deliveries, this`taken
      ensures Conserved()
      ensures taken == if ok then old(taken) + multiset{attachment} else old(taken)
      ensures deliveries == if ok then old(deliveries) + [Delivery(attachment, sessions[i].outcome.value)] else old(deliveries)
    {
      hide Waiting, Delivered, AllWritten;
      ghost var before := deliveries;
      ok := SaveToItem(sessions[i].outcome.value, attachment);
      if ok {
        DeliverLate(before, attachment, sessions[i].outcome.value);
        WrittenGrows(sessions, before, deliveries, imports, imports);
        taken := taken + multiset{attachment};
      }
    }

    /** An attachment of a pending session waits there. */
    method TakeBuffered(i: nat, attachment: Attachment)
      requires Conserved() && i < |sessions| && sessions[i].outcome.None?
      modifies this`sessions, this`taken
      ensures Conserved() && taken == old(taken) + multiset{attachment}
      ensures sessions == old(sessions)[i := old(sessions)[i].(attachments := old(sessions)[i].attachments + [attachment])]
    {
      hide Waiting, Delivered, AllWritten;
      var session := sessions[i];
      var fuller := session.(attachments := session.attachments + [attachment]);
      WaitingChanges(sessions, i, session, [], 0, attachment);
      WrittenUpdate(sessions, i, fuller, deliveries, imports);
      sessions := sessions[i := fuller];
      taken := taken + multiset{attachment};
    }
  }

  /** Nothing was imported but the first items of sessions, each into the directory its session records. */
  ghost predicate OnlyFromSessions(before: Imports, after: Imports, sessions: seq<Session>) {
    before <= after && forall x :: x in after - before ==> exists s :: s in sessions && FirstImport(s, x)
  }

  predicate FirstImport(s: Session, x: (Item, ItemDir)) {
    s.items != [] && s.outcome.Some? && x == (s.items[0], s.outcome.value)
  }

  lemma OneMoreImport(start: Imports, before: Imports, after: Imports, sessions: seq<Session>, i: nat, s: Session)
    requires i < |sessions| && sessions[i].outcome.None? && OnlyFromSessions(start, before, sessions)
    requires s.outcome.Some? && s.items != [] && after == before + {(s.items[0], s.outcome.value)}
    ensures OnlyFromSessions(start, after, sessions[i := s])
  {
    forall x | x in after - start
      ensures exists t :: t in sessions[i := s] && FirstImport(t, x)
    {
      if x in before {
        assert x in before - start;
        var t :| t in sessions && FirstImport(t, x);
        var j :| 0 <= j < |sessions| && sessions[j] == t;
        assert j != i && sessions[i := s][j] == t;
      } else {
        assert sessions[i := s][i] == s && FirstImport(s, x);
      }
    }
  }

  /** The table when metadata arrived: the first pending session of the id gets the items, or a new one does. */
  function Renewed(sessions: seq<Session>, id: SessionId, items: seq<Item>): (r: seq<Session>)
    ensures |r| == |sessions| || r == sessions + [Session(id, items, [], None)]
  {
    if sessions == [] then [Session(id, items, [], None)]
    else if Matches(sessions[0], id) then [sessions[0].(items := items)] + sessions[1..]
    else [sessions[0]] + Renewed(sessions[1..], id, items)
  }

  lemma {:induction false} FirstPendingIs(sessions: seq<Session>, id: SessionId, position: Option<nat>)
    requires position.Some? ==> FirstPending(sessions, id, position.value)
    requires position.None? ==> forall s :: s in sessions ==> !Matches(s, id)
    ensures forall items :: Renewed(sessions, id, items) ==
              if position.Some? then sessions[position.value := sessions[position.value].(items := items)]
              else sessions + [Session(id, items, [], None)]
  {
    if sessions != [] && !Matches(sessions[0], id) {
      FirstPendingIs(sessions[1..], id, if position.Some? then Some(position.value - 1) else None);
    }
  }

  /** Every session is as before or was imported, in place. */
  predicate AllImported(before: seq<Session>, after: seq<Session>, firstDir: ItemDir) {
    |before| == |after| && forall i :: 0 <= i < |after| ==> Imported(before[i], after[i], firstDir)
  }

  lemma ImportedAt(before: seq<Session>, after: seq<Session>, firstDir: ItemDir, i: nat)
    requires AllImported(before, after, firstDir) && i < |before|
    ensures |before| == |after| && Imported(before[i], after[i], firstDir) && after[i] in after
  {
  }

  predicate FirstPending(sessions: seq<Session>, id: SessionId, p: int) {
    0 <= p < |sessions| && Matches(sessions[p], id) && forall j :: 0 <= j < p ==> !Matches(sessions[j], id)
  }

  predicate Matches(s: Session, id: SessionId) {
    s.sessionId == id && s.outcome.None?
  }

  /**
    An attachment taken in once is in exactly one place: waiting in a pending session and delivered nowhere, or
    delivered to exactly one item and waiting nowhere.
   */
  lemma ExactlyOnePlace(sessions: seq<Session>, deliveries: seq<Delivery>, taken: multiset<Attachment>, a: Attachment)
    requires taken == Waiting(sessions) + Delivered(deliveries) && taken[a] == 1
    ensures (Waiting(sessions)[a] == 1 && Delivered(deliveries)[a] == 0)
         || (Waiting(sessions)[a] == 0 && exists i :: DeliveredOnlyAt(deliveries, i, a))
  {
    if Delivered(deliveries)[a] == 1 {
      var i := DeliveredOnce(deliveries, a);
    }
  }

  predicate DeliveredOnlyAt(deliveries: seq<Delivery>, i: int, a: Attachment) {
    0 <= i < |deliveries| && forall j :: 0 <= j < |deliveries| ==> (deliveries[j].attachment == a <==> j == i)
  }

  lemma {:induction false} NotDelivered(deliveries: seq<Delivery>, a: Attachment)
    requires Delivered(deliveries)[a] == 0
    ensures forall j :: 0 <= j < |deliveries| ==> deliveries[j].attachment != a
  {
    if deliveries != [] {
      NotDelivered(deliveries[..|deliveries| - 1], a);
    }
  }

  lemma {:induction false} DeliveredOnce(deliveries: seq<Delivery>, a: Attachment) returns (i: nat)
    requires Delivered(deliveries)[a] == 1
    ensures DeliveredOnlyAt(deliveries, i, a)
  {
    var n := |deliveries| - 1;
    if deliveries[n].attachment == a {
      NotDelivered(deliveries[..n], a);
      i := n;
    } else {
      i := DeliveredOnce(deliveries[..n], a);
    }
  }

  lemma DeliverLate(deliveries: seq<Delivery>, attachment: Attachment, dir: ItemDir)
    ensures Delivered(deliveries + [Delivery(attachment, dir)]) == Delivered(deliveries) + multiset{attachment}
  {
  }

  lemma {:induction false} WindowMembers(sessions: seq<Session>, keep: nat)
    ensures forall s :: s in Window(sessions, keep) ==> s in sessions
  {
    if sessions != [] { WindowMembers(sessions[1..], keep); }
  }

  /** A session is as before, or it was imported into a new directory and nothing else about it changed. */
  predicate Imported(before: Session, after: Session, firstDir: ItemDir) {
    after == before ||
    (before.outcome.None? && before.items != [] && after.outcome.Some? && after.outcome.value >= firstDir
     && after == before.(outcome := after.outcome))
  }
}
