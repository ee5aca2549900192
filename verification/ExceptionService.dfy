/** The desktop exception service: classification, escalation of repeated exceptions, and the one-shot restart. */
module ExceptionServices {
  import opened Collections
  import opened CrashWindows

  /** Exceptions as far as the classifier looks at them. */
  datatype Exception =
    | Cancelled
    | Panic
    | Fatal
    | Ordinary
    | Aggregate(inner: seq<Exception>)

  datatype Source = RustRuntime | Elsewhere

  datatype Decision = Ignore | Continue | Restart

  const STORM_WINDOW: Time := 30

  const NOTIFICATION_WINDOW: Time := 10

  const MANAGED_FAILURE := 70

  const RUST_FAILURE := 71

  /** An aggregate of exactly one exception stands for that exception. */
  function Unwrapped(e: Exception): (r: Exception)
    ensures !(r.Aggregate? && |r.inner| == 1)
  {
    if e.Aggregate? && |e.inner| == 1 then Unwrapped(e.inner[0]) else e
  }

  /** An exception inside `n` aggregates of one. */
  function Wrapped(e: Exception, n: nat): (r: Exception) {
    if n == 0 then e else Aggregate([Wrapped(e, n - 1)])
  }

  /** Unwrapping takes off all aggregates of one, however deep, and nothing else. */
  lemma {:induction false} UnwrapsAll(e: Exception, n: nat)
    requires !(e.Aggregate? && |e.inner| == 1)
    ensures Unwrapped(Wrapped(e, n)) == e
  {
    if n > 0 { UnwrapsAll(e, n - 1); }
  }

  lemma {:induction false} UnwrapsOnly(e: Exception) returns (n: nat)
    ensures e == Wrapped(Unwrapped(e), n)
  {
    if e.Aggregate? && |e.inner| == 1 {
      n := UnwrapsOnly(e.inner[0]);
      n := n + 1;
      assert e == Aggregate([e.inner[0]]);
    } else {
      n := 0;
    }
  }

  method Unwrap(e: Exception) returns (r: Exception)
    ensures r == Unwrapped(e)
  {
    r := e;
    while r.Aggregate? && |r.inner| == 1
      invariant Unwrapped(r) == Unwrapped(e)
      decreases r
    {
      r := r.inner[0];
    }
  }

  function Classify(e: Exception): (r: Decision) {
    match Unwrapped(e)
    case Cancelled => Ignore
    case Panic => Restart
    case Fatal => Restart
    case _ => Continue
  }

  function ExitCode(e: Exception, source: Source): (r: int)
    ensures r != 0
    ensures r == 71 <==> Unwrapped(e) == Panic || source == RustRuntime
    ensures r == 70 || r == 71
  {
    if Unwrapped(e) == Panic || source == RustRuntime then RUST_FAILURE else MANAGED_FAILURE
  }

  function TimesOf(table: map<string, seq<Time>>, fingerprint: string): (r: seq<Time>) {
    if fingerprint in table then table[fingerprint] else []
  }

  /** No two notifications of one kind are closer together than the window. */
  ghost predicate Spaced(times: seq<Time>) {
    forall i :: 0 < i < |times| ==> times[i] - times[i - 1] >= 10
  }

  /** The queues hold what the full histories leave in the storm window. */
  ghost predicate QueuesMatch(occurrences: map<string, seq<Time>>, history: map<string, seq<Time>>) {
    && (forall f :: f in occurrences <==> f in history)
    && (forall f :: f in history ==> occurrences[f] == QueueAfter(history[f], STORM_WINDOW))
  }

  lemma QueuesExtend(
    occurrences: map<string, seq<Time>>, history: map<string, seq<Time>>, fingerprint: string, now: Time)
    requires QueuesMatch(occurrences, history)
    ensures var queue := Expire(TimesOf(occurrences, fingerprint), now, STORM_WINDOW) + [now];
      var longer := TimesOf(history, fingerprint) + [now];
      queue == QueueAfter(longer, STORM_WINDOW)
      && QueuesMatch(occurrences[fingerprint := queue], history[fingerprint := longer])
  {
    var past := TimesOf(history, fingerprint);
    assert (past + [now])[..|past|] == past;
    assert TimesOf(occurrences, fingerprint) == QueueAfter(past, STORM_WINDOW);
  }

  ghost predicate NotificationsMatch(notifications: map<string, Time>, shown: map<string, seq<Time>>) {
    && (forall f :: f in notifications <==> f in shown)
    && (forall f :: f in shown ==> shown[f] != [] && Spaced(shown[f]) && notifications[f] == shown[f][|shown[f]| - 1])
  }

  lemma SpacedSnoc(times: seq<Time>, now: Time)
    requires Spaced(times) && (times != [] ==> now - times[|times| - 1] >= NOTIFICATION_WINDOW)
    ensures Spaced(times + [now])
  {
  }

  class ExceptionService {
    var occurrences: map<string, seq<Time>>
    var notifications: map<string, Time>
    var restartRequested: bool
    /** Every occurrence that was ever registered, by fingerprint. */
    ghost var history: map<string, seq<Time>>
    /** The notifications that were shown, by fingerprint. */
    ghost var shown: map<string, seq<Time>>
    /** The exit codes of the restarts that were requested. */
    ghost var restarts: seq<int>

    ghost predicate Valid()
      reads this
    {
      && QueuesMatch(occurrences, history)
      && NotificationsMatch(notifications, shown)
      && |restarts| == (if restartRequested then 1 else 0)
      && (forall c :: c in restarts ==> c != 0)
    }

    constructor ()
      ensures Valid() && history == map[] && shown == map[] && restarts == []
    {
      occurrences, notifications, restartRequested := map[], map[], false;
      history, shown, restarts := map[], map[], [];
    }

    method RegisterOccurrence(fingerprint: string, now: Time) returns (count: nat)
      requires Valid()
      modifies this`occurrences, this`history
      ensures Valid()
      ensures history == old(history)[fingerprint := TimesOf(old(history), fingerprint) + [now]]
      ensures count == |QueueAfter(history[fingerprint], 30)|
    {
      hide NotificationsMatch, QueuesMatch, QueueAfter;
      QueuesExtend(occurrences, history, fingerprint, now);
      var queue := TimesOf(occurrences, fingerprint);
      ghost var past := TimesOf(history, fingerprint);
      ghost var start := queue;
      while queue != [] && now - queue[0] > STORM_WINDOW
        invariant Expire(queue, now, STORM_WINDOW) == Expire(start, now, STORM_WINDOW)
        decreases |queue|
      {
        queue := queue[1..];
      }
      queue := queue + [now];
      occurrences := occurrences[fingerprint := queue];
      history := history[fingerprint := past + [now]];
      count := |queue|;
    }

    method ShouldNotify(fingerprint: string, now: Time) returns (notify: bool)
      requires Valid()
      modifies this`notifications, this`shown
      ensures Valid()
      ensures shown == if notify then old(shown)[fingerprint := TimesOf(old(shown), fingerprint) + [now]] else old(shown)
      ensures notify <==> !(fingerprint in old(notifications) && now - old(notifications)[fingerprint] < 10)
    {
      hide QueuesMatch, Spaced;
      if fingerprint in notifications && now - notifications[fingerprint] < NOTIFICATION_WINDOW {
        return false;
      }
      SpacedSnoc(TimesOf(shown, fingerprint), now);
      notifications := notifications[fingerprint := now];
      shown := shown[fingerprint := TimesOf(shown, fingerprint) + [now]];
      notify := true;
    }

    /** Only the first request counts. */
    method RequestRestart(exitCode: int)
      requires Valid() && exitCode != 0
      modifies this`restartRequested, this`restarts
      ensures Valid() && restartRequested
      ensures restarts == if old(restartRequested) then old(restarts) else old(restarts) + [exitCode]
    {
      var before := restartRequested;
      restartRequested := true;
      if before {
        return;
      }
      restarts := restarts + [exitCode];
    }

    /**
      Report one exception. It is ignored exactly when it is a cancellation; it demands a restart exactly when it is
      fatal or a panic, or the third of its kind in the storm queue; only a tolerated one is shown to the user.
     */
    method Report(e: Exception, fingerprint: string, source: Source, now: Time) returns (decision: Decision)
      requires Valid()
      modifies this
      ensures Valid()
      ensures decision == Ignore <==> Unwrapped(e) == Cancelled
      ensures decision == Ignore ==> history == old(history) && restarts == old(restarts) && shown == old(shown)
      ensures decision != Ignore ==>
                history == old(history)[fingerprint := TimesOf(old(history), fingerprint) + [now]]
      ensures decision == Restart <==>
                Unwrapped(e) == Panic || Unwrapped(e) == Fatal ||
                (decision != Ignore && |QueueAfter(TimesOf(history, fingerprint), 30)| >= 3)
      ensures decision == Restart ==> restartRequested
      ensures restarts == if decision == Restart && !old(restartRequested)
                          then [if Unwrapped(e) == Panic || source == RustRuntime then 71 else 70]
                          else old(restarts)
      ensures decision != Continue ==> shown == old(shown)
      ensures restartRequested == (old(restartRequested) || decision == Restart)
    {
      hide QueuesMatch, NotificationsMatch, QueueAfter;
      var effective := Unwrap(e);
      decision := Classify(effective);
      if decision == Ignore {
        return;
      }
      var count := RegisterOccurrence(fingerprint, now);
      if decision == Continue && count >= 3 {
        decision := Restart;
      }
      if decision == Continue {
        var notify := ShouldNotify(fingerprint, now);
      }
      if decision == Restart {
        RequestRestart(if effective == Panic || source == RustRuntime then RUST_FAILURE else MANAGED_FAILURE);
      }
    }

    /** The second call to action after a report; the restart was already requested, so it changes nothing. */
    method ReportAndEscalate(e: Exception, fingerprint: string, source: Source, now: Time) returns (decision: Decision)
      requires Valid()
      modifies this
      ensures Valid()
      ensures restarts == if decision == Restart && !old(restartRequested)
                          then [if Unwrapped(e) == Panic || source == RustRuntime then 71 else 70]
                          else old(restarts)
    {
      decision := Report(e, fingerprint, source, now);
      if decision == Restart {
        var effective := Unwrap(e);
        RequestRestart(if effective == Panic then RUST_FAILURE else MANAGED_FAILURE);
      }
    }
  }

  /** With a clock that never goes back, the storm rule counts the exceptions of the last 30 seconds. */
  lemma StormCountsTheLastSeconds(past: seq<Time>, now: Time)
    requires NonDecreasing(past + [now])
    ensures |QueueAfter(past + [now], 30)| >= 3 <==>
            |past| >= 2 && now - past[|past| - 2] <= 30
  {
    var history := past + [now];
    MoreRecent(history, STORM_WINDOW, 2);
  }
}
