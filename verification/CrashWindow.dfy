/** The sliding crash window that both supervisors and the exception service use to tell a mishap from a crash loop. */
module CrashWindows {
  import opened Collections

  /** Clock readings and spans, in ticks of whatever resolution. */
  type Time = int

  /** Pop from the front while the front is older than the window. */
  function Expire(queue: seq<Time>, now: Time, window: Time): (r: seq<Time>) {
    if queue != [] && now - queue[0] > window then Expire(queue[1..], now, window) else queue
  }

  /** The queue after a whole history of events, one registration after the other. */
  function QueueAfter(history: seq<Time>, window: Time): (r: seq<Time>) {
    if history == [] then []
    else
      var now := history[|history| - 1];
      Expire(QueueAfter(history[..|history| - 1], window), now, window) + [now]
  }

  /** The events of the history that are at most `window` old. */
  function Recent(history: seq<Time>, now: Time, window: Time): (r: seq<Time>) {
    if history == [] then []
    else (if now - history[0] > window then [] else [history[0]]) + Recent(history[1..], now, window)
  }

  predicate NonDecreasing(history: seq<Time>) {
    forall i, j :: 0 <= i < j < |history| ==> history[i] <= history[j]
  }

  // ---------- the queue is the recent history ----------

  lemma {:induction false} RecentAppend(a: seq<Time>, b: seq<Time>, now: Time, window: Time)
    ensures Recent(a + b, now, window) == Recent(a, now, window) + Recent(b, now, window)
  {
    if a == [] {
      assert a + b == b;
    } else {
      assert (a + b)[1..] == a[1..] + b;
      RecentAppend(a[1..], b, now, window);
    }
  }

  /** On a non-decreasing history the recent events are a suffix, and popping from the front finds it. */
  lemma {:induction false} ExpireIsRecent(history: seq<Time>, now: Time, window: Time)
    requires NonDecreasing(history)
    ensures Expire(history, now, window) == Recent(history, now, window)
  {
    if history != [] {
      if now - history[0] > window {
        ExpireIsRecent(history[1..], now, window);
      } else {
        AllRecent(history, now, window);
      }
    }
  }

  lemma {:induction false} AllRecent(history: seq<Time>, now: Time, window: Time)
    requires forall t :: t in history ==> now - t <= window
    ensures Recent(history, now, window) == history
  {
    if history != [] {
      assert history[0] in history;
      assert forall t :: t in history[1..] ==> t in history;
      AllRecent(history[1..], now, window);
    }
  }

  /** Expiring in two steps, at an earlier and a later reading, is expiring at the later one. */
  lemma {:induction false} RecentTwice(history: seq<Time>, earlier: Time, now: Time, window: Time)
    requires earlier <= now
    ensures Recent(Recent(history, earlier, window), now, window) == Recent(history, now, window)
  {
    if history != [] {
      RecentTwice(history[1..], earlier, now, window);
      var rest := Recent(history[1..], earlier, window);
      if earlier - history[0] <= window {
        assert ([history[0]] + rest)[1..] == rest;
      } else {
        assert [] + rest == rest;
        assert [] + Recent(history[1..], now, window) == Recent(history[1..], now, window);
      }
    }
  }

  lemma {:induction false} RecentSorted(history: seq<Time>, now: Time, window: Time)
    requires NonDecreasing(history)
    ensures NonDecreasing(Recent(history, now, window))
    ensures forall t :: t in Recent(history, now, window) ==> t in history
  {
    if history != [] {
      var rest := history[1..];
      RecentSorted(rest, now, window);
      assert history == [history[0]] + rest;
      var recent := Recent(rest, now, window);
      assert Recent(history, now, window) == (if now - history[0] > window then [] else [history[0]]) + recent;
      hide Recent;
      forall i | 0 <= i < |recent|
        ensures recent[i] in rest && history[0] <= recent[i]
      {
        assert recent[i] in recent;
        var j :| 0 <= j < |rest| && rest[j] == recent[i];
      }
    }
  }

  /** Main result: under a clock that never goes back, the pruned queue is the recent part of the full history. */
  lemma {:induction false} QueueIsRecent(history: seq<Time>, window: Time)
    requires NonDecreasing(history) && history != [] && window >= 0
    ensures QueueAfter(history, window) == Recent(history, history[|history| - 1], window)
  {
    var n := |history| - 1;
    var front, now := history[..n], history[n];
    assert history == front + [now];
    RecentAppend(front, [now], now, window);
    assert Recent([now], now, window) == [now] + Recent([], now, window);
    assert QueueAfter(history, window) == Expire(QueueAfter(front, window), now, window) + [now];
    if front != [] {
      var earlier := front[n - 1];
      QueueIsRecent(front, window);
      hide QueueAfter, Recent, Expire;
      RecentSorted(front, earlier, window);
      ExpireIsRecent(Recent(front, earlier, window), now, window);
      RecentTwice(front, earlier, now, window);
    }
  }

  /** With a clock that steps back an old event can hide behind a younger one and still be counted. */
  lemma ClockStepsBack()
    ensures var history := [100, 0, 301];
      QueueAfter(history, 300) == [100, 0, 301] && Recent(history, 301, 300) == [100, 301]
  {
    QueueSnoc([], 100, 300);
    QueueSnoc([100], 0, 300);
    QueueSnoc([100, 0], 301, 300);
    RecentOfThree();
    hide QueueAfter, Recent;
    assert [] + [100] == [100] && [100] + [0] == [100, 0] && [100, 0] + [301] == [100, 0, 301];
    assert Expire([], 100, 300) == [] && Expire([100], 0, 300) == [100] && Expire([100, 0], 301, 300) == [100, 0];
  }

  lemma QueueSnoc(history: seq<Time>, now: Time, window: Time)
    ensures QueueAfter([], window) == []
    ensures QueueAfter(history + [now], window) == Expire(QueueAfter(history, window), now, window) + [now]
  {
    assert (history + [now])[..|history|] == history;
  }

  lemma RecentOfThree()
    ensures Recent([100, 0, 301], 301, 300) == [100, 301]
  {
    assert [100, 0, 301][1..] == [0, 301] && [0, 301][1..] == [301] && [301][1..] == [];
    assert Recent([], 301, 300) == [];
    assert Recent([301], 301, 300) == [301];
    assert Recent([0, 301], 301, 300) == [] + [301];
  }

  /** More than `k` events are recent exactly when the one `k` places before the last is. */
  lemma MoreRecent(history: seq<Time>, window: Time, k: nat)
    requires NonDecreasing(history) && history != [] && window >= 0
    ensures var n := |history| - 1;
      |QueueAfter(history, window)| > k <==> n >= k && history[n] - history[n - k] <= window
  {
    var n := |history| - 1;
    QueueIsRecent(history, window);
    if n >= k {
      var tail := history[n - k..];
      assert history == history[..n - k] + tail;
      RecentAppend(history[..n - k], tail, history[n], window);
      if history[n] - history[n - k] <= window {
        AllRecent(tail, history[n], window);
      } else {
        NoneRecent(history[..n - k], history[n], window);
        RecentShorter(tail[1..], history[n], window);
      }
    } else {
      RecentShorter(history, history[n], window);
    }
  }

  lemma {:induction false} NoneRecent(history: seq<Time>, now: Time, window: Time)
    requires forall t :: t in history ==> now - t > window
    ensures Recent(history, now, window) == []
  {
    if history != [] {
      assert history[0] in history;
      assert forall t :: t in history[1..] ==> t in history;
      NoneRecent(history[1..], now, window);
    }
  }

  lemma {:induction false} RecentShorter(history: seq<Time>, now: Time, window: Time)
    ensures |Recent(history, now, window)| <= |history|
  {
    if history != [] { RecentShorter(history[1..], now, window); }
  }

  /** The queue itself, changed in place. */
  class CrashQueue {
    var times: seq<Time>

    constructor ()
      ensures times == []
    {
      times := [];
    }

    /** Forget what is too old, add the present event, and say how many there are. */
    method Register(now: Time, window: Time) returns (count: nat)
      modifies this
      ensures times == Expire(old(times), now, window) + [now]
      ensures count == |times|
    {
      while times != [] && now - times[0] > window
        invariant Expire(times, now, window) == Expire(old(times), now, window)
        decreases |times|
      {
        times := times[1..];
      }
      times := times + [now];
      count := |times|;
    }
  }

  // ---------- the two supervisors ----------

  /** Five minutes, in seconds. */
  const CRASH_WINDOW: Time := 300

  const RESTART_DELAYS: seq<Time> := [1, 5, 30]

  /** The delay table of the desktop supervisor; the index is clamped into it. */
  function DelayForRestart(restartCount: int): (r: Time)
    ensures restartCount <= 1 ==> r == 1
    ensures restartCount == 2 ==> r == 5
    ensures restartCount >= 3 ==> r == 30
  {
    RESTART_DELAYS[if restartCount - 1 < 0 then 0 else if restartCount - 1 > 2 then 2 else restartCount - 1]
  }

  /** The delay of the daemon's worker supervisor; none means giving up. */
  function WorkerRestartDelay(failureCount: nat): (r: Option<Time>)
    ensures 1 <= failureCount <= 3 ==> r == Some([1, 5, 30][failureCount - 1])
    ensures failureCount == 0 || failureCount > 3 ==> r == None
  {
    if failureCount == 0 then None
    else if failureCount - 1 < |RESTART_DELAYS| then Some(RESTART_DELAYS[failureCount - 1]) else None
  }

  /** One supervised life: how it ended and when. */
  datatype Life = Life(exitCode: int, at: Time)

  datatype Outcome = Finished | GaveUp(exitCode: int) | StillRunning

  function FailureTimes(lives: seq<Life>): (r: seq<Time>)
    ensures |r| == |lives|
    ensures forall i :: 0 <= i < |lives| ==> r[i] == lives[i].at
  {
    seq(|lives|, i requires 0 <= i < |lives| => lives[i].at)
  }

  /** Life number `n` failed although at most three failures were recent, so it was restarted. */
  predicate Restarted(lives: seq<Life>, n: int)
    requires 0 <= n < |lives|
  {
    lives[n].exitCode != 0 && |QueueAfter(FailureTimes(lives[..n + 1]), CRASH_WINDOW)| <= 3
  }

  /**
    How supervision of these lives must go: all lives before the last were restarted, each after the delay its recent
    failures call for, and it ends with the first clean exit or with the first failure that is one too many.
   */
  ghost predicate Supervised(lives: seq<Life>, outcome: Outcome, delays: seq<Time>) {
    var n := |delays|;
    && n <= |lives|
    && (forall i :: 0 <= i < n ==> Restarted(lives, i)
                                   && delays[i] == DelayFor(lives, i))
    && match outcome
       case StillRunning => n == |lives|
       case Finished => n < |lives| && lives[n].exitCode == 0
       case GaveUp(code) => n < |lives| && lives[n].exitCode == code != 0 && !Restarted(lives, n)
  }

  function DelayFor(lives: seq<Life>, i: int): (r: Time)
    requires 0 <= i < |lives|
  {
    DelayForRestart(|QueueAfter(FailureTimes(lives[..i + 1]), CRASH_WINDOW)|)
  }

  /** Supervision leaves no choice: the same lives give the same outcome and the same delays. */
  lemma SupervisionIsDetermined(lives: seq<Life>, o1: Outcome, d1: seq<Time>, o2: Outcome, d2: seq<Time>)
    requires Supervised(lives, o1, d1) && Supervised(lives, o2, d2)
    ensures o1 == o2 && d1 == d2
  {
    assert |d1| < |d2| ==> Restarted(lives, |d1|);
    assert |d2| < |d1| ==> Restarted(lives, |d2|);
  }

  lemma QueueExtends(lives: seq<Life>, i: nat)
    requires i < |lives|
    ensures QueueAfter(FailureTimes(lives[..i + 1]), CRASH_WINDOW) ==
            Expire(QueueAfter(FailureTimes(lives[..i]), CRASH_WINDOW), lives[i].at, CRASH_WINDOW) + [lives[i].at]
  {
    var times := FailureTimes(lives[..i + 1]);
    assert times[..i] == FailureTimes(lives[..i]);
  }

  /** The desktop supervisor. */
  method RunLoop(lives: seq<Life>) returns (outcome: Outcome, delays: seq<Time>)
    ensures Supervised(lives, outcome, delays)
  {
    var crashes := new CrashQueue();
    delays := [];
    for i := 0 to |lives|
      invariant |delays| == i
      invariant crashes.times == QueueAfter(FailureTimes(lives[..i]), CRASH_WINDOW)
      invariant forall j :: 0 <= j < i ==> Restarted(lives, j) && delays[j] == DelayFor(lives, j)
    {
      if lives[i].exitCode == 0 {
        return Finished, delays;
      }
      QueueExtends(lives, i);
      var count := crashes.Register(lives[i].at, CRASH_WINDOW);
      if count > |RESTART_DELAYS| {
        return GaveUp(lives[i].exitCode), delays;
      }
      delays := delays + [DelayForRestart(count)];
    }
    outcome := StillRunning;
  }

  /** The daemon's worker supervisor; a worker that returns normally has exit code 0. */
  method SuperviseWorker(lives: seq<Life>) returns (outcome: Outcome, delays: seq<Time>)
    ensures Supervised(lives, outcome, delays)
  {
    var failures := new CrashQueue();
    delays := [];
    for i := 0 to |lives|
      invariant |delays| == i
      invariant failures.times == QueueAfter(FailureTimes(lives[..i]), CRASH_WINDOW)
      invariant forall j :: 0 <= j < i ==> Restarted(lives, j) && delays[j] == DelayFor(lives, j)
    {
      if lives[i].exitCode == 0 {
        return Finished, delays;
      }
      QueueExtends(lives, i);
      var count := failures.Register(lives[i].at, CRASH_WINDOW);
      var delay := WorkerRestartDelay(count);
      if delay.None? {
        return GaveUp(lives[i].exitCode), delays;
      }
      delays := delays + [delay.value];
    }
    outcome := StillRunning;
  }

  /** A failing life is restarted unless it is the fourth failure within five minutes. */
  lemma RestartedUnlessFourth(lives: seq<Life>, i: nat)
    requires NonDecreasing(FailureTimes(lives)) && i < |lives| && lives[i].exitCode != 0
    ensures Restarted(lives, i) <==> !(i >= 3 && lives[i].at - lives[i - 3].at <= 300)
  {
    var times := FailureTimes(lives[..i + 1]);
    assert forall j :: 0 <= j <= i ==> times[j] == lives[j].at == FailureTimes(lives)[j];
    MoreRecent(times, CRASH_WINDOW, 3);
  }

  /**
    Under a clock that never goes back, supervision gives up exactly at the fourth failure within five minutes; so no
    span of five minutes holds more than three failures that were restarted. It ends at the first clean exit, or with
    the exit code of the failure that was one too many.
   */
  lemma GivesUpAtTheFourth(lives: seq<Life>, outcome: Outcome, delays: seq<Time>)
    requires Supervised(lives, outcome, delays) && NonDecreasing(FailureTimes(lives))
    ensures |delays| <= |lives| && forall i :: 0 <= i < |delays| ==> lives[i].exitCode != 0
    ensures forall i :: 3 <= i < |delays| ==> lives[i].at - lives[i - 3].at > 300
    ensures match outcome
            case StillRunning => |delays| == |lives|
            case Finished => |delays| < |lives| && lives[|delays|].exitCode == 0
            case GaveUp(code) =>
              && 3 <= |delays| < |lives| && lives[|delays|].at - lives[|delays| - 3].at <= 300
              && code == lives[|delays|].exitCode && code != 0
  {
    forall i | 0 <= i < |delays|
      ensures lives[i].exitCode != 0 && (i >= 3 ==> lives[i].at - lives[i - 3].at > 300)
    {
      assert Restarted(lives, i);
      RestartedUnlessFourth(lives, i);
    }
    if outcome.GaveUp? {
      RestartedUnlessFourth(lives, |delays|);
    }
  }

  /**
    Under such a clock a restart waits 1 s when no earlier failure is at most five minutes old, 5 s when exactly one is,
    and 30 s when exactly two are; there is no fourth case.
   */
  lemma RestartDelays(lives: seq<Life>, outcome: Outcome, delays: seq<Time>, i: nat)
    requires Supervised(lives, outcome, delays) && NonDecreasing(FailureTimes(lives)) && i < |delays|
    ensures var recent := set j | 0 <= j < i && lives[i].at - lives[j].at <= 300;
            |recent| < 3 && delays[i] == [1, 5, 30][|recent|]
  {
    assert Restarted(lives, i) && delays[i] == DelayFor(lives, i);
    DelayAmongLast(lives, i);
    RecentOnes(lives, i);
  }

  lemma DelayAmongLast(lives: seq<Life>, i: nat)
    requires NonDecreasing(FailureTimes(lives)) && i < |lives| && Restarted(lives, i)
    ensures DelayFor(lives, i) == if i < 1 || lives[i].at - lives[i - 1].at > 300 then 1
                                  else if i < 2 || lives[i].at - lives[i - 2].at > 300 then 5 else 30
    ensures i >= 3 ==> lives[i].at - lives[i - 3].at > 300
  {
    hide QueueAfter;
    var times := FailureTimes(lives[..i + 1]);
    assert forall j :: 0 <= j <= i ==> times[j] == lives[j].at == FailureTimes(lives)[j];
    MoreRecent(times, CRASH_WINDOW, 0);
    MoreRecent(times, CRASH_WINDOW, 1);
    MoreRecent(times, CRASH_WINDOW, 2);
    MoreRecent(times, CRASH_WINDOW, 3);
  }

  /** On such a clock the recent failures are the last ones. */
  lemma RecentOnes(lives: seq<Life>, i: nat)
    requires NonDecreasing(FailureTimes(lives)) && i < |lives|
    requires i >= 3 ==> lives[i].at - lives[i - 3].at > 300
    ensures var recent := set j | 0 <= j < i && lives[i].at - lives[j].at <= 300;
            recent == if i < 1 || lives[i].at - lives[i - 1].at > 300 then {}
                      else if i < 2 || lives[i].at - lives[i - 2].at > 300 then {i - 1} else {i - 1, i - 2}
  {
    forall j, k | 0 <= j <= k <= i
      ensures lives[j].at <= lives[k].at
    {
      assert FailureTimes(lives)[j] <= FailureTimes(lives)[k] || j == k;
    }
  }
}
