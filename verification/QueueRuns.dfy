/**
 * What the runs of a built queue owe to its config (src/core/queue.ts:185-255): the laws of the fan-out, told by the
 * jobs themselves and the options given.
 */
module QueueRuns {
  import opened Basics
  import opened TopoSort
  import opened QueueBuild
  import F = FanOutModel
  import R = FanOutRuns
  import W = WorkConserving
  import S = Skips

  /** The history of a queue's fan-out after some events. */
  function RunOf(cfg: QueueConfig, b: BuiltQueue, maxConcurrent: Option<int>, launchDelayMs: Option<int>,
      evs: seq<R.Event>): (h: R.Hist)
    ensures |h.fan.sts| == |b.members|
  {
    var f := FanOutOf(cfg, b, maxConcurrent, launchDelayMs);
    assert R.Inv(f, R.Run(f, evs).fan);
    R.Run(f, evs)
  }

  /** The launches a job may have: as its retry setting says, and one without. */
  predicate RetryAllows(job: Job, attempts: nat) {
    if job.retry.Some? then attempts <= job.retry.value.maxAttempts else attempts <= 1
  }

  /** Job i runs as the member at position p. */
  predicate RunsAt(cfg: QueueConfig, b: BuiltQueue, i: nat, p: nat) {
    i < |cfg.jobs| && p < |b.members| && b.members[p].key == cfg.jobs[i].id
  }

  lemma JobCarried(cfg: QueueConfig, b: BuiltQueue, i: nat, p: nat)
    requires ValidQueue(cfg) && BuiltFrom(cfg, b) && RunsAt(cfg, b, i, p)
    ensures Carries(cfg, i, b.members[p], p)
  {
    assert FromJob(cfg, b.members[p], p);
    var j :| 0 <= j < |cfg.jobs| && Carries(cfg, j, b.members[p], p);
    assert cfg.jobs[j].id == cfg.jobs[i].id;
    assert j == i;
  }

  /** Within the limit; failed only when no more is allowed, and waiting only while more is. */
  predicate InBudget(state: F.MemberState, now: bool, more: bool) {
    now && (state.Failed? ==> !more) && (state.NotStarted() ==> more)
  }

  /** The fan-out's budget of a job is its retry setting. */
  lemma JobBudget(cfg: QueueConfig, b: BuiltQueue, i: nat, p: nat, m: F.Member)
    requires ValidQueue(cfg) && BuiltFrom(cfg, b) && RunsAt(cfg, b, i, p) && m == AsMember(b.members[p])
    ensures forall n: nat :: W.Allowed(m, n) <==> RetryAllows(cfg.jobs[i], n)
  {
    JobCarried(cfg, b, i, p);
    assert LinksOk(cfg.jobs, i);
  }

  lemma BudgetKept(f: F.Config, evs: seq<R.Event>, p: nat, job: Job)
    requires p < |f.members| && forall n: nat :: W.Allowed(f.members[p], n) <==> RetryAllows(job, n)
    ensures var launches := R.AttemptsOf(R.Run(f, evs).log, p);
            InBudget(R.Run(f, evs).fan.sts[p].state, RetryAllows(job, launches), RetryAllows(job, launches + 1))
  {
    W.AttemptsAllowed(f, evs, p);
  }

  /** A job is launched no more often than its retry setting says, and fails only when it has been, as often. */
  lemma JobRetries(cfg: QueueConfig, b: BuiltQueue, maxConcurrent: Option<int>, launchDelayMs: Option<int>,
      evs: seq<R.Event>, i: nat, p: nat, f: F.Config)
    requires ValidQueue(cfg) && BuiltFrom(cfg, b) && RunsAt(cfg, b, i, p)
    requires f == FanOutOf(cfg, b, maxConcurrent, launchDelayMs)
    ensures var launches := R.AttemptsOf(R.Run(f, evs).log, p);
            InBudget(R.Run(f, evs).fan.sts[p].state, RetryAllows(cfg.jobs[i], launches),
              RetryAllows(cfg.jobs[i], launches + 1))
  {
    JobBudget(cfg, b, i, p, f.members[p]);
    BudgetKept(f, evs, p, cfg.jobs[i]);
  }

  /** A job that has been launched has every job it depends on behind it, completed. */
  lemma JobOrder(cfg: QueueConfig, b: BuiltQueue, maxConcurrent: Option<int>, launchDelayMs: Option<int>,
      evs: seq<R.Event>, i: nat, p: nat, k: nat)
    requires ValidQueue(cfg) && BuiltFrom(cfg, b) && RunsAt(cfg, b, i, p) && k < |cfg.jobs[i].dependsOn|
    requires R.AttemptsOf(RunOf(cfg, b, maxConcurrent, launchDelayMs, evs).log, p) > 0
    ensures var h := RunOf(cfg, b, maxConcurrent, launchDelayMs, evs);
            exists q :: 0 <= q < p && b.members[q].key == cfg.jobs[i].dependsOn[k] && h.fan.sts[q].state.Completed?
  {
    var f := FanOutOf(cfg, b, maxConcurrent, launchDelayMs);
    var h := R.Run(f, evs);
    JobCarried(cfg, b, i, p);
    R.LaunchDiscipline(f, evs);
    S.AttemptedInOrder(f, evs, p);
    assert f.members[p].dependsOn[k] == cfg.jobs[i].dependsOn[k];
    assert S.KeyDone(f, h.fan.sts, p, f.members[p].dependsOn[k]);
    DependencyIsEarlier(cfg, b, f.members, p, k);
    var q :| 0 <= q < |f.members| && S.NamesMember(f, p, q) && f.members[q].key == f.members[p].dependsOn[k]
             && h.fan.sts[q].state.Completed?;
    S.LookupLast(f.members, q);
  }

  /** Every job is run by exactly one member. */
  lemma EachJobOnce(cfg: QueueConfig, b: BuiltQueue, i: nat)
    requires ValidQueue(cfg) && BuiltFrom(cfg, b) && i < |cfg.jobs|
    ensures exists p :: RunsAt(cfg, b, i, p) && forall q: nat :: RunsAt(cfg, b, i, q) ==> q == p
  {
    assert cfg.jobs[i].id in b.order;
    var p :| 0 <= p < |b.order| && b.order[p] == cfg.jobs[i].id;
    assert RunsAt(cfg, b, i, p);
    forall q: nat | RunsAt(cfg, b, i, q) ensures q == p {
      assert b.order[q] == b.order[p];
    }
  }

  /** At most as many jobs run at once as asked for, and launches are as far apart. */
  lemma QueueLimits(cfg: QueueConfig, b: BuiltQueue, maxConcurrent: Option<int>, launchDelayMs: Option<int>,
      evs: seq<R.Event>)
    ensures var h := RunOf(cfg, b, maxConcurrent, launchDelayMs, evs);
            var busy := Count(h.fan.sts, F.IsRunning) + (if h.fan.frame.Some? then 1 else 0);
            && (maxConcurrent.Some? && maxConcurrent.value > 0 ==> busy <= maxConcurrent.value)
            && (launchDelayMs.Some? ==>
                  forall k :: 0 < k < |h.log| ==> launchDelayMs.value > 0 ==>
                    h.log[k].time - h.log[k - 1].time >= launchDelayMs.value)
  {
    R.LaunchDiscipline(FanOutOf(cfg, b, maxConcurrent, launchDelayMs), evs);
  }

  /** Under `on_failure: stop` a failed job is the last thing a queue launches. */
  lemma FailureStopsQueue(cfg: QueueConfig, b: BuiltQueue, maxConcurrent: Option<int>, launchDelayMs: Option<int>,
      evs: seq<R.Event>, more: seq<R.Event>, p: nat)
    requires cfg.onFailure == "stop" && p < |b.members|
    requires RunOf(cfg, b, maxConcurrent, launchDelayMs, evs).fan.sts[p].state.Failed?
    ensures var h := RunOf(cfg, b, maxConcurrent, launchDelayMs, evs);
            R.Continue(FanOutOf(cfg, b, maxConcurrent, launchDelayMs), h, more).log == h.log
  {
    var f := FanOutOf(cfg, b, maxConcurrent, launchDelayMs);
    assert S.Halted(f, R.Run(f, evs).fan.sts);
    S.HaltedIsFinal(f, evs, more);
  }

  /** Otherwise a job is skipped only after a job it depends on, unless no job is left at all. */
  lemma FailureSkipsDependents(cfg: QueueConfig, b: BuiltQueue, maxConcurrent: Option<int>, launchDelayMs: Option<int>,
      evs: seq<R.Event>, i: nat, p: nat)
    requires ValidQueue(cfg) && BuiltFrom(cfg, b) && RunsAt(cfg, b, i, p) && cfg.onFailure != "stop"
    requires RunOf(cfg, b, maxConcurrent, launchDelayMs, evs).fan.sts[p].state.Skipped?
    ensures var sts := RunOf(cfg, b, maxConcurrent, launchDelayMs, evs).fan.sts;
            || (exists q :: 0 <= q < |sts| && b.members[q].key in cfg.jobs[i].dependsOn
                            && (sts[q].state.Failed? || sts[q].state.Skipped?))
            || Count(sts, S.Remains) == 0
  {
    var f := FanOutOf(cfg, b, maxConcurrent, launchDelayMs);
    var sts := R.Run(f, evs).fan.sts;
    JobCarried(cfg, b, i, p);
    S.SkippedForCause(f, evs, p);
    if S.DependencyGone(f, sts, p) {
      var q :| 0 <= q < |sts| && S.NamesMember(f, p, q) && (sts[q].state.Failed? || sts[q].state.Skipped?);
      assert b.members[q].key == f.members[q].key;
    }
  }
}
