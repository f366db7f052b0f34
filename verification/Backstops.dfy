/**
 * What the rules of a tick spare and what they do not (src/core/lifecycle.ts:123-212), and what a restart does to the
 * idle clock (src/core/mock.ts:97-103).
 */
module Backstops {
  import opened Basics
  import T = Tags
  import opened TagDecode
  import opened Lifecycle
  import opened Fleet
  import FleetRuns

  /**
   * TTL and cost limit terminate whatever else holds, unless a completion signal comes first; idleness never
   * terminates.
   */
  lemma LimitsTerminate(running: bool, c: Config, lastActivityMs: int, now: int, completionFile: bool, isIdle: bool)
    ensures var d := Evaluate(running, c, lastActivityMs, now, completionFile, isIdle);
            && (d.Decide? ==> running)
            && (running && (TtlFires(c, now) || CostFires(c)) && !(c.onComplete != [] && completionFile) ==>
                  d.Decide? && d.action == Terminate)
            && (d.Decide? && d.rule == Idle ==> d.action == Stop || d.action == Hibernate)
  {
  }

  /** The instance as the tick evaluates it. */
  function AtTick(f: Fleet, now: Time, id: nat): Instance
    requires id in f.instances
  {
    Accrue(f.instances[id], Elapsed(now, f.clock))
  }

  lemma MonitorTerminatesIff(i: Instance, now: int)
    ensures Monitor(i, now).state == Terminated <==>
            i.state == Terminated || (i.state == Running && (TtlFires(i.cfg, now) || CostFires(i.cfg)))
  {
    LimitsTerminate(i.state == Running, i.cfg, i.lastActivityMs, now, false, true);
  }

  /**
   * In every run, a tick terminates an instance exactly when it is running and its TTL or cost limit fires, or its
   * array is drained: idleness, however long, never does.
   */
  lemma TickTerminatesIff(start: Time, steps: seq<Step>, now: Time, launches: seq<T.Spec>, drained: set<nat>, id: nat,
      f: Fleet)
    requires f == Run(start, steps) && id in f.instances && f.instances[id].state != Terminated
    ensures var g, i := Apply(f, Tick(now, launches, drained)), AtTick(f, now, id);
            && id in g.instances
            && (g.instances[id].state == Terminated <==>
                  id in drained || (i.state == Running && (TtlFires(i.cfg, now) || CostFires(i.cfg))))
  {
    RunInv(start, steps);
    FleetRuns.TickKeeps(f, now, launches, drained, id);
    MonitorTerminatesIff(AtTick(f, now, id), now);
  }

  // ---- The idle clock ----

  predicate FromLaunch(i: Instance) {
    i.lastActivityMs == i.cfg.launchTimeMs
  }

  predicate AllFromLaunch(f: Fleet) {
    forall id :: id in f.instances ==> FromLaunch(f.instances[id])
  }

  lemma BootFromLaunch(spec: T.Spec, now: Time)
    requires T.ValidSpec(spec)
    ensures FromLaunch(Boot(spec, now))
  {
    BootInv(spec, now);
  }

  lemma {:induction false} LaunchAllFromLaunch(f: Fleet, specs: seq<T.Spec>)
    requires AllFromLaunch(f)
    ensures AllFromLaunch(LaunchAll(f, specs))
    decreases |specs|
  {
    if |specs| > 0 {
      var g, spec := LaunchAll(f, specs[..|specs| - 1]), specs[|specs| - 1];
      LaunchAllFromLaunch(f, specs[..|specs| - 1]);
      if T.ValidSpec(spec) { BootFromLaunch(spec, g.clock); }
    }
  }

  lemma MonitoredFromLaunch(f: Fleet, now: Time)
    requires AllFromLaunch(f)
    ensures AllFromLaunch(Monitored(f, now))
  {
    forall id | id in f.instances ensures FromLaunch(Monitored(f, now).instances[id]) {
      assert FromLaunch(Accrue(f.instances[id], Elapsed(now, f.clock)));
    }
  }

  lemma DrainedFromLaunch(f: Fleet, ids: set<nat>)
    requires AllFromLaunch(f)
    ensures AllFromLaunch(Drained(f, ids))
  {
  }

  lemma UpdateFromLaunch(f: Fleet, id: nat, i: Instance)
    requires AllFromLaunch(f) && FromLaunch(i)
    ensures AllFromLaunch(Update(f, id, i))
  {
  }

  lemma ActedFromLaunch(i: Instance, act: UserAction)
    requires FromLaunch(i)
    ensures FromLaunch(Acted(i, act))
  {
  }

  lemma ExtendedFromLaunch(i: Instance, byMs: real, now: int)
    requires InstanceInv(i) && FromLaunch(i) && MayExtend(i, byMs)
    ensures FromLaunch(Extended(i, byMs, now))
  {
    ExtendedLands(i, byMs, now);
  }

  lemma TickFromLaunch(f: Fleet, now: Time, launches: seq<T.Spec>, drained: set<nat>)
    requires AllFromLaunch(f)
    ensures AllFromLaunch(Apply(f, Tick(now, launches, drained)))
  {
    MonitoredFromLaunch(f, now);
    LaunchAllFromLaunch(Monitored(f, now), launches);
    DrainedFromLaunch(LaunchAll(Monitored(f, now), launches), drained);
  }

  lemma RequestFromLaunch(f: Fleet, step: Step)
    requires Inv(f) && AllFromLaunch(f) && (step.Act? || step.Extend?) && step.id in f.instances
    ensures AllFromLaunch(Apply(f, step))
  {
    var i := f.instances[step.id];
    if step.Act? {
      ActedFromLaunch(i, step.act);
      UpdateFromLaunch(f, step.id, Acted(i, step.act));
    } else if MayExtend(i, step.byMs) {
      ExtendedFromLaunch(i, step.byMs, f.clock);
      UpdateFromLaunch(f, step.id, Extended(i, step.byMs, f.clock));
    }
  }

  lemma LaunchFromLaunch(f: Fleet, spec: T.Spec)
    requires AllFromLaunch(f)
    ensures AllFromLaunch(LaunchOne(f, spec))
  {
    if T.ValidSpec(spec) { BootFromLaunch(spec, f.clock); }
  }

  lemma StepFromLaunch(f: Fleet, step: Step)
    requires Inv(f) && AllFromLaunch(f)
    ensures AllFromLaunch(Apply(f, step))
  {
    if step.Tick? {
      TickFromLaunch(f, step.now, step.launches, step.drained);
    } else if step.Launch? {
      LaunchFromLaunch(f, step.spec);
    } else if step.id in f.instances {
      RequestFromLaunch(f, step);
    }
  }

  /**
   * In every run the last activity of every instance is its launch: no step ever re-arms the idle clock, a start
   * included.
   */
  lemma {:induction false} IdleClockIsLaunch(start: Time, steps: seq<Step>)
    ensures AllFromLaunch(Run(start, steps))
  {
    if |steps| > 0 {
      var n := |steps| - 1;
      IdleClockIsLaunch(start, steps[..n]);
      RunInv(start, steps[..n]);
      StepFromLaunch(Run(start, steps[..n]), steps[n]);
    }
  }

  /** Older than its idle timeout, counted from the launch. */
  predicate Aged(c: Config, now: int) {
    c.idleTimeoutMs > 0.0 && (now - c.launchTimeMs) as real >= c.idleTimeoutMs
  }

  lemma MonitorRunsIff(i: Instance, now: int)
    requires FromLaunch(i)
    ensures Monitor(i, now).state == Running <==>
            i.state == Running && !TtlFires(i.cfg, now) && !CostFires(i.cfg) && !Aged(i.cfg, now)
  {
    LimitsTerminate(i.state == Running, i.cfg, i.lastActivityMs, now, false, true);
    assert IdleFires(i.cfg, i.lastActivityMs, now, true) <==> Aged(i.cfg, now);
  }

  lemma TickRunsIff(f: Fleet, now: Time, launches: seq<T.Spec>, drained: set<nat>, id: nat)
    requires Inv(f) && AllFromLaunch(f) && id in f.instances
    ensures var g, i := Apply(f, Tick(now, launches, drained)), AtTick(f, now, id);
            && id in g.instances
            && (g.instances[id].state == Running <==>
                  id !in drained && i.state == Running && !TtlFires(i.cfg, now) && !CostFires(i.cfg) &&
                    !Aged(i.cfg, now))
  {
    FleetRuns.TickKeeps(f, now, launches, drained, id);
    assert FromLaunch(f.instances[id]);
    MonitorRunsIff(AtTick(f, now, id), now);
  }

  lemma RestartedFleet(start: Time, steps: seq<Step>, id: nat, h: Fleet)
    requires id in Run(start, steps).instances && h == Apply(Run(start, steps), Act(id, DoStart))
    ensures Inv(h) && AllFromLaunch(h) && id in h.instances && h.instances[id].state == Running
  {
    RunInv(start, steps);
    IdleClockIsLaunch(start, steps);
    StepInv(Run(start, steps), Act(id, DoStart));
    StepFromLaunch(Run(start, steps), Act(id, DoStart));
  }

  /**
   * So when an instance is started, whatever was done to it before, it is still running after the next tick if and
   * only if its array is not drained, neither its TTL nor its cost limit fires, and it is younger than its idle
   * timeout: the start gives it no new idle time.
   */
  lemma RestartSurvivesIff(start: Time, steps: seq<Step>, now: Time, launches: seq<T.Spec>, drained: set<nat>, id: nat,
      h: Fleet)
    requires id in Run(start, steps).instances && h == Apply(Run(start, steps), Act(id, DoStart))
    ensures id in h.instances
    ensures var g, c := Apply(h, Tick(now, launches, drained)), AtTick(h, now, id).cfg;
            && id in g.instances
            && (g.instances[id].state == Running <==>
                  id !in drained && !TtlFires(c, now) && !CostFires(c) && !Aged(c, now))
  {
    RestartedFleet(start, steps, id, h);
    TickRunsIff(h, now, launches, drained, id);
  }

  // ---- A run in which a restart is in vain ----

  lemma LaunchedFleet(start: Time, spec: T.Spec)
    requires T.ValidSpec(spec)
    ensures Run(start, [Launch(spec)]) == Fleet(start, map[0 := Boot(spec, start)], 1)
  {
    FleetRuns.RunAppend(start, [], Launch(spec));
    assert [] + [Launch(spec)] == [Launch(spec)];
  }

  /** A tick at an age beyond the idle timeout leaves the instance not running. */
  lemma AgedStops(start: Time, steps: seq<Step>, now: Time, id: nat)
    requires id in Run(start, steps).instances && Aged(Run(start, steps).instances[id].cfg, now)
    ensures var g := Run(start, steps + [Tick(now, [], {})]);
            id in g.instances && g.instances[id].state != Running
  {
    RunInv(start, steps);
    IdleClockIsLaunch(start, steps);
    TickRunsIff(Run(start, steps), now, [], {}, id);
    FleetRuns.RunAppend(start, steps, Tick(now, [], {}));
  }

  /** What the steps of the run below keep of the settings: everything but the compute clock. */
  predicate SameRules(c: Config, d: Config) {
    WithoutClock(c) == WithoutClock(d)
  }

  lemma MonitorKeepsRules(i: Instance, dt: real, now: int)
    ensures SameRules(i.cfg, Monitor(Accrue(i, dt), now).cfg)
  {
  }

  lemma TickKeepsRules(f: Fleet, now: Time, launches: seq<T.Spec>, drained: set<nat>, id: nat)
    requires Inv(f) && id in f.instances
    ensures var g := Apply(f, Tick(now, launches, drained));
            id in g.instances && SameRules(f.instances[id].cfg, g.instances[id].cfg)
  {
    FleetRuns.TickKeeps(f, now, launches, drained, id);
    MonitorKeepsRules(f.instances[id], Elapsed(now, f.clock), now);
  }

  lemma ActKeepsRules(f: Fleet, act: UserAction, id: nat)
    requires id in f.instances
    ensures var g := Apply(f, Act(id, act)); id in g.instances && SameRules(f.instances[id].cfg, g.instances[id].cfg)
  {
  }

  lemma RulesKept(start: Time, steps: seq<Step>, step: Step, id: nat)
    requires id in Run(start, steps).instances && (step.Tick? || step.Act?)
    ensures id in Run(start, steps + [step]).instances
    ensures SameRules(Run(start, steps).instances[id].cfg, Run(start, steps + [step]).instances[id].cfg)
  {
    RunInv(start, steps);
    FleetRuns.RunAppend(start, steps, step);
    if step.Tick? {
      TickKeepsRules(Run(start, steps), step.now, step.launches, step.drained, id);
    } else if step.id == id {
      ActKeepsRules(Run(start, steps), step.act, id);
    }
  }

  lemma Started(start: Time, steps: seq<Step>, id: nat)
    requires id in Run(start, steps).instances
    ensures var g := Run(start, steps + [Act(id, DoStart)]); id in g.instances && g.instances[id].state == Running
  {
    FleetRuns.RunAppend(start, steps, Act(id, DoStart));
  }

  /** No TTL and no cost limit. */
  predicate OnlyIdle(c: Config) {
    c.ttlDeadlineMs == 0 && c.ttlMs == 0.0 && c.costLimit == 0.0
  }

  /** What idling makes of an instance. */
  function IdleState(c: Config): State {
    if c.hibernateOnIdle then Hibernated else Stopped
  }

  lemma MonitorIdles(i: Instance, now: int)
    requires FromLaunch(i) && i.state == Running && Aged(i.cfg, now) && OnlyIdle(i.cfg)
    ensures Monitor(i, now).state == IdleState(i.cfg)
  {
    assert !TtlFires(i.cfg, now) && !CostFires(i.cfg);
    assert IdleFires(i.cfg, i.lastActivityMs, now, true);
  }

  /** A tick at an age beyond the idle timeout idles a running instance that has no other limit. */
  lemma AgedIdles(start: Time, steps: seq<Step>, now: Time, id: nat, f: Fleet)
    requires f == Run(start, steps) && id in f.instances && f.instances[id].state == Running
    requires Aged(f.instances[id].cfg, now) && OnlyIdle(f.instances[id].cfg)
    ensures InState(start, steps + [Tick(now, [], {})], id, IdleState(f.instances[id].cfg))
  {
    RunInv(start, steps);
    IdleClockIsLaunch(start, steps);
    FleetRuns.TickKeeps(f, now, [], {}, id);
    assert FromLaunch(f.instances[id]);
    MonitorIdles(AtTick(f, now, id), now);
    FleetRuns.RunAppend(start, steps, Tick(now, [], {}));
  }

  predicate TickedOff(start: Time, steps: seq<Step>, id: nat) {
    var g := Run(start, steps); id in g.instances && g.instances[id].state != Running
  }

  predicate InState(start: Time, steps: seq<Step>, id: nat, state: State) {
    var g := Run(start, steps); id in g.instances && g.instances[id].state == state
  }

  function Once(spec: T.Spec, now: Time): seq<Step> {
    [Launch(spec)] + [Tick(now, [], {})]
  }

  /** The settings throughout the run. */
  lemma RunOfStop(start: Time, spec: T.Spec, now: Time)
    requires T.ValidSpec(spec)
    ensures var f, g := Run(start, [Launch(spec)]), Run(start, Once(spec, now));
            && 0 in f.instances && f.instances[0].state == Running && f.instances[0].cfg == NormalConfig(spec, start)
            && 0 in g.instances && SameRules(NormalConfig(spec, start), g.instances[0].cfg)
    ensures var h := Run(start, Once(spec, now) + [Act(0, DoStart)]);
            0 in h.instances && h.instances[0].state == Running &&
              SameRules(NormalConfig(spec, start), h.instances[0].cfg)
  {
    LaunchedFleet(start, spec);
    BootInv(spec, start);
    RulesKept(start, [Launch(spec)], Tick(now, [], {}), 0);
    RulesKept(start, Once(spec, now), Act(0, DoStart), 0);
    Started(start, Once(spec, now), 0);
  }

  /**
   * Launched, left idle, stopped by a tick, started again, and not running any more after the next one: hibernated if
   * the launch asked for it and stopped otherwise, both times, unless a TTL or a cost limit terminates it.
   */
  lemma StoppedAgain(start: Time, spec: T.Spec, now: Time, later: Time)
    requires T.ValidSpec(spec) && Aged(NormalConfig(spec, start), now) && now <= later
    ensures var again := Once(spec, now) + [Act(0, DoStart)] + [Tick(later, [], {})];
            && TickedOff(start, Once(spec, now), 0)
            && TickedOff(start, again, 0)
            && (spec.ttlMs <= 0.0 && spec.costLimit <= 0.0 ==>
                  var idled := if spec.hibernateOnIdle then Hibernated else Stopped;
                  InState(start, Once(spec, now), 0, idled) && InState(start, again, 0, idled))
  {
    RunOfStop(start, spec, now);
    var restarted := Once(spec, now) + [Act(0, DoStart)];
    AgedStops(start, [Launch(spec)], now, 0);
    AgedStops(start, restarted, later, 0);
    if spec.ttlMs <= 0.0 && spec.costLimit <= 0.0 {
      AgedIdles(start, [Launch(spec)], now, 0, Run(start, [Launch(spec)]));
      AgedIdles(start, restarted, later, 0, Run(start, restarted));
    }
  }
}
