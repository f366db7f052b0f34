/**
 * The compute clock against the clock on the wall (src/core/mock.ts:122-132): what a run's ticks add up to, read from
 * the steps alone.
 */
module ComputeClock {
  import opened Basics
  import T = Tags
  import opened TagDecode
  import opened Lifecycle
  import opened Fleet
  import FleetRuns

  /** The time after a run: that of its last tick. */
  function LastTick(start: Time, steps: seq<Step>): Time {
    if |steps| == 0 then start
    else if steps[|steps| - 1].Tick? then steps[|steps| - 1].now
    else LastTick(start, steps[..|steps| - 1])
  }

  predicate RunningAt(start: Time, steps: seq<Step>, id: nat) {
    var f := Run(start, steps); id in f.instances && f.instances[id].state.Running?
  }

  /** The milliseconds of all ticks that found the instance running; a tick that turns the clock back has none. */
  function RanMs(start: Time, steps: seq<Step>, id: nat): nat {
    if |steps| == 0 then 0
    else
      var before, step := steps[..|steps| - 1], steps[|steps| - 1];
      RanMs(start, before, id)
      + (if step.Tick? && RunningAt(start, before, id) && step.now > LastTick(start, before)
         then step.now - LastTick(start, before) else 0)
  }

  /** How often an extension of the instance was asked for. */
  function Extensions(steps: seq<Step>, id: nat): nat {
    if |steps| == 0 then 0
    else
      var step := steps[|steps| - 1];
      Extensions(steps[..|steps| - 1], id) + (if step.Extend? && step.id == id then 1 else 0)
  }

  lemma {:induction false} ClockIsLastTick(start: Time, steps: seq<Step>)
    ensures Run(start, steps).clock == LastTick(start, steps)
  {
    if |steps| > 0 {
      var n := |steps| - 1;
      var f := Run(start, steps[..n]);
      ClockIsLastTick(start, steps[..n]);
      if steps[n].Tick? {
        LaunchAllClock(Monitored(f, steps[n].now), steps[n].launches);
      }
    }
  }

  lemma {:induction false} LaunchAllClock(f: Fleet, specs: seq<T.Spec>)
    ensures LaunchAll(f, specs).clock == f.clock
    decreases |specs|
  {
    if |specs| > 0 { LaunchAllClock(f, specs[..|specs| - 1]); }
  }

  /** The record's own account of running time and extensions. */
  predicate Accounts(f: Fleet, id: nat, ranMs: nat, extensions: nat) {
    id in f.instances ==>
      f.instances[id].ranSeconds * 1000.0 == ranMs as real && f.instances[id].extensions <= extensions
  }

  lemma LaunchAccounts(f: Fleet, spec: T.Spec, id: nat, ranMs: nat, extensions: nat)
    requires Inv(f) && Accounts(f, id, ranMs, extensions) && (id !in f.instances ==> ranMs == 0)
    ensures Accounts(LaunchOne(f, spec), id, ranMs, extensions)
    ensures id !in LaunchOne(f, spec).instances ==> ranMs == 0
  {
  }

  lemma {:induction false} LaunchAllAccounts(f: Fleet, specs: seq<T.Spec>, id: nat, ranMs: nat, extensions: nat)
    requires Inv(f) && Accounts(f, id, ranMs, extensions) && (id !in f.instances ==> ranMs == 0)
    ensures Accounts(LaunchAll(f, specs), id, ranMs, extensions)
    ensures id !in LaunchAll(f, specs).instances ==> ranMs == 0
    decreases |specs|
  {
    if |specs| > 0 {
      LaunchAllAccounts(f, specs[..|specs| - 1], id, ranMs, extensions);
      LaunchAllInv(f, specs[..|specs| - 1]);
      LaunchAccounts(LaunchAll(f, specs[..|specs| - 1]), specs[|specs| - 1], id, ranMs, extensions);
    }
  }

  /** What a tick adds for an instance. */
  function Added(running: bool, now: Time, clock: Time): nat {
    if running && now > clock then now - clock else 0
  }

  lemma AccruedMs(i: Instance, now: Time, clock: Time)
    ensures var j := Monitor(Accrue(i, Elapsed(now, clock)), now);
            && j.ranSeconds * 1000.0 == i.ranSeconds * 1000.0 + Added(i.state.Running?, now, clock) as real
            && j.extensions == i.extensions
  {
    var ms := (if now > clock then now - clock else 0) as real;
    assert Elapsed(now, clock) * 1000.0 == ms;
  }

  lemma MonitoredAccounts(f: Fleet, now: Time, id: nat, ranMs: nat, extensions: nat)
    requires Accounts(f, id, ranMs, extensions)
    ensures Accounts(Monitored(f, now), id,
                     ranMs + Added(id in f.instances && f.instances[id].state.Running?, now, f.clock), extensions)
  {
    if id in f.instances { AccruedMs(f.instances[id], now, f.clock); }
  }

  lemma TickAccounts(f: Fleet, now: Time, launches: seq<T.Spec>, drained: set<nat>, id: nat, ranMs: nat,
      extensions: nat)
    requires Inv(f) && Accounts(f, id, ranMs, extensions) && (id !in f.instances ==> ranMs == 0)
    ensures var more := ranMs + Added(id in f.instances && f.instances[id].state.Running?, now, f.clock);
            && Accounts(Apply(f, Tick(now, launches, drained)), id, more, extensions)
            && (id !in Apply(f, Tick(now, launches, drained)).instances ==> more == 0)
  {
    var more := ranMs + Added(id in f.instances && f.instances[id].state.Running?, now, f.clock);
    MonitoredAccounts(f, now, id, ranMs, extensions);
    MonitoredInv(f, now);
    LaunchAllAccounts(Monitored(f, now), launches, id, more, extensions);
  }

  lemma RequestAccounts(f: Fleet, step: Step, id: nat, ranMs: nat, extensions: nat)
    requires (step.Act? || step.Extend?) && Accounts(f, id, ranMs, extensions) && (id !in f.instances ==> ranMs == 0)
    ensures Accounts(Apply(f, step), id, ranMs, extensions + (if step.Extend? && step.id == id then 1 else 0))
    ensures id !in Apply(f, step).instances ==> ranMs == 0
  {
  }

  lemma {:induction false} RunAccounts(start: Time, steps: seq<Step>, id: nat)
    ensures Accounts(Run(start, steps), id, RanMs(start, steps, id), Extensions(steps, id))
    ensures id !in Run(start, steps).instances ==> RanMs(start, steps, id) == 0
  {
    if |steps| > 0 {
      var n := |steps| - 1;
      var f, ranMs, extensions := Run(start, steps[..n]), RanMs(start, steps[..n], id), Extensions(steps[..n], id);
      RunAccounts(start, steps[..n], id);
      RunInv(start, steps[..n]);
      ClockIsLastTick(start, steps[..n]);
      match steps[n]
      case Tick(now, launches, drained) => TickAccounts(f, now, launches, drained, id, ranMs, extensions);
      case Launch(spec) => LaunchAccounts(f, spec, id, ranMs, extensions);
      case Act(_, _) => RequestAccounts(f, steps[n], id, ranMs, extensions);
      case Extend(_, _) => RequestAccounts(f, steps[n], id, ranMs, extensions);
    }
  }

  /**
   * In every run the compute seconds of an instance are, in milliseconds, the time of the ticks that found it running,
   * to within 500 for each extension asked for.
   */
  lemma ClockStaysNear(start: Time, steps: seq<Step>, id: nat)
    requires id in Run(start, steps).instances
    ensures var ms := Run(start, steps).instances[id].cfg.computeSeconds * 1000.0;
            && ms <= (RanMs(start, steps, id) + 500 * Extensions(steps, id)) as real
            && ms >= (RanMs(start, steps, id) - 500 * Extensions(steps, id)) as real
  {
    RunInv(start, steps);
    RunAccounts(start, steps, id);
    Near(Run(start, steps).instances[id], RanMs(start, steps, id), Extensions(steps, id));
  }

  lemma Near(i: Instance, ranMs: nat, extensions: nat)
    requires ClockNear(i) && i.ranSeconds * 1000.0 == ranMs as real && i.extensions <= extensions
    ensures var ms := i.cfg.computeSeconds * 1000.0;
            ms <= (ranMs + 500 * extensions) as real && ms >= (ranMs - 500 * extensions) as real
  {
    assert Half(i.extensions) * 1000.0 == (500 * i.extensions) as real;
  }

  /** Without an extension it is that time exactly. */
  lemma ClockIsExact(start: Time, steps: seq<Step>, id: nat)
    requires id in Run(start, steps).instances && Extensions(steps, id) == 0
    ensures Run(start, steps).instances[id].cfg.computeSeconds == RanMs(start, steps, id) as real / 1000.0
  {
    ClockStaysNear(start, steps, id);
  }
}
