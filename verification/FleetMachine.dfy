/**
 * The in-memory provider and the client's tick as the source writes them, updating records in place
 * (src/core/mock.ts:32-160, src/core/client.ts:215-247, 531-569), proved against the functions of `Fleet`.
 */
module FleetMachine {
  import opened Basics
  import T = Tags
  import TagBuild
  import opened TagDecode
  import opened Lifecycle
  import F = Fleet

  class MockProvider {
    var instances: map<nat, F.Instance>
    var idCounter: nat

    ghost function View(clock: F.Time): F.Fleet
      reads this
    {
      F.Fleet(clock, instances, idCounter)
    }

    constructor ()
      ensures instances == map[] && idCounter == 0
    {
      instances, idCounter := map[], 0;
    }

    /** Refuses what the tag builder refuses. */
    method Launch(spec: T.Spec, now: F.Time)
      requires T.ValidSweep(spec.sweep)
      modifies this
      ensures View(now) == F.LaunchOne(old(View(now)), spec)
      ensures spec.idleCpuPercent < 0.0 || spec.idleCpuPercent > 100.0 ==> View(now) == old(View(now))
    {
      var tags := TagBuild.BuildLaunchTags(spec, now, None);
      if tags.Some? {
        var id := idCounter;
        idCounter := idCounter + 1;
        var i := F.Instance(F.Running, tags.value, DecodeConfig(tags.value), now, 0.0, 0.0, 0, spec.ttlMs);
        instances := instances[id := i];
      }
    }

    /** `terminate`, `stop`, `start`, `hibernate`: no state is checked. False where the source throws. */
    method Request(id: nat, act: F.UserAction) returns (ok: bool)
      modifies this
      ensures ok == (id in old(instances))
      ensures forall clock: F.Time :: View(clock) == F.Apply(old(View(clock)), F.Act(id, act))
    {
      ok := id in instances;
      if ok {
        var i := instances[id];
        match act
        case DoTerminate => instances := instances[id := i.(state := F.Terminated)];
        case DoStop => instances := instances[id := i.(state := F.Stopped)];
        case DoStart =>
          var lastActivityMs := Max(i.lastActivityMs, i.cfg.launchTimeMs);
          instances := instances[id := i.(state := F.Running, lastActivityMs := lastActivityMs)];
        case DoHibernate => instances := instances[id := i.(state := F.Hibernated)];
        case SignalComplete => instances := instances[id := F.ApplyAction(i, ActionOf(i.cfg.onComplete))];
      }
    }

    /** Running instances accrue the time since `prev`. */
    method SimTick(now: F.Time, prev: F.Time)
      modifies this
      ensures idCounter == old(idCounter)
      ensures instances == map id | id in old(instances) :: F.Accrue(old(instances)[id], F.Elapsed(now, prev))
    {
      var dtSec := F.Elapsed(now, prev);
      ghost var before := instances;
      var rest := instances.Keys;
      while rest != {}
        invariant rest <= before.Keys == instances.Keys && idCounter == old(idCounter)
        invariant forall id :: id in before ==>
                    instances[id] == if id in rest then before[id] else F.Accrue(before[id], dtSec)
        decreases |rest|
      {
        var id :| id in rest;
        rest := rest - {id};
        var inst := instances[id];
        if inst.state == F.Running {
          var seconds := inst.cfg.computeSeconds + dtSec;
          instances := instances[id := inst.(
            cfg := inst.cfg.(computeSeconds := seconds),
            tags := inst.tags[T.Field(T.COMPUTE_SECONDS) := T.Amount(Round(seconds) as real)],
            ranSeconds := inst.ranSeconds + dtSec, lastTickSeconds := seconds)];
        }
      }
      assert instances == map id | id in before :: F.Accrue(before[id], dtSec);
    }
  }

  class SpawnClient {
    const provider: MockProvider
    var clockMs: F.Time

    ghost function View(): F.Fleet
      reads this, provider
    {
      provider.View(clockMs)
    }

    constructor (provider: MockProvider, startMs: F.Time)
      ensures this.provider == provider && clockMs == startMs
    {
      this.provider, clockMs := provider, startMs;
    }

    /** The first half of a tick: the clock, the accrual, and one evaluation for each instance, applied at once. */
    method Monitor(now: F.Time)
      modifies this, provider
      ensures View() == F.Monitored(old(View()), now)
    {
      var prev := clockMs;
      clockMs := now;
      ghost var start := provider.instances;
      provider.SimTick(now, prev);
      ghost var before := provider.instances;
      var rest := provider.instances.Keys;
      while rest != {}
        invariant clockMs == now && provider.idCounter == old(provider.idCounter)
        invariant rest <= before.Keys == provider.instances.Keys
        invariant forall id :: id in before ==>
                    provider.instances[id] == if id in rest then before[id] else F.Monitor(before[id], now)
        decreases |rest|
      {
        var id :| id in rest;
        rest := rest - {id};
        var inst := provider.instances[id];
        if inst.state == F.Running {
          var decision := Evaluate(true, inst.cfg, inst.lastActivityMs, now, false, true);
          if decision.Decide? {
            provider.instances := provider.instances[id := F.ApplyAction(inst, decision.action)];
          }
        }
      }
      assert provider.instances == map id | id in start :: F.Monitor(F.Accrue(start[id], F.Elapsed(now, prev)), now);
    }

    /** The launches of the fan-outs. */
    method PumpLaunches(specs: seq<T.Spec>)
      requires forall k :: 0 <= k < |specs| ==> T.ValidSweep(specs[k].sweep)
      modifies provider
      ensures View() == F.LaunchAll(old(View()), specs)
    {
      for k := 0 to |specs|
        invariant View() == F.LaunchAll(old(View()), specs[..k])
      {
        assert specs[..k + 1][..k] == specs[..k];
        provider.Launch(specs[k], clockMs);
      }
      assert specs[..|specs|] == specs;
    }

    /** The instances of arrays that cannot come up any more. */
    method Drain(ids: set<nat>)
      modifies provider
      ensures View() == F.Drained(old(View()), ids)
    {
      provider.instances := map id | id in provider.instances ::
        if id in ids then provider.instances[id].(state := F.Terminated) else provider.instances[id];
    }

    method Tick(now: F.Time, launches: seq<T.Spec>, drained: set<nat>)
      requires forall k :: 0 <= k < |launches| ==> T.ValidSweep(launches[k].sweep)
      modifies this, provider
      ensures View() == F.Apply(old(View()), F.Tick(now, launches, drained))
    {
      Monitor(now);
      PumpLaunches(launches);
      Drain(drained);
    }

    /** The new deadline, or a refusal where the source throws. */
    method Extend(id: nat, byMs: real) returns (r: ExtendResult)
      modifies provider
      ensures View() == F.Apply(old(View()), F.Extend(id, byMs))
      ensures r.NewDeadline? <==> id in old(provider.instances) && F.MayExtend(old(provider.instances)[id], byMs)
      ensures r.NewDeadline? ==>
                var before := TtlDeadline(old(provider.instances)[id].cfg);
                r.ms == (if before < clockMs as real then clockMs as real else before) + byMs
    {
      if id !in provider.instances { return NoExtension; }
      var i := provider.instances[id];
      if TtlDeadline(i.cfg) == 0.0 || byMs <= 0.0 { return NoExtension; }
      var ext := ComputeExtension(i.cfg, byMs, clockMs);
      var tags := i.tags + ext.tags;
      provider.instances := provider.instances[id :=
        i.(tags := tags, cfg := DecodeConfig(tags), extensions := i.extensions + 1, given := byMs)];
      return NewDeadline(ext.deadlineMs);
    }
  }

  datatype ExtendResult = NoExtension | NewDeadline(ms: real)
}
