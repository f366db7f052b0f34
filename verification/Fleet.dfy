/**
 * Runs of a fleet: launch, stop, start, hibernate, terminate, extend, completion signals and monitor ticks over the
 * in-memory provider (src/core/mock.ts:54-160, src/core/client.ts:215-278, 433-590). A tick is one step here: the
 * clock moves, running time accrues, every running instance is evaluated, and the fan-outs launch and wind down
 * members.
 */
module Fleet {
  import opened Basics
  import T = Tags
  import opened TagDecode
  import opened Lifecycle

  /** Milliseconds since the epoch. */
  type Time = t: int | t > 0 witness 1

  datatype State = Running | Stopped | Hibernated | Terminated

  /**
   * One instance. The last four fields are no part of the record the source keeps: the time it truly ran, its compute
   * seconds at the last tick it ran through, how often it was extended, and the duration last given, at launch or for
   * an extension.
   */
  datatype Instance = Instance(
    state: State, tags: T.TagMap, cfg: Config, lastActivityMs: int,
    ranSeconds: real, lastTickSeconds: real, extensions: nat, given: real)

  datatype Fleet = Fleet(clock: Time, instances: map<nat, Instance>, nextId: nat)

  /** What a user asks of one instance. */
  datatype UserAction = DoTerminate | DoStop | DoStart | DoHibernate | SignalComplete

  datatype Step =
    | Launch(spec: T.Spec)
    | Act(id: nat, act: UserAction)
    | Extend(id: nat, byMs: real)
    | Tick(now: Time, launches: seq<T.Spec>, drained: set<nat>)

  // ---- One instance ----

  function Boot(spec: T.Spec, now: int): Instance
    requires T.ValidSpec(spec)
  {
    var tags := T.LaunchTags(spec, now, None);
    Instance(Running, tags, DecodeConfig(tags), now, 0.0, 0.0, 0, spec.ttlMs)
  }

  function ApplyAction(i: Instance, a: Action): Instance {
    match a
    case Terminate => i.(state := Terminated)
    case Stop => i.(state := Stopped)
    case Hibernate => i.(state := Hibernated)
    case NoAction => i
  }

  /** `start` has no guard on the state. */
  function Restart(i: Instance): Instance {
    i.(state := Running, lastActivityMs := Max(i.lastActivityMs, i.cfg.launchTimeMs))
  }

  function Acted(i: Instance, act: UserAction): Instance {
    match act
    case DoTerminate => ApplyAction(i, Terminate)
    case DoStop => ApplyAction(i, Stop)
    case DoStart => Restart(i)
    case DoHibernate => ApplyAction(i, Hibernate)
    case SignalComplete => ApplyAction(i, ActionOf(i.cfg.onComplete))
  }

  /** `setTags` merges and decodes everything again, the compute seconds from their tag too. */
  function SetTags(i: Instance, more: T.TagMap): Instance {
    i.(tags := i.tags + more, cfg := DecodeConfig(i.tags + more))
  }

  /** `simTick` for one instance. */
  function Accrue(i: Instance, dt: real): Instance {
    if i.state != Running then i
    else
      var seconds := i.cfg.computeSeconds + dt;
      i.(
        cfg := i.cfg.(computeSeconds := seconds),
        tags := i.tags[T.Field(T.COMPUTE_SECONDS) := T.Amount(Round(seconds) as real)],
        ranSeconds := i.ranSeconds + dt,
        lastTickSeconds := seconds)
  }

  /** The tick's decision: no completion file is seen, and everything counts as idle. */
  function DecisionAt(i: Instance, now: int): Decision {
    Evaluate(i.state == Running, i.cfg, i.lastActivityMs, now, false, true)
  }

  function Monitor(i: Instance, now: int): Instance {
    var d := DecisionAt(i, now);
    if d.Decide? then ApplyAction(i, d.action) else i
  }

  function Extended(i: Instance, byMs: real, now: int): Instance {
    SetTags(i, ComputeExtension(i.cfg, byMs, now).tags).(extensions := i.extensions + 1, given := byMs)
  }

  /** `extend` refuses an instance without TTL and a duration that is not positive. */
  predicate MayExtend(i: Instance, byMs: real) {
    TtlDeadline(i.cfg) != 0.0 && byMs > 0.0
  }

  // ---- The fleet ----

  function Elapsed(now: int, before: int): (dt: real)
    ensures dt >= 0.0
  {
    if now > before then (now - before) as real / 1000.0 else 0.0
  }

  function LaunchOne(f: Fleet, spec: T.Spec): Fleet {
    if !T.ValidSpec(spec) then f
    else f.(instances := f.instances[f.nextId := Boot(spec, f.clock)], nextId := f.nextId + 1)
  }

  function LaunchAll(f: Fleet, specs: seq<T.Spec>): Fleet
    decreases |specs|
  {
    if |specs| == 0 then f else LaunchOne(LaunchAll(f, specs[..|specs| - 1]), specs[|specs| - 1])
  }

  /** The clock moves, time accrues, and every instance is evaluated. */
  function Monitored(f: Fleet, now: Time): Fleet {
    var dt := Elapsed(now, f.clock);
    Fleet(now, map id | id in f.instances :: Monitor(Accrue(f.instances[id], dt), now), f.nextId)
  }

  /** Members of arrays that cannot come up any more are terminated. */
  function Drained(f: Fleet, ids: set<nat>): Fleet {
    f.(instances := map id | id in f.instances ::
                      if id in ids then ApplyAction(f.instances[id], Terminate) else f.instances[id])
  }

  function Update(f: Fleet, id: nat, i: Instance): Fleet {
    f.(instances := f.instances[id := i])
  }

  function Apply(f: Fleet, step: Step): Fleet {
    match step
    case Launch(spec) => LaunchOne(f, spec)
    case Act(id, act) => if id in f.instances then Update(f, id, Acted(f.instances[id], act)) else f
    case Extend(id, byMs) =>
      if id in f.instances && MayExtend(f.instances[id], byMs)
      then Update(f, id, Extended(f.instances[id], byMs, f.clock)) else f
    case Tick(now, launches, drained) => Drained(LaunchAll(Monitored(f, now), launches), drained)
  }

  function Run(start: Time, steps: seq<Step>): Fleet {
    if |steps| == 0 then Fleet(start, map[], 0) else Apply(Run(start, steps[..|steps| - 1]), steps[|steps| - 1])
  }

  // ---- What holds of every instance in every run ----

  function WithoutClock(c: Config): Config {
    c.(computeSeconds := 0.0)
  }

  /** The record agrees with the tags, up to the rounding of the compute seconds. */
  predicate Agrees(i: Instance) {
    && WithoutClock(i.cfg) == WithoutClock(DecodeConfig(i.tags))
    && AmountAt(i.tags, T.COMPUTE_SECONDS) == Round(i.lastTickSeconds) as real
    && (i.cfg.computeSeconds == i.lastTickSeconds || i.cfg.computeSeconds == Round(i.lastTickSeconds) as real)
  }

  function Half(n: nat): real {
    n as real / 2.0
  }

  /** Compute seconds are within half a second per extension of the time the instance ran. */
  predicate ClockNear(i: Instance) {
    && i.ranSeconds - Half(i.extensions) <= i.cfg.computeSeconds <= i.ranSeconds + Half(i.extensions)
    && i.ranSeconds - Half(i.extensions) <= i.lastTickSeconds <= i.ranSeconds + Half(i.extensions)
  }

  /** The TTL pair agrees exactly when the fraction of the duration last given is below one half. */
  predicate PairFits(i: Instance) {
    i.cfg.ttlDeadlineMs > 0 ==> (PairAgrees(i.cfg) <==> !RoundsUp(i.given))
  }

  predicate InstanceInv(i: Instance) {
    Agrees(i) && Anchored(i.cfg) && PairFits(i) && ClockNear(i)
  }

  predicate Inv(f: Fleet) {
    && (forall id :: id in f.instances ==> InstanceInv(f.instances[id]))
    && (forall id :: id in f.instances ==> id < f.nextId)
  }

  lemma BootPair(spec: T.Spec, now: Time, c: Config)
    requires c == NormalConfig(spec, now)
    ensures Anchored(c) && (c.ttlDeadlineMs > 0 ==> (PairAgrees(c) <==> !RoundsUp(spec.ttlMs)))
  {
    if spec.ttlMs > 0.0 {
      TruncAdd(now, spec.ttlMs);
      PairOf(c, now, spec.ttlMs);
    }
  }

  lemma BootInv(spec: T.Spec, now: Time)
    requires T.ValidSpec(spec)
    ensures InstanceInv(Boot(spec, now))
    ensures Boot(spec, now).cfg == NormalConfig(spec, now)
  {
    ConfigDecodes(spec, now, None);
    BootPair(spec, now, NormalConfig(spec, now));
    RoundZero();
  }

  lemma RoundZero()
    ensures Round(0.0) == 0
  {
  }

  lemma StateKeepsInv(i: Instance, j: Instance)
    requires InstanceInv(i) && j == i.(state := j.state, lastActivityMs := j.lastActivityMs)
    ensures InstanceInv(j)
  {
  }

  lemma AccrueDecodes(tags: T.TagMap, seconds: real)
    ensures var more := tags[T.Field(T.COMPUTE_SECONDS) := T.Amount(seconds)];
            DecodeConfig(more) == DecodeConfig(tags).(computeSeconds := seconds)
  {
  }

  lemma AccrueKeeps(c: Config, seconds: real)
    ensures var d := c.(computeSeconds := seconds);
            Anchored(d) == Anchored(c) && PairAgrees(d) == PairAgrees(c) && WithoutClock(d) == WithoutClock(c)
  {
  }

  lemma AccrueAgrees(i: Instance, dt: real, read: Config, now: Config)
    requires i.state == Running && Agrees(i) && read == DecodeConfig(i.tags) && now == DecodeConfig(Accrue(i, dt).tags)
    requires now == read.(computeSeconds := Round(i.cfg.computeSeconds + dt) as real)
    ensures Agrees(Accrue(i, dt))
  {
    AccrueKeeps(i.cfg, i.cfg.computeSeconds + dt);
    AccrueKeeps(read, Round(i.cfg.computeSeconds + dt) as real);
  }

  lemma AccrueInv(i: Instance, dt: real)
    requires InstanceInv(i)
    ensures InstanceInv(Accrue(i, dt))
  {
    if i.state == Running {
      AccrueDecodes(i.tags, Round(i.cfg.computeSeconds + dt) as real);
      AccrueKeeps(i.cfg, i.cfg.computeSeconds + dt);
      AccrueAgrees(i, dt, DecodeConfig(i.tags), DecodeConfig(Accrue(i, dt).tags));
    }
  }

  lemma TtlWithoutClock(c: Config, d: Config)
    requires WithoutClock(c) == WithoutClock(d)
    ensures c == d.(computeSeconds := c.computeSeconds)
  {
    assert WithoutClock(c).(computeSeconds := c.computeSeconds) == c;
    assert WithoutClock(d).(computeSeconds := c.computeSeconds) == d.(computeSeconds := c.computeSeconds);
  }

  lemma SameExtension(c: Config, d: Config, byMs: real, now: int)
    requires c == d.(computeSeconds := c.computeSeconds)
    ensures ComputeExtension(c, byMs, now) == ComputeExtension(d, byMs, now)
    ensures Anchored(c) == Anchored(d) && c.ttlDeadlineMs == d.ttlDeadlineMs && TtlDeadline(c) == TtlDeadline(d)
  {
  }

  /**
   * An extension lands as computed from the settings read, whose compute seconds are those of the last tick, rounded.
   */
  lemma ExtendedLands(i: Instance, byMs: real, now: int)
    requires InstanceInv(i) && MayExtend(i, byMs)
    ensures Lands(i.cfg.(computeSeconds := Round(i.lastTickSeconds) as real), Extended(i, byMs, now).cfg, byMs, now)
  {
    var c := DecodeConfig(i.tags);
    TtlWithoutClock(i.cfg, c);
    TtlWithoutClock(c, i.cfg);
    SameExtension(i.cfg, c, byMs, now);
    ExtensionLands(i.tags, c, Extended(i, byMs, now).cfg, byMs, now);
  }

  lemma ExtendedInv(i: Instance, byMs: real, now: int)
    requires InstanceInv(i) && MayExtend(i, byMs)
    ensures InstanceInv(Extended(i, byMs, now))
  {
    var j := Extended(i, byMs, now);
    ExtendedLands(i, byMs, now);
    RoundNear(i.lastTickSeconds);
    ReadsSame(i.tags, ComputeExtension(i.cfg, byMs, now).tags, T.COMPUTE_SECONDS);
    assert j.cfg == DecodeConfig(j.tags) && j.cfg.computeSeconds == Round(i.lastTickSeconds) as real;
    assert Half(j.extensions) == Half(i.extensions) + 0.5;
  }

  lemma MonitoredInv(f: Fleet, now: Time)
    requires Inv(f)
    ensures Inv(Monitored(f, now))
  {
    var dt := Elapsed(now, f.clock);
    forall id | id in f.instances ensures InstanceInv(Monitored(f, now).instances[id]) {
      AccrueInv(f.instances[id], dt);
      StateKeepsInv(Accrue(f.instances[id], dt), Monitored(f, now).instances[id]);
    }
  }

  lemma LaunchOneInv(f: Fleet, spec: T.Spec)
    requires Inv(f)
    ensures Inv(LaunchOne(f, spec))
  {
    if T.ValidSpec(spec) { BootInv(spec, f.clock); }
  }

  lemma {:induction false} LaunchAllInv(f: Fleet, specs: seq<T.Spec>)
    requires Inv(f)
    ensures Inv(LaunchAll(f, specs)) && LaunchAll(f, specs).clock == f.clock
    decreases |specs|
  {
    if |specs| > 0 {
      LaunchAllInv(f, specs[..|specs| - 1]);
      LaunchOneInv(LaunchAll(f, specs[..|specs| - 1]), specs[|specs| - 1]);
    }
  }

  lemma DrainedInv(f: Fleet, ids: set<nat>)
    requires Inv(f)
    ensures Inv(Drained(f, ids))
  {
    forall id | id in f.instances ensures InstanceInv(Drained(f, ids).instances[id]) {
      StateKeepsInv(f.instances[id], Drained(f, ids).instances[id]);
    }
  }

  lemma UpdateInv(f: Fleet, id: nat, i: Instance)
    requires Inv(f) && id in f.instances && InstanceInv(i)
    ensures Inv(Update(f, id, i))
  {
  }

  lemma StepInv(f: Fleet, step: Step)
    requires Inv(f)
    ensures Inv(Apply(f, step))
  {
    match step
    case Launch(spec) => LaunchOneInv(f, spec);
    case Tick(now, launches, drained) =>
      MonitoredInv(f, now);
      LaunchAllInv(Monitored(f, now), launches);
      DrainedInv(LaunchAll(Monitored(f, now), launches), drained);
    case Extend(id, byMs) =>
      if id in f.instances && MayExtend(f.instances[id], byMs) {
        ExtendedInv(f.instances[id], byMs, f.clock);
        UpdateInv(f, id, Extended(f.instances[id], byMs, f.clock));
      }
    case Act(id, act) =>
      if id in f.instances {
        ActedInv(f.instances[id], act);
        UpdateInv(f, id, Acted(f.instances[id], act));
      }
  }

  lemma ActedShape(i: Instance, act: UserAction)
    ensures var j := Acted(i, act); j == i.(state := j.state, lastActivityMs := j.lastActivityMs)
  {
  }

  lemma ActedInv(i: Instance, act: UserAction)
    requires InstanceInv(i)
    ensures InstanceInv(Acted(i, act))
  {
    var j := Acted(i, act);
    ActedShape(i, act);
    StateKeepsInv(i, j);
  }

  /**
   * In every run, for every instance: record and tags agree; launch time plus TTL is the deadline or a millisecond
   * more, and exactly the deadline if and only if the duration last given has a fraction below one half; and the clock
   * is near.
   */
  lemma {:induction false} RunInv(start: Time, steps: seq<Step>)
    ensures Inv(Run(start, steps))
  {
    if |steps| > 0 {
      RunInv(start, steps[..|steps| - 1]);
      StepInv(Run(start, steps[..|steps| - 1]), steps[|steps| - 1]);
    }
  }
}
