/**
 * What every run of a fleet guarantees: the TTL stays anchored and only an extension moves it, a tick leaves nothing
 * to decide, and a cost limit is overshot by at most one tick and half a second (src/core/lifecycle.ts:51-212,
 * src/core/mock.ts:97-150, src/core/client.ts:215-278, 531-569).
 */
module FleetRuns {
  import opened Basics
  import T = Tags
  import opened TagDecode
  import opened Lifecycle
  import opened Fleet
  import opened Orphans

  // ---- The TTL is anchored to the launch ----

  predicate SameTtl(c: Config, d: Config) {
    c.launchTimeMs == d.launchTimeMs && c.ttlDeadlineMs == d.ttlDeadlineMs && c.ttlMs == d.ttlMs
  }

  lemma {:induction false} LaunchAllKeeps(f: Fleet, specs: seq<T.Spec>, id: nat)
    requires Inv(f) && id in f.instances
    ensures id in LaunchAll(f, specs).instances && LaunchAll(f, specs).instances[id] == f.instances[id]
    decreases |specs|
  {
    if |specs| > 0 {
      LaunchAllKeeps(f, specs[..|specs| - 1], id);
      LaunchAllIds(f, specs[..|specs| - 1]);
    }
  }

  lemma {:induction false} LaunchAllIds(f: Fleet, specs: seq<T.Spec>)
    ensures f.nextId <= LaunchAll(f, specs).nextId
    decreases |specs|
  {
    if |specs| > 0 { LaunchAllIds(f, specs[..|specs| - 1]); }
  }

  /** What a tick makes of an instance that was there before. */
  lemma TickKeeps(f: Fleet, now: Time, launches: seq<T.Spec>, drained: set<nat>, id: nat)
    requires Inv(f) && id in f.instances
    ensures var g, i := Apply(f, Tick(now, launches, drained)),
              Monitor(Accrue(f.instances[id], Elapsed(now, f.clock)), now);
            && id in g.instances && g.clock == now
            && g.instances[id] == if id in drained then ApplyAction(i, Terminate) else i
  {
    MonitoredInv(f, now);
    LaunchAllKeeps(Monitored(f, now), launches, id);
    LaunchAllInv(Monitored(f, now), launches);
  }

  lemma TickKeepsTtl(f: Fleet, now: Time, launches: seq<T.Spec>, drained: set<nat>, id: nat)
    requires Inv(f) && id in f.instances
    ensures var g := Apply(f, Tick(now, launches, drained));
            id in g.instances && SameTtl(f.instances[id].cfg, g.instances[id].cfg)
  {
    TickKeeps(f, now, launches, drained, id);
  }

  lemma ActKeepsTtl(i: Instance, act: UserAction)
    ensures SameTtl(i.cfg, Acted(i, act).cfg)
  {
  }

  lemma StepKeepsTtl(f: Fleet, step: Step, id: nat)
    requires Inv(f) && id in f.instances && !(step.Extend? && step.id == id)
    ensures id in Apply(f, step).instances && SameTtl(f.instances[id].cfg, Apply(f, step).instances[id].cfg)
  {
    match step
    case Tick(now, launches, drained) => TickKeepsTtl(f, now, launches, drained, id);
    case Act(other, act) => ActKeepsTtl(f.instances[id], act);
    case _ =>
  }

  /** Launches, stops, starts, ticks and extensions of others leave an instance's TTL alone. */
  lemma OnlyExtendMoves(start: Time, steps: seq<Step>, step: Step, id: nat)
    requires id in Run(start, steps).instances && !(step.Extend? && step.id == id)
    ensures id in Apply(Run(start, steps), step).instances
    ensures SameTtl(Run(start, steps).instances[id].cfg, Apply(Run(start, steps), step).instances[id].cfg)
  {
    RunInv(start, steps);
    StepKeepsTtl(Run(start, steps), step, id);
  }

  /**
   * An extension is refused without a TTL or a positive duration, and otherwise lands at max(deadline, now) + by, cut
   * to its millisecond. The pair agrees exactly when the fraction of `by` is below one half, and the TTL rule fires at
   * that moment exactly when an overdue instance got less than a millisecond.
   */
  lemma ExtendMoves(start: Time, steps: seq<Step>, id: nat, byMs: real)
    requires id in Run(start, steps).instances
    ensures var f, i := Run(start, steps), Run(start, steps).instances[id];
            var g := Apply(f, Extend(id, byMs));
            if i.cfg.ttlDeadlineMs > 0 && byMs > 0.0 then
              && id in g.instances
              && g.instances[id].cfg.ttlDeadlineMs == Max(i.cfg.ttlDeadlineMs, f.clock) + byMs.Floor
              && g.instances[id].state == i.state
              && (PairAgrees(g.instances[id].cfg) <==> !RoundsUp(byMs))
              && (TtlFires(g.instances[id].cfg, f.clock) <==> i.cfg.ttlDeadlineMs <= f.clock && byMs < 1.0)
            else g == f
  {
    var f := Run(start, steps);
    RunInv(start, steps);
    if MayExtend(f.instances[id], byMs) {
      ExtendedLands(f.instances[id], byMs, f.clock);
    }
  }

  /**
   * In every run, an instance with a TTL has the pair agree exactly when the duration last given has a fraction below
   * one half.
   */
  lemma PairAgreesIff(start: Time, steps: seq<Step>, id: nat)
    requires id in Run(start, steps).instances && Run(start, steps).instances[id].cfg.ttlDeadlineMs > 0
    ensures var i := Run(start, steps).instances[id];
            && i.cfg.launchTimeMs as real + i.cfg.ttlMs
               == (i.cfg.ttlDeadlineMs + if RoundsUp(i.given) then 1 else 0) as real
            && (PairAgrees(i.cfg) <==> !RoundsUp(i.given))
  {
    RunInv(start, steps);
  }

  // ---- A tick leaves nothing to decide ----

  predicate Quiet(f: Fleet) {
    forall id :: id in f.instances ==> DecisionAt(f.instances[id], f.clock) == Nothing
  }

  lemma MonitorQuiet(i: Instance, now: int)
    ensures DecisionAt(Monitor(i, now), now) == Nothing
  {
  }

  /** A TTL below a millisecond: the deadline is cut to the launch itself. */
  predicate TooShort(spec: T.Spec) {
    T.ValidSpec(spec) && 0.0 < spec.ttlMs < 1.0
  }

  predicate NoneTooShort(specs: seq<T.Spec>) {
    forall k :: 0 <= k < |specs| ==> !TooShort(specs[k])
  }

  /**
   * A new instance has cost nothing and was active just now, so there is nothing to decide unless its deadline is now.
   */
  lemma BootQuietIff(spec: T.Spec, now: Time)
    requires T.ValidSpec(spec)
    ensures DecisionAt(Boot(spec, now), now) == Nothing <==> !TooShort(spec)
  {
    BootInv(spec, now);
    BootDeadline(spec, now);
    FreshDecision(NormalConfig(spec, now), now);
  }

  /** With nothing spent and activity just now only the TTL rule can fire. */
  lemma FreshDecision(c: Config, now: int)
    requires c.computeSeconds == 0.0
    ensures Evaluate(true, c, now, now, false, true) == Nothing <==> !TtlFires(c, now)
  {
    ZeroCost(c.pricePerHour);
    assert AccumulatedCost(c.pricePerHour, 0.0) == 0.0;
  }

  lemma BootDeadline(spec: T.Spec, now: Time)
    requires T.ValidSpec(spec)
    ensures TtlDeadline(NormalConfig(spec, now)) == if spec.ttlMs > 0.0 then (now + spec.ttlMs.Floor) as real else 0.0
    ensures TtlFires(NormalConfig(spec, now), now) <==> TooShort(spec)
  {
    if spec.ttlMs > 0.0 { TruncAdd(now, spec.ttlMs); }
  }

  lemma ZeroCost(p: real)
    ensures 0.0 / 3600.0 * p == 0.0
  {
  }

  lemma LaunchOneQuiet(f: Fleet, spec: T.Spec)
    requires Inv(f)
    ensures Quiet(LaunchOne(f, spec)) <==> Quiet(f) && !TooShort(spec)
  {
    if T.ValidSpec(spec) {
      BootQuietIff(spec, f.clock);
      var g := LaunchOne(f, spec);
      assert g.instances[f.nextId] == Boot(spec, f.clock);
      assert forall id :: id in f.instances ==> g.instances[id] == f.instances[id];
    }
  }

  lemma {:induction false} LaunchAllQuiet(f: Fleet, specs: seq<T.Spec>)
    requires Inv(f) && Quiet(f)
    ensures Quiet(LaunchAll(f, specs)) <==> NoneTooShort(specs)
    decreases |specs|
  {
    if |specs| > 0 {
      var before := specs[..|specs| - 1];
      LaunchAllQuiet(f, before);
      LaunchAllInv(f, before);
      LaunchOneQuiet(LaunchAll(f, before), specs[|specs| - 1]);
      assert NoneTooShort(specs) <==> NoneTooShort(before) && !TooShort(specs[|specs| - 1]);
    }
  }

  lemma MonitoredQuiet(f: Fleet, now: Time)
    ensures Quiet(Monitored(f, now))
  {
    forall id | id in f.instances ensures DecisionAt(Monitored(f, now).instances[id], now) == Nothing {
      MonitorQuiet(Accrue(f.instances[id], Elapsed(now, f.clock)), now);
    }
  }

  lemma DrainedQuiet(f: Fleet, ids: set<nat>)
    requires Quiet(f)
    ensures Quiet(Drained(f, ids))
  {
    forall id | id in f.instances ensures DecisionAt(Drained(f, ids).instances[id], f.clock) == Nothing {
    }
  }

  lemma NoneDrained(f: Fleet)
    ensures Drained(f, {}) == f
  {
    assert Drained(f, {}).instances == f.instances;
  }

  /**
   * After a tick, evaluating any instance again at the same time decides nothing, the ones just launched included,
   * unless the tick launched one with a TTL below a millisecond; then, with no array drained, there is something to
   * decide.
   */
  lemma TickQuiesces(f: Fleet, now: Time, launches: seq<T.Spec>, drained: set<nat>)
    requires Inv(f)
    ensures NoneTooShort(launches) ==> Quiet(Apply(f, Tick(now, launches, drained)))
    ensures drained == {} ==> (Quiet(Apply(f, Tick(now, launches, drained))) <==> NoneTooShort(launches))
  {
    var m := Monitored(f, now);
    MonitoredQuiet(f, now);
    MonitoredInv(f, now);
    LaunchAllQuiet(m, launches);
    if NoneTooShort(launches) { DrainedQuiet(LaunchAll(m, launches), drained); }
    NoneDrained(LaunchAll(m, launches));
  }

  function AsCandidate(i: Instance): Candidate {
    Candidate(i.state == Running, i.cfg)
  }

  /** A running instance with a TTL has its deadline ahead, or now. */
  predicate OnTime(i: Instance, now: int) {
    i.state == Running && TtlDeadline(i.cfg) > 0.0 ==> TtlDeadline(i.cfg) >= now as real
  }

  predicate AllOnTime(f: Fleet) {
    forall id :: id in f.instances ==> OnTime(f.instances[id], f.clock)
  }

  lemma BootOnTime(spec: T.Spec, now: Time)
    requires T.ValidSpec(spec)
    ensures OnTime(Boot(spec, now), now)
  {
    BootInv(spec, now);
    BootDeadline(spec, now);
  }

  lemma {:induction false} LaunchAllOnTime(f: Fleet, specs: seq<T.Spec>)
    requires AllOnTime(f)
    ensures AllOnTime(LaunchAll(f, specs)) && LaunchAll(f, specs).clock == f.clock
    decreases |specs|
  {
    if |specs| > 0 {
      LaunchAllOnTime(f, specs[..|specs| - 1]);
      if T.ValidSpec(specs[|specs| - 1]) { BootOnTime(specs[|specs| - 1], f.clock); }
    }
  }

  lemma MonitoredOnTime(f: Fleet, now: Time)
    ensures AllOnTime(Monitored(f, now))
  {
    MonitoredQuiet(f, now);
  }

  lemma DrainedOnTime(f: Fleet, ids: set<nat>)
    requires AllOnTime(f)
    ensures AllOnTime(Drained(f, ids))
  {
    forall id | id in f.instances ensures OnTime(Drained(f, ids).instances[id], f.clock) {
    }
  }

  /** After a tick no instance is an orphan, whatever it launched and whatever the grace. */
  lemma NoOrphansAfterTick(f: Fleet, now: Time, launches: seq<T.Spec>, drained: set<nat>, graceMs: nat)
    ensures var g := Apply(f, Tick(now, launches, drained));
            forall id :: id in g.instances ==> !Overdue(AsCandidate(g.instances[id]), now, graceMs)
  {
    var m := Monitored(f, now);
    var g := Apply(f, Tick(now, launches, drained));
    MonitoredOnTime(f, now);
    LaunchAllOnTime(m, launches);
    DrainedOnTime(LaunchAll(m, launches), drained);
    forall id | id in g.instances ensures !Overdue(AsCandidate(g.instances[id]), now, graceMs) {
      assert OnTime(g.instances[id], now);
    }
  }

  // ---- Termination ----

  /** A request that changes the state of a terminated instance. */
  predicate Revives(i: Instance, act: UserAction) {
    match act
    case DoTerminate => false
    case SignalComplete => ActionOf(i.cfg.onComplete) == Stop || ActionOf(i.cfg.onComplete) == Hibernate
    case _ => true
  }

  /** The step revives the instance, which is terminated. */
  predicate RevivesIn(f: Fleet, step: Step, id: nat) {
    && id in f.instances && f.instances[id].state == Terminated
    && step.Act? && step.id == id && Revives(f.instances[id], step.act)
  }

  lemma ActOnTerminated(i: Instance, act: UserAction)
    requires i.state == Terminated
    ensures Acted(i, act).state == Terminated <==> !Revives(i, act)
  {
  }

  /** A step keeps a terminated instance terminated exactly when it does not revive it. */
  lemma StepKeepsTerminated(f: Fleet, step: Step, id: nat)
    requires Inv(f) && id in f.instances && f.instances[id].state == Terminated
    ensures id in Apply(f, step).instances
    ensures Apply(f, step).instances[id].state == Terminated <==> !RevivesIn(f, step, id)
  {
    match step
    case Tick(now, launches, drained) => TickKeeps(f, now, launches, drained, id);
    case Act(other, act) => if other == id { ActOnTerminated(f.instances[id], act); }
    case _ =>
  }

  lemma RunAppend(start: Time, steps: seq<Step>, step: Step)
    ensures Run(start, steps + [step]) == Apply(Run(start, steps), step)
  {
    assert (steps + [step])[..|steps|] == steps;
  }

  predicate TerminatedAt(start: Time, steps: seq<Step>, id: nat) {
    var f := Run(start, steps); id in f.instances && f.instances[id].state == Terminated
  }

  /** From step n on nothing revives the instance. */
  predicate NeverRevived(start: Time, steps: seq<Step>, n: nat, id: nat) {
    forall k :: n <= k < |steps| ==> !RevivesIn(Run(start, steps[..k]), steps[k], id)
  }

  lemma TerminatedNext(start: Time, steps: seq<Step>, k: nat, id: nat)
    requires k < |steps| && TerminatedAt(start, steps[..k], id)
    ensures TerminatedAt(start, steps[..k + 1], id) <==> !RevivesIn(Run(start, steps[..k]), steps[k], id)
  {
    RunInv(start, steps[..k]);
    StepKeepsTerminated(Run(start, steps[..k]), steps[k], id);
    RunAppend(start, steps[..k], steps[k]);
    assert steps[..k] + [steps[k]] == steps[..k + 1];
  }

  lemma StillTerminated(start: Time, steps: seq<Step>, k: nat, m: nat, id: nat)
    requires k < |steps| && m == k + 1 && TerminatedAt(start, steps[..k], id)
    requires !RevivesIn(Run(start, steps[..k]), steps[k], id)
    ensures TerminatedAt(start, steps[..m], id)
  {
    TerminatedNext(start, steps, k, id);
  }

  lemma {:induction false} TerminatedUpTo(start: Time, steps: seq<Step>, n: nat, m: nat, id: nat)
    requires n <= m <= |steps| && TerminatedAt(start, steps[..n], id) && NeverRevived(start, steps, n, id)
    ensures TerminatedAt(start, steps[..m], id)
    decreases m - n
  {
    if n < m {
      TerminatedUpTo(start, steps, n, m - 1, id);
      StillTerminated(start, steps, m - 1, m, id);
    }
  }

  /**
   * Termination is final in exactly the runs in which nobody stops, starts or hibernates the terminated instance, nor
   * signals completion to one whose on-complete action is to stop or hibernate.
   */
  lemma TerminatedStays(start: Time, steps: seq<Step>, n: nat, id: nat)
    requires n <= |steps| && TerminatedAt(start, steps[..n], id)
    ensures (forall m :: n <= m <= |steps| ==> TerminatedAt(start, steps[..m], id)) <==>
              NeverRevived(start, steps, n, id)
  {
    if NeverRevived(start, steps, n, id) {
      forall m | n <= m <= |steps| ensures TerminatedAt(start, steps[..m], id) {
        TerminatedUpTo(start, steps, n, m, id);
      }
    }
    if forall m :: n <= m <= |steps| ==> TerminatedAt(start, steps[..m], id) {
      forall k | n <= k < |steps| ensures !RevivesIn(Run(start, steps[..k]), steps[k], id) {
        assert TerminatedAt(start, steps[..k], id) && TerminatedAt(start, steps[..k + 1], id);
        TerminatedNext(start, steps, k, id);
      }
    }
  }

  /** A run that does: any launch, terminated and started again, runs. */
  lemma StartRevives(start: Time, spec: T.Spec)
    requires T.ValidSpec(spec)
    ensures TerminatedAt(start, [Launch(spec), Act(0, DoTerminate)], 0)
    ensures var g := Run(start, [Launch(spec), Act(0, DoTerminate), Act(0, DoStart)]);
            0 in g.instances && g.instances[0].state == Running
  {
    RunAppend(start, [], Launch(spec));
    assert [] + [Launch(spec)] == [Launch(spec)];
    RunAppend(start, [Launch(spec)], Act(0, DoTerminate));
    assert [Launch(spec)] + [Act(0, DoTerminate)] == [Launch(spec), Act(0, DoTerminate)];
    RunAppend(start, [Launch(spec), Act(0, DoTerminate)], Act(0, DoStart));
    assert [Launch(spec), Act(0, DoTerminate)] + [Act(0, DoStart)] ==
             [Launch(spec), Act(0, DoTerminate), Act(0, DoStart)];
  }

  // ---- Cost ----

  /** At the last tick it ran through, an instance not terminated was below its cost limit. */
  predicate Affordable(i: Instance) {
    i.state != Terminated && i.cfg.costLimit > 0.0 && i.cfg.pricePerHour > 0.0 ==>
      AccumulatedCost(i.cfg.pricePerHour, i.lastTickSeconds) < i.cfg.costLimit
  }

  predicate AffordableAt(f: Fleet, id: nat) {
    id in f.instances ==> Affordable(f.instances[id])
  }

  lemma MonitorAffordable(i: Instance, dt: real, now: int)
    requires InstanceInv(i) && Affordable(i)
    ensures Affordable(Monitor(Accrue(i, dt), now))
  {
    if i.state == Running {
      var j := Accrue(i, dt);
      assert j.cfg.computeSeconds == j.lastTickSeconds;
    }
  }

  lemma BootAffordable(spec: T.Spec, now: Time)
    requires T.ValidSpec(spec)
    ensures Affordable(Boot(spec, now))
  {
    BootInv(spec, now);
    ZeroCost(Boot(spec, now).cfg.pricePerHour);
  }

  lemma LaunchOneAffordable(f: Fleet, spec: T.Spec, id: nat)
    requires AffordableAt(f, id)
    ensures AffordableAt(LaunchOne(f, spec), id)
  {
    if T.ValidSpec(spec) { BootAffordable(spec, f.clock); }
  }

  lemma {:induction false} LaunchAllAffordable(f: Fleet, specs: seq<T.Spec>, id: nat)
    requires AffordableAt(f, id)
    ensures AffordableAt(LaunchAll(f, specs), id)
    decreases |specs|
  {
    if |specs| > 0 {
      LaunchAllAffordable(f, specs[..|specs| - 1], id);
      LaunchOneAffordable(LaunchAll(f, specs[..|specs| - 1]), specs[|specs| - 1], id);
    }
  }

  lemma MonitoredAffordable(f: Fleet, now: Time, id: nat)
    requires Inv(f) && AffordableAt(f, id)
    ensures AffordableAt(Monitored(f, now), id)
  {
    if id in f.instances { MonitorAffordable(f.instances[id], Elapsed(now, f.clock), now); }
  }

  lemma DrainedAffordable(f: Fleet, ids: set<nat>, id: nat)
    requires AffordableAt(f, id)
    ensures AffordableAt(Drained(f, ids), id)
  {
  }

  lemma TickAffordable(f: Fleet, now: Time, launches: seq<T.Spec>, drained: set<nat>, id: nat)
    requires Inv(f) && AffordableAt(f, id)
    ensures AffordableAt(Apply(f, Tick(now, launches, drained)), id)
  {
    MonitoredAffordable(f, now, id);
    LaunchAllAffordable(Monitored(f, now), launches, id);
    DrainedAffordable(LaunchAll(Monitored(f, now), launches), drained, id);
  }

  lemma ActAffordable(i: Instance, act: UserAction)
    requires Affordable(i) && (i.state == Terminated ==> !Revives(i, act))
    ensures Affordable(Acted(i, act))
  {
    if i.state == Terminated { ActOnTerminated(i, act); }
  }

  lemma ExtendAffordable(i: Instance, byMs: real, now: int)
    requires InstanceInv(i) && Affordable(i) && MayExtend(i, byMs)
    ensures Affordable(Extended(i, byMs, now))
  {
    ExtendedLands(i, byMs, now);
  }

  lemma StepAffordable(f: Fleet, step: Step, id: nat)
    requires Inv(f) && AffordableAt(f, id) && !RevivesIn(f, step, id)
    ensures AffordableAt(Apply(f, step), id)
  {
    match step
    case Tick(now, launches, drained) => TickAffordable(f, now, launches, drained, id);
    case Launch(spec) => LaunchOneAffordable(f, spec, id);
    case Extend(other, byMs) =>
      if other == id && id in f.instances && MayExtend(f.instances[id], byMs) {
        ExtendAffordable(f.instances[id], byMs, f.clock);
      }
    case Act(other, act) => if other == id && id in f.instances { ActAffordable(f.instances[id], act); }
  }

  lemma {:induction false} RunAffordable(start: Time, steps: seq<Step>, id: nat)
    requires NeverRevived(start, steps, 0, id)
    ensures AffordableAt(Run(start, steps), id)
  {
    if |steps| > 0 {
      var n := |steps| - 1;
      assert forall k :: 0 <= k < n ==> steps[..n][..k] == steps[..k] && steps[..n][k] == steps[k];
      assert NeverRevived(start, steps[..n], 0, id);
      RunAffordable(start, steps[..n], id);
      RunInv(start, steps[..n]);
      assert !RevivesIn(Run(start, steps[..n]), steps[n], id);
      StepAffordable(Run(start, steps[..n]), steps[n], id);
    }
  }

  /** The price of a tick and half a second. */
  function Overshoot(pricePerHour: real, dt: real): real {
    pricePerHour * (dt + 0.5) / 3600.0
  }

  /** At least the limit, and below it plus the price of the tick and half a second. */
  predicate CostWithin(c: Config, dt: real) {
    c.costLimit <= AccumulatedCost(c.pricePerHour, c.computeSeconds) < c.costLimit + Overshoot(c.pricePerHour, dt)
  }

  lemma CostBound(limit: real, price: real, last: real, seconds: real, dt: real)
    requires price > 0.0 && AccumulatedCost(price, last) < limit && seconds <= last + (dt + 0.5)
    ensures AccumulatedCost(price, seconds) < limit + Overshoot(price, dt)
  {
    CostMono(price, seconds, last + (dt + 0.5));
    CostSplit(price, last, dt + 0.5);
  }

  lemma SecondsNear(i: Instance)
    requires Agrees(i)
    ensures i.cfg.computeSeconds <= i.lastTickSeconds + 0.5
  {
    RoundNear(i.lastTickSeconds);
  }

  lemma OvershootOf(i: Instance, dt: real)
    requires InstanceInv(i) && Affordable(i) && i.state == Running && CostFires(Accrue(i, dt).cfg) && dt >= 0.0
    ensures CostWithin(Accrue(i, dt).cfg, dt)
  {
    SecondsNear(i);
    AccruedCost(i.cfg, Accrue(i, dt).cfg, i.lastTickSeconds, dt);
  }

  lemma AccruedCost(c: Config, d: Config, last: real, dt: real)
    requires d == c.(computeSeconds := c.computeSeconds + dt) && c.computeSeconds <= last + 0.5 && CostFires(d)
    requires AccumulatedCost(c.pricePerHour, last) < c.costLimit
    ensures CostWithin(d, dt)
  {
    CostBound(c.costLimit, c.pricePerHour, last, c.computeSeconds + dt, dt);
  }

  /** A tick at `now` terminates the instance for its cost limit. */
  predicate EndsForCost(f: Fleet, now: Time, id: nat)
    requires id in f.instances
  {
    DecisionAt(Accrue(f.instances[id], Elapsed(now, f.clock)), now) == Decide(Terminate, CostLimit)
  }

  lemma OnlyCostFires(i: Instance, dt: real, now: int)
    requires DecisionAt(Accrue(i, dt), now) == Decide(Terminate, CostLimit)
    ensures i.state == Running && CostFires(Accrue(i, dt).cfg)
  {
  }

  lemma OvershootIn(f: Fleet, now: Time, id: nat)
    requires Inv(f) && AffordableAt(f, id) && id in f.instances && EndsForCost(f, now, id)
    ensures CostWithin(Accrue(f.instances[id], Elapsed(now, f.clock)).cfg, Elapsed(now, f.clock))
  {
    var i, dt := f.instances[id], Elapsed(now, f.clock);
    OnlyCostFires(i, dt, now);
    OvershootOf(i, dt);
  }

  /** What running that many seconds costs, by the hour. */
  lemma CostByTheHour(pricePerHour: real, seconds: real)
    requires pricePerHour > 0.0
    ensures AccumulatedCost(pricePerHour, seconds) == seconds * pricePerHour / 3600.0
  {
    assert seconds / 3600.0 * pricePerHour == seconds * pricePerHour / 3600.0;
  }

  /**
   * When a tick terminates an instance for its cost limit, its running time costs at least the limit, and less than the
   * limit and the price of the tick and half a second, however often it was stopped, started and extended, as long as
   * it was not revived after a termination.
   */
  lemma CostOvershoot(start: Time, steps: seq<Step>, now: Time, id: nat, f: Fleet, c: Config, d: Config)
    requires f == Run(start, steps) && id in f.instances
    requires NeverRevived(start, steps, 0, id) && EndsForCost(f, now, id)
    requires c == f.instances[id].cfg && d == Accrue(f.instances[id], Elapsed(now, f.clock)).cfg
    ensures InTime(c, d, if now > f.clock then now - f.clock else 0)
  {
    RunInv(start, steps);
    RunAffordable(start, steps, id);
    OvershootAt(f, now, id, c, d);
  }

  lemma OvershootAt(f: Fleet, now: Time, id: nat, c: Config, d: Config)
    requires Inv(f) && AffordableAt(f, id) && id in f.instances && EndsForCost(f, now, id)
    requires c == f.instances[id].cfg && d == Accrue(f.instances[id], Elapsed(now, f.clock)).cfg
    ensures InTime(c, d, if now > f.clock then now - f.clock else 0)
  {
    var dt := Elapsed(now, f.clock);
    OvershootIn(f, now, id);
    OnlyCostFires(f.instances[id], dt, now);
    assert d == c.(computeSeconds := c.computeSeconds + dt);
    WrittenOut(c, d, dt, if now > f.clock then now - f.clock else 0);
  }

  /** The cost at a tick of so many milliseconds that ends an instance for its cost limit. */
  predicate InTime(c: Config, d: Config, dtMs: int) {
    && d.computeSeconds == c.computeSeconds + dtMs as real / 1000.0
    && c.costLimit <= d.computeSeconds * c.pricePerHour / 3600.0
    && d.computeSeconds * c.pricePerHour / 3600.0
       < c.costLimit + c.pricePerHour * (dtMs as real / 1000.0 + 0.5) / 3600.0
  }

  lemma WrittenOut(c: Config, d: Config, dt: real, dtMs: int)
    requires d == c.(computeSeconds := c.computeSeconds + dt) && dt == dtMs as real / 1000.0
    requires CostFires(d) && CostWithin(d, dt)
    ensures InTime(c, d, dtMs)
  {
    CostByTheHour(c.pricePerHour, d.computeSeconds);
  }
}
