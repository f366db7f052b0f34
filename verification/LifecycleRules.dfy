/**
 * When each lifecycle rule applies and which one decides (src/core/lifecycle.ts:44-57, 123-212), written out over the
 * settings, and what a completion signal does (src/core/mock.ts:85-106).
 */
module LifecycleRules {
  import opened Basics
  import J = JsonText
  import LC = LaunchConfig
  import opened TagDecode
  import opened Lifecycle
  import F = Fleet
  import O = Orphans
  import R = FleetRuns
  import T = Tags

  const EXIT: J.Text := [0x65, 0x78, 0x69, 0x74]
  const TERMINATE: J.Text := [0x74, 0x65, 0x72, 0x6d, 0x69, 0x6e, 0x61, 0x74, 0x65]
  const STOP: J.Text := [0x73, 0x74, 0x6f, 0x70]
  const HIBERNATE: J.Text := [0x68, 0x69, 0x62, 0x65, 0x72, 0x6e, 0x61, 0x74, 0x65]

  /** Past the absolute deadline, or past launch and TTL where there is none. */
  predicate TtlOver(c: Config, now: int) {
    if c.ttlDeadlineMs > 0 then now >= c.ttlDeadlineMs
    else c.ttlMs > 0.0 && c.launchTimeMs > 0 && (now - c.launchTimeMs) as real >= c.ttlMs
  }

  /** The compute seconds, priced by the hour, have reached the limit. */
  predicate CostOver(c: Config) {
    c.costLimit > 0.0 && c.pricePerHour > 0.0 && c.computeSeconds * c.pricePerHour >= c.costLimit * 3600.0
  }

  predicate IdleOver(c: Config, lastActivityMs: int, now: int) {
    c.idleTimeoutMs > 0.0 && now as real >= lastActivityMs as real + c.idleTimeoutMs
  }

  lemma TtlIff(c: Config, now: int)
    ensures TtlFires(c, now) <==> TtlOver(c, now)
  {
  }

  lemma CostIff(c: Config)
    ensures CostFires(c) <==> CostOver(c)
  {
    if c.pricePerHour > 0.0 {
      var cost := c.computeSeconds / 3600.0 * c.pricePerHour;
      assert cost * 3600.0 == c.computeSeconds * c.pricePerHour;
      ScaledOrder(cost, c.costLimit);
    }
  }

  lemma ScaledOrder(x: real, y: real)
    ensures x >= y <==> x * 3600.0 >= y * 3600.0
  {
  }

  lemma NamedActions(text: J.Text)
    ensures ActionOf(text) == Terminate <==> text == EXIT || text == TERMINATE
    ensures ActionOf(text) == Stop <==> text == STOP
    ensures ActionOf(text) == Hibernate <==> text == HIBERNATE
  {
    assert LC.Units("exit") == EXIT && LC.Units("terminate") == TERMINATE;
    assert LC.Units("stop") == STOP && LC.Units("hibernate") == HIBERNATE;
  }

  /** A signal that finds an on-complete setting comes first, and does what the setting names. */
  lemma CompletionDecides(c: Config, lastActivityMs: int, now: int, isIdle: bool)
    requires c.onComplete != []
    ensures var d := Evaluate(true, c, lastActivityMs, now, true, isIdle);
            && d.Decide? && d.rule == Completion
            && (d.action == Terminate <==> c.onComplete == EXIT || c.onComplete == TERMINATE)
            && (d.action == Stop <==> c.onComplete == STOP)
            && (d.action == Hibernate <==> c.onComplete == HIBERNATE)
  {
    NamedActions(c.onComplete);
  }

  /**
   * Without one, the first of three decides: the TTL, then the cost limit, both of which terminate, then idleness,
   * which stops or hibernates; with none of them, or for an instance that does not run, nothing does.
   */
  lemma FirstRuleDecides(c: Config, lastActivityMs: int, now: int, completionFile: bool, isIdle: bool)
    requires c.onComplete == [] || !completionFile
    ensures Evaluate(false, c, lastActivityMs, now, completionFile, isIdle) == Nothing
    ensures var d := Evaluate(true, c, lastActivityMs, now, completionFile, isIdle);
            if TtlOver(c, now) then d == Decide(Terminate, Ttl)
            else if CostOver(c) then d == Decide(Terminate, CostLimit)
            else if isIdle && IdleOver(c, lastActivityMs, now) then
              d == Decide(if c.hibernateOnIdle then Hibernate else Stop, Idle)
            else d == Nothing
  {
    TtlIff(c, now);
    CostIff(c);
  }

  /** A completion signal does to the record what the setting names, whatever its state, and otherwise nothing. */
  lemma SignalledState(i: F.Instance)
    ensures var j, action := F.Acted(i, F.SignalComplete), i.cfg.onComplete;
            && j == i.(state := j.state)
            && (action == EXIT || action == TERMINATE ==> j.state == F.Terminated)
            && (action == STOP ==> j.state == F.Stopped)
            && (action == HIBERNATE ==> j.state == F.Hibernated)
            && (action !in [EXIT, TERMINATE, STOP, HIBERNATE] ==> j.state == i.state)
  {
    NamedActions(i.cfg.onComplete);
  }

  /** An instance tagged with a TTL alone has its deadline that long after the launch, and is extended from there. */
  lemma TtlAlone(c: Config, byMs: real, now: int)
    requires c.ttlDeadlineMs == 0 && c.ttlMs > 0.0 && c.launchTimeMs > 0
    ensures TtlDeadline(c) == c.launchTimeMs as real + c.ttlMs
    ensures var end := c.launchTimeMs as real + c.ttlMs;
            ComputeExtension(c, byMs, now).deadlineMs == (if end > now as real then end else now as real) + byMs
  {
  }

  /** Without a grace of its own, orphan detection waits ten minutes past the deadline, and never without one. */
  lemma TenMinutes(live: bool, c: Config, now: int)
    ensures O.Overdue(O.Candidate(live, c), now, O.ORPHAN_GRACE_MS) <==>
              live && TtlDeadline(c) > 0.0 && now as real > TtlDeadline(c) + 10.0 * 60.0 * 1000.0
  {
  }

  // ---- Launches ----

  /** Running from the time given, with the settings of the spec as its tags record them. */
  predicate LaunchedAs(i: F.Instance, spec: T.Spec, now: F.Time) {
    i.state == F.Running && i.lastActivityMs == now && i.cfg == NormalConfig(spec, now)
  }

  /** How many of the specs are not refused. */
  function Launchable(specs: seq<T.Spec>): nat {
    if |specs| == 0 then 0
    else Launchable(specs[..|specs| - 1]) + (if T.ValidSpec(specs[|specs| - 1]) then 1 else 0)
  }

  lemma NextLaunch(f: F.Fleet, spec: T.Spec, other: nat)
    requires F.Inv(f)
    ensures var g := F.LaunchOne(f, spec);
            && g.nextId == f.nextId + (if T.ValidSpec(spec) then 1 else 0)
            && (T.ValidSpec(spec) ==> f.nextId in g.instances && LaunchedAs(g.instances[f.nextId], spec, f.clock))
            && (other in f.instances ==> other in g.instances && g.instances[other] == f.instances[other])
  {
    if T.ValidSpec(spec) { F.BootInv(spec, f.clock); }
  }

  /** Each launch that is not refused gets the next id, in order, and no id beyond theirs is given. */
  lemma {:induction false} LaunchesInOrder(f: F.Fleet, specs: seq<T.Spec>, k: nat)
    requires F.Inv(f)
    ensures F.LaunchAll(f, specs).nextId == f.nextId + Launchable(specs)
    ensures k < |specs| && T.ValidSpec(specs[k]) ==>
              var id, g := f.nextId + Launchable(specs[..k]), F.LaunchAll(f, specs);
              id in g.instances && LaunchedAs(g.instances[id], specs[k], f.clock)
  {
    if |specs| > 0 {
      var n := |specs| - 1;
      LaunchesInOrder(f, specs[..n], k);
      F.LaunchAllInv(f, specs[..n]);
      if k < n {
        assert specs[..n][..k] == specs[..k];
        if T.ValidSpec(specs[k]) {
          NextLaunch(F.LaunchAll(f, specs[..n]), specs[n], f.nextId + Launchable(specs[..k]));
        }
      }
      NextLaunch(F.LaunchAll(f, specs[..n]), specs[n], 0);
    }
  }

  /** So it is in a tick, unless a new instance is drained in it. */
  lemma TickLaunches(f: F.Fleet, now: F.Time, launches: seq<T.Spec>, drained: set<nat>, k: nat)
    requires F.Inv(f) && k < |launches| && T.ValidSpec(launches[k])
    requires f.nextId + Launchable(launches[..k]) !in drained
    ensures var id, g := f.nextId + Launchable(launches[..k]), F.Apply(f, F.Tick(now, launches, drained));
            id in g.instances && LaunchedAs(g.instances[id], launches[k], now)
  {
    var m := F.Monitored(f, now);
    F.MonitoredInv(f, now);
    LaunchesInOrder(m, launches, k);
  }
}
