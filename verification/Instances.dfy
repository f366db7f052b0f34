/**
 * The instances a fan-out creates: who owns them, and how many can be alive at once
 * (src/core/fanout.ts:350-405 with `SpawnClient.launch`, src/core/client.ts:433-497).
 *
 * A launch is two steps apart from its result: the provider creates the instance, then the client
 * refreshes its list. If the refresh fails the client terminates the instance again, unless
 * `keepOnError` is set or that terminate fails as well.
 */
module Instances {
  import opened Basics
  import opened FanOutModel
  import opened Gating
  import opened FanOutRuns

  /**
   * `alive`: the instances this fan-out created that are live. `created`: the one the launch in flight has
   * created. `stray`: those no member record will ever lead to again.
   */
  datatype World = World(
    fan: Fan, alive: set<InstanceId>, used: set<InstanceId>, created: Option<InstanceId>, stray: set<InstanceId>)

  datatype Action =
    | Pump(now: int, listed: set<InstanceId>)  // a pump reads the client's list of live instances
    | Create(id: InstanceId)                   // the provider creates the instance of the launch in flight
    | Launched                                 // the launch returns it
    | Refused                                  // the launch throws before creating anything
    | Undone                                   // it throws afterwards, and has terminated the instance
    | Leaked                                   // it throws afterwards, and the instance lives on
    | Dies(id: InstanceId)                     // an instance terminates, stops or hibernates
    | Starts(id: InstanceId)                   // one that did is started again

  function RunningIds(sts: seq<Status>): (ids: set<InstanceId>)
  {
    set i | 0 <= i < |sts| && sts[i].state.Running? && sts[i].instanceId.Some? :: sts[i].instanceId.value
  }

  function Start0(cfg: Config): World {
    World(Start(cfg), {}, {}, None, {})
  }

  function InFlight(w: World): set<InstanceId> {
    if w.created.Some? then {w.created.value} else {}
  }

  /** The instances that members lead to. */
  function Held(w: World): set<InstanceId> {
    RunningIds(w.fan.sts) + InFlight(w)
  }

  /** One action; an action that is not possible in a state changes nothing. */
  function Act(cfg: Config, w: World, a: Action): World
    requires Inv(cfg, w.fan)
  {
    match a
    case Pump(now, listed) =>
      if w.fan.frame.Some? then w
      else
        w.(fan := Begin(cfg, w.fan, now, listed),
           stray := w.stray + (RunningIds(w.fan.sts) * w.alive - listed))
    case Create(id) =>
      if w.fan.frame.Some? && w.created.None? && id !in w.used
      then w.(alive := w.alive + {id}, used := w.used + {id}, created := Some(id)) else w
    case Launched =>
      if w.fan.frame.Some? && w.created.Some?
      then w.(fan := Resume(cfg, w.fan, w.created), created := None) else w
    case Refused =>
      if w.fan.frame.Some? && w.created.None? then w.(fan := Resume(cfg, w.fan, None)) else w
    case Undone =>
      if w.fan.frame.Some? && w.created.Some?
      then w.(fan := Resume(cfg, w.fan, None), alive := w.alive - {w.created.value}, created := None) else w
    case Leaked =>
      if w.fan.frame.Some? && w.created.Some?
      then w.(fan := Resume(cfg, w.fan, None), created := None, stray := w.stray + {w.created.value}) else w
    case Dies(id) => w.(alive := w.alive - {id})
    case Starts(id) =>
      if id in w.used && id !in w.alive then w.(alive := w.alive + {id}, stray := w.stray + ({id} - Held(w))) else w
  }

  /** Two running members never share an instance. */
  predicate DistinctOwners(sts: seq<Status>) {
    forall i, j :: 0 <= i < j < |sts| && sts[i].state.Running? && sts[j].state.Running? ==>
      sts[i].instanceId != sts[j].instanceId
  }

  predicate Owned(cfg: Config, w: World) {
    && Inv(cfg, w.fan)
    && DistinctOwners(w.fan.sts)
    && (w.created.Some? ==> w.fan.frame.Some?)
    && RunningIds(w.fan.sts) + InFlight(w) + w.stray <= w.used
    && RunningIds(w.fan.sts) !! InFlight(w) !! w.stray
    && w.alive <= RunningIds(w.fan.sts) + InFlight(w) + w.stray
  }

  // ---- How a stretch of a pump changes the running members ----

  lemma BeginRunning(cfg: Config, f: Fan, now: int, live: set<InstanceId>)
    requires Inv(cfg, f) && f.frame.None?
    ensures var g := Begin(cfg, f, now, live);
            |g.sts| == |f.sts|
            && forall i :: 0 <= i < |f.sts| ==>
              g.sts[i].state.Running?
              == (f.sts[i].state.Running? && f.sts[i].instanceId.Some? && f.sts[i].instanceId.value in live)
              && (g.sts[i].state.Running? ==> g.sts[i] == f.sts[i])
  {
    var s1 := Reconcile(f.sts, live);
    GatingSettles(cfg, s1);
    ScanLaunch(cfg, f.(sts := ApplyGating(cfg, s1)), now, Count(s1, IsRunning), 0);
  }

  lemma ResumeRunning(cfg: Config, f: Fan, res: Option<InstanceId>)
    requires Inv(cfg, f) && f.frame.Some?
    ensures var g := Resume(cfg, f, res);
            |g.sts| == |f.sts|
            && (forall i :: 0 <= i < |f.sts| && i != f.frame.value.index ==>
                 g.sts[i].state.Running? == f.sts[i].state.Running? &&
                   (g.sts[i].state.Running? ==> g.sts[i] == f.sts[i]))
            && g.sts[f.frame.value.index].state.Running? == res.Some?
            && (res.Some? ==> g.sts[f.frame.value.index].instanceId == res)
  {
    var i := f.frame.value.index;
    var failed := f.sts[i := f.sts[i].(state := Failed)];
    GatingSettles(cfg, failed);
    ScanLaunch(cfg, Recorded(cfg, f, res), f.frame.value.now, ActiveAfter(f, res), i + 1);
  }

  lemma PumpRunningIds(cfg: Config, f: Fan, now: int, live: set<InstanceId>)
    requires Inv(cfg, f) && f.frame.None? && DistinctOwners(f.sts)
    ensures var g := Begin(cfg, f, now, live);
            RunningIds(g.sts) == RunningIds(f.sts) * live && DistinctOwners(g.sts)
  {
    BeginRunning(cfg, f, now, live);
    var g := Begin(cfg, f, now, live);
    forall id | id in RunningIds(f.sts) * live ensures id in RunningIds(g.sts) {
      var i :| 0 <= i < |f.sts| && f.sts[i].state.Running? && f.sts[i].instanceId == Some(id);
      assert g.sts[i].state.Running?;
    }
  }

  lemma ResumeRunningIds(cfg: Config, f: Fan, res: Option<InstanceId>)
    requires Inv(cfg, f) && f.frame.Some? && DistinctOwners(f.sts)
    requires res.Some? ==> res.value !in RunningIds(f.sts)
    ensures var g := Resume(cfg, f, res);
            RunningIds(g.sts) == RunningIds(f.sts) + (if res.Some? then {res.value} else {}) && DistinctOwners(g.sts)
  {
    ResumeRunning(cfg, f, res);
    var g := Resume(cfg, f, res);
    var i := f.frame.value.index;
    forall id | id in RunningIds(f.sts) ensures id in RunningIds(g.sts) {
      var j :| 0 <= j < |f.sts| && f.sts[j].state.Running? && f.sts[j].instanceId == Some(id);
      assert g.sts[j].state.Running?;
    }
    if res.Some? {
      assert g.sts[i].state.Running? && g.sts[i].instanceId == res;
    }
  }

  lemma ActOwned(cfg: Config, w: World, a: Action)
    requires Owned(cfg, w)
    ensures Owned(cfg, Act(cfg, w, a))
  {
    match a
    case Pump(now, listed) =>
      if w.fan.frame.None? {
        BeginInv(cfg, w.fan, now, listed);
        PumpRunningIds(cfg, w.fan, now, listed);
      }
    case Create(id) =>
    case Launched =>
      if w.fan.frame.Some? && w.created.Some? {
        ResumeInv(cfg, w.fan, w.created);
        ResumeRunningIds(cfg, w.fan, w.created);
      }
    case Refused =>
      if w.fan.frame.Some? {
        ResumeInv(cfg, w.fan, None);
        ResumeRunningIds(cfg, w.fan, None);
      }
    case Undone =>
      if w.fan.frame.Some? {
        ResumeInv(cfg, w.fan, None);
        ResumeRunningIds(cfg, w.fan, None);
      }
    case Leaked =>
      if w.fan.frame.Some? {
        ResumeInv(cfg, w.fan, None);
        ResumeRunningIds(cfg, w.fan, None);
      }
    case Dies(id) =>
    case Starts(id) =>
  }

  function After(cfg: Config, acts: seq<Action>): (w: World)
    ensures Owned(cfg, w)
  {
    if |acts| == 0 then
      assert RunningIds(Start(cfg).sts) == {};
      Start0(cfg)
    else
      var w := After(cfg, acts[..|acts| - 1]);
      ActOwned(cfg, w, acts[|acts| - 1]);
      Act(cfg, w, acts[|acts| - 1])
  }

  /** What an action is to the fan-out, if anything. */
  function EventOf(w: World, a: Action): seq<Event> {
    match a
    case Pump(now, listed) => [PumpCalled(now, listed)]
    case Launched => if w.created.Some? then [LaunchSettled(w.created)] else []
    case Refused => if w.created.None? then [LaunchSettled(None)] else []
    case Undone => if w.created.Some? then [LaunchSettled(None)] else []
    case Leaked => if w.created.Some? then [LaunchSettled(None)] else []
    case _ => []
  }

  function EventsOf(cfg: Config, acts: seq<Action>): seq<Event> {
    if |acts| == 0 then []
    else EventsOf(cfg, acts[..|acts| - 1]) + EventOf(After(cfg, acts[..|acts| - 1]), acts[|acts| - 1])
  }

  lemma ActIsStep(cfg: Config, w: World, h: Hist, a: Action)
    requires Owned(cfg, w) && w.fan == h.fan
    ensures var more := EventOf(w, a);
            && |more| <= 1
            && Act(cfg, w, a).fan == if more == [] then w.fan else Step(cfg, h, more[0]).fan
  {
  }

  /** The fan-out's part of a run is the run of its events: pumps, and a result for each launch however it ended. */
  lemma {:induction false} FanOutRunsOn(cfg: Config, acts: seq<Action>)
    ensures After(cfg, acts).fan == Run(cfg, EventsOf(cfg, acts)).fan
  {
    if |acts| > 0 {
      var before, a := acts[..|acts| - 1], acts[|acts| - 1];
      var evs, more := EventsOf(cfg, before), EventOf(After(cfg, before), a);
      FanOutRunsOn(cfg, before);
      ActIsStep(cfg, After(cfg, before), Run(cfg, evs), a);
      if |more| == 0 {
        assert evs + more == evs;
      } else {
        RunAppend(cfg, evs, more[0]);
        assert evs + more == evs + [more[0]];
      }
    }
  }

  // ---- Counting ----

  lemma {:induction false} RunningIdsCount(sts: seq<Status>)
    ensures |RunningIds(sts)| <= Count(sts, IsRunning)
  {
    if |sts| > 0 {
      var n := |sts| - 1;
      RunningIdsCount(sts[..n]);
      var last := if sts[n].state.Running? && sts[n].instanceId.Some? then {sts[n].instanceId.value} else {};
      assert RunningIds(sts) == RunningIds(sts[..n]) + last by {
        forall id | id in RunningIds(sts) ensures id in RunningIds(sts[..n]) + last {
          var i :| 0 <= i < |sts| && sts[i].state.Running? && sts[i].instanceId == Some(id);
          if i < n { assert sts[..n][i] == sts[i]; }
        }
        forall id | id in RunningIds(sts[..n]) ensures id in RunningIds(sts) {
          var i :| 0 <= i < n && sts[..n][i].state.Running? && sts[..n][i].instanceId == Some(id);
          assert sts[i] == sts[..n][i];
        }
      }
    }
  }

  lemma {:induction false} SubsetCardinality<T>(a: set<T>, b: set<T>)
    requires a <= b
    ensures |a| <= |b|
  {
    if a != {} {
      var x :| x in a;
      SubsetCardinality(a - {x}, b - {x});
    }
  }

  // ---- Main results ----

  /** A running member, or the launch in flight, that holds this instance. */
  ghost predicate HeldBy(w: World, id: InstanceId, i: nat) {
    && i < |w.fan.sts|
    && ((w.fan.sts[i].state.Running? && w.fan.sts[i].instanceId == Some(id))
        || (w.fan.frame.Some? && w.fan.frame.value.index == i && w.created == Some(id)))
  }

  /**
   * In every state of every run, a live instance is held by exactly one member, except the strays, which
   * no member holds; and the live instances that are not strays never outnumber the cap.
   */
  lemma InstancesConserved(cfg: Config, acts: seq<Action>)
    ensures var w := After(cfg, acts);
            && (forall id :: id in w.alive && id !in w.stray ==> exists i :: HeldBy(w, id, i))
            && (forall id, i, j :: HeldBy(w, id, i) && HeldBy(w, id, j) ==> i == j)
            && (forall id, i :: id in w.stray ==> !HeldBy(w, id, i))
            && |w.alive - w.stray| <= cfg.Cap()
  {
    var w := After(cfg, acts);
    var sts := w.fan.sts;
    forall id | id in w.alive && id !in w.stray ensures exists i :: HeldBy(w, id, i) {
      if id in RunningIds(sts) {
        var i :| 0 <= i < |sts| && sts[i].state.Running? && sts[i].instanceId == Some(id);
        assert HeldBy(w, id, i);
      } else {
        assert HeldBy(w, id, w.fan.frame.value.index);
      }
    }
    forall id, i | HeldBy(w, id, i) ensures id in RunningIds(sts) + InFlight(w) {
    }
    RunningIdsCount(sts);
    SubsetCardinality(w.alive - w.stray, RunningIds(sts) + InFlight(w));
  }

  /**
   * Every list a pump reads shows the running members' live instances, a launch that fails after creating its instance
   * leaves none alive, and no instance is started again that no member leads to any more.
   */
  predicate Faithful(w: World, a: Action) {
    match a
    case Pump(now, listed) => w.fan.frame.Some? || RunningIds(w.fan.sts) * w.alive <= listed
    case Leaked => w.fan.frame.None? || w.created.None? || w.created.value !in w.alive
    case Starts(id) => id !in w.used || id in w.alive || id in Held(w)
    case _ => true
  }

  predicate FaithfulRun(cfg: Config, acts: seq<Action>) {
    |acts| > 0 ==>
      && FaithfulRun(cfg, acts[..|acts| - 1])
      && Faithful(After(cfg, acts[..|acts| - 1]), acts[|acts| - 1])
  }

  /** Every live instance is held by a member. */
  ghost predicate AllHeld(w: World) {
    forall id :: id in w.alive ==> exists i :: HeldBy(w, id, i)
  }

  /** In no state of the run is a live instance out of sight. */
  ghost predicate AlwaysHeld(cfg: Config, acts: seq<Action>) {
    forall n: nat :: n <= |acts| ==> AllHeld(After(cfg, acts[..n]))
  }

  lemma HeldIffNoStray(cfg: Config, acts: seq<Action>)
    ensures AllHeld(After(cfg, acts)) <==> After(cfg, acts).stray !! After(cfg, acts).alive
  {
    InstancesConserved(cfg, acts);
  }

  /** With no live stray before, there is none after an action exactly when it was faithful. */
  lemma StrayAct(cfg: Config, w: World, a: Action)
    requires Owned(cfg, w) && w.stray !! w.alive
    ensures Act(cfg, w, a).stray !! Act(cfg, w, a).alive <==> Faithful(w, a)
  {
    var v := Act(cfg, w, a);
    match a
    case Pump(now, listed) =>
      if w.fan.frame.None? {
        assert v.stray * v.alive == RunningIds(w.fan.sts) * w.alive - listed;
      }
    case Leaked =>
      if w.fan.frame.Some? && w.created.Some? {
        assert v.stray * v.alive == if w.created.value in w.alive then {w.created.value} else {};
      }
    case Starts(id) =>
      if id in w.used && id !in w.alive {
        assert v.stray * v.alive == w.stray * {id} + ({id} - Held(w));
      }
    case _ =>
  }

  /**
   * Exactly the faithful runs never lose sight of an instance: in every state every live instance is held by a member,
   * if and only if no list was stale about a live instance, no created instance outlived its failed launch, and no
   * instance was started again after its member had completed or its launch had failed.
   */
  lemma {:induction false} ConservedIffFaithful(cfg: Config, acts: seq<Action>)
    ensures AlwaysHeld(cfg, acts) <==> FaithfulRun(cfg, acts)
  {
    assert acts[..|acts|] == acts;
    if |acts| == 0 {
      forall n: nat | n <= |acts| ensures AllHeld(After(cfg, acts[..n])) {
        assert acts[..n] == [];
      }
    } else {
      var before := acts[..|acts| - 1];
      ConservedIffFaithful(cfg, before);
      assert forall n: nat :: n < |acts| ==> before[..n] == acts[..n];
      assert AlwaysHeld(cfg, acts) <==> AlwaysHeld(cfg, before) && AllHeld(After(cfg, acts));
      assert before[..|before|] == before;
      HeldIffNoStray(cfg, before);
      HeldIffNoStray(cfg, acts);
      if AlwaysHeld(cfg, before) {
        assert AllHeld(After(cfg, before[..|before|]));
        StrayAct(cfg, After(cfg, before), acts[|acts| - 1]);
      }
    }
  }

  /** So in a faithful run there are never more instances alive than the cap. */
  lemma FaithfulRunsKeepTheCap(cfg: Config, acts: seq<Action>)
    requires FaithfulRun(cfg, acts)
    ensures |After(cfg, acts).alive| <= cfg.Cap()
  {
    ConservedIffFaithful(cfg, acts);
    assert acts[..|acts|] == acts;
    assert AllHeld(After(cfg, acts[..|acts|]));
    HeldIffNoStray(cfg, acts);
    InstancesConserved(cfg, acts);
    assert After(cfg, acts).alive - After(cfg, acts).stray == After(cfg, acts).alive;
  }

  // ---- A stale list does lose one ----

  const PAIR := Config([Member("a", [], None), Member("b", [], None)], 1, 0, 0, false, 1)

  lemma IndependentUngated(cfg: Config, sts: seq<Status>)
    requires Fits(cfg, sts) && !StopAll(cfg, sts)
    requires forall i :: 0 <= i < |sts| ==> cfg.members[i].dependsOn == [] && !sts[i].state.Blocked?
    ensures ApplyGating(cfg, sts) == sts
  {
    forall i | 0 <= i < |sts| && sts[i].state.NotStarted()
      ensures sts[i].state == Gate(cfg, sts, cfg.members[i].dependsOn, StopAll(cfg, sts))
    {
      assert DepsCompleted(cfg, sts, []) && !SomeDepLost(cfg, sts, []);
    }
    SettledPassIsStill(cfg, sts, 0);
  }

  /** What a pump of the pair starts with: the second member waiting, the first waiting or gone. */
  lemma PairPump(f: Fan, now: int)
    requires |f.sts| == 2 && f.frame.None?
    requires f.sts[1] == Status(Pending, None, 0)
    requires f.sts[0] == Status(Pending, None, 0) || f.sts[0] == Status(Running, Some("i-1"), 1)
    ensures var g := Begin(PAIR, f, now, {});
            if f.sts[0].state.Pending?
            then g.sts == [Status(Launching, None, 1), f.sts[1]] && g.frame == Some(Frame(now, 0, 0))
            else
              g.sts == [f.sts[0].(state := Completed), Status(Launching, None, 1)] && g.frame == Some(Frame(now, 0, 1))
  {
    var s1 := Reconcile(f.sts, {});
    CountNone(s1, IsLost);
    CountNone(s1, IsRunning);
    IndependentUngated(PAIR, s1);
    var g := f.(sts := s1);
    if f.sts[0].state.Pending? {
      assert Scan(PAIR, g, now, 0, 0).frame == Some(Frame(now, 0, 0));
    } else {
      assert Scan(PAIR, g, now, 0, 0) == Scan(PAIR, g, now, 0, 1);
      assert Scan(PAIR, g, now, 0, 1).frame == Some(Frame(now, 0, 1));
    }
  }

  lemma AfterAppend(cfg: Config, acts: seq<Action>, a: Action)
    ensures After(cfg, acts + [a]) == Act(cfg, After(cfg, acts), a)
  {
    assert (acts + [a])[..|acts|] == acts;
  }

  lemma PairResume(f: Fan)
    requires f.sts == [Status(Launching, None, 1), Status(Pending, None, 0)] && f.frame == Some(Frame(0, 0, 0))
    ensures var g := Resume(PAIR, f, Some("i-1"));
            g.sts == [Status(Running, Some("i-1"), 1), Status(Pending, None, 0)] && g.frame.None?
  {
    var g := Recorded(PAIR, f, Some("i-1"));
    assert Scan(PAIR, g, 0, 1, 1) == g.(frame := None);
  }

  lemma FirstCreated()
    ensures var w := After(PAIR, [Pump(0, {}), Create("i-1")]);
            && w.fan.sts == [Status(Launching, None, 1), Status(Pending, None, 0)]
            && w.fan.frame == Some(Frame(0, 0, 0))
            && w.alive == {"i-1"} && w.used == {"i-1"} && w.created == Some("i-1")
  {
    PairPump(Start(PAIR), 0);
    AfterAppend(PAIR, [], Pump(0, {}));
    assert [] + [Pump(0, {})] == [Pump(0, {})];
    AfterAppend(PAIR, [Pump(0, {})], Create("i-1"));
    assert [Pump(0, {})] + [Create("i-1")] == [Pump(0, {}), Create("i-1")];
  }

  /** The first member of the pair comes up as i-1. */
  lemma FirstUp()
    ensures var w := After(PAIR, [Pump(0, {}), Create("i-1"), Launched]);
            && w.fan.sts == [Status(Running, Some("i-1"), 1), Status(Pending, None, 0)] && w.fan.frame.None?
            && w.alive == {"i-1"} && w.used == {"i-1"} && w.created.None?
  {
    var created := [Pump(0, {}), Create("i-1")];
    FirstCreated();
    PairResume(After(PAIR, created).fan);
    AfterAppend(PAIR, created, Launched);
    assert created + [Launched] == [Pump(0, {}), Create("i-1"), Launched];
  }

  /** The second pump is launching again. */
  lemma SecondPumped()
    ensures var w := After(PAIR, [Pump(0, {}), Create("i-1"), Launched, Pump(1, {})]);
            w.fan.frame.Some? && w.alive == {"i-1"} && w.used == {"i-1"} && w.created.None?
  {
    var acts := [Pump(0, {}), Create("i-1"), Launched];
    FirstUp();
    PairPump(After(PAIR, acts).fan, 1);
    AfterAppend(PAIR, acts, Pump(1, {}));
    assert acts + [Pump(1, {})] == [Pump(0, {}), Create("i-1"), Launched, Pump(1, {})];
  }

  /**
   * The list a pump reads shows the first member's instance as gone while it is alive: a second one is launched under
   * a cap of one.
   */
  lemma StaleListOverrunsCap()
    ensures PAIR.Cap() == 1
    ensures |After(PAIR, [Pump(0, {}), Create("i-1"), Launched, Pump(1, {}), Create("i-2")]).alive| == 2
  {
    var acts := [Pump(0, {}), Create("i-1"), Launched, Pump(1, {})];
    SecondPumped();
    AfterAppend(PAIR, acts, Create("i-2"));
    assert acts + [Create("i-2")] == [Pump(0, {}), Create("i-1"), Launched, Pump(1, {}), Create("i-2")];
    assert "i-2" !in {"i-1"};
    assert After(PAIR, acts + [Create("i-2")]).alive == {"i-1", "i-2"};
  }

  /** The first member's instance stops. */
  lemma FirstStopped()
    ensures var w := After(PAIR, [Pump(0, {}), Create("i-1"), Launched, Dies("i-1")]);
            && w.fan.sts == [Status(Running, Some("i-1"), 1), Status(Pending, None, 0)] && w.fan.frame.None?
            && w.alive == {} && w.used == {"i-1"} && w.created.None?
  {
    FirstUp();
    var acts := [Pump(0, {}), Create("i-1"), Launched];
    AfterAppend(PAIR, acts, Dies("i-1"));
    assert acts + [Dies("i-1")] == [Pump(0, {}), Create("i-1"), Launched, Dies("i-1")];
  }

  /** A pump records the first member completed, and goes on to launch the second. */
  lemma FirstCompleted()
    ensures var w := After(PAIR, [Pump(0, {}), Create("i-1"), Launched, Dies("i-1"), Pump(1, {})]);
            && w.fan.sts == [Status(Completed, Some("i-1"), 1), Status(Launching, None, 1)] && w.fan.frame.Some?
            && w.alive == {} && w.used == {"i-1"} && w.created.None?
  {
    FirstStopped();
    var acts := [Pump(0, {}), Create("i-1"), Launched, Dies("i-1")];
    PairPump(After(PAIR, acts).fan, 1);
    AfterAppend(PAIR, acts, Pump(1, {}));
    assert acts + [Pump(1, {})] == [Pump(0, {}), Create("i-1"), Launched, Dies("i-1"), Pump(1, {})];
  }

  lemma SecondCreated()
    ensures var w := After(PAIR, [Pump(0, {}), Create("i-1"), Launched, Dies("i-1"), Pump(1, {}), Create("i-2")]);
            w.alive == {"i-2"} && w.used == {"i-1", "i-2"}
  {
    FirstCompleted();
    var acts := [Pump(0, {}), Create("i-1"), Launched, Dies("i-1"), Pump(1, {})];
    AfterAppend(PAIR, acts, Create("i-2"));
    assert acts + [Create("i-2")]
        == [Pump(0, {}), Create("i-1"), Launched, Dies("i-1"), Pump(1, {}), Create("i-2")];
  }

  /** Started again, it is a second live instance under a cap of one, with no stale list and no failed launch. */
  lemma RestartOverrunsCap()
    ensures var acts := [Pump(0, {}), Create("i-1"), Launched, Dies("i-1"), Pump(1, {}), Create("i-2"), Starts("i-1")];
            |After(PAIR, acts).alive| == 2
  {
    SecondCreated();
    var acts := [Pump(0, {}), Create("i-1"), Launched, Dies("i-1"), Pump(1, {}), Create("i-2")];
    AfterAppend(PAIR, acts, Starts("i-1"));
    assert acts + [Starts("i-1")]
        == [Pump(0, {}), Create("i-1"), Launched, Dies("i-1"), Pump(1, {}), Create("i-2"), Starts("i-1")];
    assert After(PAIR, acts + [Starts("i-1")]).alive == {"i-2"} + {"i-1"};
  }
}
