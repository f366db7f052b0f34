/**
 * Why members are skipped, and when a failure ends the whole set (src/core/fanout.ts:260-280, 418-463): in every state
 * of every run, told by the members' own states, the dependencies they name and the two options that stop a set.
 */
module Skips {
  import opened Basics
  import opened FanOutModel
  import opened Gating
  import opened FanOutRuns

  /** Member i depends on member d: the last one declared with a key it names. */
  predicate NamesMember(cfg: Config, i: nat, d: nat) {
    && i < |cfg.members| && d < |cfg.members|
    && cfg.members[d].key in cfg.members[i].dependsOn
    && forall j :: d < j < |cfg.members| ==> cfg.members[j].key != cfg.members[d].key
  }

  predicate DependencyGone(cfg: Config, sts: seq<Status>, i: nat)
    requires Fits(cfg, sts)
  {
    exists d :: 0 <= d < |sts| && NamesMember(cfg, i, d) && (sts[d].state.Failed? || sts[d].state.Skipped?)
  }

  predicate KeyDone(cfg: Config, sts: seq<Status>, i: nat, key: string)
    requires Fits(cfg, sts)
  {
    exists d :: 0 <= d < |sts| && NamesMember(cfg, i, d) && cfg.members[d].key == key && sts[d].state.Completed?
  }

  predicate DependenciesDone(cfg: Config, sts: seq<Status>, i: nat)
    requires Fits(cfg, sts) && i < |sts|
  {
    forall k :: 0 <= k < |cfg.members[i].dependsOn| ==> KeyDone(cfg, sts, i, cfg.members[i].dependsOn[k])
  }

  /** A failure under the stop option, or too few members left that have neither failed nor been skipped. */
  predicate Halted(cfg: Config, sts: seq<Status>) {
    || (cfg.stopOnFailure && exists i :: 0 <= i < |sts| && sts[i].state.Failed?)
    || Count(sts, Remains) < cfg.minViable
  }

  predicate Remains(s: Status) { !s.state.Failed? && !s.state.Skipped? }

  // ---- The same conditions as the engine's ----

  lemma {:induction false} LookupLast(members: seq<Member>, d: nat)
    requires d < |members| && forall j :: d < j < |members| ==> members[j].key != members[d].key
    ensures Lookup(members, members[d].key) == Some(d)
  {
    if d < |members| - 1 { LookupLast(members[..|members| - 1], d); }
  }

  lemma GoneIff(cfg: Config, sts: seq<Status>, i: nat)
    requires Fits(cfg, sts) && i < |sts|
    ensures SomeDepLost(cfg, sts, cfg.members[i].dependsOn) <==> DependencyGone(cfg, sts, i)
  {
    var deps := cfg.members[i].dependsOn;
    if SomeDepLost(cfg, sts, deps) {
      var k :| 0 <= k < |deps| && DepLost(cfg, sts, deps[k]);
      var d := Lookup(cfg.members, deps[k]).value;
      assert NamesMember(cfg, i, d);
    }
    if DependencyGone(cfg, sts, i) {
      var d :| 0 <= d < |sts| && NamesMember(cfg, i, d) && (sts[d].state.Failed? || sts[d].state.Skipped?);
      LookupLast(cfg.members, d);
      var k :| 0 <= k < |deps| && deps[k] == cfg.members[d].key;
      assert DepLost(cfg, sts, deps[k]);
    }
  }

  lemma KeyDoneIff(cfg: Config, sts: seq<Status>, i: nat, key: string)
    requires Fits(cfg, sts) && i < |sts| && key in cfg.members[i].dependsOn
    ensures DepCompleted(cfg, sts, key) <==> KeyDone(cfg, sts, i, key)
  {
    if DepCompleted(cfg, sts, key) {
      assert NamesMember(cfg, i, Lookup(cfg.members, key).value);
    }
    if d :| 0 <= d < |sts| && NamesMember(cfg, i, d) && cfg.members[d].key == key && sts[d].state.Completed? {
      LookupLast(cfg.members, d);
    }
  }

  lemma DoneIff(cfg: Config, sts: seq<Status>, i: nat)
    requires Fits(cfg, sts) && i < |sts|
    ensures DepsCompleted(cfg, sts, cfg.members[i].dependsOn) <==> DependenciesDone(cfg, sts, i)
  {
    var deps := cfg.members[i].dependsOn;
    forall k | 0 <= k < |deps| ensures DepCompleted(cfg, sts, deps[k]) <==> KeyDone(cfg, sts, i, deps[k]) {
      KeyDoneIff(cfg, sts, i, deps[k]);
    }
  }

  lemma {:induction false} RemainsIsRest(sts: seq<Status>)
    ensures Count(sts, Remains) + Count(sts, IsLost) == |sts|
  {
    if |sts| > 0 { RemainsIsRest(sts[..|sts| - 1]); }
  }

  lemma HaltedIff(cfg: Config, sts: seq<Status>)
    ensures StopAll(cfg, sts) <==> Halted(cfg, sts)
  {
    RemainsIsRest(sts);
  }

  // ---- Why a member is skipped ----

  predicate Cause(cfg: Config, sts: seq<Status>, i: nat)
    requires Fits(cfg, sts) && i < |sts|
  {
    SomeDepLost(cfg, sts, cfg.members[i].dependsOn) || StopAll(cfg, sts)
  }

  predicate AllForCause(cfg: Config, sts: seq<Status>)
    requires Fits(cfg, sts)
  {
    forall i :: 0 <= i < |sts| && sts[i].state.Skipped? ==> Cause(cfg, sts, i)
  }

  /** No cause goes away. */
  lemma CauseStays(cfg: Config, a: seq<Status>, b: seq<Status>, i: nat)
    requires Fits(cfg, a) && |a| == |b| && i < |a| && Cause(cfg, a, i)
    requires forall j :: 0 <= j < |a| && a[j].state.Lost() ==> b[j].state == a[j].state
    ensures Cause(cfg, b, i)
  {
    if StopAll(cfg, a) {
      StopAllMono(cfg, a, b);
    } else {
      SomeDepLostMono(cfg, a, b, cfg.members[i].dependsOn);
    }
  }

  /** What gating skips it has a cause to skip, in the outcome. */
  lemma SkipHasCause(cfg: Config, sts: seq<Status>, i: nat)
    requires Fits(cfg, sts) && i < |sts| && sts[i].state.NotStarted() && ApplyGating(cfg, sts)[i].state.Skipped?
    ensures Cause(cfg, ApplyGating(cfg, sts), i)
  {
    var out := ApplyGating(cfg, sts);
    GatingSettles(cfg, sts);
    SkippedIffDoomedOrStopped(cfg, sts, i);
    if !StopAll(cfg, out) {
      var path :| DoomPath(cfg, sts, path) && path[0] == i;
      if |path| > 2 {
        var tail := path[1..];
        assert forall k :: 0 <= k < |tail| ==> tail[k] == path[k + 1];
        PathIsLost(cfg, sts, out, tail);
      }
      DependencyLost(cfg, out, i, path[1]);
    }
  }

  lemma GatingForCause(cfg: Config, sts: seq<Status>)
    requires Fits(cfg, sts) && AllForCause(cfg, sts)
    ensures AllForCause(cfg, ApplyGating(cfg, sts))
  {
    var out := ApplyGating(cfg, sts);
    GatingSettles(cfg, sts);
    forall i | 0 <= i < |out| && out[i].state.Skipped? ensures Cause(cfg, out, i) {
      if sts[i].state.NotStarted() {
        SkipHasCause(cfg, sts, i);
      } else {
        CauseStays(cfg, sts, out, i);
      }
    }
  }

  /** A change that loses or skips nobody new keeps every cause. */
  lemma OthersForCause(cfg: Config, a: seq<Status>, b: seq<Status>)
    requires Fits(cfg, a) && |a| == |b| && AllForCause(cfg, a)
    requires forall j :: 0 <= j < |a| ==>
               (a[j].state.Lost() ==> b[j].state == a[j].state) && (b[j].state.Skipped? ==> a[j].state.Skipped?)
    ensures AllForCause(cfg, b)
  {
    forall i | 0 <= i < |b| && b[i].state.Skipped? ensures Cause(cfg, b, i) {
      CauseStays(cfg, a, b, i);
    }
  }

  lemma PumpForCause(cfg: Config, f: Fan, now: int, live: set<InstanceId>)
    requires Inv(cfg, f) && f.frame.None? && AllForCause(cfg, f.sts)
    ensures AllForCause(cfg, Begin(cfg, f, now, live).sts)
  {
    var s1 := Reconcile(f.sts, live);
    var g := f.(sts := ApplyGating(cfg, s1));
    OthersForCause(cfg, f.sts, s1);
    GatingForCause(cfg, s1);
    ScanLaunch(cfg, g, now, Count(s1, IsRunning), 0);
    OthersForCause(cfg, g.sts, Begin(cfg, f, now, live).sts);
  }

  lemma SettleForCause(cfg: Config, f: Fan, res: Option<InstanceId>)
    requires Inv(cfg, f) && f.frame.Some? && AllForCause(cfg, f.sts)
    ensures AllForCause(cfg, Settle(cfg, f.sts, f.frame.value.index, res))
  {
    var i := f.frame.value.index;
    var failed := f.sts[i := f.sts[i].(state := Failed)];
    if res.None? && f.sts[i].attempts >= cfg.members[i].Budget() {
      OthersForCause(cfg, f.sts, failed);
      GatingForCause(cfg, failed);
    } else {
      OthersForCause(cfg, f.sts, Settle(cfg, f.sts, i, res));
    }
  }

  lemma ResumeForCause(cfg: Config, f: Fan, res: Option<InstanceId>)
    requires Inv(cfg, f) && f.frame.Some? && AllForCause(cfg, f.sts)
    ensures AllForCause(cfg, Resume(cfg, f, res).sts)
  {
    var g := Recorded(cfg, f, res);
    SettleForCause(cfg, f, res);
    ScanLaunch(cfg, g, f.frame.value.now, ActiveAfter(f, res), f.frame.value.index + 1);
    OthersForCause(cfg, g.sts, Resume(cfg, f, res).sts);
  }

  lemma {:induction false} RunForCause(cfg: Config, evs: seq<Event>)
    ensures AllForCause(cfg, Run(cfg, evs).fan.sts)
  {
    if |evs| > 0 {
      var n := |evs| - 1;
      var h := Run(cfg, evs[..n]);
      RunForCause(cfg, evs[..n]);
      if evs[n].PumpCalled? == h.fan.frame.Some? {
        IdleStep(cfg, h, evs[n]);
      } else {
        match evs[n]
        case PumpCalled(now, live) => PumpForCause(cfg, h.fan, now, live);
        case LaunchSettled(res) => ResumeForCause(cfg, h.fan, res);
      }
    }
  }

  // ---- Main results ----

  /** A member is skipped only because a dependency failed or was skipped, or because the whole set was halted. */
  lemma SkippedForCause(cfg: Config, evs: seq<Event>, i: nat)
    requires i < |cfg.members| && Run(cfg, evs).fan.sts[i].state.Skipped?
    ensures var sts := Run(cfg, evs).fan.sts; DependencyGone(cfg, sts, i) || Halted(cfg, sts)
  {
    var sts := Run(cfg, evs).fan.sts;
    RunForCause(cfg, evs);
    assert Cause(cfg, sts, i);
    GoneIff(cfg, sts, i);
    HaltedIff(cfg, sts);
  }

  lemma ScanSettles(cfg: Config, g: Fan, now: int, active: nat, i: nat, r: Fan)
    requires Fits(cfg, g.sts) && Settled(cfg, g.sts) && r == Scan(cfg, g, now, active, i) && Inv(cfg, r)
    ensures Settled(cfg, r.sts)
  {
    ScanLaunch(cfg, g, now, active, i);
  }

  lemma PumpSettles(cfg: Config, f: Fan, now: int, live: set<InstanceId>)
    requires Inv(cfg, f) && f.frame.None?
    ensures Settled(cfg, Begin(cfg, f, now, live).sts)
  {
    var s1 := Reconcile(f.sts, live);
    GatingSettles(cfg, s1);
    BeginInv(cfg, f, now, live);
    ScanSettles(cfg, f.(sts := ApplyGating(cfg, s1)), now, Count(s1, IsRunning), 0, Begin(cfg, f, now, live));
  }

  lemma ResumeSettles(cfg: Config, f: Fan, res: Option<InstanceId>)
    requires Inv(cfg, f) && f.frame.Some?
    ensures Settled(cfg, Resume(cfg, f, res).sts)
  {
    var fr := f.frame.value;
    SettleScannable(cfg, f, res);
    ResumeInv(cfg, f, res);
    ScanSettles(cfg, Recorded(cfg, f, res), fr.now, ActiveAfter(f, res), fr.index + 1, Resume(cfg, f, res));
  }

  lemma {:induction false} PumpedIsSettled(cfg: Config, evs: seq<Event>)
    ensures var h := Run(cfg, evs); h.pumps > 0 || h.fan.frame.Some? ==> Settled(cfg, h.fan.sts)
  {
    if |evs| > 0 {
      var n := |evs| - 1;
      var h := Run(cfg, evs[..n]);
      PumpedIsSettled(cfg, evs[..n]);
      if evs[n].PumpCalled? == h.fan.frame.Some? {
        IdleStep(cfg, h, evs[n]);
      } else {
        match evs[n]
        case PumpCalled(now, live) => PumpSettles(cfg, h.fan, now, live);
        case LaunchSettled(res) => ResumeSettles(cfg, h.fan, res);
      }
    }
  }

  /**
   * And from the first pump on, a member that has not started is waiting: no dependency of it is gone, the set is not
   * halted, and it is pending exactly when all its dependencies have completed.
   */
  lemma WaitsForCause(cfg: Config, evs: seq<Event>, i: nat)
    requires Run(cfg, evs).pumps > 0 && i < |cfg.members| && Run(cfg, evs).fan.sts[i].state.NotStarted()
    ensures var sts := Run(cfg, evs).fan.sts;
            && !DependencyGone(cfg, sts, i)
            && !Halted(cfg, sts)
            && (sts[i].state.Pending? <==> DependenciesDone(cfg, sts, i))
  {
    var sts := Run(cfg, evs).fan.sts;
    PumpedIsSettled(cfg, evs);
    GoneIff(cfg, sts, i);
    DoneIff(cfg, sts, i);
    HaltedIff(cfg, sts);
  }

  /**
   * Once the set is halted, by a failure under the stop option or for want of members, nothing is launched any more.
   */
  lemma HaltedIsFinal(cfg: Config, evs: seq<Event>, more: seq<Event>)
    requires Clamped(cfg) && Halted(cfg, Run(cfg, evs).fan.sts)
    ensures var h, r := Run(cfg, evs), Continue(cfg, Run(cfg, evs), more);
            && r.log == h.log
            && Halted(cfg, r.fan.sts)
            && forall i :: 0 <= i < |r.fan.sts| ==> !r.fan.sts[i].state.NotStarted() && !r.fan.sts[i].state.Launching?
  {
    HaltedIff(cfg, Run(cfg, evs).fan.sts);
    StopIsALatch(cfg, evs, more);
    HaltedIff(cfg, Continue(cfg, Run(cfg, evs), more).fan.sts);
  }

  /** A member with an attempt has all its dependencies completed, in every state of every run. */
  lemma AttemptedInOrder(cfg: Config, evs: seq<Event>, i: nat)
    requires i < |cfg.members| && Run(cfg, evs).fan.sts[i].attempts > 0
    ensures DependenciesDone(cfg, Run(cfg, evs).fan.sts, i)
  {
    LaunchDiscipline(cfg, evs);
    DoneIff(cfg, Run(cfg, evs).fan.sts, i);
  }
}
