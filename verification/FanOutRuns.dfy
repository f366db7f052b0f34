/**
 * What holds in every state of every run of a fan-out, for any sequence of pumps, launch results and
 * instance lists: dependency safety, the concurrency cap, bounded and spaced attempts, terminal states
 * that never change, and the stop conditions as latches (src/core/fanout.ts:345-463).
 */
module FanOutRuns {
  import opened Basics
  import opened FanOutModel
  import opened Gating

  /** The threshold as the constructor clamps it. */
  predicate Clamped(cfg: Config) {
    1 <= cfg.minViable <= Max(1, |cfg.members|)
  }

  // ---- The state invariant ----

  predicate MemberOk(cfg: Config, sts: seq<Status>, i: nat)
    requires Fits(cfg, sts) && i < |sts|
  {
    var s, m := sts[i], cfg.members[i];
    && s.attempts <= m.Budget()
    && (s.state.NotStarted() ==> s.attempts < m.Budget())
    && (s.state.Failed? ==> s.attempts == m.Budget())
    && (s.state.Launching? || s.state.CameUp() ==> s.attempts > 0)
    && (s.state.CameUp() ==> s.instanceId.Some?)
    && (s.attempts > 0 ==> DepsCompleted(cfg, sts, m.dependsOn))
  }

  predicate MembersOk(cfg: Config, sts: seq<Status>)
    requires Fits(cfg, sts)
  {
    forall i :: 0 <= i < |sts| ==> MemberOk(cfg, sts, i)
  }

  /** Nothing is in flight except what the frame says. */
  predicate InFlightOnly(f: Fan) {
    && (f.frame.Some? ==> f.frame.value.index < |f.sts| && f.sts[f.frame.value.index].state.Launching?)
    && forall i :: 0 <= i < |f.sts| && f.sts[i].state.Launching? ==> f.frame.Some? && f.frame.value.index == i
  }

  predicate WithinCap(cfg: Config, f: Fan) {
    && Count(f.sts, IsRunning) <= cfg.Cap()
    && (f.frame.Some? ==> f.frame.value.active == Count(f.sts, IsRunning) < cfg.Cap())
  }

  predicate Inv(cfg: Config, f: Fan) {
    && Fits(cfg, f.sts)
    && MembersOk(cfg, f.sts)
    && InFlightOnly(f)
    && WithinCap(cfg, f)
    && (f == Init(cfg) || Settled(cfg, f.sts))
    && (f.frame.Some? ==> !StopAll(cfg, f.sts))
  }

  lemma InitInv(cfg: Config)
    ensures Inv(cfg, Init(cfg))
  {
    CountNone(Init(cfg).sts, IsRunning);
  }

  /** The state a fan-out is constructed in. */
  function Start(cfg: Config): (f: Fan)
    ensures Inv(cfg, f) && f.frame.None?
  {
    InitInv(cfg);
    Init(cfg)
  }

  // ---- Status changes that gating does not notice ----

  /** The same members lost, failed and completed: every gate decides the same. */
  predicate SameOutcomes(a: seq<Status>, b: seq<Status>) {
    && |a| == |b|
    && forall i :: 0 <= i < |a| ==>
         a[i].state.Lost() == b[i].state.Lost() && a[i].state.Failed? == b[i].state.Failed?
         && a[i].state.Completed? == b[i].state.Completed?
  }

  lemma SameGates(cfg: Config, a: seq<Status>, b: seq<Status>)
    requires Fits(cfg, a) && SameOutcomes(a, b)
    ensures StopAll(cfg, a) == StopAll(cfg, b)
    ensures forall deps, stop :: Gate(cfg, a, deps, stop) == Gate(cfg, b, deps, stop)
    ensures forall deps :: DepsCompleted(cfg, a, deps) == DepsCompleted(cfg, b, deps)
  {
    if StopAll(cfg, a) { StopAllMono(cfg, a, b); }
    if StopAll(cfg, b) { StopAllMono(cfg, b, a); }
    forall deps
      ensures DepsCompleted(cfg, a, deps) == DepsCompleted(cfg, b, deps)
      ensures SomeDepLost(cfg, a, deps) == SomeDepLost(cfg, b, deps)
    {
      assert forall k :: 0 <= k < |deps| ==> DepLost(cfg, a, deps[k]) == DepLost(cfg, b, deps[k]);
      assert forall k :: 0 <= k < |deps| ==> DepCompleted(cfg, a, deps[k]) == DepCompleted(cfg, b, deps[k]);
    }
  }

  lemma CompletedKeptMonotone(cfg: Config, a: seq<Status>, b: seq<Status>, deps: seq<string>)
    requires Fits(cfg, a) && Fits(cfg, b)
    requires forall i :: 0 <= i < |a| && a[i].state.Completed? ==> b[i].state.Completed?
    requires DepsCompleted(cfg, a, deps)
    ensures DepsCompleted(cfg, b, deps)
  {
    forall k | 0 <= k < |deps| ensures DepCompleted(cfg, b, deps[k]) {
      assert DepCompleted(cfg, a, deps[k]);
    }
  }

  lemma GatingKeepsMembersOk(cfg: Config, sts: seq<Status>, out: seq<Status>)
    requires Fits(cfg, sts) && Gated(sts, out) && MembersOk(cfg, sts)
    ensures MembersOk(cfg, out)
    ensures Count(out, IsRunning) == Count(sts, IsRunning)
  {
    forall i | 0 <= i < |out| ensures MemberOk(cfg, out, i) {
      assert MemberOk(cfg, sts, i);
      GatedKeepsCompleted(cfg, sts, out, cfg.members[i].dependsOn);
    }
    CountMono(sts, out, IsRunning, IsRunning);
    CountMono(out, sts, IsRunning, IsRunning);
  }

  // ---- Steps keep the invariant ----

  /** Before its launch loop goes on, a pump has nothing in flight and a settled set of members. */
  predicate Scannable(cfg: Config, f: Fan, active: nat) {
    && Fits(cfg, f.sts)
    && MembersOk(cfg, f.sts)
    && Settled(cfg, f.sts)
    && active == Count(f.sts, IsRunning) <= cfg.Cap()
    && forall i :: 0 <= i < |f.sts| ==> !f.sts[i].state.Launching?
  }

  lemma LaunchInv(cfg: Config, f: Fan, now: int, active: nat, i: nat)
    requires Scannable(cfg, f, active) && active < cfg.Cap() && i < |f.sts| && f.sts[i].state.Pending?
    ensures Inv(cfg, f.(sts := f.sts[i := f.sts[i].(state := Launching, attempts := f.sts[i].attempts + 1)],
                        frame := Some(Frame(now, active, i))))
  {
    var sts' := f.sts[i := f.sts[i].(state := Launching, attempts := f.sts[i].attempts + 1)];
    SameGates(cfg, f.sts, sts');
    assert MemberOk(cfg, f.sts, i);
    forall j | 0 <= j < |sts'| ensures MemberOk(cfg, sts', j) {
      assert MemberOk(cfg, f.sts, j);
    }
    CountUpdate(f.sts, i, sts'[i], IsRunning);
  }

  lemma {:induction false} ScanInv(cfg: Config, f: Fan, now: int, active: nat, i: nat)
    requires Scannable(cfg, f, active)
    ensures Inv(cfg, Scan(cfg, f, now, active, i))
    ensures var r := Scan(cfg, f, now, active, i);
            r.frame.Some? ==> i <= r.frame.value.index && r.frame.value.now == now
    decreases |f.sts| - i
  {
    if i >= |f.sts| || active >= cfg.Cap() {
    } else if !f.sts[i].state.Pending? {
      ScanInv(cfg, f, now, active, i + 1);
    } else if LaunchThrottled(cfg, f, now) {
    } else if RetryThrottled(cfg, f, cfg.members[i].key, now) {
      ScanInv(cfg, f, now, active, i + 1);
    } else {
      LaunchInv(cfg, f, now, active, i);
    }
  }

  lemma ReconcileOk(cfg: Config, sts: seq<Status>, live: set<InstanceId>)
    requires Fits(cfg, sts) && MembersOk(cfg, sts)
    ensures MembersOk(cfg, Reconcile(sts, live))
    ensures Count(Reconcile(sts, live), IsRunning) <= Count(sts, IsRunning)
  {
    var out := Reconcile(sts, live);
    forall i | 0 <= i < |out| ensures MemberOk(cfg, out, i) {
      assert MemberOk(cfg, sts, i);
      if sts[i].attempts > 0 {
        CompletedKeptMonotone(cfg, sts, out, cfg.members[i].dependsOn);
      }
    }
    CountMono(out, sts, IsRunning, IsRunning);
  }

  lemma BeginScannable(cfg: Config, f: Fan, live: set<InstanceId>)
    requires Inv(cfg, f) && f.frame.None?
    ensures var s1 := Reconcile(f.sts, live);
            Scannable(cfg, f.(sts := ApplyGating(cfg, s1)), Count(s1, IsRunning))
    ensures forall i :: 0 <= i < |f.sts| ==> ApplyGating(cfg, Reconcile(f.sts, live))[i].attempts == f.sts[i].attempts
  {
    var s1 := Reconcile(f.sts, live);
    ReconcileOk(cfg, f.sts, live);
    GatingSettles(cfg, s1);
    GatingKeepsMembersOk(cfg, s1, ApplyGating(cfg, s1));
  }

  lemma BeginInv(cfg: Config, f: Fan, now: int, live: set<InstanceId>)
    requires Inv(cfg, f)
    ensures Inv(cfg, Begin(cfg, f, now, live))
    ensures var r := Begin(cfg, f, now, live);
            f.frame.None? && r.frame.Some? ==> r.frame.value.now == now
  {
    if f.frame.None? {
      var s1 := Reconcile(f.sts, live);
      BeginScannable(cfg, f, live);
      ScanInv(cfg, f.(sts := ApplyGating(cfg, s1)), now, Count(s1, IsRunning), 0);
    }
  }

  /** After a launch result is recorded, the loop can go on. */
  lemma SettleScannable(cfg: Config, f: Fan, res: Option<InstanceId>)
    requires Inv(cfg, f) && f.frame.Some?
    ensures var fr := f.frame.value;
            Scannable(cfg, f.(sts := Settle(cfg, f.sts, fr.index, res)), if res.Some? then fr.active + 1 else fr.active)
  {
    var i := f.frame.value.index;
    var s := f.sts[i];
    assert MemberOk(cfg, f.sts, i);
    if res.Some? || s.attempts < cfg.members[i].Budget() {
      var x := if res.Some? then s.(state := Running, instanceId := res) else s.(state := Pending);
      var sts' := f.sts[i := x];
      SameGates(cfg, f.sts, sts');
      assert !SomeDepLost(cfg, sts', cfg.members[i].dependsOn) by {
        assert forall k :: 0 <= k < |cfg.members[i].dependsOn| ==> DepCompleted(cfg, sts', cfg.members[i].dependsOn[k]);
      }
      forall j | 0 <= j < |sts'| ensures MemberOk(cfg, sts', j) {
        assert MemberOk(cfg, f.sts, j);
      }
      CountUpdate(f.sts, i, x, IsRunning);
    } else {
      var sts' := f.sts[i := s.(state := Failed)];
      forall j | 0 <= j < |sts'| ensures MemberOk(cfg, sts', j) {
        assert MemberOk(cfg, f.sts, j);
        if f.sts[j].attempts > 0 {
          CompletedKeptMonotone(cfg, f.sts, sts', cfg.members[j].dependsOn);
        }
      }
      CountUpdate(f.sts, i, sts'[i], IsRunning);
      GatingSettles(cfg, sts');
      GatingKeepsMembersOk(cfg, sts', ApplyGating(cfg, sts'));
    }
  }

  lemma ResumeInv(cfg: Config, f: Fan, res: Option<InstanceId>)
    requires Inv(cfg, f) && f.frame.Some?
    ensures Inv(cfg, Resume(cfg, f, res))
    ensures var r := Resume(cfg, f, res);
            r.frame.Some? ==> f.frame.value.index < r.frame.value.index && r.frame.value.now == f.frame.value.now
  {
    var fr := f.frame.value;
    SettleScannable(cfg, f, res);
    var g := f.(sts := Settle(cfg, f.sts, fr.index, res),
                lastAttempt := f.lastAttempt[cfg.members[fr.index].key := fr.now],
                lastLaunch := Some(fr.now));
    ScanInv(cfg, g, fr.now, if res.Some? then fr.active + 1 else fr.active, fr.index + 1);
  }

  // ---- What never changes ----

  /** Terminal members keep their record; attempts never go down; what has come up stays up or completes. */
  predicate Forward(a: seq<Status>, b: seq<Status>) {
    && |a| == |b|
    && forall i :: 0 <= i < |a| ==>
         && a[i].attempts <= b[i].attempts
         && (a[i].state.Terminal() ==> b[i] == a[i])
         && (a[i].state.Running? ==> b[i] == a[i] || b[i] == a[i].(state := Completed))
  }

  lemma ForwardTrans(a: seq<Status>, b: seq<Status>, c: seq<Status>)
    requires Forward(a, b) && Forward(b, c)
    ensures Forward(a, c)
  {
    forall i | 0 <= i < |a|
      ensures a[i].attempts <= c[i].attempts
              && (a[i].state.Terminal() ==> c[i] == a[i])
              && (a[i].state.Running? ==> c[i] == a[i] || c[i] == a[i].(state := Completed))
    {
      assert b[i] == b[i];
    }
  }

  lemma {:induction false} ScanForward(cfg: Config, f: Fan, now: int, active: nat, i: nat)
    requires Fits(cfg, f.sts)
    ensures Forward(f.sts, Scan(cfg, f, now, active, i).sts)
    decreases |f.sts| - i
  {
    if i < |f.sts| && active < cfg.Cap()
       && (!f.sts[i].state.Pending? ||
         (!LaunchThrottled(cfg, f, now) && RetryThrottled(cfg, f, cfg.members[i].key, now))) {
      ScanForward(cfg, f, now, active, i + 1);
    }
  }

  lemma BeginForward(cfg: Config, f: Fan, now: int, live: set<InstanceId>)
    requires Inv(cfg, f)
    ensures Forward(f.sts, Begin(cfg, f, now, live).sts)
  {
    if f.frame.None? {
      var s1 := Reconcile(f.sts, live);
      GatingSettles(cfg, s1);
      assert Forward(f.sts, s1) && Forward(s1, ApplyGating(cfg, s1));
      ScanForward(cfg, f.(sts := ApplyGating(cfg, s1)), now, Count(s1, IsRunning), 0);
      ForwardTrans(f.sts, s1, ApplyGating(cfg, s1));
      ForwardTrans(f.sts, ApplyGating(cfg, s1), Begin(cfg, f, now, live).sts);
    }
  }

  lemma SettleForward(cfg: Config, f: Fan, res: Option<InstanceId>)
    requires Inv(cfg, f) && f.frame.Some?
    ensures Forward(f.sts, Settle(cfg, f.sts, f.frame.value.index, res))
  {
    var fr := f.frame.value;
    var failed := f.sts[fr.index := f.sts[fr.index].(state := Failed)];
    GatingSettles(cfg, failed);
    assert forall i :: 0 <= i < |f.sts| ==> failed[i] == if i == fr.index then f.sts[i].(state := Failed) else f.sts[i];
  }

  lemma ResumeForward(cfg: Config, f: Fan, res: Option<InstanceId>)
    requires Inv(cfg, f) && f.frame.Some?
    ensures Forward(f.sts, Resume(cfg, f, res).sts)
  {
    var fr := f.frame.value;
    var s1 := Settle(cfg, f.sts, fr.index, res);
    SettleForward(cfg, f, res);
    var g := f.(sts := s1, lastAttempt := f.lastAttempt[cfg.members[fr.index].key := fr.now],
      lastLaunch := Some(fr.now));
    ScanForward(cfg, g, fr.now, if res.Some? then fr.active + 1 else fr.active, fr.index + 1);
    ForwardTrans(f.sts, s1, Resume(cfg, f, res).sts);
  }

  // ---- Runs, with the log of launch attempts ----

  datatype Attempt = Attempt(member: nat, time: int, pump: nat)

  datatype Event =
    | PumpCalled(now: int, live: set<InstanceId>)
    | LaunchSettled(res: Option<InstanceId>)

  datatype Hist = Hist(fan: Fan, pumps: nat, log: seq<Attempt>)

  /** The attempt a stretch ends with, if it ends suspended. */
  function Attempted(f: Fan, pump: nat): seq<Attempt> {
    if f.frame.Some? then [Attempt(f.frame.value.index, f.frame.value.now, pump)] else []
  }

  /** A pump is called; one that finds another under way returns at once. */
  function Pumped(cfg: Config, h: Hist, now: int, live: set<InstanceId>): Hist
    requires Inv(cfg, h.fan)
  {
    var f := Begin(cfg, h.fan, now, live);
    if h.fan.frame.Some? then h.(fan := f) else Hist(f, h.pumps + 1, h.log + Attempted(f, h.pumps + 1))
  }

  /** The launch in flight, if there is one, has its result. */
  function Resumed(cfg: Config, h: Hist, res: Option<InstanceId>): Hist
    requires Inv(cfg, h.fan)
  {
    if h.fan.frame.None? then h
    else
      var f := Resume(cfg, h.fan, res);
      Hist(f, h.pumps, h.log + Attempted(f, h.pumps))
  }

  function Step(cfg: Config, h: Hist, ev: Event): Hist
    requires Inv(cfg, h.fan)
  {
    match ev
    case PumpCalled(now, live) => Pumped(cfg, h, now, live)
    case LaunchSettled(res) => Resumed(cfg, h, res)
  }

  /** The state after a sequence of events. */
  function Continue(cfg: Config, h: Hist, evs: seq<Event>): (r: Hist)
    requires Inv(cfg, h.fan)
    ensures Inv(cfg, r.fan)
  {
    if |evs| == 0 then h
    else
      var p := Continue(cfg, h, evs[..|evs| - 1]);
      StepInv(cfg, p, evs[|evs| - 1]);
      Step(cfg, p, evs[|evs| - 1])
  }

  function Run(cfg: Config, evs: seq<Event>): (r: Hist)
    ensures Inv(cfg, r.fan)
  {
    InitInv(cfg);
    Continue(cfg, Hist(Init(cfg), 0, []), evs)
  }

  lemma RunAppend(cfg: Config, evs: seq<Event>, ev: Event)
    ensures Run(cfg, evs + [ev]) == Step(cfg, Run(cfg, evs), ev)
  {
    assert (evs + [ev])[..|evs|] == evs;
  }

  lemma StepInv(cfg: Config, h: Hist, ev: Event)
    requires Inv(cfg, h.fan)
    ensures Inv(cfg, Step(cfg, h, ev).fan)
    ensures Forward(h.fan.sts, Step(cfg, h, ev).fan.sts)
  {
    match ev
    case PumpCalled(now, live) =>
      BeginInv(cfg, h.fan, now, live);
      BeginForward(cfg, h.fan, now, live);
    case LaunchSettled(res) =>
      if h.fan.frame.Some? {
        ResumeInv(cfg, h.fan, res);
        ResumeForward(cfg, h.fan, res);
      }
  }

  lemma {:induction false} ContinueForward(cfg: Config, h: Hist, evs: seq<Event>)
    requires Inv(cfg, h.fan)
    ensures Forward(h.fan.sts, Continue(cfg, h, evs).fan.sts)
  {
    if |evs| > 0 {
      var p := Continue(cfg, h, evs[..|evs| - 1]);
      ContinueForward(cfg, h, evs[..|evs| - 1]);
      StepInv(cfg, p, evs[|evs| - 1]);
      ForwardTrans(h.fan.sts, p.fan.sts, Continue(cfg, h, evs).fan.sts);
    }
  }

  // ---- The log ----

  function AttemptsOf(log: seq<Attempt>, i: nat): nat {
    if |log| == 0 then 0
    else AttemptsOf(log[..|log| - 1], i) + (if log[|log| - 1].member == i then 1 else 0)
  }

  /** When each key was last attempted. */
  function LastTimes(cfg: Config, log: seq<Attempt>): map<string, int> {
    if |log| == 0 then map[]
    else
      var a := log[|log| - 1];
      var before := LastTimes(cfg, log[..|log| - 1]);
      if a.member < |cfg.members| then before[cfg.members[a.member].key := a.time] else before
  }

  /** The attempts whose result is known. */
  function Done(h: Hist): seq<Attempt> {
    if h.fan.frame.Some? && |h.log| > 0 then h.log[..|h.log| - 1] else h.log
  }

  /** Consecutive launches are at least the launch delay apart. */
  predicate LaunchesSpaced(cfg: Config, log: seq<Attempt>) {
    cfg.launchDelayMs > 0 ==>
      forall k :: 0 < k < |log| ==> log[k].time - log[k - 1].time >= cfg.launchDelayMs
  }

  /** An attempt comes at least the retry delay after the previous one with its key. */
  predicate RetriesSpaced(cfg: Config, log: seq<Attempt>) {
    cfg.retryDelayMs > 0 ==>
      forall k :: 0 <= k < |log| && log[k].member < |cfg.members| ==>
        var before, key := LastTimes(cfg, log[..k]), cfg.members[log[k].member].key;
        key in before ==> log[k].time - before[key] >= cfg.retryDelayMs
  }

  /** Within a pump, members are attempted in increasing order: no member twice. */
  predicate OncePerPump(log: seq<Attempt>) {
    forall j, k :: 0 <= j < k < |log| && log[j].pump == log[k].pump ==> log[j].member < log[k].member
  }

  /** The engine's two clocks are the log's. */
  predicate Clocks(cfg: Config, f: Fan, done: seq<Attempt>) {
    && f.lastLaunch == (if |done| == 0 then None else Some(done[|done| - 1].time))
    && f.lastAttempt == LastTimes(cfg, done)
  }

  predicate LogShape(cfg: Config, h: Hist) {
    && (forall k :: 0 <= k < |h.log| ==> h.log[k].member < |cfg.members| && h.log[k].pump <= h.pumps)
    && (h.fan.frame.Some? ==>
          |h.log| > 0 && h.log[|h.log| - 1] == Attempt(h.fan.frame.value.index, h.fan.frame.value.now, h.pumps))
  }

  predicate LogCounts(sts: seq<Status>, log: seq<Attempt>) {
    forall i :: 0 <= i < |sts| ==> sts[i].attempts == AttemptsOf(log, i)
  }

  predicate LogSpaced(cfg: Config, log: seq<Attempt>) {
    LaunchesSpaced(cfg, log) && RetriesSpaced(cfg, log) && OncePerPump(log)
  }

  predicate LogInv(cfg: Config, h: Hist) {
    && Inv(cfg, h.fan)
    && LogShape(cfg, h)
    && Clocks(cfg, h.fan, Done(h))
    && LogCounts(h.fan.sts, h.log)
    && LogSpaced(cfg, h.log)
  }

  /** What the launch loop checked before it suspended on a member. */
  lemma {:induction false} ScanLaunch(cfg: Config, f: Fan, now: int, active: nat, i: nat)
    requires Fits(cfg, f.sts)
    ensures var r := Scan(cfg, f, now, active, i);
            && r.lastAttempt == f.lastAttempt && r.lastLaunch == f.lastLaunch
            && (r.frame.None? ==> r.sts == f.sts)
            && (r.frame.Some? ==>
                  var j := r.frame.value.index;
                  && i <= j < |f.sts| && r.frame.value.now == now
                  && f.sts[j].state.Pending?
                  && !LaunchThrottled(cfg, f, now)
                  && !RetryThrottled(cfg, f, cfg.members[j].key, now)
                  && r.sts == f.sts[j := f.sts[j].(state := Launching, attempts := f.sts[j].attempts + 1)])
    decreases |f.sts| - i
  {
    if i < |f.sts| && active < cfg.Cap()
       && (!f.sts[i].state.Pending? ||
         (!LaunchThrottled(cfg, f, now) && RetryThrottled(cfg, f, cfg.members[i].key, now))) {
      ScanLaunch(cfg, f, now, active, i + 1);
    }
  }

  /** The log entries of the pump under way stop before member i. */
  predicate PumpBefore(log: seq<Attempt>, pump: nat, i: nat) {
    forall k :: 0 <= k < |log| && log[k].pump == pump ==> log[k].member < i
  }

  /** An attempt the loop's checks allow keeps the log spaced. */
  lemma LaunchSpaced(cfg: Config, f: Fan, log: seq<Attempt>, a: Attempt)
    requires LogSpaced(cfg, log) && Clocks(cfg, f, log) && a.member < |cfg.members|
    requires PumpBefore(log, a.pump, a.member)
    requires !LaunchThrottled(cfg, f, a.time) && !RetryThrottled(cfg, f, cfg.members[a.member].key, a.time)
    ensures LogSpaced(cfg, log + [a])
  {
    var log' := log + [a];
    forall k | 0 <= k < |log'| && log'[k].member < |cfg.members| && cfg.retryDelayMs > 0
      ensures var before, key := LastTimes(cfg, log'[..k]), cfg.members[log'[k].member].key;
              key in before ==> log'[k].time - before[key] >= cfg.retryDelayMs
    {
      if k < |log| {
        assert log'[..k] == log[..k];
      } else {
        assert log'[..k] == log;
      }
    }
  }

  lemma LaunchCounts(sts: seq<Status>, log: seq<Attempt>, a: Attempt, s: Status)
    requires LogCounts(sts, log) && a.member < |sts| && s.attempts == sts[a.member].attempts + 1
    ensures LogCounts(sts[a.member := s], log + [a])
  {
    assert (log + [a])[..|log|] == log;
  }

  /** What holds when the launch loop goes on from member i. */
  predicate LogReady(cfg: Config, f: Fan, pumps: nat, log: seq<Attempt>, active: nat, i: nat) {
    && Scannable(cfg, f, active)
    && LogShape(cfg, Hist(f.(frame := None), pumps, log)) && PumpBefore(log, pumps, i)
    && Clocks(cfg, f, log) && LogCounts(f.sts, log) && LogSpaced(cfg, log)
  }

  /** The loop suspended on a launch: the new attempt is spaced and counted. */
  lemma ScannedLogs(cfg: Config, f: Fan, r: Fan, pumps: nat, log: seq<Attempt>, now: int, active: nat, i: nat)
    requires LogReady(cfg, f, pumps, log, active, i) && r == Scan(cfg, f, now, active, i) && r.frame.Some?
    ensures LogSpaced(cfg, log + Attempted(r, pumps)) && LogCounts(r.sts, log + Attempted(r, pumps))
  {
    ScanLaunch(cfg, f, now, active, i);
    var a := Attempt(r.frame.value.index, now, pumps);
    LaunchSpaced(cfg, f, log, a);
    LaunchCounts(f.sts, log, a, r.sts[a.member]);
  }

  lemma ScannedShape(cfg: Config, f: Fan, r: Fan, pumps: nat, log: seq<Attempt>, now: int, active: nat, i: nat)
    requires LogReady(cfg, f, pumps, log, active, i) && r == Scan(cfg, f, now, active, i) && r.frame.Some?
    ensures LogShape(cfg, Hist(r, pumps, log + Attempted(r, pumps)))
    ensures Clocks(cfg, r, Done(Hist(r, pumps, log + Attempted(r, pumps))))
  {
    ScanLaunch(cfg, f, now, active, i);
    assert Done(Hist(r, pumps, log + Attempted(r, pumps))) == log;
  }

  /** One stretch of the launch loop keeps the log invariant. */
  lemma ScanLog(cfg: Config, f: Fan, pumps: nat, log: seq<Attempt>, now: int, active: nat, i: nat)
    requires LogReady(cfg, f, pumps, log, active, i)
    ensures LogInv(cfg, Scanned(cfg, f, pumps, log, now, active, i))
  {
    var r := Scan(cfg, f, now, active, i);
    ScanInv(cfg, f, now, active, i);
    ScanLaunch(cfg, f, now, active, i);
    if r.frame.Some? {
      ScannedLogs(cfg, f, r, pumps, log, now, active, i);
      ScannedShape(cfg, f, r, pumps, log, now, active, i);
    } else {
      assert log + Attempted(r, pumps) == log;
    }
  }

  lemma PumpReady(cfg: Config, h: Hist, live: set<InstanceId>)
    requires LogInv(cfg, h) && h.fan.frame.None?
    ensures var s1 := Reconcile(h.fan.sts, live);
            LogReady(cfg, h.fan.(sts := ApplyGating(cfg, s1)), h.pumps + 1, h.log, Count(s1, IsRunning), 0)
  {
    BeginScannable(cfg, h.fan, live);
    assert LogCounts(ApplyGating(cfg, Reconcile(h.fan.sts, live)), h.log);
  }

  lemma SettleAttempts(cfg: Config, f: Fan, res: Option<InstanceId>, log: seq<Attempt>)
    requires Inv(cfg, f) && f.frame.Some? && LogCounts(f.sts, log)
    ensures LogCounts(Settle(cfg, f.sts, f.frame.value.index, res), log)
  {
    var i := f.frame.value.index;
    var failed := f.sts[i := f.sts[i].(state := Failed)];
    GatingSettles(cfg, failed);
    assert LogCounts(failed, log);
  }

  /** Recording a launch result brings the engine's clocks up to the whole log. */
  lemma SettledClocks(cfg: Config, h: Hist, g: Fan)
    requires LogInv(cfg, h) && h.fan.frame.Some?
    requires var fr := h.fan.frame.value;
             g.lastLaunch == Some(fr.now) && g.lastAttempt == h.fan.lastAttempt[cfg.members[fr.index].key := fr.now]
    ensures Clocks(cfg, g, h.log)
  {
    var a := h.log[|h.log| - 1];
    assert h.log == Done(h) + [a];
  }

  /** The state in which a pump whose launch has a result goes on with its loop. */
  function Recorded(cfg: Config, f: Fan, res: Option<InstanceId>): (g: Fan)
    requires Fits(cfg, f.sts) && f.frame.Some? && f.frame.value.index < |f.sts|
    ensures Fits(cfg, g.sts)
  {
    var fr := f.frame.value;
    f.(sts := Settle(cfg, f.sts, fr.index, res),
       lastAttempt := f.lastAttempt[cfg.members[fr.index].key := fr.now],
       lastLaunch := Some(fr.now))
  }

  function ActiveAfter(f: Fan, res: Option<InstanceId>): nat
    requires f.frame.Some?
  {
    if res.Some? then f.frame.value.active + 1 else f.frame.value.active
  }

  lemma ResumeReady(cfg: Config, h: Hist, res: Option<InstanceId>)
    requires LogInv(cfg, h) && h.fan.frame.Some?
    ensures LogReady(cfg, Recorded(cfg, h.fan, res), h.pumps, h.log, ActiveAfter(h.fan, res),
              h.fan.frame.value.index + 1)
  {
    SettleScannable(cfg, h.fan, res);
    SettleAttempts(cfg, h.fan, res, h.log);
    SettledClocks(cfg, h, Recorded(cfg, h.fan, res));
  }

  /** A history after one stretch of the launch loop. */
  function Scanned(cfg: Config, f: Fan, pumps: nat, log: seq<Attempt>, now: int, active: nat, i: nat): Hist
    requires Fits(cfg, f.sts)
  {
    var r := Scan(cfg, f, now, active, i);
    Hist(r, pumps, log + Attempted(r, pumps))
  }

  lemma PumpedIsScanned(cfg: Config, h: Hist, now: int, live: set<InstanceId>)
    requires Inv(cfg, h.fan) && h.fan.frame.None?
    ensures var s1 := Reconcile(h.fan.sts, live);
            Pumped(cfg, h, now, live)
            == Scanned(cfg, h.fan.(sts := ApplyGating(cfg, s1)), h.pumps + 1, h.log, now, Count(s1, IsRunning), 0)
  {
  }

  lemma PumpLogInv(cfg: Config, h: Hist, now: int, live: set<InstanceId>)
    requires LogInv(cfg, h) && h.fan.frame.None?
    ensures LogInv(cfg, Pumped(cfg, h, now, live))
  {
    var s1 := Reconcile(h.fan.sts, live);
    PumpReady(cfg, h, live);
    PumpedIsScanned(cfg, h, now, live);
    LogAfterScan(cfg, h.fan.(sts := ApplyGating(cfg, s1)), h.pumps + 1, h.log, now, Count(s1, IsRunning), 0,
                 Pumped(cfg, h, now, live));
  }

  lemma ResumedIsScanned(cfg: Config, h: Hist, res: Option<InstanceId>)
    requires Inv(cfg, h.fan) && h.fan.frame.Some?
    ensures var fr := h.fan.frame.value;
            Resumed(cfg, h, res)
            == Scanned(cfg, Recorded(cfg, h.fan, res), h.pumps, h.log, fr.now, ActiveAfter(h.fan, res), fr.index + 1)
  {
  }

  lemma ResumeLogInv(cfg: Config, h: Hist, res: Option<InstanceId>)
    requires LogInv(cfg, h) && h.fan.frame.Some?
    ensures LogInv(cfg, Resumed(cfg, h, res))
  {
    var fr := h.fan.frame.value;
    ResumeReady(cfg, h, res);
    ResumedIsScanned(cfg, h, res);
    LogAfterScan(cfg, Recorded(cfg, h.fan, res), h.pumps, h.log, fr.now, ActiveAfter(h.fan, res), fr.index + 1,
                 Resumed(cfg, h, res));
  }

  lemma LogAfterScan(cfg: Config, g: Fan, pumps: nat, log: seq<Attempt>, now: int, active: nat, i: nat, after: Hist)
    requires LogReady(cfg, g, pumps, log, active, i) && after == Scanned(cfg, g, pumps, log, now, active, i)
    ensures LogInv(cfg, after)
  {
    ScanLog(cfg, g, pumps, log, now, active, i);
  }

  lemma IdleStep(cfg: Config, h: Hist, ev: Event)
    requires Inv(cfg, h.fan) && ev.PumpCalled? == h.fan.frame.Some?
    ensures Step(cfg, h, ev) == h
  {
  }

  lemma StepLogInv(cfg: Config, h: Hist, ev: Event)
    requires LogInv(cfg, h)
    ensures LogInv(cfg, Step(cfg, h, ev))
  {
    if ev.PumpCalled? == h.fan.frame.Some? {
      IdleStep(cfg, h, ev);
    } else {
      match ev
      case PumpCalled(now, live) => PumpLogInv(cfg, h, now, live);
      case LaunchSettled(res) => ResumeLogInv(cfg, h, res);
    }
  }

  lemma {:induction false} ContinueLogInv(cfg: Config, h: Hist, evs: seq<Event>)
    requires LogInv(cfg, h)
    ensures LogInv(cfg, Continue(cfg, h, evs))
  {
    if |evs| > 0 {
      ContinueLogInv(cfg, h, evs[..|evs| - 1]);
      StepLogInv(cfg, Continue(cfg, h, evs[..|evs| - 1]), evs[|evs| - 1]);
    }
  }

  lemma RunLogInv(cfg: Config, evs: seq<Event>)
    ensures LogInv(cfg, Run(cfg, evs))
  {
    InitInv(cfg);
    ContinueLogInv(cfg, Hist(Init(cfg), 0, []), evs);
  }

  // ---- Main results ----

  /**
   * Launch discipline, in every state of every run: a member is attempted only after all its dependencies
   * completed, at most as often as its retry budget allows, at most once in a pump, no sooner than the two
   * delays allow; the recorded attempts are exactly the launches made; the cap holds, counting the launch
   * in flight.
   */
  lemma LaunchDiscipline(cfg: Config, evs: seq<Event>)
    ensures var h := Run(cfg, evs);
            && (forall i :: 0 <= i < |cfg.members| ==>
                  && h.fan.sts[i].attempts == AttemptsOf(h.log, i) <= cfg.members[i].Budget()
                  && (AttemptsOf(h.log, i) > 0 ==> DepsCompleted(cfg, h.fan.sts, cfg.members[i].dependsOn)))
            && LaunchesSpaced(cfg, h.log)
            && RetriesSpaced(cfg, h.log)
            && OncePerPump(h.log)
            && Count(h.fan.sts, IsRunning) + (if h.fan.frame.Some? then 1 else 0)
               <= (if cfg.maxConcurrent == 0 then |cfg.members| else cfg.maxConcurrent)
  {
    RunLogInv(cfg, evs);
    var h := Run(cfg, evs);
    forall i | 0 <= i < |cfg.members|
      ensures h.fan.sts[i].attempts == AttemptsOf(h.log, i) <= cfg.members[i].Budget()
              && (AttemptsOf(h.log, i) > 0 ==> DepsCompleted(cfg, h.fan.sts, cfg.members[i].dependsOn))
    {
      assert MemberOk(cfg, h.fan.sts, i);
    }
  }

  /** Whatever follows, terminal members keep their record, and a started member's attempts never go down. */
  lemma TerminalStates(cfg: Config, evs: seq<Event>, more: seq<Event>)
    ensures Forward(Run(cfg, evs).fan.sts, Continue(cfg, Run(cfg, evs), more).fan.sts)
  {
    ContinueForward(cfg, Run(cfg, evs), more);
  }

  /** Once a stop condition holds nothing is waiting to be launched. */
  lemma StoppedIsEmpty(cfg: Config, f: Fan)
    requires Clamped(cfg) && Inv(cfg, f) && StopAll(cfg, f.sts)
    ensures f.frame.None? && !AnyUnstarted(f.sts)
    ensures forall i :: 0 <= i < |f.sts| ==> !f.sts[i].state.Launching?
  {
    if f == Init(cfg) {
      CountNone(f.sts, IsLost);
    }
  }

  /** A stretch of the loop with no pending member launches nothing. */
  lemma {:induction false} ContinueStopped(cfg: Config, h: Hist, evs: seq<Event>)
    requires Clamped(cfg) && Inv(cfg, h.fan) && StopAll(cfg, h.fan.sts)
    ensures var r := Continue(cfg, h, evs);
            StopAll(cfg, r.fan.sts) && r.log == h.log
  {
    var r := Continue(cfg, h, evs);
    ContinueForward(cfg, h, evs);
    StopAllMono(cfg, h.fan.sts, r.fan.sts);
    if |evs| > 0 {
      ContinueStopped(cfg, h, evs[..|evs| - 1]);
      StoppedIsEmpty(cfg, r.fan);
      StoppedIsEmpty(cfg, Continue(cfg, h, evs[..|evs| - 1]).fan);
    }
  }

  /**
   * Both stop conditions are latches: from the moment one holds it holds for ever, no member is launching
   * or waiting, and no launch is attempted again, later in the same pump included.
   */
  lemma StopIsALatch(cfg: Config, evs: seq<Event>, more: seq<Event>)
    requires Clamped(cfg)
    ensures var h := Run(cfg, evs);
            var r := Continue(cfg, h, more);
            (StopAll(cfg, h.fan.sts) ==>
               && StopAll(cfg, r.fan.sts)
               && r.log == h.log
               && !AnyUnstarted(r.fan.sts)
               && forall i :: 0 <= i < |r.fan.sts| ==> !r.fan.sts[i].state.Launching?)
    ensures NonViable(cfg, Run(cfg, evs).fan.sts) ==> NonViable(cfg, Continue(cfg, Run(cfg, evs), more).fan.sts)
  {
    var h := Run(cfg, evs);
    var r := Continue(cfg, h, more);
    ContinueForward(cfg, h, more);
    CountMono(h.fan.sts, r.fan.sts, IsLost, IsLost);
    if StopAll(cfg, h.fan.sts) {
      ContinueStopped(cfg, h, more);
      StoppedIsEmpty(cfg, r.fan);
    }
  }
}
