/**
 * Progress of a fan-out over an acyclic graph of known dependencies: no deadlock, a bound on the number of
 * pumps, and the exact meaning of `nonViable` (src/core/fanout.ts:260-280, 345-463).
 */
module Liveness {
  import opened Basics
  import opened FanOutModel
  import opened Gating
  import opened FanOutRuns

  /** Every dependency is a member, of smaller rank. */
  predicate Ranked(cfg: Config, rank: seq<nat>) {
    && |rank| == |cfg.members|
    && forall i, k :: 0 <= i < |cfg.members| && 0 <= k < |cfg.members[i].dependsOn| ==>
         var d := Lookup(cfg.members, cfg.members[i].dependsOn[k]);
         d.Some? && rank[d.value] < rank[i]
  }

  ghost predicate Acyclic(cfg: Config) {
    exists rank :: Ranked(cfg, rank)
  }

  // ---- No deadlock ----

  function LowestUnstarted(sts: seq<Status>, rank: seq<nat>): (i: nat)
    requires |rank| == |sts| && AnyUnstarted(sts)
    ensures i < |sts| && sts[i].state.NotStarted()
    ensures forall j :: 0 <= j < |sts| && sts[j].state.NotStarted() ==> rank[i] <= rank[j]
  {
    var n := |sts| - 1;
    assert forall j :: 0 <= j < n ==> sts[..n][j] == sts[j];
    if AnyUnstarted(sts[..n]) then
      var i := LowestUnstarted(sts[..n], rank[..n]);
      if sts[n].state.NotStarted() && rank[n] < rank[i] then n else i
    else n
  }

  /** In a settled set with nothing running, the unstarted member of lowest rank is ready. */
  lemma LowestIsPending(cfg: Config, sts: seq<Status>, rank: seq<nat>)
    requires Fits(cfg, sts) && Ranked(cfg, rank) && Settled(cfg, sts) && AnyUnstarted(sts)
    requires forall i :: 0 <= i < |sts| ==> !sts[i].state.Running? && !sts[i].state.Launching?
    ensures sts[LowestUnstarted(sts, rank)].state.Pending?
  {
    var i := LowestUnstarted(sts, rank);
    var deps := cfg.members[i].dependsOn;
    forall k | 0 <= k < |deps| && !SomeDepLost(cfg, sts, deps)
      ensures DepCompleted(cfg, sts, deps[k])
    {
      assert !DepLost(cfg, sts, deps[k]);
    }
  }

  /** In every state between pumps of every run, an unstarted member means some member is ready or running. */
  lemma NoDeadlock(cfg: Config, evs: seq<Event>)
    requires Acyclic(cfg)
    ensures var f := Run(cfg, evs).fan;
            f.frame.None? && AnyUnstarted(f.sts) ==>
              exists i :: 0 <= i < |f.sts| && (f.sts[i].state.Pending? || f.sts[i].state.Running?)
  {
    var f := Run(cfg, evs).fan;
    if f.frame.None? && AnyUnstarted(f.sts) && forall i :: 0 <= i < |f.sts| ==> !f.sts[i].state.Running? {
      var rank :| Ranked(cfg, rank);
      if f == Init(cfg) {
        assert f.sts[0].state.Pending?;
      } else {
        LowestIsPending(cfg, f.sts, rank);
      }
    }
  }

  // ---- Work left ----

  /** Upper bound on the changes a member can still go through. */
  function Weight(m: Member, s: Status): nat {
    match s.state
    case Pending => 2 * Max(0, m.Budget() - s.attempts)
    case Blocked => 2 * Max(0, m.Budget() - s.attempts)
    case Launching => 2 * Max(0, m.Budget() - s.attempts) + 1
    case Running => 1
    case Completed => 0
    case Failed => 0
    case Skipped => 0
  }

  function Weights(cfg: Config, sts: seq<Status>): (r: seq<nat>)
    requires Fits(cfg, sts)
    ensures |r| == |sts|
  {
    seq(|sts|, i requires 0 <= i < |sts| => Weight(cfg.members[i], sts[i]))
  }

  function Work(cfg: Config, sts: seq<Status>): nat
    requires Fits(cfg, sts)
  {
    Sum(Weights(cfg, sts))
  }

  function Budgets(cfg: Config): seq<nat> {
    seq(|cfg.members|, i requires 0 <= i < |cfg.members| => cfg.members[i].Budget())
  }

  predicate Lighter(cfg: Config, a: seq<Status>, b: seq<Status>)
    requires Fits(cfg, a) && Fits(cfg, b)
  {
    forall i :: 0 <= i < |a| ==> Weight(cfg.members[i], b[i]) <= Weight(cfg.members[i], a[i])
  }

  lemma LighterWork(cfg: Config, a: seq<Status>, b: seq<Status>)
    requires Fits(cfg, a) && Fits(cfg, b) && Lighter(cfg, a, b)
    ensures Work(cfg, b) <= Work(cfg, a)
    ensures forall i :: 0 <= i < |a| && Weight(cfg.members[i], b[i]) < Weight(cfg.members[i], a[i]) ==>
              Work(cfg, b) < Work(cfg, a)
  {
    SumMono(Weights(cfg, b), Weights(cfg, a));
    forall i | 0 <= i < |a| && Weight(cfg.members[i], b[i]) < Weight(cfg.members[i], a[i])
      ensures Work(cfg, b) < Work(cfg, a)
    {
      SumStrict(Weights(cfg, b), Weights(cfg, a), i);
    }
  }

  lemma ScanLighter(cfg: Config, f: Fan, now: int, active: nat, i: nat)
    requires Scannable(cfg, f, active)
    ensures var r := Scan(cfg, f, now, active, i);
            Work(cfg, r.sts) <= Work(cfg, f.sts) && (r.frame.Some? ==> Work(cfg, r.sts) < Work(cfg, f.sts))
  {
    var r := Scan(cfg, f, now, active, i);
    ScanLaunch(cfg, f, now, active, i);
    if r.frame.Some? {
      assert MemberOk(cfg, f.sts, r.frame.value.index);
      var i := r.frame.value.index;
      assert Weight(cfg.members[i], r.sts[i]) < Weight(cfg.members[i], f.sts[i]);
    }
    LighterWork(cfg, f.sts, r.sts);
  }

  lemma GatingLighter(cfg: Config, sts: seq<Status>)
    requires Fits(cfg, sts)
    ensures Lighter(cfg, sts, ApplyGating(cfg, sts))
  {
    GatingSettles(cfg, sts);
  }

  lemma ResumeLighter(cfg: Config, f: Fan, res: Option<InstanceId>)
    requires Inv(cfg, f) && f.frame.Some?
    ensures Work(cfg, Resume(cfg, f, res).sts) <= Work(cfg, f.sts)
  {
    var i := f.frame.value.index;
    var failed := f.sts[i := f.sts[i].(state := Failed)];
    GatingLighter(cfg, failed);
    assert Lighter(cfg, f.sts, failed);
    var g := Recorded(cfg, f, res);
    assert MemberOk(cfg, f.sts, i);
    assert Lighter(cfg, f.sts, g.sts);
    LighterWork(cfg, f.sts, g.sts);
    SettleScannable(cfg, f, res);
    ScanLighter(cfg, g, f.frame.value.now, ActiveAfter(f, res), i + 1);
  }

  // ---- A whole pump, and a sequence of them ----

  type Oracle = nat -> Option<InstanceId>

  /** A suspended pump driven to its end, `oracle` giving each member's launch result. */
  function Drive(cfg: Config, f: Fan, oracle: Oracle): (r: Fan)
    requires Inv(cfg, f)
    ensures Inv(cfg, r) && r.frame.None?
    decreases if f.frame.Some? then |f.sts| - f.frame.value.index else 0
  {
    if f.frame.None? then f
    else
      var res := oracle(f.frame.value.index);
      ResumeInv(cfg, f, res);
      Drive(cfg, Resume(cfg, f, res), oracle)
  }

  datatype Round = Round(now: int, live: set<InstanceId>, oracle: Oracle)

  function FullPump(cfg: Config, f: Fan, r: Round): (g: Fan)
    requires Inv(cfg, f) && f.frame.None?
    ensures Inv(cfg, g) && g.frame.None?
  {
    BeginInv(cfg, f, r.now, r.live);
    Drive(cfg, Begin(cfg, f, r.now, r.live), r.oracle)
  }

  function PumpAll(cfg: Config, f: Fan, rounds: seq<Round>): (g: Fan)
    requires Inv(cfg, f) && f.frame.None?
    ensures Inv(cfg, g) && g.frame.None?
    decreases |rounds|
  {
    if |rounds| == 0 then f else PumpAll(cfg, FullPump(cfg, f, rounds[0]), rounds[1..])
  }

  /** No member running when the pump starts is in the live list it reads. */
  predicate Gone(f: Fan, live: set<InstanceId>) {
    forall i :: 0 <= i < |f.sts| && f.sts[i].state.Running? ==>
      !(f.sts[i].instanceId.Some? && f.sts[i].instanceId.value in live)
  }

  /** Each running instance is gone by the next pump. */
  predicate AllGone(cfg: Config, f: Fan, rounds: seq<Round>)
    requires Inv(cfg, f) && f.frame.None?
    decreases |rounds|
  {
    |rounds| > 0 ==> Gone(f, rounds[0].live) && AllGone(cfg, FullPump(cfg, f, rounds[0]), rounds[1..])
  }

  /** The clock advances by at least both delays from pump to pump. */
  predicate ClockAdvances(cfg: Config, rounds: seq<Round>) {
    forall k :: 0 < k < |rounds| ==>
      rounds[k].now - rounds[k - 1].now >= cfg.launchDelayMs && rounds[k].now - rounds[k - 1].now >= cfg.retryDelayMs
  }

  // ---- Time recorded ----

  predicate TimesBy(f: Fan, t: int) {
    && (f.lastLaunch.Some? ==> f.lastLaunch.value <= t)
    && forall key :: key in f.lastAttempt ==> f.lastAttempt[key] <= t
  }

  /** Neither delay holds anything back at `now`. */
  predicate Unthrottled(cfg: Config, f: Fan, now: int) {
    && (f.lastLaunch.Some? ==> now - f.lastLaunch.value >= cfg.launchDelayMs)
    && forall key :: key in f.lastAttempt ==> now - f.lastAttempt[key] >= cfg.retryDelayMs
  }

  lemma {:induction false} DriveTimes(cfg: Config, f: Fan, oracle: Oracle, now: int)
    requires Inv(cfg, f) && TimesBy(f, now) && (f.frame.Some? ==> f.frame.value.now == now)
    ensures TimesBy(Drive(cfg, f, oracle), now)
    decreases if f.frame.Some? then |f.sts| - f.frame.value.index else 0
  {
    if f.frame.Some? {
      var res := oracle(f.frame.value.index);
      ResumeInv(cfg, f, res);
      ScanLaunch(cfg, Recorded(cfg, f, res), now, ActiveAfter(f, res), f.frame.value.index + 1);
      DriveTimes(cfg, Resume(cfg, f, res), oracle, now);
    }
  }

  lemma PumpTimes(cfg: Config, f: Fan, r: Round)
    requires Inv(cfg, f) && f.frame.None? && TimesBy(f, r.now)
    ensures TimesBy(FullPump(cfg, f, r), r.now)
  {
    var s1 := Reconcile(f.sts, r.live);
    BeginInv(cfg, f, r.now, r.live);
    ScanLaunch(cfg, f.(sts := ApplyGating(cfg, s1)), r.now, Count(s1, IsRunning), 0);
    DriveTimes(cfg, Begin(cfg, f, r.now, r.live), r.oracle, r.now);
  }

  // ---- Every pump makes progress ----

  lemma {:induction false} DriveLighter(cfg: Config, f: Fan, oracle: Oracle)
    requires Inv(cfg, f)
    ensures Work(cfg, Drive(cfg, f, oracle).sts) <= Work(cfg, f.sts)
    decreases if f.frame.Some? then |f.sts| - f.frame.value.index else 0
  {
    if f.frame.Some? {
      var res := oracle(f.frame.value.index);
      ResumeInv(cfg, f, res);
      ResumeLighter(cfg, f, res);
      DriveLighter(cfg, Resume(cfg, f, res), oracle);
    }
  }

  /** With room and no delay in the way, the loop finds a pending member. */
  lemma {:induction false} ScanFinds(cfg: Config, f: Fan, now: int, active: nat, i: nat, p: nat)
    requires Fits(cfg, f.sts) && active < cfg.Cap() && Unthrottled(cfg, f, now)
    requires i <= p < |f.sts| && f.sts[p].state.Pending?
    ensures Scan(cfg, f, now, active, i).frame.Some?
    decreases |f.sts| - i
  {
    if !f.sts[i].state.Pending? {
      ScanFinds(cfg, f, now, active, i + 1, p);
    }
  }

  /** The statuses a pump gates, and then scans, when every running instance is gone. */
  function Regated(cfg: Config, f: Fan, live: set<InstanceId>): (r: seq<Status>)
    requires Fits(cfg, f.sts)
    ensures Fits(cfg, r)
  {
    ApplyGating(cfg, Reconcile(f.sts, live))
  }

  lemma RegatedIdle(cfg: Config, f: Fan, live: set<InstanceId>)
    requires Inv(cfg, f) && f.frame.None? && Gone(f, live)
    ensures var s2 := Regated(cfg, f, live);
            && Scannable(cfg, f.(sts := s2), 0)
            && Lighter(cfg, f.sts, s2)
            && Count(Reconcile(f.sts, live), IsRunning) == 0
            && (forall i :: 0 <= i < |s2| ==> !s2[i].state.Running? && !s2[i].state.Launching?)
  {
    var s1 := Reconcile(f.sts, live);
    BeginScannable(cfg, f, live);
    GatingSettles(cfg, s1);
    CountNone(s1, IsRunning);
  }

  lemma LiveWeighs(cfg: Config, sts: seq<Status>, i: nat)
    requires Fits(cfg, sts) && MembersOk(cfg, sts) && i < |sts|
    ensures Weight(cfg.members[i], sts[i]) > 0 <==> !sts[i].state.Terminal()
  {
    assert MemberOk(cfg, sts, i);
  }

  lemma BeginProgress(cfg: Config, f: Fan, r: Round, rank: seq<nat>)
    requires Inv(cfg, f) && f.frame.None? && Ranked(cfg, rank)
    requires Gone(f, r.live) && Unthrottled(cfg, f, r.now) && !AllTerminal(f.sts)
    ensures Work(cfg, Begin(cfg, f, r.now, r.live).sts) < Work(cfg, f.sts)
  {
    var s2 := Regated(cfg, f, r.live);
    var g := f.(sts := s2);
    RegatedIdle(cfg, f, r.live);
    LighterWork(cfg, f.sts, s2);
    ScanLighter(cfg, g, r.now, 0, 0);
    if AnyUnstarted(s2) {
      LowestIsPending(cfg, s2, rank);
      CapPositive(cfg, s2);
      ScanFinds(cfg, g, r.now, 0, 0, LowestUnstarted(s2, rank));
    } else {
      var i :| 0 <= i < |f.sts| && !f.sts[i].state.Terminal();
      LiveWeighs(cfg, f.sts, i);
      assert s2[i].state.Terminal();
    }
  }

  lemma CapPositive(cfg: Config, sts: seq<Status>)
    requires Fits(cfg, sts) && AnyUnstarted(sts)
    ensures cfg.Cap() > 0
  {
  }

  lemma PumpProgress(cfg: Config, f: Fan, r: Round, rank: seq<nat>)
    requires Inv(cfg, f) && f.frame.None? && Ranked(cfg, rank)
    requires Gone(f, r.live) && Unthrottled(cfg, f, r.now) && !AllTerminal(f.sts)
    ensures Work(cfg, FullPump(cfg, f, r).sts) < Work(cfg, f.sts)
  {
    BeginProgress(cfg, f, r, rank);
    BeginInv(cfg, f, r.now, r.live);
    DriveLighter(cfg, Begin(cfg, f, r.now, r.live), r.oracle);
  }

  lemma {:induction false} DriveForward(cfg: Config, f: Fan, oracle: Oracle)
    requires Inv(cfg, f)
    ensures Forward(f.sts, Drive(cfg, f, oracle).sts)
    decreases if f.frame.Some? then |f.sts| - f.frame.value.index else 0
  {
    if f.frame.Some? {
      var res := oracle(f.frame.value.index);
      ResumeInv(cfg, f, res);
      ResumeForward(cfg, f, res);
      DriveForward(cfg, Resume(cfg, f, res), oracle);
      ForwardTrans(f.sts, Resume(cfg, f, res).sts, Drive(cfg, f, oracle).sts);
    }
  }

  lemma FullPumpForward(cfg: Config, f: Fan, r: Round)
    requires Inv(cfg, f) && f.frame.None?
    ensures Forward(f.sts, FullPump(cfg, f, r).sts)
  {
    BeginInv(cfg, f, r.now, r.live);
    BeginForward(cfg, f, r.now, r.live);
    DriveForward(cfg, Begin(cfg, f, r.now, r.live), r.oracle);
    ForwardTrans(f.sts, Begin(cfg, f, r.now, r.live).sts, FullPump(cfg, f, r).sts);
  }

  lemma NextUnthrottled(cfg: Config, f: Fan, rounds: seq<Round>)
    requires Inv(cfg, f) && f.frame.None? && |rounds| > 0
    requires ClockAdvances(cfg, rounds) && Unthrottled(cfg, f, rounds[0].now)
    ensures ClockAdvances(cfg, rounds[1..])
    ensures |rounds| > 1 ==> Unthrottled(cfg, FullPump(cfg, f, rounds[0]), rounds[1].now)
  {
    var rest := rounds[1..];
    assert forall k :: 0 <= k < |rest| ==> rest[k] == rounds[k + 1];
    assert TimesBy(f, rounds[0].now);
    PumpTimes(cfg, f, rounds[0]);
    assert |rounds| > 1 ==> rounds[1].now - rounds[1 - 1].now >= cfg.launchDelayMs;
  }

  lemma {:induction false} PumpAllFinishes(cfg: Config, f: Fan, rounds: seq<Round>, rank: seq<nat>)
    requires Inv(cfg, f) && f.frame.None? && Ranked(cfg, rank)
    requires ClockAdvances(cfg, rounds) && AllGone(cfg, f, rounds)
    requires |rounds| > 0 ==> Unthrottled(cfg, f, rounds[0].now)
    requires |rounds| >= Work(cfg, f.sts) || AllTerminal(f.sts)
    ensures AllTerminal(PumpAll(cfg, f, rounds).sts)
    decreases |rounds|
  {
    if |rounds| == 0 {
      if !AllTerminal(f.sts) {
        NoWorkLeft(cfg, f);
      }
    } else {
      var g := FullPump(cfg, f, rounds[0]);
      FullPumpForward(cfg, f, rounds[0]);
      if !AllTerminal(f.sts) {
        PumpProgress(cfg, f, rounds[0], rank);
      }
      NextUnthrottled(cfg, f, rounds);
      PumpAllFinishes(cfg, g, rounds[1..], rank);
    }
  }

  lemma NoWorkLeft(cfg: Config, f: Fan)
    requires Inv(cfg, f) && f.frame.None? && Work(cfg, f.sts) == 0
    ensures AllTerminal(f.sts)
  {
    forall i | 0 <= i < |f.sts| ensures f.sts[i].state.Terminal() {
      assert MemberOk(cfg, f.sts, i);
      if !f.sts[i].state.Terminal() {
        SumPositive(Weights(cfg, f.sts), i);
      }
    }
  }

  /**
   * A fan-out finishes: if every running instance is gone by the next pump and the clock advances by at
   * least both delays, every member is terminal after twice the sum of the retry budgets pumps, whatever
   * the launch results.
   */
  lemma FanOutFinishes(cfg: Config, rounds: seq<Round>)
    requires Acyclic(cfg) && ClockAdvances(cfg, rounds)
    requires AllGone(cfg, Start(cfg), rounds)
    requires |rounds| >= 2 * Sum(Budgets(cfg))
    ensures AllTerminal(PumpAll(cfg, Start(cfg), rounds).sts)
  {
    var rank :| Ranked(cfg, rank);
    SumDouble(Budgets(cfg), Weights(cfg, Start(cfg).sts));
    PumpAllFinishes(cfg, Start(cfg), rounds, rank);
  }

  // ---- The exact meaning of nonViable ----

  lemma {:induction false} ContinueConcat(cfg: Config, h: Hist, a: seq<Event>, b: seq<Event>)
    requires Inv(cfg, h.fan)
    ensures Continue(cfg, h, a + b) == Continue(cfg, Continue(cfg, h, a), b)
  {
    if |b| == 0 {
      assert a + b == a;
    } else {
      assert (a + b)[..|a + b| - 1] == a + b[..|b| - 1];
      ContinueConcat(cfg, h, a, b[..|b| - 1]);
    }
  }

  lemma ContinueOne(cfg: Config, h: Hist, ev: Event)
    requires Inv(cfg, h.fan)
    ensures Continue(cfg, h, [ev]) == Step(cfg, h, ev)
  {
    assert [ev][..0] == [];
  }

  /** Nothing unstarted has a reason to be skipped. */
  predicate Quiet(cfg: Config, sts: seq<Status>)
    requires Fits(cfg, sts)
  {
    forall i :: 0 <= i < |sts| && sts[i].state.NotStarted() ==>
      !SomeDepLost(cfg, sts, cfg.members[i].dependsOn) && !StopAll(cfg, sts)
  }

  predicate SameLost(a: seq<Status>, b: seq<Status>) {
    && |a| == |b|
    && forall i :: 0 <= i < |a| ==> a[i].state.Lost() == b[i].state.Lost() && a[i].state.Failed? == b[i].state.Failed?
  }

  lemma QuietSame(cfg: Config, a: seq<Status>, b: seq<Status>)
    requires Fits(cfg, a) && SameLost(a, b) && Quiet(cfg, a)
    requires forall i :: 0 <= i < |a| && b[i].state.NotStarted() ==> a[i].state.NotStarted()
    ensures Quiet(cfg, b)
  {
    if StopAll(cfg, b) { StopAllMono(cfg, b, a); }
    forall i | 0 <= i < |b| && b[i].state.NotStarted()
      ensures !SomeDepLost(cfg, b, cfg.members[i].dependsOn)
    {
      if SomeDepLost(cfg, b, cfg.members[i].dependsOn) {
        SomeDepLostMono(cfg, b, a, cfg.members[i].dependsOn);
      }
    }
  }

  lemma QuietGating(cfg: Config, sts: seq<Status>)
    requires Fits(cfg, sts) && Quiet(cfg, sts)
    ensures SameLost(sts, ApplyGating(cfg, sts))
  {
    GatingSettles(cfg, sts);
    GatingIsLeastFixpoint(cfg, sts);
    assert WithSkipped(sts, {}) == sts;
    assert Closed(cfg, sts, {});
    var skipped := NewlySkipped(sts, ApplyGating(cfg, sts));
    forall i | 0 <= i < |sts|
      ensures sts[i].state.Lost() == ApplyGating(cfg, sts)[i].state.Lost()
      ensures sts[i].state.Failed? == ApplyGating(cfg, sts)[i].state.Failed?
    {
      assert i !in skipped;
    }
  }

  lemma ReachableQuiet(cfg: Config, f: Fan)
    requires Clamped(cfg) && Inv(cfg, f)
    ensures Quiet(cfg, f.sts)
  {
    if f == Init(cfg) {
      CountNone(f.sts, IsLost);
    }
  }

  lemma BeginQuiet(cfg: Config, f: Fan, now: int)
    requires Clamped(cfg) && Inv(cfg, f) && f.frame.None?
    ensures SameLost(f.sts, Begin(cfg, f, now, {}).sts)
  {
    var s1 := Reconcile(f.sts, {});
    ReachableQuiet(cfg, f);
    QuietSame(cfg, f.sts, s1);
    QuietGating(cfg, s1);
    ScanLaunch(cfg, f.(sts := ApplyGating(cfg, s1)), now, Count(s1, IsRunning), 0);
  }

  lemma SuccessQuiet(cfg: Config, f: Fan, id: InstanceId)
    requires Inv(cfg, f) && f.frame.Some?
    ensures SameLost(f.sts, Resume(cfg, f, Some(id)).sts)
  {
    ScanLaunch(cfg, Recorded(cfg, f, Some(id)), f.frame.value.now, ActiveAfter(f, Some(id)), f.frame.value.index + 1);
  }

  const ALWAYS: Oracle := i => Some("i")

  /** The events that let a pump under way succeed to its end. */
  lemma {:induction false} SucceedToEnd(cfg: Config, h: Hist) returns (evs: seq<Event>)
    requires Inv(cfg, h.fan)
    ensures Continue(cfg, h, evs).fan == Drive(cfg, h.fan, ALWAYS)
    ensures SameLost(h.fan.sts, Drive(cfg, h.fan, ALWAYS).sts)
    decreases if h.fan.frame.Some? then |h.fan.sts| - h.fan.frame.value.index else 0
  {
    if h.fan.frame.None? {
      evs := [];
    } else {
      var ev := LaunchSettled(Some("i"));
      ResumeInv(cfg, h.fan, Some("i"));
      SuccessQuiet(cfg, h.fan, "i");
      var rest := SucceedToEnd(cfg, Step(cfg, h, ev));
      evs := [ev] + rest;
      ContinueOne(cfg, h, ev);
      ContinueConcat(cfg, h, [ev], rest);
    }
  }

  /** The events of one pump in which every launch succeeds and every running instance has gone. */
  lemma SucceedOnce(cfg: Config, h: Hist, rank: seq<nat>, now: int) returns (evs: seq<Event>)
    requires Clamped(cfg) && Inv(cfg, h.fan) && h.fan.frame.None? && Ranked(cfg, rank)
    requires Unthrottled(cfg, h.fan, now) && TimesBy(h.fan, now) && !AllTerminal(h.fan.sts)
    ensures var g := Continue(cfg, h, evs).fan;
            g.frame.None? && SameLost(h.fan.sts, g.sts) && TimesBy(g, now) && Work(cfg, g.sts) < Work(cfg, h.fan.sts)
  {
    var r := Round(now, {}, ALWAYS);
    var pump := PumpCalled(now, {});
    BeginInv(cfg, h.fan, now, {});
    BeginQuiet(cfg, h.fan, now);
    var drive := SucceedToEnd(cfg, Step(cfg, h, pump));
    PumpProgress(cfg, h.fan, r, rank);
    PumpTimes(cfg, h.fan, r);
    evs := [pump] + drive;
    ContinueOne(cfg, h, pump);
    ContinueConcat(cfg, h, [pump], drive);
    assert Continue(cfg, h, evs).fan == FullPump(cfg, h.fan, r);
  }

  /** The events that finish a fan-out without losing another member. */
  lemma {:induction false} SucceedAll(cfg: Config, h: Hist, rank: seq<nat>, t: int) returns (evs: seq<Event>)
    requires Clamped(cfg) && Inv(cfg, h.fan) && h.fan.frame.None? && Ranked(cfg, rank) && TimesBy(h.fan, t)
    ensures AllTerminal(Continue(cfg, h, evs).fan.sts)
    ensures SameLost(h.fan.sts, Continue(cfg, h, evs).fan.sts)
    decreases Work(cfg, h.fan.sts)
  {
    if AllTerminal(h.fan.sts) {
      evs := [];
    } else {
      var now := t + cfg.launchDelayMs + cfg.retryDelayMs;
      var once := SucceedOnce(cfg, h, rank, now);
      var rest := SucceedAll(cfg, Continue(cfg, h, once), rank, now);
      evs := once + rest;
      ContinueConcat(cfg, h, once, rest);
    }
  }

  function Latest(log: seq<Attempt>): int {
    if |log| == 0 then 0 else Max(log[|log| - 1].time, Latest(log[..|log| - 1]))
  }

  lemma {:induction false} LatestBounds(cfg: Config, log: seq<Attempt>)
    ensures forall key :: key in LastTimes(cfg, log) ==> LastTimes(cfg, log)[key] <= Latest(log)
  {
    if |log| > 0 {
      LatestBounds(cfg, log[..|log| - 1]);
    }
  }

  /**
   * Between losing every hope and every member being up there is nothing else: the up and the lost make up a finished
   * set.
   */
  lemma UpOrLost(cfg: Config, sts: seq<Status>)
    requires AllTerminal(sts)
    ensures Count(sts, IsUp) == ViableCandidates(sts)
  {
    CountSplit(sts, IsUp, IsLost);
  }

  lemma {:induction false} UpAndLostApart(sts: seq<Status>)
    ensures Count(sts, IsUp) + Count(sts, IsLost) <= |sts|
  {
    if |sts| > 0 {
      UpAndLostApart(sts[..|sts| - 1]);
    }
  }

  ghost predicate CanStillReach(cfg: Config, h: Hist)
    requires Inv(cfg, h.fan)
  {
    exists more :: Count(Continue(cfg, h, more).fan.sts, IsUp) >= cfg.minViable
  }

  lemma DoomedStaysShort(cfg: Config, h: Hist, more: seq<Event>)
    requires Inv(cfg, h.fan) && NonViable(cfg, h.fan.sts)
    ensures Count(Continue(cfg, h, more).fan.sts, IsUp) < cfg.minViable
  {
    var sts := Continue(cfg, h, more).fan.sts;
    ContinueForward(cfg, h, more);
    CountMono(h.fan.sts, sts, IsLost, IsLost);
    UpAndLostApart(sts);
  }

  /** With every launch a success, all members come to an end and none that was not lost is. */
  lemma SucceedOut(cfg: Config, h: Hist) returns (evs: seq<Event>)
    requires Clamped(cfg) && Acyclic(cfg) && LogInv(cfg, h) && !NonViable(cfg, h.fan.sts)
    ensures AllTerminal(Continue(cfg, h, evs).fan.sts) && SameLost(h.fan.sts, Continue(cfg, h, evs).fan.sts)
  {
    var rank :| Ranked(cfg, rank);
    var e1 := SucceedToEnd(cfg, h);
    var h1 := Continue(cfg, h, e1);
    ContinueLogInv(cfg, h, e1);
    LatestBounds(cfg, h1.log);
    TimesOfLog(h1);
    var e2 := SucceedAll(cfg, h1, rank, Latest(h1.log));
    ContinueConcat(cfg, h, e1, e2);
    evs := e1 + e2;
  }

  lemma ViableCanReach(cfg: Config, h: Hist)
    requires Clamped(cfg) && Acyclic(cfg) && LogInv(cfg, h) && !NonViable(cfg, h.fan.sts)
    ensures CanStillReach(cfg, h)
  {
    var evs := SucceedOut(cfg, h);
    var sts := Continue(cfg, h, evs).fan.sts;
    CountMono(sts, h.fan.sts, IsLost, IsLost);
    UpOrLost(cfg, sts);
  }

  lemma TimesOfLog(h: Hist)
    requires h.fan.frame.None?
    ensures Done(h) == h.log
    ensures |h.log| > 0 ==> h.log[|h.log| - 1].time <= Latest(h.log)
  {
  }

  /**
   * `nonViable` is exact: in every state of every run it is true if and only if no continuation, whatever
   * the launch results and instance deaths, has `minViable` members up.
   */
  lemma NonViableIsExact(cfg: Config, evs: seq<Event>)
    requires Clamped(cfg) && Acyclic(cfg)
    ensures NonViable(cfg, Run(cfg, evs).fan.sts) <==> !CanStillReach(cfg, Run(cfg, evs))
  {
    var h := Run(cfg, evs);
    RunLogInv(cfg, evs);
    if NonViable(cfg, h.fan.sts) {
      forall more ensures Count(Continue(cfg, h, more).fan.sts, IsUp) < cfg.minViable {
        DoomedStaysShort(cfg, h, more);
      }
    } else {
      ViableCanReach(cfg, h);
    }
  }

  // ---- Which graphs can finish at all ----

  predicate AllCompleted(sts: seq<Status>) {
    forall i :: 0 <= i < |sts| ==> sts[i].state.Completed?
  }

  /** The number of events after which member i had been attempted. */
  function AttemptedAfter(cfg: Config, evs: seq<Event>, i: nat): nat
    requires i < |cfg.members|
  {
    if |evs| == 0 || Run(cfg, evs).fan.sts[i].attempts == 0 then 0
    else if Run(cfg, evs[..|evs| - 1]).fan.sts[i].attempts > 0 then AttemptedAfter(cfg, evs[..|evs| - 1], i)
    else |evs|
  }

  lemma ScanAttempts(cfg: Config, f: Fan, now: int, active: nat, i: nat, j: nat)
    requires Fits(cfg, f.sts) && j < |f.sts|
    ensures var r := Scan(cfg, f, now, active, i);
            r.sts[j].attempts == f.sts[j].attempts ||
              (r.sts[j].state.Launching? && r.sts[j].attempts == f.sts[j].attempts + 1)
  {
    ScanLaunch(cfg, f, now, active, i);
  }

  /** A member attempted for the first time in a step is launching after it. */
  lemma FirstAttemptLaunches(cfg: Config, h: Hist, ev: Event, j: nat)
    requires Inv(cfg, h.fan) && j < |cfg.members|
    ensures var f := Step(cfg, h, ev).fan;
            |f.sts| == |cfg.members| &&
              (h.fan.sts[j].attempts == 0 && f.sts[j].attempts > 0 ==> f.sts[j].state.Launching?)
  {
    StepInv(cfg, h, ev);
    match ev
    case PumpCalled(now, live) =>
      if h.fan.frame.None? {
        var s1 := Reconcile(h.fan.sts, live);
        BeginScannable(cfg, h.fan, live);
        ScanAttempts(cfg, h.fan.(sts := ApplyGating(cfg, s1)), now, Count(s1, IsRunning), 0, j);
      }
    case LaunchSettled(res) =>
      if h.fan.frame.Some? {
        var i := h.fan.frame.value.index;
        var failed := h.fan.sts[i := h.fan.sts[i].(state := Failed)];
        GatingSettles(cfg, failed);
        assert failed[j].attempts == h.fan.sts[j].attempts;
        ScanAttempts(cfg, Recorded(cfg, h.fan, res), h.fan.frame.value.now, ActiveAfter(h.fan, res), i + 1, j);
      }
  }

  /** A dependency is attempted strictly before the member that has it. */
  lemma {:induction false} DependencyFirst(cfg: Config, evs: seq<Event>, i: nat, d: nat)
    requires DependsOn(cfg, i, d) && Run(cfg, evs).fan.sts[i].attempts > 0
    ensures Run(cfg, evs).fan.sts[d].attempts > 0
    ensures AttemptedAfter(cfg, evs, d) < AttemptedAfter(cfg, evs, i)
  {
    if |evs| > 0 {
      var p := Run(cfg, evs[..|evs| - 1]);
      var ev := evs[|evs| - 1];
      var f := Run(cfg, evs).fan;
      FirstAttemptLaunches(cfg, p, ev, i);
      FirstAttemptLaunches(cfg, p, ev, d);
      StepInv(cfg, p, ev);
      assert MemberOk(cfg, f.sts, i) && MemberOk(cfg, f.sts, d);
      var k :| 0 <= k < |cfg.members[i].dependsOn| && Lookup(cfg.members, cfg.members[i].dependsOn[k]) == Some(d);
      assert DepCompleted(cfg, f.sts, cfg.members[i].dependsOn[k]);
      if p.fan.sts[i].attempts > 0 {
        DependencyFirst(cfg, evs[..|evs| - 1], i, d);
      } else {
        AttemptedBound(cfg, evs[..|evs| - 1], d);
      }
    }
  }

  lemma {:induction false} AttemptedBound(cfg: Config, evs: seq<Event>, i: nat)
    requires i < |cfg.members|
    ensures AttemptedAfter(cfg, evs, i) <= |evs|
  {
    if |evs| > 0 {
      AttemptedBound(cfg, evs[..|evs| - 1], i);
    }
  }

  /**
   * Some run completes every member if and only if the dependencies are all known and acyclic: one unknown
   * or circular dependency keeps its member from ever being launched, however well everything else goes.
   */
  lemma CompletableIffAcyclic(cfg: Config)
    requires Clamped(cfg)
    ensures (exists evs :: AllCompleted(Run(cfg, evs).fan.sts)) <==> Acyclic(cfg)
  {
    if evs :| AllCompleted(Run(cfg, evs).fan.sts) {
      var f := Run(cfg, evs).fan;
      var rank := seq(|cfg.members|, i requires 0 <= i < |cfg.members| => AttemptedAfter(cfg, evs, i));
      forall i, k | 0 <= i < |cfg.members| && 0 <= k < |cfg.members[i].dependsOn|
        ensures var d := Lookup(cfg.members, cfg.members[i].dependsOn[k]);
                d.Some? && rank[d.value] < rank[i]
      {
        assert MemberOk(cfg, f.sts, i) && f.sts[i].state.Completed?;
        assert DepCompleted(cfg, f.sts, cfg.members[i].dependsOn[k]);
        DependencyFirst(cfg, evs, i, Lookup(cfg.members, cfg.members[i].dependsOn[k]).value);
      }
      assert Ranked(cfg, rank);
    }
    if Acyclic(cfg) {
      var rank :| Ranked(cfg, rank);
      var h := Hist(Start(cfg), 0, []);
      var evs := SucceedAll(cfg, h, rank, 0);
      assert AllCompleted(Run(cfg, evs).fan.sts);
    }
  }
}
