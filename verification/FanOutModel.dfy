/**
 * The fan-out engine of src/core/fanout.ts as a function from state to state.
 *
 * `pump` is asynchronous: it runs without interruption from its start to the first
 * `await client.launch(...)`, and from each launch result to the next launch or to its end.
 * `Begin` is the first kind of stretch and `Resume` the second. Between two stretches the
 * engine's state is only read, so every interleaving of pumps, launch results and readers
 * is a sequence of `Begin` and `Resume` steps.
 */
module FanOutModel {
  import opened Basics

  type InstanceId = string

  datatype MemberState = Pending | Blocked | Launching | Running | Completed | Failed | Skipped
  {
    predicate NotStarted() { Pending? || Blocked? }

    predicate Terminal() { Completed? || Failed? || Skipped? }

    /** A member that can no longer contribute to viability. */
    predicate Lost() { Failed? || Skipped? }

    predicate CameUp() { Running? || Completed? }
  }

  datatype Member = Member(key: string, dependsOn: seq<string>, maxAttempts: Option<int>)
  {
    /** Launch attempts allowed: at least one, one when unset. */
    function Budget(): (n: nat)
      ensures n >= 1
    {
      Max(1, if maxAttempts.Some? then maxAttempts.value else 1)
    }
  }

  datatype Status = Status(state: MemberState, instanceId: Option<InstanceId>, attempts: nat)

  datatype Config = Config(
    members: seq<Member>,
    maxConcurrent: nat,
    launchDelayMs: nat,
    retryDelayMs: nat,
    stopOnFailure: bool,
    minViable: nat)
  {
    /** 0 means no cap: as many as there are members. */
    function Cap(): nat {
      if maxConcurrent > 0 then maxConcurrent else |members|
    }
  }

  /** Where a suspended pump will go on: its time argument, its count of running members, and the member in flight. */
  datatype Frame = Frame(now: int, active: nat, index: nat)

  datatype Fan = Fan(
    sts: seq<Status>,
    lastAttempt: map<string, int>,
    lastLaunch: Option<int>,
    frame: Option<Frame>)

  predicate Fits(cfg: Config, sts: seq<Status>) {
    |sts| == |cfg.members|
  }

  function Init(cfg: Config): Fan {
    Fan(seq(|cfg.members|, i => Status(Pending, None, 0)), map[], None, None)
  }

  // ---- Aggregates ----

  predicate IsLost(s: Status) { s.state.Lost() }

  predicate IsRunning(s: Status) { s.state.Running? }

  predicate IsUnstarted(s: Status) { s.state.NotStarted() }

  predicate IsUp(s: Status) { s.state.CameUp() }

  function ViableCandidates(sts: seq<Status>): int {
    |sts| - Count(sts, IsLost)
  }

  predicate NonViable(cfg: Config, sts: seq<Status>) {
    ViableCandidates(sts) < cfg.minViable
  }

  predicate AnyFailed(sts: seq<Status>) {
    exists i :: 0 <= i < |sts| && sts[i].state.Failed?
  }

  predicate AnyUnstarted(sts: seq<Status>) {
    exists i :: 0 <= i < |sts| && sts[i].state.NotStarted()
  }

  predicate AllTerminal(sts: seq<Status>) {
    forall i :: 0 <= i < |sts| ==> sts[i].state.Terminal()
  }

  /** The two reasons to skip everything not yet started. */
  predicate StopAll(cfg: Config, sts: seq<Status>) {
    (cfg.stopOnFailure && AnyFailed(sts)) || NonViable(cfg, sts)
  }

  // ---- Dependencies ----

  /** The member a key refers to: the last one declared with it, as a JavaScript Map keeps. */
  function Lookup(members: seq<Member>, key: string): (r: Option<nat>)
    ensures r.Some? ==> r.value < |members| && members[r.value].key == key
                        && forall j :: r.value < j < |members| ==> members[j].key != key
    ensures r.None? ==> forall j :: 0 <= j < |members| ==> members[j].key != key
  {
    var n := |members|;
    if n == 0 then None
    else if members[n - 1].key == key then Some(n - 1)
    else Lookup(members[..n - 1], key)
  }

  predicate DepLost(cfg: Config, sts: seq<Status>, dep: string)
    requires Fits(cfg, sts)
  {
    var d := Lookup(cfg.members, dep);
    d.Some? && sts[d.value].state.Lost()
  }

  predicate DepCompleted(cfg: Config, sts: seq<Status>, dep: string)
    requires Fits(cfg, sts)
  {
    var d := Lookup(cfg.members, dep);
    d.Some? && sts[d.value].state.Completed?
  }

  predicate SomeDepLost(cfg: Config, sts: seq<Status>, deps: seq<string>)
    requires Fits(cfg, sts)
  {
    exists k :: 0 <= k < |deps| && DepLost(cfg, sts, deps[k])
  }

  predicate DepsCompleted(cfg: Config, sts: seq<Status>, deps: seq<string>)
    requires Fits(cfg, sts)
  {
    forall k :: 0 <= k < |deps| ==> DepCompleted(cfg, sts, deps[k])
  }

  /** The state of a member that has not started. */
  function Gate(cfg: Config, sts: seq<Status>, deps: seq<string>, stopAll: bool): MemberState
    requires Fits(cfg, sts)
  {
    if SomeDepLost(cfg, sts, deps) || stopAll then Skipped
    else if DepsCompleted(cfg, sts, deps) then Pending
    else Blocked
  }

  // ---- Gating: passes over the members, in place, until one changes nothing ----

  function GateOne(cfg: Config, sts: seq<Status>, stopAll: bool, i: nat): (r: seq<Status>)
    requires Fits(cfg, sts) && i < |sts|
    ensures Fits(cfg, r)
  {
    if sts[i].state.NotStarted()
    then sts[i := sts[i].(state := Gate(cfg, sts, cfg.members[i].dependsOn, stopAll))]
    else sts
  }

  function GatePass(cfg: Config, sts: seq<Status>, stopAll: bool, i: nat): (r: seq<Status>)
    requires Fits(cfg, sts) && i <= |sts|
    ensures Fits(cfg, r)
    decreases |sts| - i
  {
    if i == |sts| then sts
    else GatePass(cfg, GateOne(cfg, sts, stopAll, i), stopAll, i + 1)
  }

  /** Only the states of unstarted members differ, and only to unstarted or skipped. */
  predicate Gated(sts: seq<Status>, out: seq<Status>) {
    && |out| == |sts|
    && forall i :: 0 <= i < |sts| ==>
         if sts[i].state.NotStarted()
         then out[i] == sts[i].(state := out[i].state) && (out[i].state.NotStarted() || out[i].state.Skipped?)
         else out[i] == sts[i]
  }

  predicate Wrong(cfg: Config, sts: seq<Status>, i: nat)
    requires Fits(cfg, sts) && i < |sts|
  {
    sts[i].state.NotStarted()
    && sts[i].state.Pending? != DepsCompleted(cfg, sts, cfg.members[i].dependsOn)
  }

  function WrongMarks(cfg: Config, sts: seq<Status>): (r: seq<nat>)
    requires Fits(cfg, sts)
    ensures |r| == |sts|
  {
    seq(|sts|, i requires 0 <= i < |sts| => if Wrong(cfg, sts, i) then 1 else 0)
  }

  lemma {:induction false} PassGated(cfg: Config, sts: seq<Status>, stopAll: bool, i: nat)
    requires Fits(cfg, sts) && i <= |sts|
    ensures Gated(sts, GatePass(cfg, sts, stopAll, i))
    ensures forall j :: 0 <= j < i ==> GatePass(cfg, sts, stopAll, i)[j] == sts[j]
    decreases |sts| - i
  {
    if i < |sts| {
      PassGated(cfg, GateOne(cfg, sts, stopAll, i), stopAll, i + 1);
    }
  }

  /** Gating neither completes a member nor undoes a completion. */
  lemma GatedKeepsCompleted(cfg: Config, sts: seq<Status>, out: seq<Status>, deps: seq<string>)
    requires Fits(cfg, sts) && Gated(sts, out)
    ensures DepsCompleted(cfg, out, deps) == DepsCompleted(cfg, sts, deps)
  {
    forall k | 0 <= k < |deps|
      ensures DepCompleted(cfg, out, deps[k]) == DepCompleted(cfg, sts, deps[k])
    {
    }
  }

  /** From position i on, a pass leaves no unstarted member with the wrong pending/blocked mark. */
  lemma {:induction false} PassMarks(cfg: Config, sts: seq<Status>, stopAll: bool, i: nat, j: nat)
    requires Fits(cfg, sts) && i <= j < |sts|
    ensures !Wrong(cfg, GatePass(cfg, sts, stopAll, i), j)
    decreases |sts| - i
  {
    var one := GateOne(cfg, sts, stopAll, i);
    var out := GatePass(cfg, sts, stopAll, i);
    PassGated(cfg, sts, stopAll, i);
    if i == j {
      PassGated(cfg, one, stopAll, i + 1);
      assert out[j] == one[j];
      GatedKeepsCompleted(cfg, sts, out, cfg.members[j].dependsOn);
    } else {
      PassMarks(cfg, one, stopAll, i + 1, j);
    }
  }

  /** Every pass that changes something skips a member, or corrects a mark and skips none. */
  lemma PassProgress(cfg: Config, sts: seq<Status>, stopAll: bool)
    requires Fits(cfg, sts)
    ensures var out := GatePass(cfg, sts, stopAll, 0);
            out == sts
            || Count(out, IsUnstarted) < Count(sts, IsUnstarted)
            || (Count(out, IsUnstarted) == Count(sts, IsUnstarted)
                && Sum(WrongMarks(cfg, out)) < Sum(WrongMarks(cfg, sts)))
  {
    var out := GatePass(cfg, sts, stopAll, 0);
    PassGated(cfg, sts, stopAll, 0);
    if out != sts {
      var k :| 0 <= k < |sts| && out[k] != sts[k];
      if i :| 0 <= i < |sts| && sts[i].state.NotStarted() && out[i].state.Skipped? {
        CountStrict(out, sts, IsUnstarted, IsUnstarted, i);
      } else {
        CountMono(out, sts, IsUnstarted, IsUnstarted);
        CountMono(sts, out, IsUnstarted, IsUnstarted);
        forall i | 0 <= i < |sts| ensures !Wrong(cfg, out, i) {
          PassMarks(cfg, sts, stopAll, 0, i);
        }
        GatedKeepsCompleted(cfg, sts, out, cfg.members[k].dependsOn);
        assert sts[k].state.NotStarted() && out[k].state.NotStarted() && !Wrong(cfg, out, k);
        SumStrict(WrongMarks(cfg, out), WrongMarks(cfg, sts), k);
      }
    }
  }

  function ApplyGating(cfg: Config, sts: seq<Status>): (r: seq<Status>)
    requires Fits(cfg, sts)
    ensures Fits(cfg, r)
    decreases Count(sts, IsUnstarted), Sum(WrongMarks(cfg, sts))
  {
    var next := GatePass(cfg, sts, StopAll(cfg, sts), 0);
    PassProgress(cfg, sts, StopAll(cfg, sts));
    if next == sts then sts else ApplyGating(cfg, next)
  }

  // ---- One pump ----

  /** A running member whose instance is not in the live list has completed. */
  function ReconcileOne(s: Status, live: set<InstanceId>): Status {
    if s.state.Running? && !(s.instanceId.Some? && s.instanceId.value in live)
    then s.(state := Completed)
    else s
  }

  function Reconcile(sts: seq<Status>, live: set<InstanceId>): (r: seq<Status>)
    ensures |r| == |sts|
  {
    seq(|sts|, i requires 0 <= i < |sts| => ReconcileOne(sts[i], live))
  }

  predicate LaunchThrottled(cfg: Config, f: Fan, now: int) {
    cfg.launchDelayMs > 0 && f.lastLaunch.Some? && now - f.lastLaunch.value < cfg.launchDelayMs
  }

  predicate RetryThrottled(cfg: Config, f: Fan, key: string, now: int) {
    key in f.lastAttempt && cfg.retryDelayMs > 0 && now - f.lastAttempt[key] < cfg.retryDelayMs
  }

  /** The launch loop from member i on, up to its next launch (suspended) or its end. */
  function Scan(cfg: Config, f: Fan, now: int, active: nat, i: nat): (r: Fan)
    requires Fits(cfg, f.sts)
    ensures Fits(cfg, r.sts)
    decreases |f.sts| - i
  {
    if i >= |f.sts| || active >= cfg.Cap() then f.(frame := None)
    else if !f.sts[i].state.Pending? then Scan(cfg, f, now, active, i + 1)
    else if LaunchThrottled(cfg, f, now) then f.(frame := None)
    else if RetryThrottled(cfg, f, cfg.members[i].key, now) then Scan(cfg, f, now, active, i + 1)
    else f.(sts := f.sts[i := f.sts[i].(state := Launching, attempts := f.sts[i].attempts + 1)],
            frame := Some(Frame(now, active, i)))
  }

  /** `pump(now)` up to its first launch or its end; a pump that finds another one under way does nothing. */
  function Begin(cfg: Config, f: Fan, now: int, live: set<InstanceId>): (r: Fan)
    requires Fits(cfg, f.sts)
    ensures Fits(cfg, r.sts)
  {
    if f.frame.Some? then f
    else
      var s1 := Reconcile(f.sts, live);
      Scan(cfg, f.(sts := ApplyGating(cfg, s1)), now, Count(s1, IsRunning), 0)
  }

  /** What a launch result does to the statuses. */
  function Settle(cfg: Config, sts: seq<Status>, i: nat, res: Option<InstanceId>): (r: seq<Status>)
    requires Fits(cfg, sts) && i < |sts|
    ensures Fits(cfg, r)
  {
    if res.Some? then sts[i := sts[i].(state := Running, instanceId := res)]
    else if sts[i].attempts < cfg.members[i].Budget() then sts[i := sts[i].(state := Pending)]
    else ApplyGating(cfg, sts[i := sts[i].(state := Failed)])
  }

  /** The suspended pump goes on with its launch's result: an instance, or None for an error. */
  function Resume(cfg: Config, f: Fan, res: Option<InstanceId>): (r: Fan)
    requires Fits(cfg, f.sts) && f.frame.Some? && f.frame.value.index < |f.sts|
    ensures Fits(cfg, r.sts)
  {
    var fr := f.frame.value;
    var g := f.(sts := Settle(cfg, f.sts, fr.index, res),
                lastAttempt := f.lastAttempt[cfg.members[fr.index].key := fr.now],
                lastLaunch := Some(fr.now));
    Scan(cfg, g, fr.now, if res.Some? then fr.active + 1 else fr.active, fr.index + 1)
  }
}
