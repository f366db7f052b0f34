/**
 * The `FanOut` class of src/core/fanout.ts, updating its records in place, proved against the state
 * functions of `FanOutModel`. The locals of a suspended `pump` are fields here.
 */
module FanOutMachine {
  import opened Basics
  import M = FanOutModel
  import R = FanOutRuns

  /** A numeric option: absent, a finite number (by its floor), or NaN or an infinity. */
  datatype NumberOption = Absent | Finite(floor: int) | NotFinite

  datatype Options = Options(
    maxConcurrent: Option<int>,
    launchDelayMs: Option<int>,
    retryDelayMs: Option<int>,
    onFailureStop: bool,
    minViable: NumberOption)

  function OrZero(o: Option<int>): int {
    if o.Some? then o.value else 0
  }

  /** A limit is taken as given; absent or negative, there is none. */
  predicate Taken(o: Option<int>, limit: int) {
    if o.Some? && o.value > 0 then limit == o.value else limit == 0
  }

  /** The constructor's clamps. */
  function Configure(members: seq<M.Member>, opts: Options): (cfg: M.Config)
    ensures cfg.members == members && cfg.stopOnFailure == opts.onFailureStop
    ensures Taken(opts.maxConcurrent, cfg.maxConcurrent)
    ensures Taken(opts.launchDelayMs, cfg.launchDelayMs) && Taken(opts.retryDelayMs, cfg.retryDelayMs)
    ensures R.Clamped(cfg)
    ensures !opts.minViable.Finite? || opts.minViable.floor < 1 || |members| == 0 ==> cfg.minViable == 1
    ensures opts.minViable.Finite? && 1 <= opts.minViable.floor <= |members| ==> cfg.minViable == opts.minViable.floor
    ensures opts.minViable.Finite? && opts.minViable.floor > |members| > 0 ==> cfg.minViable == |members|
  {
    var size := if |members| == 0 then 1 else |members|;
    M.Config(
      members,
      Max(0, OrZero(opts.maxConcurrent)),
      Max(0, OrZero(opts.launchDelayMs)),
      Max(0, OrZero(opts.retryDelayMs)),
      opts.onFailureStop,
      match opts.minViable
      case Absent => Min(Max(1, 1), size)
      case Finite(floor) => Min(Max(floor, 1), size)
      case NotFinite => 1)
  }

  /** The prefix of the index list that `missingIndexes` computes. */
  function Missing(sts: seq<M.Status>, n: nat): seq<nat>
    requires n <= |sts|
  {
    if n == 0 then []
    else Missing(sts, n - 1) + (if sts[n - 1].state.Running? || sts[n - 1].state.Launching? then [] else [n - 1])
  }

  /** The instance ids of the first n members that are running. */
  function Survivors(sts: seq<M.Status>, n: nat): seq<M.InstanceId>
    requires n <= |sts|
  {
    if n == 0 then []
    else
      var s := sts[n - 1];
      Survivors(sts, n - 1) + (if s.state.Running? && s.instanceId.Some? then [s.instanceId.value] else [])
  }

  /** `survivorIds` lists exactly the instances recorded as running. */
  lemma {:induction false} SurvivorsAreRunning(sts: seq<M.Status>, n: nat, id: M.InstanceId)
    requires n <= |sts|
    ensures id in Survivors(sts, n) <==>
              exists i :: 0 <= i < n && sts[i].state.Running? && sts[i].instanceId == Some(id)
  {
    if n > 0 {
      SurvivorsAreRunning(sts, n - 1, id);
    }
  }

  /** Every index is either missing or has a member running or launching, and the list is increasing. */
  lemma {:induction false} MissingIsExact(sts: seq<M.Status>, n: nat)
    requires n <= |sts|
    ensures var out := Missing(sts, n);
            && (forall i: nat :: i in out <==> i < n && !sts[i].state.Running? && !sts[i].state.Launching?)
            && (forall j, k :: 0 <= j < k < |out| ==> out[j] < out[k])
  {
    if n > 0 {
      MissingIsExact(sts, n - 1);
      var before := Missing(sts, n - 1);
      assert forall k :: 0 <= k < |before| ==> before[k] in before;
    }
  }

  /** The `byKey` index: of equal keys the last one counts. */
  method IndexByKey(members: seq<M.Member>) returns (index: map<string, nat>)
    ensures forall key :: key in index ==> M.Lookup(members, key) == Some(index[key])
    ensures forall j :: 0 <= j < |members| ==> members[j].key in index
  {
    index := map[];
    for i := 0 to |members|
      invariant forall key :: key in index ==> M.Lookup(members[..i], key) == Some(index[key])
      invariant forall j :: 0 <= j < i ==> members[j].key in index
    {
      index := index[members[i].key := i];
      assert members[..i + 1][..i] == members[..i];
    }
    assert members[..|members|] == members;
  }

  class FanOut {
    const cfg: M.Config
    const byKey: map<string, nat>
    var statuses: seq<M.Status>
    var lastAttemptMs: map<string, int>
    var lastLaunchMs: Option<int>
    var pumping: bool
    var pumpNow: int
    var pumpActive: nat
    var pumpIndex: nat

    predicate Valid()
      reads this
    {
      && M.Fits(cfg, statuses)
      && (pumping ==> pumpIndex < |statuses|)
      && (forall key :: key in byKey ==> M.Lookup(cfg.members, key) == Some(byKey[key]))
      && (forall i :: 0 <= i < |cfg.members| ==> cfg.members[i].key in byKey)
    }

    function View(): M.Fan
      reads this
    {
      var frame := if pumping then Some(M.Frame(pumpNow, pumpActive, pumpIndex)) else None;
      M.Fan(statuses, lastAttemptMs, lastLaunchMs, frame)
    }

    constructor (members: seq<M.Member>, opts: Options)
      ensures Valid()
      ensures cfg == Configure(members, opts)
      ensures View() == M.Init(cfg)
    {
      cfg := Configure(members, opts);
      statuses := seq(|members|, i => M.Status(M.Pending, None, 0));
      lastAttemptMs, lastLaunchMs, pumping := map[], None, false;
      pumpNow, pumpActive, pumpIndex := 0, 0, 0;
      var index := IndexByKey(members);
      byKey := index;
    }

    /** The statuses as a Map sees them: by key, the last member declared with it. */
    lemma ByKeyIsLookup(key: string)
      requires Valid()
      ensures M.Lookup(cfg.members, key) == if key in byKey then Some(byKey[key]) else None
    {
    }

    method GateFor(deps: seq<string>, stopAll: bool) returns (next: M.MemberState)
      requires Valid()
      ensures next == M.Gate(cfg, statuses, deps, stopAll)
    {
      for k := 0 to |deps|
        invariant forall j :: 0 <= j < k ==> !M.DepLost(cfg, statuses, deps[j])
      {
        ByKeyIsLookup(deps[k]);
        if deps[k] in byKey && statuses[byKey[deps[k]]].state.Lost() {
          assert M.DepLost(cfg, statuses, deps[k]);
          return M.Skipped;
        }
      }
      if stopAll {
        return M.Skipped;
      }
      for k := 0 to |deps|
        invariant forall j :: 0 <= j < k ==> M.DepCompleted(cfg, statuses, deps[j])
      {
        ByKeyIsLookup(deps[k]);
        if deps[k] !in byKey || !statuses[byKey[deps[k]]].state.Completed? {
          assert !M.DepCompleted(cfg, statuses, deps[k]);
          return M.Blocked;
        }
      }
      return M.Pending;
    }

    method ViableCandidates() returns (n: int)
      requires Valid()
      ensures n == M.ViableCandidates(statuses)
    {
      var lost := 0;
      for i := 0 to |statuses|
        invariant lost == Count(statuses[..i], M.IsLost)
      {
        assert statuses[..i + 1][..i] == statuses[..i];
        if statuses[i].state.Lost() {
          lost := lost + 1;
        }
      }
      assert statuses[..|statuses|] == statuses;
      return |statuses| - lost;
    }

    method ShouldStop() returns (stop: bool)
      requires Valid()
      ensures stop == M.StopAll(cfg, statuses)
    {
      var candidates := ViableCandidates();
      var failed := exists i :: 0 <= i < |statuses| && statuses[i].state.Failed?;
      return (cfg.stopOnFailure && failed) || candidates < cfg.minViable;
    }

    /** One pass over the members. */
    method GatingPass(stopAll: bool) returns (dirty: bool)
      requires Valid()
      modifies this`statuses
      ensures Valid()
      ensures statuses == M.GatePass(cfg, old(statuses), stopAll, 0)
      ensures dirty <==> statuses != old(statuses)
    {
      ghost var before := statuses;
      dirty := false;
      var i := 0;
      while i < |statuses|
        invariant Valid() && i <= |statuses| == |before|
        invariant M.GatePass(cfg, statuses, stopAll, i) == M.GatePass(cfg, before, stopAll, 0)
        invariant forall j :: i <= j < |statuses| ==> statuses[j] == before[j]
        invariant dirty <==> statuses != before
      {
        var s := statuses[i];
        if s.state.NotStarted() {
          var next := GateFor(cfg.members[i].dependsOn, stopAll);
          if s.state != next {
            statuses := statuses[i := s.(state := next)];
            dirty := true;
            assert statuses[i] != before[i];
          } else {
            assert statuses == M.GateOne(cfg, statuses, stopAll, i);
          }
        }
        i := i + 1;
      }
    }

    method ApplyGating()
      requires Valid()
      modifies this`statuses
      ensures Valid()
      ensures statuses == M.ApplyGating(cfg, old(statuses))
    {
      while true
        invariant Valid()
        invariant M.ApplyGating(cfg, statuses) == M.ApplyGating(cfg, old(statuses))
        decreases Count(statuses, M.IsUnstarted), Sum(M.WrongMarks(cfg, statuses))
      {
        ghost var before := statuses;
        var stopAll := ShouldStop();
        var dirty := GatingPass(stopAll);
        M.PassProgress(cfg, before, stopAll);
        if !dirty {
          break;
        }
      }
    }

    /** The launch loop from member `from` on, to its next launch or its end. */
    method LaunchLoop(now: int, running: nat, from: nat)
      requires Valid() && from <= |statuses|
      modifies this
      ensures Valid()
      ensures View() == M.Scan(cfg, old(View()), now, running, from)
    {
      ghost var start := View();
      var i := from;
      while i < |statuses| && running < cfg.Cap()
        invariant Valid() && View() == start && from <= i <= |statuses|
        invariant M.Scan(cfg, start, now, running, i) == M.Scan(cfg, start, now, running, from)
      {
        var s := statuses[i];
        if s.state.Pending? {
          if cfg.launchDelayMs > 0 && lastLaunchMs.Some? && now - lastLaunchMs.value < cfg.launchDelayMs {
            break;
          }
          var key := cfg.members[i].key;
          if !(key in lastAttemptMs && cfg.retryDelayMs > 0 && now - lastAttemptMs[key] < cfg.retryDelayMs) {
            statuses := statuses[i := s.(state := M.Launching, attempts := s.attempts + 1)];
            pumping, pumpNow, pumpActive, pumpIndex := true, now, running, i;
            return;
          }
        }
        i := i + 1;
      }
      pumping := false;
    }

    /** `pump(now)` up to its first launch or its end, `live` being the client's live instances. */
    method Pump(now: int, live: set<M.InstanceId>)
      requires Valid()
      modifies this
      ensures Valid()
      ensures View() == M.Begin(cfg, old(View()), now, live)
    {
      if pumping {
        return;
      }
      ghost var before := statuses;
      ghost var done := M.Reconcile(before, live);
      var active := 0;
      var i := 0;
      while i < |statuses|
        invariant Valid() && !pumping && i <= |statuses| == |before|
        invariant lastAttemptMs == old(lastAttemptMs) && lastLaunchMs == old(lastLaunchMs)
        invariant forall j :: 0 <= j < i ==> statuses[j] == done[j]
        invariant forall j :: i <= j < |statuses| ==> statuses[j] == before[j]
        invariant active == Count(done[..i], M.IsRunning)
      {
        assert done[..i + 1][..i] == done[..i];
        var s := statuses[i];
        if s.state.Running? {
          if s.instanceId.Some? && s.instanceId.value in live {
            active := active + 1;
          } else {
            statuses := statuses[i := s.(state := M.Completed)];
          }
        }
        i := i + 1;
      }
      assert statuses == done && done[..i] == done;
      ApplyGating();
      LaunchLoop(now, active, 0);
    }

    /** The launch in flight has its result: an instance id, or None when it threw. */
    method LaunchSettled(res: Option<M.InstanceId>)
      requires Valid() && pumping
      modifies this
      ensures Valid()
      ensures View() == M.Resume(cfg, old(View()), res)
    {
      var i := pumpIndex;
      var s := statuses[i];
      var active := pumpActive;
      if res.Some? {
        statuses := statuses[i := s.(state := M.Running, instanceId := res)];
        active := active + 1;
      } else if s.attempts < cfg.members[i].Budget() {
        statuses := statuses[i := s.(state := M.Pending)];
      } else {
        statuses := statuses[i := s.(state := M.Failed)];
        ApplyGating();
      }
      lastAttemptMs := lastAttemptMs[cfg.members[i].key := pumpNow];
      lastLaunchMs := Some(pumpNow);
      LaunchLoop(pumpNow, active, i + 1);
    }

    method MissingIndexes() returns (out: seq<nat>)
      requires Valid()
      ensures forall i: nat :: i in out <==>
                i < |statuses| && !statuses[i].state.Running? && !statuses[i].state.Launching?
      ensures forall j, k :: 0 <= j < k < |out| ==> out[j] < out[k]
    {
      out := [];
      for i := 0 to |statuses|
        invariant out == Missing(statuses, i)
      {
        if !(statuses[i].state.Running? || statuses[i].state.Launching?) {
          out := out + [i];
        }
      }
      MissingIsExact(statuses, |statuses|);
    }

    method SurvivorIds() returns (ids: seq<M.InstanceId>)
      requires Valid()
      ensures ids == Survivors(statuses, |statuses|)
    {
      ids := [];
      for i := 0 to |statuses|
        invariant ids == Survivors(statuses, i)
      {
        var s := statuses[i];
        if s.state.Running? && s.instanceId.Some? {
          ids := ids + [s.instanceId.value];
        }
      }
    }
  }
}
