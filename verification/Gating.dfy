/**
 * What `applyGating` (src/core/fanout.ts:418-463) computes: the least set of skipped members that
 * is closed under the skip cascade and the two stop conditions, whatever order the members are in.
 */
module Gating {
  import opened Basics
  import opened FanOutModel

  /** Every unstarted member is in the state its dependencies and the stop conditions call for. */
  predicate Settled(cfg: Config, sts: seq<Status>)
    requires Fits(cfg, sts)
  {
    forall i :: 0 <= i < |sts| && sts[i].state.NotStarted() ==>
      sts[i].state == Gate(cfg, sts, cfg.members[i].dependsOn, StopAll(cfg, sts))
  }

  // ---- Reaching a fixpoint ----

  lemma GatedTrans(a: seq<Status>, b: seq<Status>, c: seq<Status>)
    requires Gated(a, b) && Gated(b, c)
    ensures Gated(a, c)
  {
    forall i | 0 <= i < |a|
      ensures if a[i].state.NotStarted()
              then c[i] == a[i].(state := c[i].state) && (c[i].state.NotStarted() || c[i].state.Skipped?)
              else c[i] == a[i]
    {
      assert b[i] == b[i];
    }
  }

  lemma {:induction false} StillPassSettles(cfg: Config, sts: seq<Status>, stopAll: bool, i: nat)
    requires Fits(cfg, sts) && i <= |sts|
    requires GatePass(cfg, sts, stopAll, i) == sts
    ensures forall j :: i <= j < |sts| ==> GateOne(cfg, sts, stopAll, j) == sts
    decreases |sts| - i
  {
    if i < |sts| {
      var one := GateOne(cfg, sts, stopAll, i);
      PassGated(cfg, one, stopAll, i + 1);
      assert one[i] == sts[i];
      assert one == sts;
      StillPassSettles(cfg, sts, stopAll, i + 1);
    }
  }

  lemma {:induction false} SettledPassIsStill(cfg: Config, sts: seq<Status>, i: nat)
    requires Fits(cfg, sts) && i <= |sts| && Settled(cfg, sts)
    ensures GatePass(cfg, sts, StopAll(cfg, sts), i) == sts
    decreases |sts| - i
  {
    if i < |sts| {
      assert GateOne(cfg, sts, StopAll(cfg, sts), i) == sts;
      SettledPassIsStill(cfg, sts, i + 1);
    }
  }

  /** Gating ends settled, and touches unstarted members only. */
  lemma {:induction false} GatingSettles(cfg: Config, sts: seq<Status>)
    requires Fits(cfg, sts)
    ensures Gated(sts, ApplyGating(cfg, sts))
    ensures Settled(cfg, ApplyGating(cfg, sts))
    decreases Count(sts, IsUnstarted), Sum(WrongMarks(cfg, sts))
  {
    var stop := StopAll(cfg, sts);
    var next := GatePass(cfg, sts, stop, 0);
    PassProgress(cfg, sts, stop);
    PassGated(cfg, sts, stop, 0);
    if next == sts {
      StillPassSettles(cfg, sts, stop, 0);
      forall i | 0 <= i < |sts| && sts[i].state.NotStarted()
        ensures sts[i].state == Gate(cfg, sts, cfg.members[i].dependsOn, stop)
      {
        assert GateOne(cfg, sts, stop, i)[i] == sts[i];
      }
    } else {
      GatingSettles(cfg, next);
      GatedTrans(sts, next, ApplyGating(cfg, next));
    }
  }

  // ---- Leastness ----

  /** The statuses in which exactly the unstarted members of X have been skipped. */
  function WithSkipped(sts: seq<Status>, X: set<nat>): (r: seq<Status>)
    ensures |r| == |sts|
  {
    seq(|sts|, i requires 0 <= i < |sts| =>
      if sts[i].state.NotStarted() && i in X then sts[i].(state := Skipped) else sts[i])
  }

  /** X is closed under the skip cascade and under the stop conditions it would itself bring about. */
  predicate Closed(cfg: Config, sts: seq<Status>, X: set<nat>)
    requires Fits(cfg, sts)
  {
    forall i :: 0 <= i < |sts| && sts[i].state.NotStarted()
                && (SomeDepLost(cfg, WithSkipped(sts, X), cfg.members[i].dependsOn) ||
                  StopAll(cfg, WithSkipped(sts, X)))
                ==> i in X
  }

  /** Every member skipped so far is in X. */
  predicate Within(sts: seq<Status>, now: seq<Status>, X: set<nat>) {
    && Gated(sts, now)
    && forall i :: 0 <= i < |sts| && sts[i].state.NotStarted() && now[i].state.Skipped? ==> i in X
  }

  /** Losing more members can only bring a stop condition about. */
  lemma StopAllMono(cfg: Config, a: seq<Status>, b: seq<Status>)
    requires |a| == |b|
    requires forall i :: 0 <= i < |a| ==>
               (a[i].state.Failed? ==> b[i].state.Failed?) && (a[i].state.Lost() ==> b[i].state.Lost())
    requires StopAll(cfg, a)
    ensures StopAll(cfg, b)
  {
    CountMono(a, b, IsLost, IsLost);
    if AnyFailed(a) {
      var i :| 0 <= i < |a| && a[i].state.Failed?;
      assert b[i].state.Failed?;
    }
  }

  lemma SomeDepLostMono(cfg: Config, a: seq<Status>, b: seq<Status>, deps: seq<string>)
    requires Fits(cfg, a) && Fits(cfg, b)
    requires forall i :: 0 <= i < |a| && a[i].state.Lost() ==> b[i].state.Lost()
    requires SomeDepLost(cfg, a, deps)
    ensures SomeDepLost(cfg, b, deps)
  {
    var k :| 0 <= k < |deps| && DepLost(cfg, a, deps[k]);
    assert DepLost(cfg, b, deps[k]);
  }

  /** Gating one member keeps to X. */
  lemma GateOneWithin(cfg: Config, sts: seq<Status>, X: set<nat>, now: seq<Status>, stopAll: bool, i: nat)
    requires Fits(cfg, sts) && Closed(cfg, sts, X) && Within(sts, now, X) && i < |now|
    requires stopAll ==> StopAll(cfg, WithSkipped(sts, X))
    ensures Fits(cfg, now) && Within(sts, GateOne(cfg, now, stopAll, i), X)
  {
    if SomeDepLost(cfg, now, cfg.members[i].dependsOn) {
      SomeDepLostMono(cfg, now, WithSkipped(sts, X), cfg.members[i].dependsOn);
    }
  }

  lemma {:induction false} PassWithin(cfg: Config, sts: seq<Status>, X: set<nat>, now: seq<Status>, stopAll: bool,
      i: nat)
    requires Fits(cfg, sts) && Closed(cfg, sts, X) && Within(sts, now, X) && i <= |now|
    requires stopAll ==> StopAll(cfg, WithSkipped(sts, X))
    ensures Fits(cfg, now) && Within(sts, GatePass(cfg, now, stopAll, i), X)
    decreases |now| - i
  {
    if i < |now| {
      GateOneWithin(cfg, sts, X, now, stopAll, i);
      PassWithin(cfg, sts, X, GateOne(cfg, now, stopAll, i), stopAll, i + 1);
    }
  }

  lemma {:induction false} GatingWithin(cfg: Config, sts: seq<Status>, X: set<nat>, now: seq<Status>)
    requires Fits(cfg, sts) && Closed(cfg, sts, X) && Within(sts, now, X)
    ensures Fits(cfg, now) && Within(sts, ApplyGating(cfg, now), X)
    decreases Count(now, IsUnstarted), if |now| == |cfg.members| then Sum(WrongMarks(cfg, now)) else 0
  {
    var stop := StopAll(cfg, now);
    if stop {
      StopAllMono(cfg, now, WithSkipped(sts, X));
    }
    PassWithin(cfg, sts, X, now, stop, 0);
    PassProgress(cfg, now, stop);
    var next := GatePass(cfg, now, stop, 0);
    if next != now {
      GatingWithin(cfg, sts, X, next);
    }
  }

  ghost function NewlySkipped(sts: seq<Status>, out: seq<Status>): set<nat>
    requires |out| == |sts|
  {
    set i: nat | i < |sts| && sts[i].state.NotStarted() && out[i].state.Skipped?
  }

  /** The members gating skips form the least closed set. */
  lemma GatingIsLeastFixpoint(cfg: Config, sts: seq<Status>)
    requires Fits(cfg, sts)
    ensures var skipped := NewlySkipped(sts, ApplyGating(cfg, sts));
            && Closed(cfg, sts, skipped)
            && forall X: set<nat> :: Closed(cfg, sts, X) ==> skipped <= X
  {
    var out := ApplyGating(cfg, sts);
    var skipped := NewlySkipped(sts, out);
    GatingSettles(cfg, sts);
    forall i | 0 <= i < |sts| && sts[i].state.NotStarted()
               && (SomeDepLost(cfg, WithSkipped(sts, skipped), cfg.members[i].dependsOn)
                   || StopAll(cfg, WithSkipped(sts, skipped)))
      ensures i in skipped
    {
      if SomeDepLost(cfg, WithSkipped(sts, skipped), cfg.members[i].dependsOn) {
        SomeDepLostMono(cfg, WithSkipped(sts, skipped), out, cfg.members[i].dependsOn);
      } else {
        StopAllMono(cfg, WithSkipped(sts, skipped), out);
      }
    }
    forall X: set<nat> | Closed(cfg, sts, X)
      ensures skipped <= X
    {
      GatingWithin(cfg, sts, X, sts);
    }
  }

  // ---- The cascade as paths ----

  predicate DependsOn(cfg: Config, i: nat, d: nat) {
    i < |cfg.members| && d < |cfg.members|
    && exists k :: 0 <= k < |cfg.members[i].dependsOn| && Lookup(cfg.members, cfg.members[i].dependsOn[k]) == Some(d)
  }

  /** A chain of dependencies through unstarted members that ends at a failed or skipped one. */
  predicate DoomPath(cfg: Config, sts: seq<Status>, path: seq<nat>)
    requires Fits(cfg, sts)
  {
    && |path| >= 2
    && (forall k :: 0 <= k < |path| ==> path[k] < |sts|)
    && (forall k :: 0 <= k < |path| - 1 ==> sts[path[k]].state.NotStarted() && DependsOn(cfg, path[k], path[k + 1]))
    && sts[path[|path| - 1]].state.Lost()
  }

  ghost predicate Doomed(cfg: Config, sts: seq<Status>, i: nat)
    requires Fits(cfg, sts)
  {
    exists path :: DoomPath(cfg, sts, path) && path[0] == i
  }

  lemma DependencyLost(cfg: Config, sts: seq<Status>, i: nat, d: nat)
    requires Fits(cfg, sts) && DependsOn(cfg, i, d) && sts[d].state.Lost()
    ensures SomeDepLost(cfg, sts, cfg.members[i].dependsOn)
  {
    var k :| 0 <= k < |cfg.members[i].dependsOn| && Lookup(cfg.members, cfg.members[i].dependsOn[k]) == Some(d);
    assert DepLost(cfg, sts, cfg.members[i].dependsOn[k]);
  }

  /** A settled outcome has lost the start of every doomed path. */
  lemma {:induction false} PathIsLost(cfg: Config, sts: seq<Status>, out: seq<Status>, path: seq<nat>)
    requires Fits(cfg, sts) && Gated(sts, out) && Settled(cfg, out) && DoomPath(cfg, sts, path)
    ensures out[path[0]].state.Skipped?
    decreases |path|
  {
    if |path| > 2 {
      var tail := path[1..];
      assert forall k :: 0 <= k < |tail| ==> tail[k] == path[k + 1];
      PathIsLost(cfg, sts, out, tail);
    } else {
      assert path[|path| - 1] == path[1];
    }
    DependencyLost(cfg, out, path[0], path[1]);
  }

  /** A member with a doomed or lost dependency is itself doomed. */
  lemma DoomedThrough(cfg: Config, sts: seq<Status>, i: nat, d: nat)
    requires Fits(cfg, sts) && i < |sts| && sts[i].state.NotStarted() && DependsOn(cfg, i, d)
    requires sts[d].state.Lost() || (sts[d].state.NotStarted() && Doomed(cfg, sts, d))
    ensures Doomed(cfg, sts, i)
  {
    if sts[d].state.Lost() {
      assert DoomPath(cfg, sts, [i, d]) && [i, d][0] == i;
    } else {
      var path :| DoomPath(cfg, sts, path) && path[0] == d;
      var longer := [i] + path;
      assert forall k :: 0 <= k < |longer| - 1 ==> longer[k + 1] == path[k] && (k > 0 ==> longer[k] == path[k - 1]);
      forall k | 0 <= k < |longer| - 1
        ensures sts[longer[k]].state.NotStarted() && DependsOn(cfg, longer[k], longer[k + 1])
      {
        if k > 0 {
          assert sts[path[k - 1]].state.NotStarted() && DependsOn(cfg, path[k - 1], path[k - 1 + 1]);
        }
      }
      assert DoomPath(cfg, sts, longer) && longer[0] == i;
    }
  }

  /**
   * An unstarted member ends up skipped exactly when a stop condition holds of the final statuses, or a
   * chain of unstarted dependencies leads from it to a failed or skipped member. The member order plays no part.
   */
  lemma SkippedIffDoomedOrStopped(cfg: Config, sts: seq<Status>, i: nat)
    requires Fits(cfg, sts) && i < |sts| && sts[i].state.NotStarted()
    ensures var out := ApplyGating(cfg, sts);
            out[i].state.Skipped? <==> StopAll(cfg, out) || Doomed(cfg, sts, i)
  {
    var out := ApplyGating(cfg, sts);
    GatingSettles(cfg, sts);
    if Doomed(cfg, sts, i) {
      var path :| DoomPath(cfg, sts, path) && path[0] == i;
      PathIsLost(cfg, sts, out, path);
    } else if !StopAll(cfg, out) {
      var X := set j: nat | j < |sts| && sts[j].state.NotStarted() && Doomed(cfg, sts, j);
      var with := WithSkipped(sts, X);
      forall j | 0 <= j < |sts| && j in X ensures out[j].state.Skipped? {
        var path :| DoomPath(cfg, sts, path) && path[0] == j;
        PathIsLost(cfg, sts, out, path);
      }
      if StopAll(cfg, with) {
        StopAllMono(cfg, with, out);
      }
      forall j | 0 <= j < |sts| && sts[j].state.NotStarted() && SomeDepLost(cfg, with, cfg.members[j].dependsOn)
        ensures j in X
      {
        var deps := cfg.members[j].dependsOn;
        var k :| 0 <= k < |deps| && DepLost(cfg, with, deps[k]);
        var d := Lookup(cfg.members, deps[k]).value;
        assert DependsOn(cfg, j, d);
        DoomedThrough(cfg, sts, j, d);
      }
      GatingWithin(cfg, sts, X, sts);
    }
  }

  // ---- One pass is enough for members in dependency order ----

  /** Every dependency that exists refers to an earlier member. */
  predicate InOrder(cfg: Config) {
    forall i, k :: 0 <= i < |cfg.members| && 0 <= k < |cfg.members[i].dependsOn| ==>
      var d := Lookup(cfg.members, cfg.members[i].dependsOn[k]);
      d.Some? ==> d.value < i
  }

  lemma GateAgrees(cfg: Config, a: seq<Status>, b: seq<Status>, i: nat, stopAll: bool)
    requires Fits(cfg, a) && Fits(cfg, b) && InOrder(cfg) && i < |a|
    requires forall j :: 0 <= j < i ==> a[j] == b[j]
    ensures Gate(cfg, a, cfg.members[i].dependsOn, stopAll) == Gate(cfg, b, cfg.members[i].dependsOn, stopAll)
  {
    var deps := cfg.members[i].dependsOn;
    assert forall k :: 0 <= k < |deps| ==>
        DepLost(cfg, a, deps[k]) == DepLost(cfg, b, deps[k]) &&
          DepCompleted(cfg, a, deps[k]) == DepCompleted(cfg, b, deps[k]);
  }

  lemma {:induction false} OrderedPass(cfg: Config, sts: seq<Status>, stopAll: bool, i: nat, j: nat)
    requires Fits(cfg, sts) && InOrder(cfg) && i <= j < |sts|
    requires sts[j].state.NotStarted()
    ensures var out := GatePass(cfg, sts, stopAll, i);
            out[j].state == Gate(cfg, out, cfg.members[j].dependsOn, stopAll)
    decreases |sts| - i
  {
    var one := GateOne(cfg, sts, stopAll, i);
    if i == j {
      PassGated(cfg, sts, stopAll, i);
      PassGated(cfg, one, stopAll, i + 1);
      GateAgrees(cfg, sts, GatePass(cfg, sts, stopAll, i), i, stopAll);
    } else {
      OrderedPass(cfg, one, stopAll, i + 1, j);
    }
  }

  /** With members in dependency order and the default threshold, the first pass already reaches the fixpoint. */
  lemma OnePassSuffices(cfg: Config, sts: seq<Status>)
    requires Fits(cfg, sts) && InOrder(cfg) && cfg.minViable == 1
    ensures ApplyGating(cfg, sts) == GatePass(cfg, sts, StopAll(cfg, sts), 0)
  {
    var stop := StopAll(cfg, sts);
    var out := GatePass(cfg, sts, stop, 0);
    PassGated(cfg, sts, stop, 0);
    if stop {
      StopAllMono(cfg, sts, out);
    } else if StopAll(cfg, out) {
      assert !AnyFailed(out) || !cfg.stopOnFailure by {
        if AnyFailed(out) {
          var f :| 0 <= f < |out| && out[f].state.Failed?;
          assert sts[f].state.Failed?;
        }
      }
      NoneLeft(out);
    }
    forall j | 0 <= j < |out| && out[j].state.NotStarted()
      ensures out[j].state == Gate(cfg, out, cfg.members[j].dependsOn, StopAll(cfg, out))
    {
      OrderedPass(cfg, sts, stop, 0, j);
    }
    SettledPassIsStill(cfg, out, 0);
  }

  lemma {:induction false} NoneLeft(sts: seq<Status>)
    requires Count(sts, IsLost) == |sts|
    ensures forall i :: 0 <= i < |sts| ==> sts[i].state.Lost()
  {
    if |sts| > 0 {
      NoneLeft(sts[..|sts| - 1]);
    }
  }
}
