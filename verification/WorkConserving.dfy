/**
 * What a pump does not leave undone (src/core/fanout.ts:368-411): the other side of launch discipline. All times are
 * those of the launch log; the engine's own clocks and its launch loop are not mentioned in the results.
 */
module WorkConserving {
  import opened Basics
  import opened FanOutModel
  import opened Gating
  import opened FanOutRuns

  // ---- Reasons to hold a member back, read from the log ----

  /** As many members run as the cap allows; a cap of 0 allows all. */
  predicate CapFull(cfg: Config, sts: seq<Status>) {
    Count(sts, IsRunning) >= if cfg.maxConcurrent == 0 then |cfg.members| else cfg.maxConcurrent
  }

  /** The last launch was less than the launch delay ago. */
  predicate LaunchedLately(cfg: Config, log: seq<Attempt>, now: int) {
    cfg.launchDelayMs > 0 && |log| > 0 && now - log[|log| - 1].time < cfg.launchDelayMs
  }

  /** Position k of the log is the last attempt with this key. */
  predicate LastOf(cfg: Config, log: seq<Attempt>, key: string, k: int) {
    && 0 <= k < |log| && log[k].member < |cfg.members| && cfg.members[log[k].member].key == key
    && forall j :: k < j < |log| && log[j].member < |cfg.members| ==> cfg.members[log[j].member].key != key
  }

  /** The last attempt with this key was less than the retry delay ago. */
  predicate BackingOff(cfg: Config, log: seq<Attempt>, key: string, now: int) {
    cfg.retryDelayMs > 0 && exists k ::
      0 <= k < |log| && LastOf(cfg, log, key, k) && now - log[k].time < cfg.retryDelayMs
  }

  /** The member has had its attempt in this pump. */
  predicate Tried(log: seq<Attempt>, pump: nat, i: nat) {
    exists k :: 0 <= k < |log| && log[k].pump == pump && log[k].member == i
  }

  /** The loop was right to leave member i where it is. */
  predicate Excused(cfg: Config, h: Hist, now: int, i: nat)
    requires i < |cfg.members| && i < |h.fan.sts|
  {
    h.fan.sts[i].state.Pending? ==> BackingOff(cfg, h.log, cfg.members[i].key, now) || Tried(h.log, h.pumps, i)
  }

  predicate ExcusedBelow(cfg: Config, h: Hist, now: int, end: nat)
    requires end <= |cfg.members| == |h.fan.sts|
  {
    forall i :: 0 <= i < end ==> Excused(cfg, h, now, i)
  }

  /** How a stretch of a pump may end: at a launch, all members before it excused, or for good. */
  predicate Conserved(cfg: Config, h: Hist, now: int)
    requires Fits(cfg, h.fan.sts)
  {
    if h.fan.frame.Some? then
      var j := h.fan.frame.value.index;
      h.fan.frame.value.now == now && j < |cfg.members| && ExcusedBelow(cfg, h, now, j)
    else
      || CapFull(cfg, h.fan.sts)
      || LaunchedLately(cfg, h.log, now)
      || ExcusedBelow(cfg, h, now, |cfg.members|)
  }

  // ---- The engine's clocks and the log ----

  lemma {:induction false} LastTimeIs(cfg: Config, log: seq<Attempt>, key: string)
    ensures key in LastTimes(cfg, log) ==>
              exists k :: LastOf(cfg, log, key, k) && LastTimes(cfg, log)[key] == log[k].time
    ensures key !in LastTimes(cfg, log) ==> forall k :: !LastOf(cfg, log, key, k)
  {
    if |log| > 0 {
      var n := |log| - 1;
      LastTimeIs(cfg, log[..n], key);
      if log[n].member < |cfg.members| && cfg.members[log[n].member].key == key {
        assert LastOf(cfg, log, key, n);
      } else if key in LastTimes(cfg, log[..n]) {
        var k :| LastOf(cfg, log[..n], key, k) && LastTimes(cfg, log[..n])[key] == log[..n][k].time;
        assert LastOf(cfg, log, key, k);
      } else {
        forall k ensures !LastOf(cfg, log, key, k) {
          assert !LastOf(cfg, log[..n], key, k);
        }
      }
    }
  }

  lemma ThrottledBacksOff(cfg: Config, f: Fan, log: seq<Attempt>, key: string, now: int)
    requires Clocks(cfg, f, log) && RetryThrottled(cfg, f, key, now)
    ensures BackingOff(cfg, log, key, now)
  {
    LastTimeIs(cfg, log, key);
  }

  lemma ThrottledLately(cfg: Config, f: Fan, log: seq<Attempt>, now: int)
    requires Clocks(cfg, f, log) && LaunchThrottled(cfg, f, now)
    ensures LaunchedLately(cfg, log, now)
  {
  }

  /** Another attempt now is no reason to end a backoff. */
  lemma StillBackingOff(cfg: Config, log: seq<Attempt>, a: Attempt, key: string)
    requires BackingOff(cfg, log, key, a.time)
    ensures BackingOff(cfg, log + [a], key, a.time)
  {
    var k :| 0 <= k < |log| && LastOf(cfg, log, key, k) && a.time - log[k].time < cfg.retryDelayMs;
    var more := log + [a];
    if a.member < |cfg.members| && cfg.members[a.member].key == key {
      assert LastOf(cfg, more, key, |log|);
    } else {
      assert LastOf(cfg, more, key, k);
    }
  }

  // ---- One stretch of the loop ----

  predicate Held(cfg: Config, f: Fan, now: int, i: nat)
    requires Fits(cfg, f.sts) && i < |f.sts|
  {
    f.sts[i].state.Pending? ==> RetryThrottled(cfg, f, cfg.members[i].key, now)
  }

  lemma {:induction false} ScanPasses(cfg: Config, f: Fan, now: int, active: nat, i: nat)
    requires Fits(cfg, f.sts)
    ensures var r := Scan(cfg, f, now, active, i);
            if r.frame.Some? then forall k :: i <= k < r.frame.value.index && k < |f.sts| ==> Held(cfg, f, now, k)
            else
              || active >= cfg.Cap()
              || LaunchThrottled(cfg, f, now)
              || forall k :: i <= k < |f.sts| ==> Held(cfg, f, now, k)
    decreases |f.sts| - i
  {
    if i < |f.sts| && active < cfg.Cap() {
      if !f.sts[i].state.Pending? {
        ScanPasses(cfg, f, now, active, i + 1);
      } else if !LaunchThrottled(cfg, f, now) && RetryThrottled(cfg, f, cfg.members[i].key, now) {
        ScanPasses(cfg, f, now, active, i + 1);
      }
    }
  }

  lemma HeldIsExcused(cfg: Config, f: Fan, pumps: nat, log: seq<Attempt>, now: int, i: nat)
    requires Fits(cfg, f.sts) && i < |f.sts| && Clocks(cfg, f, log) && Held(cfg, f, now, i)
    ensures Excused(cfg, Hist(f, pumps, log), now, i)
  {
    if f.sts[i].state.Pending? { ThrottledBacksOff(cfg, f, log, cfg.members[i].key, now); }
  }

  /** One more attempt of another member, now, excuses whom it excused before. */
  lemma StillExcused(cfg: Config, f: Fan, g: Fan, pumps: nat, log: seq<Attempt>, a: Attempt, i: nat)
    requires |f.sts| == |g.sts| && i < |cfg.members| && i < |f.sts| && g.sts[i] == f.sts[i]
    requires Excused(cfg, Hist(f, pumps, log), a.time, i)
    ensures Excused(cfg, Hist(g, pumps, log + [a]), a.time, i)
  {
    if f.sts[i].state.Pending? {
      if BackingOff(cfg, log, cfg.members[i].key, a.time) {
        StillBackingOff(cfg, log, a, cfg.members[i].key);
      } else {
        var k :| 0 <= k < |log| && log[k].pump == pumps && log[k].member == i;
        assert (log + [a])[k] == log[k];
      }
    }
  }

  lemma ScanExcuses(cfg: Config, f: Fan, pumps: nat, log: seq<Attempt>, now: int, active: nat, i: nat, end: nat)
    requires Fits(cfg, f.sts) && Clocks(cfg, f, log) && i <= end <= |f.sts|
    requires ExcusedBelow(cfg, Hist(f, pumps, log), now, i)
    requires forall k :: i <= k < end ==> Held(cfg, f, now, k)
    ensures ExcusedBelow(cfg, Hist(f, pumps, log), now, end)
  {
    forall k | i <= k < end ensures Excused(cfg, Hist(f, pumps, log), now, k) {
      HeldIsExcused(cfg, f, pumps, log, now, k);
    }
  }

  lemma ScanConserves(cfg: Config, f: Fan, pumps: nat, log: seq<Attempt>, now: int, active: nat, i: nat, after: Hist)
    requires LogReady(cfg, f, pumps, log, active, i) && i <= |f.sts|
    requires ExcusedBelow(cfg, Hist(f, pumps, log), now, i)
    requires after == Scanned(cfg, f, pumps, log, now, active, i)
    ensures Conserved(cfg, after, now)
  {
    var r := after.fan;
    ScanPasses(cfg, f, now, active, i);
    ScanLaunch(cfg, f, now, active, i);
    if r.frame.Some? {
      var j := r.frame.value.index;
      ScanExcuses(cfg, f, pumps, log, now, active, i, j);
      forall k | 0 <= k < j ensures Excused(cfg, after, now, k) {
        StillExcused(cfg, f, r, pumps, log, Attempt(j, now, pumps), k);
      }
    } else {
      ScanEnds(cfg, f, pumps, log, now, active, i, after);
    }
  }

  lemma ScanEnds(cfg: Config, f: Fan, pumps: nat, log: seq<Attempt>, now: int, active: nat, i: nat, after: Hist)
    requires LogReady(cfg, f, pumps, log, active, i) && i <= |f.sts|
    requires ExcusedBelow(cfg, Hist(f, pumps, log), now, i)
    requires after == Scanned(cfg, f, pumps, log, now, active, i) && after.fan.frame.None?
    ensures Conserved(cfg, after, now)
  {
    ScanPasses(cfg, f, now, active, i);
    ScanLaunch(cfg, f, now, active, i);
    assert after.log == log && after.fan.sts == f.sts;
    if LaunchThrottled(cfg, f, now) {
      ThrottledLately(cfg, f, log, now);
    } else if active < cfg.Cap() {
      ScanExcuses(cfg, f, pumps, log, now, active, i, |f.sts|);
      forall k | 0 <= k < |f.sts| ensures Excused(cfg, after, now, k) {
        assert Excused(cfg, Hist(f, pumps, log), now, k);
      }
    }
  }

  // ---- Pumps and launch results ----

  lemma PumpConserves(cfg: Config, h: Hist, now: int, live: set<InstanceId>)
    requires LogInv(cfg, h) && h.fan.frame.None?
    ensures Conserved(cfg, Pumped(cfg, h, now, live), now)
  {
    var s1 := Reconcile(h.fan.sts, live);
    PumpReady(cfg, h, live);
    PumpedIsScanned(cfg, h, now, live);
    ScanConserves(cfg, h.fan.(sts := ApplyGating(cfg, s1)), h.pumps + 1, h.log, now, Count(s1, IsRunning), 0,
                  Pumped(cfg, h, now, live));
  }

  /** A launch result makes no other member pending. */
  lemma NothingFreed(cfg: Config, f: Fan, res: Option<InstanceId>, i: nat)
    requires Inv(cfg, f) && f.frame.Some? && i < |f.sts| && i != f.frame.value.index
    ensures Settle(cfg, f.sts, f.frame.value.index, res)[i].state.Pending? ==> f.sts[i].state.Pending?
  {
    var j := f.frame.value.index;
    if res.None? && f.sts[j].attempts >= cfg.members[j].Budget() {
      var failed := f.sts[j := f.sts[j].(state := Failed)];
      GatingSettles(cfg, failed);
      var out := ApplyGating(cfg, failed);
      if out[i].state.Pending? {
        GatedKeepsCompleted(cfg, failed, out, cfg.members[i].dependsOn);
        CompletedKeptMonotone(cfg, failed, f.sts, cfg.members[i].dependsOn);
      }
    }
  }

  lemma RecordedExcused(cfg: Config, h: Hist, res: Option<InstanceId>, i: nat)
    requires LogInv(cfg, h) && h.fan.frame.Some? && Conserved(cfg, h, h.fan.frame.value.now)
    requires i <= h.fan.frame.value.index
    ensures Excused(cfg, Hist(Recorded(cfg, h.fan, res), h.pumps, h.log), h.fan.frame.value.now, i)
  {
    var fr := h.fan.frame.value;
    if i == fr.index {
      assert h.log[|h.log| - 1] == Attempt(fr.index, fr.now, h.pumps);
    } else {
      NothingFreed(cfg, h.fan, res, i);
      assert Excused(cfg, h, fr.now, i);
    }
  }

  lemma ResumeConserves(cfg: Config, h: Hist, res: Option<InstanceId>)
    requires LogInv(cfg, h) && h.fan.frame.Some? && Conserved(cfg, h, h.fan.frame.value.now)
    ensures Conserved(cfg, Resumed(cfg, h, res), h.fan.frame.value.now)
  {
    var fr := h.fan.frame.value;
    ResumeReady(cfg, h, res);
    ResumedIsScanned(cfg, h, res);
    forall i | 0 <= i < fr.index + 1
      ensures Excused(cfg, Hist(Recorded(cfg, h.fan, res), h.pumps, h.log), fr.now, i)
    {
      RecordedExcused(cfg, h, res, i);
    }
    ScanConserves(cfg, Recorded(cfg, h.fan, res), h.pumps, h.log, fr.now, ActiveAfter(h.fan, res), fr.index + 1,
                  Resumed(cfg, h, res));
  }

  /** While a pump waits for a launch, every member it has passed by was rightly left. */
  lemma {:induction false} SuspendedConserves(cfg: Config, evs: seq<Event>)
    ensures var h := Run(cfg, evs); h.fan.frame.Some? ==> Conserved(cfg, h, h.fan.frame.value.now)
  {
    if |evs| > 0 {
      var n := |evs| - 1;
      var h := Run(cfg, evs[..n]);
      SuspendedConserves(cfg, evs[..n]);
      RunLogInv(cfg, evs[..n]);
      StepConserves(cfg, h, evs[n]);
    }
  }

  /** The time of the pump under way after an event. */
  function TimeOf(h: Hist, ev: Event): int
    requires ev.PumpCalled? == h.fan.frame.None?
  {
    if ev.PumpCalled? then ev.now else h.fan.frame.value.now
  }

  lemma StepConserves(cfg: Config, h: Hist, ev: Event)
    requires LogInv(cfg, h) && (h.fan.frame.Some? ==> Conserved(cfg, h, h.fan.frame.value.now))
    ensures ev.PumpCalled? == h.fan.frame.None? ==> Conserved(cfg, Step(cfg, h, ev), TimeOf(h, ev))
    ensures ev.PumpCalled? != h.fan.frame.None? ==> Step(cfg, h, ev) == h
  {
    if ev.PumpCalled? == h.fan.frame.Some? {
      IdleStep(cfg, h, ev);
    } else {
      match ev
      case PumpCalled(now, live) => PumpConserves(cfg, h, now, live);
      case LaunchSettled(res) => ResumeConserves(cfg, h, res);
    }
  }

  // ---- Main results ----

  /** The attempts a member may have: as many as it asks for, and one if it asks for none. */
  predicate Allowed(m: Member, attempts: nat) {
    if m.maxAttempts.Some? && m.maxAttempts.value > 1 then attempts <= m.maxAttempts.value else attempts <= 1
  }

  /** No more than asked for, and a member fails only when it has had them all. */
  lemma AttemptsAllowed(cfg: Config, evs: seq<Event>, i: nat)
    requires i < |cfg.members|
    ensures var h, m := Run(cfg, evs), cfg.members[i];
            && Allowed(m, AttemptsOf(h.log, i))
            && (h.fan.sts[i].state.Failed? ==> !Allowed(m, AttemptsOf(h.log, i) + 1))
            && (h.fan.sts[i].state.NotStarted() ==> Allowed(m, AttemptsOf(h.log, i) + 1))
  {
    LaunchDiscipline(cfg, evs);
    assert MemberOk(cfg, Run(cfg, evs).fan.sts, i);
  }

  /** Two attempts with one key, no other with it in between, are at least the retry delay apart. */
  lemma RetriesApart(cfg: Config, evs: seq<Event>, j: nat, k: nat)
    requires var log := Run(cfg, evs).log;
             j < k < |log| && log[k].member < |cfg.members| && LastOf(cfg, log[..k], cfg.members[log[k].member].key, j)
    ensures var log := Run(cfg, evs).log; cfg.retryDelayMs > 0 ==> log[k].time - log[j].time >= cfg.retryDelayMs
  {
    LaunchDiscipline(cfg, evs);
    var log := Run(cfg, evs).log;
    var key := cfg.members[log[k].member].key;
    LastTimeIs(cfg, log[..k], key);
    if key in LastTimes(cfg, log[..k]) {
      var m :| LastOf(cfg, log[..k], key, m) && LastTimes(cfg, log[..k])[key] == log[..k][m].time;
      assert m == j;
    }
  }

  /**
   * No capacity is left idle. When a pump ends, in any run, every member still pending has a reason: the cap is full,
   * the last launch is less than the launch delay ago, the last attempt with its key is less than the retry delay ago,
   * or it has had its attempt in this very pump.
   */
  lemma NoIdleCapacity(cfg: Config, evs: seq<Event>, ev: Event, i: nat)
    requires ev.PumpCalled? == Run(cfg, evs).fan.frame.None?
    requires Step(cfg, Run(cfg, evs), ev).fan.frame.None? && i < |cfg.members|
    ensures var h, now := Step(cfg, Run(cfg, evs), ev), TimeOf(Run(cfg, evs), ev);
            h.fan.sts[i].state.Pending? ==>
              || CapFull(cfg, h.fan.sts)
              || LaunchedLately(cfg, h.log, now)
              || BackingOff(cfg, h.log, cfg.members[i].key, now)
              || Tried(h.log, h.pumps, i)
  {
    RunLogInv(cfg, evs);
    SuspendedConserves(cfg, evs);
    var h, now := Step(cfg, Run(cfg, evs), ev), TimeOf(Run(cfg, evs), ev);
    StepConserves(cfg, Run(cfg, evs), ev);
    if ExcusedBelow(cfg, h, now, |cfg.members|) { assert Excused(cfg, h, now, i); }
  }

  /**
   * Each launch takes the first member that may go: while one is in flight, in any run, every pending member before it
   * is backing off or has had its attempt in this pump.
   */
  lemma FirstEligibleLaunches(cfg: Config, evs: seq<Event>, i: nat)
    requires Run(cfg, evs).fan.frame.Some? && i < Run(cfg, evs).fan.frame.value.index
    ensures var h := Run(cfg, evs);
            && i < |cfg.members|
            && (h.fan.sts[i].state.Pending? ==>
                  || BackingOff(cfg, h.log, cfg.members[i].key, h.fan.frame.value.now)
                  || Tried(h.log, h.pumps, i))
  {
    SuspendedConserves(cfg, evs);
    var h := Run(cfg, evs);
    assert Excused(cfg, h, h.fan.frame.value.now, i);
  }
}
