/**
 * `validateQueue`, `buildQueue` and `Queue.create` of src/core/queue.ts:87-131, 185-255: what a config the
 * validator accepts promises to the fan-out that runs it.
 */
module QueueBuild {
  import opened Basics
  import opened TopoSort
  import D = Duration
  import F = FanOutModel
  import R = FanOutRuns
  import G = Gating
  import L = Liveness
  import M = FanOutMachine

  /** An absent text is empty: every check below treats the two alike. */
  datatype QueueConfig = QueueConfig(
    queueId: string, queueName: string, jobs: seq<Job>, globalTimeout: string, onFailure: string)

  /** The problem found, with the position of the job and of its dependency. */
  datatype QueueError =
    | NoJobs
    | MissingId(job: nat)
    | DuplicateId(job: nat)
    | MissingCommand(job: nat)
    | MissingTimeout(job: nat)
    | BadTimeout(job: nat)
    | SelfDependency(job: nat, dep: nat)
    | UnknownDependency(job: nat, dep: nat)
    | BadAttempts(job: nat)
    | BadBackoff(job: nat)
    | BadGlobalTimeout
    | BadOnFailure
    | Circular

  predicate Parses(s: string) {
    D.ParseDuration(s).Value?
  }

  predicate FieldsOk(j: Job) {
    j.id != "" && j.command != "" && j.timeout != "" && Parses(j.timeout)
  }

  predicate RetryOk(r: Retry) {
    r.maxAttempts >= 1 && r.backoff in ["", "fixed", "exponential"]
  }

  predicate DependencyOk(jobs: seq<Job>, i: nat, k: nat)
    requires i < |jobs| && k < |jobs[i].dependsOn|
  {
    jobs[i].dependsOn[k] != jobs[i].id && IsJob(jobs, jobs[i].dependsOn[k])
  }

  predicate DependenciesOk(jobs: seq<Job>, i: nat)
    requires i < |jobs|
  {
    forall k :: 0 <= k < |jobs[i].dependsOn| ==> DependencyOk(jobs, i, k)
  }

  predicate LinksOk(jobs: seq<Job>, i: nat)
    requires i < |jobs|
  {
    DependenciesOk(jobs, i) && (jobs[i].retry.Some? ==> RetryOk(jobs[i].retry.value))
  }

  predicate TakenId(jobs: seq<Job>, i: nat)
    requires i < |jobs|
  {
    exists j :: 0 <= j < i && jobs[j].id == jobs[i].id
  }

  predicate AllFieldsOk(jobs: seq<Job>, n: nat)
    requires n <= |jobs|
  {
    forall i :: 0 <= i < n ==> FieldsOk(jobs[i]) && !TakenId(jobs, i)
  }

  predicate AllLinksOk(jobs: seq<Job>, n: nat)
    requires n <= |jobs|
  {
    forall i :: 0 <= i < n ==> LinksOk(jobs, i)
  }

  predicate GlobalTimeoutOk(cfg: QueueConfig) {
    cfg.globalTimeout == "" || Parses(cfg.globalTimeout)
  }

  predicate OnFailureOk(cfg: QueueConfig) {
    cfg.onFailure in ["", "stop", "continue"]
  }

  /** What a config has to be. */
  ghost predicate ValidQueue(cfg: QueueConfig) {
    && cfg.jobs != []
    && (forall i :: 0 <= i < |cfg.jobs| ==> FieldsOk(cfg.jobs[i]))
    && UniqueIds(cfg.jobs)
    && AllLinksOk(cfg.jobs, |cfg.jobs|)
    && GlobalTimeoutOk(cfg)
    && OnFailureOk(cfg)
    && !HasCycle(cfg.jobs)
  }

  /** What the first loop finds wrong with job i. */
  predicate FieldProblem(jobs: seq<Job>, i: nat, e: QueueError)
    requires i < |jobs|
  {
    var named := jobs[i].id != "" && !TakenId(jobs, i);
    match e
    case MissingId(j) => j == i && jobs[i].id == ""
    case DuplicateId(j) => j == i && TakenId(jobs, i)
    case MissingCommand(j) => j == i && named && jobs[i].command == ""
    case MissingTimeout(j) => j == i && named && jobs[i].command != "" && jobs[i].timeout == ""
    case BadTimeout(j) => j == i && named && jobs[i].command != "" && jobs[i].timeout != "" && !Parses(jobs[i].timeout)
    case _ => false
  }

  /** What the second loop finds wrong with job i. */
  predicate LinkProblem(jobs: seq<Job>, i: nat, e: QueueError)
    requires i < |jobs|
  {
    var deps, retry := jobs[i].dependsOn, jobs[i].retry;
    match e
    case SelfDependency(j, k) =>
      j == i && k < |deps| && deps[k] == jobs[i].id && forall m :: 0 <= m < k ==> DependencyOk(jobs, i, m)
    case UnknownDependency(j, k) =>
      j == i && k < |deps| && !IsJob(jobs, deps[k]) && forall m :: 0 <= m < k ==> DependencyOk(jobs, i, m)
    case BadAttempts(j) => j == i && DependenciesOk(jobs, i) && retry.Some? && retry.value.maxAttempts < 1
    case BadBackoff(j) =>
      && j == i && DependenciesOk(jobs, i)
      && retry.Some? && retry.value.maxAttempts >= 1 && retry.value.backoff !in ["", "fixed", "exponential"]
    case _ => false
  }

  predicate FirstFieldProblem(jobs: seq<Job>, e: QueueError) {
    exists i :: 0 <= i < |jobs| && AllFieldsOk(jobs, i) && FieldProblem(jobs, i, e)
  }

  predicate FirstLinkProblem(jobs: seq<Job>, e: QueueError) {
    AllFieldsOk(jobs, |jobs|) && exists i :: 0 <= i < |jobs| && AllLinksOk(jobs, i) && LinkProblem(jobs, i, e)
  }

  /** The error names something that is wrong, and nothing the validator looks at earlier is. */
  ghost predicate FirstProblem(cfg: QueueConfig, e: QueueError) {
    var jobs := cfg.jobs;
    var jobsOk := jobs != [] && AllFieldsOk(jobs, |jobs|) && AllLinksOk(jobs, |jobs|);
    match e
    case NoJobs => jobs == []
    case BadGlobalTimeout => jobsOk && !GlobalTimeoutOk(cfg)
    case BadOnFailure => jobsOk && GlobalTimeoutOk(cfg) && !OnFailureOk(cfg)
    case Circular => jobsOk && GlobalTimeoutOk(cfg) && OnFailureOk(cfg) && HasCycle(jobs)
    case _ => FirstFieldProblem(jobs, e) || FirstLinkProblem(jobs, e)
  }

  /** The ids entered so far. */
  predicate IdsSoFar(jobs: seq<Job>, n: nat, ids: set<string>)
    requires n <= |jobs|
  {
    && (forall i :: 0 <= i < n ==> jobs[i].id in ids)
    && (forall id :: id in ids ==> exists i :: 0 <= i < n && jobs[i].id == id)
  }

  /** The first loop at job i. */
  method CheckField(jobs: seq<Job>, ids: set<string>, i: nat) returns (e: Option<QueueError>)
    requires i < |jobs| && IdsSoFar(jobs, i, ids)
    ensures e.None? ==> FieldsOk(jobs[i]) && !TakenId(jobs, i)
    ensures e.Some? ==> FieldProblem(jobs, i, e.value)
  {
    var job := jobs[i];
    if job.id == "" { return Some(MissingId(i)); }
    if job.id in ids { return Some(DuplicateId(i)); }
    if job.command == "" { return Some(MissingCommand(i)); }
    if job.timeout == "" { return Some(MissingTimeout(i)); }
    var timeout := D.ParseDurationLoop(job.timeout);
    return if timeout.Malformed? then Some(BadTimeout(i)) else None;
  }

  lemma FieldsStep(jobs: seq<Job>, i: nat, ids: set<string>)
    requires i < |jobs| && AllFieldsOk(jobs, i) && FieldsOk(jobs[i]) && !TakenId(jobs, i) && IdsSoFar(jobs, i, ids)
    ensures AllFieldsOk(jobs, i + 1) && IdsSoFar(jobs, i + 1, ids + {jobs[i].id})
  {
  }

  /** The first loop over the jobs. */
  method CheckFields(jobs: seq<Job>) returns (ids: set<string>, e: Option<QueueError>)
    ensures e.None? ==> AllFieldsOk(jobs, |jobs|) && IdsSoFar(jobs, |jobs|, ids)
    ensures e.Some? ==> FirstFieldProblem(jobs, e.value)
  {
    ids, e := {}, None;
    for i := 0 to |jobs|
      invariant AllFieldsOk(jobs, i) && IdsSoFar(jobs, i, ids)
    {
      e := CheckField(jobs, ids, i);
      if e.Some? { return; }
      FieldsStep(jobs, i, ids);
      ids := ids + {jobs[i].id};
    }
    e := None;
  }

  /** The second loop at job i. */
  method CheckLink(jobs: seq<Job>, ids: set<string>, i: nat) returns (e: Option<QueueError>)
    requires i < |jobs| && IdsSoFar(jobs, |jobs|, ids)
    ensures e.None? ==> LinksOk(jobs, i)
    ensures e.Some? ==> LinkProblem(jobs, i, e.value)
  {
    var deps := jobs[i].dependsOn;
    for k := 0 to |deps|
      invariant forall m :: 0 <= m < k ==> DependencyOk(jobs, i, m)
    {
      if deps[k] == jobs[i].id { return Some(SelfDependency(i, k)); }
      if deps[k] !in ids { return Some(UnknownDependency(i, k)); }
    }
    if jobs[i].retry.Some? {
      var retry := jobs[i].retry.value;
      if retry.maxAttempts < 1 { return Some(BadAttempts(i)); }
      if retry.backoff != "" && retry.backoff != "fixed" && retry.backoff != "exponential" {
        return Some(BadBackoff(i));
      }
    }
    return None;
  }

  lemma LinkFound(jobs: seq<Job>, i: nat, e: QueueError)
    requires i < |jobs| && AllFieldsOk(jobs, |jobs|) && AllLinksOk(jobs, i) && LinkProblem(jobs, i, e)
    ensures FirstLinkProblem(jobs, e)
  {
  }

  lemma LinksStep(jobs: seq<Job>, i: nat)
    requires i < |jobs| && AllLinksOk(jobs, i) && LinksOk(jobs, i)
    ensures AllLinksOk(jobs, i + 1)
  {
  }

  /** The second loop over the jobs. */
  method CheckLinks(jobs: seq<Job>, ids: set<string>) returns (e: Option<QueueError>)
    requires AllFieldsOk(jobs, |jobs|) && IdsSoFar(jobs, |jobs|, ids)
    ensures e.None? ==> AllLinksOk(jobs, |jobs|)
    ensures e.Some? ==> FirstLinkProblem(jobs, e.value)
  {
    e := None;
    for i := 0 to |jobs|
      invariant AllLinksOk(jobs, i)
    {
      e := CheckLink(jobs, ids, i);
      if e.Some? {
        LinkFound(jobs, i, e.value);
        return;
      }
      LinksStep(jobs, i);
    }
    e := None;
  }

  lemma LinksMakeKnown(jobs: seq<Job>)
    requires AllLinksOk(jobs, |jobs|)
    ensures AllKnown(jobs)
  {
    forall i, k | 0 <= i < |jobs| && 0 <= k < |jobs[i].dependsOn| ensures IsJob(jobs, jobs[i].dependsOn[k]) {
      assert LinksOk(jobs, i) && DependencyOk(jobs, i, k);
    }
  }

  /** Accepts exactly the valid configs, and otherwise reports the first problem in the order of the source. */
  method ValidateQueue(cfg: QueueConfig) returns (e: Option<QueueError>)
    ensures e.None? <==> ValidQueue(cfg)
    ensures e.Some? ==> FirstProblem(cfg, e.value)
  {
    e := FindProblem(cfg);
    if e.Some? { ProblemIsReal(cfg, e.value); }
  }

  method FindProblem(cfg: QueueConfig) returns (e: Option<QueueError>)
    ensures e.None? ==> ValidQueue(cfg)
    ensures e.Some? ==> FirstProblem(cfg, e.value)
  {
    if |cfg.jobs| == 0 { return Some(NoJobs); }
    var ids;
    ids, e := CheckFields(cfg.jobs);
    if e.Some? { return; }
    e := CheckLinks(cfg.jobs, ids);
    if e.Some? { return; }
    if cfg.globalTimeout != "" {
      var timeout := D.ParseDurationLoop(cfg.globalTimeout);
      if timeout.Malformed? { return Some(BadGlobalTimeout); }
    }
    if cfg.onFailure != "" && cfg.onFailure != "stop" && cfg.onFailure != "continue" { return Some(BadOnFailure); }
    var order := SortChecked(cfg.jobs);
    return if order.None? then Some(Circular) else None;
  }

  /** On jobs that pass the other checks the sort fails exactly on a cycle. */
  method SortChecked(jobs: seq<Job>) returns (order: Option<seq<string>>)
    requires AllFieldsOk(jobs, |jobs|) && AllLinksOk(jobs, |jobs|)
    ensures UniqueIds(jobs)
    ensures order.None? <==> HasCycle(jobs)
    ensures order.Some? ==> IsOrder(jobs, order.value)
  {
    UntakenIsUnique(jobs);
    LinksMakeKnown(jobs);
    OrderIffAcyclic(jobs);
    order := TopologicalSort(jobs);
  }

  lemma UntakenIsUnique(jobs: seq<Job>)
    ensures UniqueIds(jobs) <==> forall i :: 0 <= i < |jobs| ==> !TakenId(jobs, i)
  {
    if UniqueIds(jobs) {
    } else {
      var i, j :| 0 <= i < j < |jobs| && jobs[i].id == jobs[j].id;
      assert TakenId(jobs, j);
    }
  }

  lemma LinkProblemIsReal(jobs: seq<Job>, i: nat, e: QueueError)
    requires i < |jobs| && LinkProblem(jobs, i, e)
    ensures !LinksOk(jobs, i)
  {
    if e.SelfDependency? || e.UnknownDependency? {
      assert !DependencyOk(jobs, i, e.dep);
    }
  }

  /** A reported problem is one: no valid config has it. */
  lemma ProblemIsReal(cfg: QueueConfig, e: QueueError)
    requires FirstProblem(cfg, e)
    ensures !ValidQueue(cfg)
  {
    UntakenIsUnique(cfg.jobs);
    if FirstLinkProblem(cfg.jobs, e) {
      var i :| 0 <= i < |cfg.jobs| && LinkProblem(cfg.jobs, i, e);
      LinkProblemIsReal(cfg.jobs, i, e);
    }
  }

  // ---- buildQueue ----

  /** A member and the part of its launch input the queue decides. */
  datatype QueueMember = QueueMember(
    key: string, ttl: string, command: string, index: nat, size: nat, dependsOn: seq<string>, maxAttempts: int)

  datatype BuiltQueue = BuiltQueue(id: string, name: string, size: nat, order: seq<string>, members: seq<QueueMember>)

  /** The first of two texts that is set. */
  predicate FirstSet(r: string, a: string, b: string) {
    (a != "" ==> r == a) && (a == "" ==> r == b)
  }

  /** The member at position p is job i, setting by setting. */
  predicate Carries(cfg: QueueConfig, i: nat, m: QueueMember, p: nat)
    requires i < |cfg.jobs|
  {
    var job := cfg.jobs[i];
    && m.key == job.id && m.command == job.command && m.dependsOn == job.dependsOn
    && m.index == p && m.size == |cfg.jobs|
    && FirstSet(m.ttl, job.timeout, cfg.globalTimeout)
    && (job.retry.Some? ==> m.maxAttempts == job.retry.value.maxAttempts)
    && (job.retry.None? ==> m.maxAttempts == 1)
  }

  predicate FromJob(cfg: QueueConfig, m: QueueMember, p: nat) {
    exists i :: 0 <= i < |cfg.jobs| && Carries(cfg, i, m, p)
  }

  /** One member for each job, in a dependency order. */
  predicate BuiltFrom(cfg: QueueConfig, b: BuiltQueue) {
    && IsOrder(cfg.jobs, b.order)
    && b.size == |cfg.jobs| == |b.members|
    && (forall p :: 0 <= p < |b.members| ==> b.members[p].key == b.order[p] && FromJob(cfg, b.members[p], p))
  }

  /** The `byId` index. */
  method IndexById(jobs: seq<Job>) returns (byId: map<string, Job>)
    requires UniqueIds(jobs)
    ensures forall i :: 0 <= i < |jobs| ==> jobs[i].id in byId && byId[jobs[i].id] == jobs[i]
  {
    byId := map[];
    for i := 0 to |jobs|
      invariant forall j :: 0 <= j < i ==> jobs[j].id in byId && byId[jobs[j].id] == jobs[j]
    {
      byId := byId[jobs[i].id := jobs[i]];
    }
  }

  /** The member of the job with this id, at position p. */
  method BuildMember(cfg: QueueConfig, byId: map<string, Job>, id: string, p: nat, ghost i: nat)
      returns (m: QueueMember)
    requires i < |cfg.jobs| && cfg.jobs[i].id == id && id in byId && byId[id] == cfg.jobs[i]
    ensures m.key == id && Carries(cfg, i, m, p)
  {
    var job := byId[id];
    var ttl := if job.timeout != "" then job.timeout else cfg.globalTimeout;
    var maxAttempts := if job.retry.Some? then job.retry.value.maxAttempts else 1;
    m := QueueMember(job.id, ttl, job.command, p, |cfg.jobs|, job.dependsOn, maxAttempts);
  }

  /** The members in the order given. */
  method BuildMembers(cfg: QueueConfig, order: seq<string>) returns (members: seq<QueueMember>)
    requires UniqueIds(cfg.jobs) && forall p :: 0 <= p < |order| ==> IsJob(cfg.jobs, order[p])
    ensures |members| == |order|
    ensures forall p :: 0 <= p < |members| ==> members[p].key == order[p] && FromJob(cfg, members[p], p)
  {
    var byId := IndexById(cfg.jobs);
    members := [];
    for p := 0 to |order|
      invariant |members| == p
      invariant forall q :: 0 <= q < p ==> members[q].key == order[q] && FromJob(cfg, members[q], q)
    {
      ghost var i :| 0 <= i < |cfg.jobs| && cfg.jobs[i].id == order[p];
      var m := BuildMember(cfg, byId, order[p], p, i);
      members := members + [m];
    }
  }

  /** `generated` is the id the source stamps from the clock. */
  method BuildQueue(cfg: QueueConfig, optId: string, generated: string) returns (r: Result<BuiltQueue, QueueError>)
    ensures r.Ok? <==> ValidQueue(cfg)
    ensures r.Err? ==> FirstProblem(cfg, r.error)
    ensures r.Ok? ==> BuiltFrom(cfg, r.value)
    ensures r.Ok? ==> FirstSet(r.value.id, cfg.queueId, if optId != "" then optId else generated)
    ensures r.Ok? ==> FirstSet(r.value.name, cfg.queueName, "queue")
  {
    var bad := ValidateQueue(cfg);
    if bad.Some? { return Err(bad.value); }
    LinksMakeKnown(cfg.jobs);
    OrderIffAcyclic(cfg.jobs);
    var sorted := TopologicalSort(cfg.jobs);
    var order := sorted.value;
    OnlyJobs(cfg.jobs, order);
    var members := BuildMembers(cfg, order);
    var id := if cfg.queueId != "" then cfg.queueId else if optId != "" then optId else generated;
    var name := if cfg.queueName != "" then cfg.queueName else "queue";
    return Ok(BuiltQueue(id, name, |cfg.jobs|, order, members));
  }

  // ---- The fan-out a queue starts ----

  function AsMember(m: QueueMember): F.Member {
    F.Member(m.key, m.dependsOn, Some(m.maxAttempts))
  }

  function AsMembers(members: seq<QueueMember>): (r: seq<F.Member>)
    ensures |r| == |members|
    ensures forall i :: 0 <= i < |members| ==> r[i] == AsMember(members[i])
  {
    seq(|members|, i requires 0 <= i < |members| => AsMember(members[i]))
  }

  /** `Queue.create`. */
  function FanOutOf(cfg: QueueConfig, b: BuiltQueue, maxConcurrent: Option<int>, launchDelayMs: Option<int>): F.Config {
    M.Configure(AsMembers(b.members), M.Options(maxConcurrent, launchDelayMs, None, cfg.onFailure == "stop", M.Absent))
  }

  /** A dependency of the member at position p is the member at some earlier position. */
  lemma DependencyIsEarlier(cfg: QueueConfig, b: BuiltQueue, members: seq<F.Member>, p: nat, k: nat)
    requires BuiltFrom(cfg, b) && members == AsMembers(b.members)
    requires p < |members| && k < |members[p].dependsOn|
    ensures var d := F.Lookup(members, members[p].dependsOn[k]); d.Some? && d.value < p
  {
    var dep := members[p].dependsOn[k];
    DependencyInPrefix(cfg, b, p, k);
    var q :| 0 <= q < p && b.order[..p][q] == dep;
    KeysAreOrder(cfg, b, members, q);
    var d := F.Lookup(members, dep);
    assert d.Some?;
    KeysAreOrder(cfg, b, members, d.value);
  }

  lemma KeysAreOrder(cfg: QueueConfig, b: BuiltQueue, members: seq<F.Member>, q: nat)
    requires BuiltFrom(cfg, b) && members == AsMembers(b.members) && q < |members|
    ensures members[q].key == b.order[q]
  {
  }

  lemma DependencyInPrefix(cfg: QueueConfig, b: BuiltQueue, p: nat, k: nat)
    requires BuiltFrom(cfg, b) && p < |b.members| && k < |b.members[p].dependsOn|
    ensures b.members[p].dependsOn[k] in b.order[..p]
  {
    assert FromJob(cfg, b.members[p], p);
    var i :| 0 <= i < |cfg.jobs| && Carries(cfg, i, b.members[p], p);
    assert cfg.jobs[i].id == b.order[p];
    assert AllIn(cfg.jobs[i].dependsOn, b.order[..p]);
  }

  /** Members come out so that every dependency stands earlier: one gating pass decides, and no cycle is left. */
  lemma QueueIsOrdered(cfg: QueueConfig, b: BuiltQueue, maxConcurrent: Option<int>, launchDelayMs: Option<int>)
    requires BuiltFrom(cfg, b)
    ensures G.InOrder(FanOutOf(cfg, b, maxConcurrent, launchDelayMs))
    ensures L.Acyclic(FanOutOf(cfg, b, maxConcurrent, launchDelayMs))
  {
    var f := FanOutOf(cfg, b, maxConcurrent, launchDelayMs);
    var rank := seq(|f.members|, i => i);
    forall p, k | 0 <= p < |f.members| && 0 <= k < |f.members[p].dependsOn|
      ensures var d := F.Lookup(f.members, f.members[p].dependsOn[k]); d.Some? && d.value < p
    {
      DependencyIsEarlier(cfg, b, f.members, p, k);
    }
    assert L.Ranked(f, rank);
  }

  /** The retry budget of the whole queue. */
  function Attempts(members: seq<QueueMember>): nat {
    if |members| == 0 then 0 else Attempts(members[..|members| - 1]) + Max(1, members[|members| - 1].maxAttempts)
  }

  lemma {:induction false} BudgetIsAttempts(ms: seq<QueueMember>, budgets: seq<nat>)
    requires |budgets| == |ms| && forall i :: 0 <= i < |ms| ==> budgets[i] == Max(1, ms[i].maxAttempts)
    ensures Sum(budgets) == Attempts(ms)
  {
    if |ms| > 0 {
      BudgetIsAttempts(ms[..|ms| - 1], budgets[..|ms| - 1]);
    }
  }

  /**
   * Every queue that can be built runs to its end: with each running instance gone by the next pump and the
   * clock past both delays, all jobs are terminal after 2 * (sum of the retry budgets) pumps.
   */
  lemma BuiltQueueFinishes(cfg: QueueConfig, b: BuiltQueue, maxConcurrent: Option<int>, launchDelayMs: Option<int>,
      rounds: seq<L.Round>)
    requires BuiltFrom(cfg, b)
    requires L.ClockAdvances(FanOutOf(cfg, b, maxConcurrent, launchDelayMs), rounds)
    requires L.AllGone(FanOutOf(cfg, b, maxConcurrent, launchDelayMs),
                       R.Start(FanOutOf(cfg, b, maxConcurrent, launchDelayMs)), rounds)
    requires |rounds| >= 2 * Attempts(b.members)
    ensures var f := FanOutOf(cfg, b, maxConcurrent, launchDelayMs); F.AllTerminal(L.PumpAll(f, R.Start(f), rounds).sts)
  {
    var f := FanOutOf(cfg, b, maxConcurrent, launchDelayMs);
    QueueIsOrdered(cfg, b, maxConcurrent, launchDelayMs);
    BudgetIsAttempts(b.members, L.Budgets(f));
    L.FanOutFinishes(f, rounds);
  }

  /** In every state of every run of a built queue, between pumps, an unstarted job means one is ready or running. */
  lemma BuiltQueueNeverDeadlocks(cfg: QueueConfig, b: BuiltQueue, maxConcurrent: Option<int>,
      launchDelayMs: Option<int>, evs: seq<R.Event>)
    requires BuiltFrom(cfg, b)
    ensures var f := R.Run(FanOutOf(cfg, b, maxConcurrent, launchDelayMs), evs).fan;
            f.frame.None? && F.AnyUnstarted(f.sts) ==>
              exists i :: 0 <= i < |f.sts| && (f.sts[i].state.Pending? || f.sts[i].state.Running?)
  {
    QueueIsOrdered(cfg, b, maxConcurrent, launchDelayMs);
    L.NoDeadlock(FanOutOf(cfg, b, maxConcurrent, launchDelayMs), evs);
  }

  /** Gating of a built queue takes a single pass, from any statuses. */
  lemma BuiltQueueGatesInOnePass(cfg: QueueConfig, b: BuiltQueue, maxConcurrent: Option<int>,
      launchDelayMs: Option<int>, sts: seq<F.Status>)
    requires BuiltFrom(cfg, b) && |sts| == |b.members|
    ensures var f := FanOutOf(cfg, b, maxConcurrent, launchDelayMs);
            F.ApplyGating(f, sts) == F.GatePass(f, sts, F.StopAll(f, sts), 0)
  {
    QueueIsOrdered(cfg, b, maxConcurrent, launchDelayMs);
    G.OnePassSuffices(FanOutOf(cfg, b, maxConcurrent, launchDelayMs), sts);
  }

  // ---- Timeouts between validation and launch ----

  /**
   * Validation reads timeouts with the tag reader, launch with the stricter parser: a validated job can still be
   * refused at launch, and is exactly when its timeout is signed, padded with white space or above Go's ceiling.
   */
  lemma ValidatedTimeoutAtLaunch(cfg: QueueConfig, b: BuiltQueue, p: nat)
    requires ValidQueue(cfg) && BuiltFrom(cfg, b) && p < |b.members|
    ensures var ttl := b.members[p].ttl;
            && D.ParseDuration(ttl).Value?
            && (D.ParseLifetime(ttl).Refused? <==>
                  D.Signed(ttl) || D.Trim(ttl) != ttl || D.ParseDuration(ttl).ms > D.MAX_DURATION_MS)
  {
    assert FromJob(cfg, b.members[p], p);
    var i :| 0 <= i < |cfg.jobs| && Carries(cfg, i, b.members[p], p);
    assert FieldsOk(cfg.jobs[i]);
    D.LaunchInputIff(b.members[p].ttl);
  }
}
