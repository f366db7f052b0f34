/**
 * `topologicalSort` of src/core/queue.ts:133-167 (Kahn's algorithm): it returns a dependency order exactly
 * when there is one, and fails exactly on a cycle (or a dependency that is no job).
 */
module TopoSort {
  import opened Basics

  datatype Retry = Retry(maxAttempts: int, backoff: string)

  datatype Job = Job(id: string, command: string, timeout: string, dependsOn: seq<string>, retry: Option<Retry>)

  predicate UniqueIds(jobs: seq<Job>) {
    forall i, j :: 0 <= i < j < |jobs| ==> jobs[i].id != jobs[j].id
  }

  predicate IsJob(jobs: seq<Job>, id: string) {
    exists i :: 0 <= i < |jobs| && jobs[i].id == id
  }

  predicate AllKnown(jobs: seq<Job>) {
    forall i, k :: 0 <= i < |jobs| && 0 <= k < |jobs[i].dependsOn| ==> IsJob(jobs, jobs[i].dependsOn[k])
  }

  predicate NoDuplicates(ids: seq<string>) {
    forall i, j :: 0 <= i < j < |ids| ==> ids[i] != ids[j]
  }

  /** Each job of the list once, after everything it depends on. */
  predicate IsOrder(jobs: seq<Job>, order: seq<string>) {
    && |order| == |jobs|
    && NoDuplicates(order)
    && (forall i :: 0 <= i < |jobs| ==> jobs[i].id in order)
    && DepsFirst(jobs, order)
  }

  predicate DepsFirst(jobs: seq<Job>, order: seq<string>) {
    forall p, i :: 0 <= p < |order| && 0 <= i < |jobs| && jobs[i].id == order[p] ==>
      AllIn(jobs[i].dependsOn, order[..p])
  }

  predicate AllIn(ids: seq<string>, among: seq<string>) {
    forall k :: 0 <= k < |ids| ==> ids[k] in among
  }

  // ---- Counting occurrences ----

  function Times(ids: seq<string>, id: string): nat {
    if |ids| == 0 then 0 else Times(ids[..|ids| - 1], id) + (if ids[|ids| - 1] == id then 1 else 0)
  }

  lemma TimesAppend(ids: seq<string>, x: string, id: string)
    ensures Times(ids + [x], id) == Times(ids, id) + (if x == id then 1 else 0)
  {
    assert (ids + [x])[..|ids|] == ids;
  }

  lemma {:induction false} TimesPrefix(ids: seq<string>, k: nat, id: string)
    requires k <= |ids|
    ensures Times(ids[..k], id) <= Times(ids, id)
  {
    if k < |ids| {
      assert ids[..|ids| - 1][..k] == ids[..k];
      TimesPrefix(ids[..|ids| - 1], k, id);
    } else {
      assert ids[..k] == ids;
    }
  }

  /** How many of the listed dependencies are not among the jobs done. */
  function Missing(deps: seq<string>, done: seq<string>): nat {
    if |deps| == 0 then 0
    else Missing(deps[..|deps| - 1], done) + (if deps[|deps| - 1] in done then 0 else 1)
  }

  lemma {:induction false} MissingZero(deps: seq<string>, done: seq<string>)
    ensures Missing(deps, done) == 0 <==> AllIn(deps, done)
  {
    if |deps| > 0 {
      MissingZero(deps[..|deps| - 1], done);
      assert forall k :: 0 <= k < |deps| - 1 ==> deps[..|deps| - 1][k] == deps[k];
    }
  }

  lemma {:induction false} MissingNone(deps: seq<string>)
    ensures Missing(deps, []) == |deps|
  {
    if |deps| > 0 {
      MissingNone(deps[..|deps| - 1]);
    }
  }

  /** Finishing one more job leaves as many fewer missing as it occurs among the dependencies. */
  lemma {:induction false} MissingDone(deps: seq<string>, done: seq<string>, id: string)
    requires id !in done
    ensures Missing(deps, done + [id]) + Times(deps, id) == Missing(deps, done)
  {
    if |deps| > 0 {
      MissingDone(deps[..|deps| - 1], done, id);
    }
  }

  lemma MissingAtLeast(deps: seq<string>, done: seq<string>, id: string)
    requires id !in done
    ensures Missing(deps, done) >= Times(deps, id)
  {
    MissingDone(deps, done, id);
  }

  // ---- The algorithm ----

  predicate IdsAreKeys<T>(jobs: seq<Job>, m: map<string, T>) {
    && (forall i :: 0 <= i < |jobs| ==> jobs[i].id in m)
    && (forall id :: id in m ==> IsJob(jobs, id))
  }

  /** How often job j stands in the list of d once the loop has reached dependency k of job i. */
  function Entered(jobs: seq<Job>, d: string, i: nat, k: nat, j: nat): nat
    requires j < |jobs| && i <= |jobs| && (i < |jobs| ==> k <= |jobs[i].dependsOn|)
  {
    if j < i then Times(jobs[j].dependsOn, d) else if j == i then Times(jobs[i].dependsOn[..k], d) else 0
  }

  predicate ListOk(jobs: seq<Job>, list: seq<string>, d: string, i: nat, k: nat)
    requires i <= |jobs| && (i < |jobs| ==> k <= |jobs[i].dependsOn|)
  {
    && (forall p :: 0 <= p < |list| ==> IsJob(jobs, list[p]))
    && (forall j :: 0 <= j < |jobs| ==> Times(list, jobs[j].id) == Entered(jobs, d, i, k, j))
  }

  predicate ListsOk(jobs: seq<Job>, dependents: map<string, seq<string>>, i: nat, k: nat)
    requires i <= |jobs| && (i < |jobs| ==> k <= |jobs[i].dependsOn|)
  {
    IdsAreKeys(jobs, dependents) && forall d :: d in dependents ==> ListOk(jobs, dependents[d], d, i, k)
  }

  lemma NextJob(jobs: seq<Job>, dependents: map<string, seq<string>>, i: nat)
    requires i < |jobs| && ListsOk(jobs, dependents, i, |jobs[i].dependsOn|)
    ensures ListsOk(jobs, dependents, i + 1, 0)
  {
    assert jobs[i].dependsOn[..|jobs[i].dependsOn|] == jobs[i].dependsOn;
    forall d | d in dependents ensures ListOk(jobs, dependents[d], d, i + 1, 0) {
      assert ListOk(jobs, dependents[d], d, i, |jobs[i].dependsOn|);
    }
  }

  /** Entering job i for its dependency k into the list of d, if that is the one. */
  lemma NextDependency(jobs: seq<Job>, list: seq<string>, d: string, i: nat, k: nat)
    requires UniqueIds(jobs) && i < |jobs| && k < |jobs[i].dependsOn| && ListOk(jobs, list, d, i, k)
    ensures ListOk(jobs, if d == jobs[i].dependsOn[k] then list + [jobs[i].id] else list, d, i, k + 1)
  {
    var deps := jobs[i].dependsOn;
    assert deps[..k + 1] == deps[..k] + [deps[k]];
    TimesAppend(deps[..k], deps[k], d);
    assert IsJob(jobs, jobs[i].id);
    forall j | 0 <= j < |jobs|
      ensures Times(list + [jobs[i].id], jobs[j].id) == Times(list, jobs[j].id) + (if j == i then 1 else 0)
    {
      TimesAppend(list, jobs[i].id, jobs[j].id);
    }
  }

  /** Job i joins the list of each of its dependencies; one that is no job has no list. */
  method AddDependent(jobs: seq<Job>, i: nat, before: map<string, seq<string>>)
    returns (after: map<string, seq<string>>)
    requires i < |jobs| && UniqueIds(jobs) && ListsOk(jobs, before, i, 0)
    ensures ListsOk(jobs, after, i + 1, 0)
  {
    after := before;
    var deps := jobs[i].dependsOn;
    for k := 0 to |deps|
      invariant ListsOk(jobs, after, i, k)
    {
      ghost var was := after;
      if deps[k] in after {
        after := after[deps[k] := after[deps[k]] + [jobs[i].id]];
      }
      forall d | d in after ensures ListOk(jobs, after[d], d, i, k + 1) {
        NextDependency(jobs, was[d], d, i, k);
      }
    }
    NextJob(jobs, after, i);
  }

  /** The first loops: an empty list and a zero for each job. */
  method EmptyGraph(jobs: seq<Job>) returns (dependents: map<string, seq<string>>, inDegree: map<string, int>)
    ensures IdsAreKeys(jobs, dependents) && IdsAreKeys(jobs, inDegree)
    ensures forall id :: id in dependents ==> dependents[id] == []
  {
    dependents, inDegree := map[], map[];
    for i := 0 to |jobs|
      invariant forall j :: 0 <= j < i ==> jobs[j].id in dependents && jobs[j].id in inDegree
      invariant forall id :: id in dependents ==> IsJob(jobs, id) && dependents[id] == []
      invariant forall id :: id in inDegree ==> IsJob(jobs, id)
    {
      inDegree := inDegree[jobs[i].id := 0];
      dependents := dependents[jobs[i].id := []];
      assert IsJob(jobs, jobs[i].id);
    }
  }

  lemma EmptyLists(jobs: seq<Job>, dependents: map<string, seq<string>>)
    requires IdsAreKeys(jobs, dependents) && forall id :: id in dependents ==> dependents[id] == []
    ensures ListsOk(jobs, dependents, 0, 0)
  {
    forall d, j | d in dependents && 0 <= j < |jobs| ensures Entered(jobs, d, 0, 0, j) == 0 {
    }
  }

  /** The first i jobs have their in-degree. */
  predicate DegreesSet(jobs: seq<Job>, inDegree: map<string, int>, i: nat)
    requires i <= |jobs|
  {
    IdsAreKeys(jobs, inDegree) && forall j :: 0 <= j < i ==> inDegree[jobs[j].id] == |jobs[j].dependsOn|
  }

  lemma DegreeSet(jobs: seq<Job>, inDegree: map<string, int>, i: nat)
    requires i < |jobs| && UniqueIds(jobs) && DegreesSet(jobs, inDegree, i)
    ensures DegreesSet(jobs, inDegree[jobs[i].id := |jobs[i].dependsOn|], i + 1)
  {
  }

  method BuildGraph(jobs: seq<Job>) returns (dependents: map<string, seq<string>>, inDegree: map<string, int>)
    requires UniqueIds(jobs)
    ensures ListsOk(jobs, dependents, |jobs|, 0)
    ensures DegreesSet(jobs, inDegree, |jobs|)
  {
    dependents, inDegree := EmptyGraph(jobs);
    EmptyLists(jobs, dependents);
    for i := 0 to |jobs|
      invariant DegreesSet(jobs, inDegree, i) && ListsOk(jobs, dependents, i, 0)
    {
      DegreeSet(jobs, inDegree, i);
      inDegree := inDegree[jobs[i].id := |jobs[i].dependsOn|];
      dependents := AddDependent(jobs, i, dependents);
    }
  }

  /** The ids of the jobs without dependencies, in declaration order. */
  function Roots(jobs: seq<Job>): seq<string> {
    if |jobs| == 0 then []
    else Roots(jobs[..|jobs| - 1]) + (if jobs[|jobs| - 1].dependsOn == [] then [jobs[|jobs| - 1].id] else [])
  }

  /** Between two jobs: `order` is done, `ready` has no dependency missing, everything else has. */
  predicate Progress(jobs: seq<Job>, inDegree: map<string, int>, order: seq<string>, ready: seq<string>) {
    && IdsAreKeys(jobs, inDegree)
    && NoDuplicates(order + ready)
    && (forall k :: 0 <= k < |order + ready| ==> IsJob(jobs, (order + ready)[k]))
    && (forall i :: 0 <= i < |jobs| ==>
          && inDegree[jobs[i].id] == Missing(jobs[i].dependsOn, order)
          && (jobs[i].id in order + ready <==> inDegree[jobs[i].id] == 0))
    && DepsFirst(jobs, order)
  }

  /** While the dependents of `current` are told, up to position k of their list. */
  predicate Telling(jobs: seq<Job>, inDegree: map<string, int>, order: seq<string>, current: string, told: seq<string>,
      ready: seq<string>) {
    && IdsAreKeys(jobs, inDegree)
    && NoDuplicates(order + [current] + ready)
    && (forall k :: 0 <= k < |order + [current] + ready| ==> IsJob(jobs, (order + [current] + ready)[k]))
    && (forall i :: 0 <= i < |jobs| ==>
          && inDegree[jobs[i].id] == Missing(jobs[i].dependsOn, order) - Times(told, jobs[i].id)
          && (jobs[i].id in order + [current] + ready <==> inDegree[jobs[i].id] == 0))
  }

  /** The inner loop: one dependency fewer for each dependent of `current`. */
  method TellDependents(jobs: seq<Job>, list: seq<string>, inDegree: map<string, int>, order: seq<string>,
      current: string, ready: seq<string>)
    returns (inDegree': map<string, int>, ready': seq<string>)
    requires UniqueIds(jobs) && current !in order
    requires Telling(jobs, inDegree, order, current, [], ready)
    requires forall k :: 0 <= k < |list| ==> IsJob(jobs, list[k])
    requires forall i :: 0 <= i < |jobs| ==> Times(list, jobs[i].id) == Times(jobs[i].dependsOn, current)
    ensures Telling(jobs, inDegree', order, current, list, ready')
    ensures ready <= ready'
  {
    inDegree', ready' := inDegree, ready;
    for k := 0 to |list|
      invariant Telling(jobs, inDegree', order, current, list[..k], ready')
      invariant ready <= ready'
    {
      var dep := list[k];
      var d := inDegree'[dep] - 1;
      ghost var was, before := inDegree', ready';
      var j :| 0 <= j < |jobs| && jobs[j].id == dep;
      assert list[..k + 1] == list[..k] + [dep];
      TimesPrefix(list, k + 1, dep);
      TimesAppend(list[..k], dep, dep);
      MissingAtLeast(jobs[j].dependsOn, order, current);
      assert d >= 0;
      inDegree' := inDegree'[dep := d];
      if d == 0 {
        ready' := ready' + [dep];
      }
      Told(jobs, was, inDegree', order, current, list[..k], before, ready', dep, j);
    }
    assert list[..|list|] == list;
  }

  lemma Told(jobs: seq<Job>, was: map<string, int>, now: map<string, int>, order: seq<string>, current: string,
             told: seq<string>, ready: seq<string>, ready': seq<string>, dep: string, j: nat)
    requires UniqueIds(jobs) && Telling(jobs, was, order, current, told, ready)
    requires j < |jobs| && jobs[j].id == dep && was[dep] > 0 && now == was[dep := was[dep] - 1]
    requires ready' == if was[dep] == 1 then ready + [dep] else ready
    ensures Telling(jobs, now, order, current, told + [dep], ready')
  {
    var front := order + [current] + ready;
    assert order + [current] + ready' == if was[dep] == 1 then front + [dep] else front;
    ToldFront(jobs, was, front, dep, j);
    forall i | 0 <= i < |jobs|
      ensures now[jobs[i].id] == Missing(jobs[i].dependsOn, order) - Times(told + [dep], jobs[i].id)
      ensures jobs[i].id in order + [current] + ready' <==> now[jobs[i].id] == 0
    {
      TimesAppend(told, dep, jobs[i].id);
    }
  }

  /** A job that becomes ready is new in the front. */
  lemma ToldFront(jobs: seq<Job>, was: map<string, int>, front: seq<string>, dep: string, j: nat)
    requires j < |jobs| && jobs[j].id == dep && IdsAreKeys(jobs, was) && was[dep] > 0 && NoDuplicates(front)
    requires forall i :: 0 <= i < |jobs| ==> (jobs[i].id in front <==> was[jobs[i].id] == 0)
    ensures dep !in front && NoDuplicates(front + [dep])
  {
    assert jobs[j].id !in front;
  }

  lemma InPrefix(order: seq<string>, current: string, deps: seq<string>, p: nat)
    requires p <= |order| && AllIn(deps, order[..p])
    ensures AllIn(deps, (order + [current])[..p])
  {
    assert (order + [current])[..p] == order[..p];
  }

  /** Taking the next ready job keeps every dependency before its dependents. */
  lemma TakeNext(jobs: seq<Job>, inDegree: map<string, int>, order: seq<string>, ready: seq<string>)
    requires UniqueIds(jobs) && |ready| > 0 && Progress(jobs, inDegree, order, ready)
    ensures DepsFirst(jobs, order + [ready[0]])
    ensures ready[0] !in order && IsJob(jobs, ready[0])
    ensures Telling(jobs, inDegree, order, ready[0], [], ready[1..])
  {
    var current := ready[0];
    assert order + [current] + ready[1..] == order + ready;
    assert (order + ready)[|order|] == current;
    assert forall p :: 0 <= p < |order| ==> (order + ready)[p] == order[p];
    forall p, i | 0 <= p < |order + [current]| && 0 <= i < |jobs| && jobs[i].id == (order + [current])[p]
      ensures AllIn(jobs[i].dependsOn, (order + [current])[..p])
    {
      if p == |order| {
        assert jobs[i].id in order + ready;
        MissingZero(jobs[i].dependsOn, order);
        assert (order + [current])[..p] == order;
      } else {
        InPrefix(order, current, jobs[i].dependsOn, p);
      }
    }
  }

  lemma ToldAll(jobs: seq<Job>, inDegree: map<string, int>, order: seq<string>, current: string, list: seq<string>,
      ready: seq<string>)
    requires Telling(jobs, inDegree, order, current, list, ready)
    requires current !in order && DepsFirst(jobs, order + [current])
    requires forall i :: 0 <= i < |jobs| ==> Times(list, jobs[i].id) == Times(jobs[i].dependsOn, current)
    ensures Progress(jobs, inDegree, order + [current], ready)
  {
    forall i | 0 <= i < |jobs|
      ensures inDegree[jobs[i].id] == Missing(jobs[i].dependsOn, order + [current])
    {
      MissingDone(jobs[i].dependsOn, order, current);
    }
  }

  function IdSet(jobs: seq<Job>): set<string> {
    set i | 0 <= i < |jobs| :: jobs[i].id
  }

  function Elements(ids: seq<string>): set<string> {
    set i | 0 <= i < |ids| :: ids[i]
  }

  method SeedReady(jobs: seq<Job>, inDegree: map<string, int>) returns (ready: seq<string>)
    requires UniqueIds(jobs) && DegreesSet(jobs, inDegree, |jobs|)
    ensures ready == Roots(jobs)
    ensures Progress(jobs, inDegree, [], ready)
  {
    ready := [];
    for i := 0 to |jobs|
      invariant ready == Roots(jobs[..i])
      invariant NoDuplicates(ready)
      invariant forall k :: 0 <= k < |ready| ==> exists j :: 0 <= j < i && jobs[j].id == ready[k]
      invariant forall j :: 0 <= j < i ==> (jobs[j].id in ready <==> jobs[j].dependsOn == [])
    {
      assert jobs[..i + 1][..i] == jobs[..i];
      if inDegree[jobs[i].id] == 0 {
        ready := ready + [jobs[i].id];
      }
    }
    assert jobs[..|jobs|] == jobs;
    StartOfProgress(jobs, inDegree, ready);
  }

  lemma StartOfProgress(jobs: seq<Job>, inDegree: map<string, int>, ready: seq<string>)
    requires UniqueIds(jobs) && DegreesSet(jobs, inDegree, |jobs|) && NoDuplicates(ready)
    requires forall k :: 0 <= k < |ready| ==> exists j :: 0 <= j < |jobs| && jobs[j].id == ready[k]
    requires forall j :: 0 <= j < |jobs| ==> (jobs[j].id in ready <==> jobs[j].dependsOn == [])
    ensures Progress(jobs, inDegree, [], ready)
  {
    assert [] + ready == ready;
    forall i | 0 <= i < |jobs| ensures Missing(jobs[i].dependsOn, []) == |jobs[i].dependsOn| {
      MissingNone(jobs[i].dependsOn);
    }
  }

  /**
   * Returns a dependency order, the independent jobs first and in declaration order, or None when there is
   * no dependency order at all.
   */
  method TopologicalSort(jobs: seq<Job>) returns (r: Option<seq<string>>)
    requires UniqueIds(jobs)
    ensures r.Some? ==> IsOrder(jobs, r.value) && Roots(jobs) <= r.value
    ensures r.None? ==> !exists order :: IsOrder(jobs, order)
  {
    var dependents, inDegree := BuildGraph(jobs);
    var ready := SeedReady(jobs, inDegree);
    var order: seq<string> := [];
    assert [] + ready == ready;
    while |ready| > 0
      invariant Progress(jobs, inDegree, order, ready)
      invariant Roots(jobs) <= order + ready
      decreases IdSet(jobs) - Elements(order)
    {
      var current := ready[0];
      TakeNext(jobs, inDegree, order, ready);
      var list := dependents[current];
      assert ListOk(jobs, list, current, |jobs|, 0);
      ghost var was := ready;
      inDegree, ready := TellDependents(jobs, list, inDegree, order, current, ready[1..]);
      ToldAll(jobs, inDegree, order, current, list, ready);
      PrefixKept(Roots(jobs), order, was, ready);
      Shrinks(jobs, order, current);
      order := order + [current];
    }
    assert order + [] == order;
    OrderIsComplete(jobs, inDegree, order);
    return if |order| != |jobs| then None else Some(order);
  }

  lemma PrefixKept(front: seq<string>, order: seq<string>, ready: seq<string>, rest: seq<string>)
    requires |ready| > 0 && front <= order + ready && ready[1..] <= rest
    ensures front <= order + [ready[0]] + rest
  {
    assert order + ready == order + [ready[0]] + ready[1..];
  }

  lemma ElementsAppend(ids: seq<string>, x: string)
    ensures Elements(ids + [x]) == Elements(ids) + {x}
  {
    assert (ids + [x])[|ids|] == x;
    forall y | y in Elements(ids) ensures y in Elements(ids + [x]) {
      var i :| 0 <= i < |ids| && ids[i] == y;
      assert (ids + [x])[i] == y;
    }
  }

  lemma Shrinks(jobs: seq<Job>, order: seq<string>, current: string)
    requires current !in order && IsJob(jobs, current)
    ensures IdSet(jobs) - Elements(order + [current]) < IdSet(jobs) - Elements(order)
  {
    ElementsAppend(order, current);
    assert current in IdSet(jobs) && current !in Elements(order);
  }

  // ---- When nothing is ready any more ----

  lemma {:induction false} DistinctCardinality(ids: seq<string>)
    requires NoDuplicates(ids)
    ensures |Elements(ids)| == |ids|
  {
    if |ids| > 0 {
      var n := |ids| - 1;
      DistinctCardinality(ids[..n]);
      ElementsAppend(ids[..n], ids[n]);
      assert ids == ids[..n] + [ids[n]];
    }
  }

  lemma IdSetCardinality(jobs: seq<Job>)
    requires UniqueIds(jobs)
    ensures |IdSet(jobs)| == |jobs|
  {
    var ids := seq(|jobs|, i requires 0 <= i < |jobs| => jobs[i].id);
    DistinctCardinality(ids);
    assert IdSet(jobs) == Elements(ids) by {
      forall x | x in IdSet(jobs) ensures x in Elements(ids) {
        var i :| 0 <= i < |jobs| && jobs[i].id == x;
        assert ids[i] == x;
      }
      forall x | x in Elements(ids) ensures x in IdSet(jobs) {
        var i :| 0 <= i < |ids| && ids[i] == x;
        assert jobs[i].id == x;
      }
    }
  }

  lemma SubsetEqual<T>(a: set<T>, b: set<T>)
    requires a <= b && |a| == |b|
    ensures a == b
  {
    if !(b <= a) {
      var x :| x in b && x !in a;
      assert a <= b - {x};
      SubsetSize(a, b - {x});
    }
  }

  lemma {:induction false} SubsetSize<T>(a: set<T>, b: set<T>)
    requires a <= b
    ensures |a| <= |b|
  {
    if a != {} {
      var x :| x in a;
      SubsetSize(a - {x}, b - {x});
    }
  }

  /** With nothing ready, the jobs done are all the jobs, or no dependency order exists. */
  lemma OrderIsComplete(jobs: seq<Job>, inDegree: map<string, int>, order: seq<string>)
    requires UniqueIds(jobs) && Progress(jobs, inDegree, order, [])
    ensures |order| == |jobs| ==> IsOrder(jobs, order)
    ensures |order| != |jobs| ==> !exists o :: IsOrder(jobs, o)
  {
    assert order + [] == order;
    DistinctCardinality(order);
    IdSetCardinality(jobs);
    assert Elements(order) <= IdSet(jobs) by {
      forall x | x in Elements(order) ensures x in IdSet(jobs) {
        var k :| 0 <= k < |order| && order[k] == x;
        assert IsJob(jobs, (order + [])[k]);
      }
    }
    if |order| == |jobs| {
      SubsetEqual(Elements(order), IdSet(jobs));
      forall i | 0 <= i < |jobs| ensures jobs[i].id in order {
        assert jobs[i].id in IdSet(jobs);
      }
    } else {
      assert Stuck(jobs, order) by {
        forall i | 0 <= i < |jobs| && jobs[i].id !in order
          ensures !AllIn(jobs[i].dependsOn, order)
        {
          MissingZero(jobs[i].dependsOn, order);
        }
      }
      forall o | IsOrder(jobs, o) ensures false {
        StuckHasNoOrder(jobs, order, o, 0);
        assert IdSet(jobs) <= Elements(order);
        SubsetSize(IdSet(jobs), Elements(order));
        SubsetSize(Elements(order), IdSet(jobs));
      }
    }
  }

  /** Every job not done has a dependency not done. */
  predicate Stuck(jobs: seq<Job>, done: seq<string>) {
    forall i :: 0 <= i < |jobs| && jobs[i].id !in done ==> !AllIn(jobs[i].dependsOn, done)
  }

  /** An order lists nothing but jobs. */
  lemma OnlyJobs(jobs: seq<Job>, o: seq<string>)
    requires UniqueIds(jobs) && IsOrder(jobs, o)
    ensures forall p :: 0 <= p < |o| ==> IsJob(jobs, o[p])
  {
    DistinctCardinality(o);
    IdSetCardinality(jobs);
    assert IdSet(jobs) <= Elements(o);
    SubsetEqual(IdSet(jobs), Elements(o));
    forall p | 0 <= p < |o| ensures IsJob(jobs, o[p]) {
      assert o[p] in Elements(o);
    }
  }

  /** Along any dependency order every job would have to be done. */
  lemma {:induction false} StuckHasNoOrder(jobs: seq<Job>, done: seq<string>, o: seq<string>, n: nat)
    requires UniqueIds(jobs) && Stuck(jobs, done) && IsOrder(jobs, o) && n <= |o|
    requires forall k :: 0 <= k < n ==> o[k] in done
    ensures forall i :: 0 <= i < |jobs| ==> jobs[i].id in done
    decreases |o| - n
  {
    if n == |o| {
      forall i | 0 <= i < |jobs| ensures jobs[i].id in done {
        var k :| 0 <= k < |o| && o[k] == jobs[i].id;
      }
    } else {
      OnlyJobs(jobs, o);
      var i :| 0 <= i < |jobs| && jobs[i].id == o[n];
      assert AllIn(jobs[i].dependsOn, o[..n]);
      assert AllIn(jobs[i].dependsOn, done) by {
        forall k | 0 <= k < |jobs[i].dependsOn| ensures jobs[i].dependsOn[k] in done {
          var p :| 0 <= p < n && o[..n][p] == jobs[i].dependsOn[k];
          assert o[p] in done;
        }
      }
      StuckHasNoOrder(jobs, done, o, n + 1);
    }
  }

  // ---- Cycles ----

  /** The job `id` names `dep` as a dependency. */
  predicate Needs(jobs: seq<Job>, id: string, dep: string) {
    exists i :: 0 <= i < |jobs| && jobs[i].id == id && dep in jobs[i].dependsOn
  }

  /** A chain of dependencies that comes back to its first job. */
  predicate IsCycle(jobs: seq<Job>, cycle: seq<string>) {
    && |cycle| >= 2
    && cycle[0] == cycle[|cycle| - 1]
    && IsChain(jobs, cycle)
  }

  predicate IsChain(jobs: seq<Job>, chain: seq<string>) {
    forall k :: 0 <= k < |chain| - 1 ==> Needs(jobs, chain[k], chain[k + 1])
  }

  ghost predicate HasCycle(jobs: seq<Job>) {
    exists cycle :: IsCycle(jobs, cycle)
  }

  /** In an order, what a job needs stands before it. */
  lemma NeedsBefore(jobs: seq<Job>, order: seq<string>, p: nat, dep: string) returns (q: nat)
    requires IsOrder(jobs, order) && p < |order| && Needs(jobs, order[p], dep)
    ensures q < p && order[q] == dep
  {
    var i :| 0 <= i < |jobs| && jobs[i].id == order[p] && dep in jobs[i].dependsOn;
    var k :| 0 <= k < |jobs[i].dependsOn| && jobs[i].dependsOn[k] == dep;
    assert dep in order[..p];
    q :| 0 <= q < p && order[..p][q] == dep;
  }

  /** Along a chain the positions in an order go down. */
  lemma {:induction false} ChainGoesDown(jobs: seq<Job>, order: seq<string>, chain: seq<string>, p: nat)
      returns (q: nat)
    requires IsOrder(jobs, order) && |chain| >= 1 && IsChain(jobs, chain)
    requires p < |order| && order[p] == chain[0]
    ensures q <= p && order[q] == chain[|chain| - 1] && (|chain| > 1 ==> q < p)
    decreases |chain|
  {
    if |chain| == 1 {
      q := p;
    } else {
      var next := NeedsBefore(jobs, order, p, chain[1]);
      assert forall k :: 0 <= k < |chain[1..]| ==> chain[1..][k] == chain[k + 1];
      q := ChainGoesDown(jobs, order, chain[1..], next);
    }
  }

  lemma CycleHasNoOrder(jobs: seq<Job>, order: seq<string>)
    requires HasCycle(jobs)
    ensures !IsOrder(jobs, order)
  {
    if IsOrder(jobs, order) {
      var cycle :| IsCycle(jobs, cycle);
      assert Needs(jobs, cycle[0], cycle[1]);
      var i :| 0 <= i < |jobs| && jobs[i].id == cycle[0];
      var p :| 0 <= p < |order| && order[p] == cycle[0];
      var q := ChainGoesDown(jobs, order, cycle, p);
    }
  }

  predicate AreJobs(jobs: seq<Job>, ids: seq<string>) {
    forall k :: 0 <= k < |ids| ==> IsJob(jobs, ids[k])
  }

  lemma ChainCons(jobs: seq<Job>, id: string, rest: seq<string>)
    requires |rest| > 0 && IsChain(jobs, rest) && AreJobs(jobs, rest)
    requires IsJob(jobs, id) && Needs(jobs, id, rest[0])
    ensures IsChain(jobs, [id] + rest) && AreJobs(jobs, [id] + rest)
  {
    var chain := [id] + rest;
    forall m | 0 <= m < |chain| - 1 ensures Needs(jobs, chain[m], chain[m + 1]) {
      if m > 0 {
        assert Needs(jobs, rest[m - 1], rest[m - 1 + 1]);
      }
    }
  }

  lemma ChainSlice(jobs: seq<Job>, chain: seq<string>, i: nat, j: nat)
    requires i < j <= |chain| && IsChain(jobs, chain)
    ensures IsChain(jobs, chain[i..j])
  {
    forall k | 0 <= k < j - i - 1 ensures Needs(jobs, chain[i..j][k], chain[i..j][k + 1]) {
      assert Needs(jobs, chain[i + k], chain[i + k + 1]);
    }
  }

  /** In a stuck state a job not done needs another one not done. */
  lemma NextStuck(jobs: seq<Job>, done: seq<string>, id: string) returns (next: string)
    requires AllKnown(jobs) && Stuck(jobs, done) && IsJob(jobs, id) && id !in done
    ensures IsJob(jobs, next) && next !in done && Needs(jobs, id, next)
  {
    var i :| 0 <= i < |jobs| && jobs[i].id == id;
    assert !AllIn(jobs[i].dependsOn, done);
    var k :| 0 <= k < |jobs[i].dependsOn| && jobs[i].dependsOn[k] !in done;
    next := jobs[i].dependsOn[k];
  }

  /** A chain as long as wanted through the jobs not done. */
  lemma {:induction false} LongChain(jobs: seq<Job>, done: seq<string>, start: string, n: nat)
      returns (chain: seq<string>)
    requires AllKnown(jobs) && Stuck(jobs, done) && IsJob(jobs, start) && start !in done
    ensures |chain| == n + 1 && chain[0] == start && IsChain(jobs, chain) && AreJobs(jobs, chain)
    decreases n
  {
    if n == 0 {
      chain := [start];
    } else {
      var next := NextStuck(jobs, done, start);
      var rest := LongChain(jobs, done, next, n - 1);
      ChainCons(jobs, start, rest);
      chain := [start] + rest;
    }
  }

  /** More ids than jobs: two are the same. */
  lemma Pigeonhole(jobs: seq<Job>, chain: seq<string>) returns (i: nat, j: nat)
    requires UniqueIds(jobs) && |chain| > |jobs| && AreJobs(jobs, chain)
    ensures i < j < |chain| && chain[i] == chain[j]
  {
    if NoDuplicates(chain) {
      DistinctCardinality(chain);
      IdSetCardinality(jobs);
      assert Elements(chain) <= IdSet(jobs) by {
        forall x | x in Elements(chain) ensures x in IdSet(jobs) {
          var k :| 0 <= k < |chain| && chain[k] == x;
          assert IsJob(jobs, chain[k]);
        }
      }
      SubsetSize(Elements(chain), IdSet(jobs));
    }
    i, j :| 0 <= i < j < |chain| && chain[i] == chain[j];
  }

  lemma StuckHasCycle(jobs: seq<Job>, done: seq<string>, start: string)
    requires UniqueIds(jobs) && AllKnown(jobs) && Stuck(jobs, done) && IsJob(jobs, start) && start !in done
    ensures HasCycle(jobs)
  {
    var chain := LongChain(jobs, done, start, |jobs|);
    var i, j := Pigeonhole(jobs, chain);
    RepeatIsCycle(jobs, chain, i, j);
  }

  lemma RepeatIsCycle(jobs: seq<Job>, chain: seq<string>, i: nat, j: nat)
    requires i < j < |chain| && chain[i] == chain[j] && IsChain(jobs, chain)
    ensures HasCycle(jobs)
  {
    ChainSlice(jobs, chain, i, j + 1);
    assert IsCycle(jobs, chain[i..j + 1]);
  }

  lemma AllDoneIsOrder(jobs: seq<Job>, done: seq<string>)
    requires UniqueIds(jobs) && NoDuplicates(done) && DepsFirst(jobs, done)
    requires forall k :: 0 <= k < |done| ==> IsJob(jobs, done[k])
    requires forall i :: 0 <= i < |jobs| ==> jobs[i].id in done
    ensures IsOrder(jobs, done)
  {
    DistinctCardinality(done);
    IdSetCardinality(jobs);
    forall x | x in Elements(done) ensures x in IdSet(jobs) {
      var k :| 0 <= k < |done| && done[k] == x;
      assert IsJob(jobs, done[k]);
    }
    forall x | x in IdSet(jobs) ensures x in Elements(done) {
      var i :| 0 <= i < |jobs| && jobs[i].id == x;
    }
    assert Elements(done) == IdSet(jobs);
  }

  lemma DepsFirstAppend(jobs: seq<Job>, done: seq<string>, j: nat)
    requires UniqueIds(jobs) && DepsFirst(jobs, done)
    requires j < |jobs| && jobs[j].id !in done && AllIn(jobs[j].dependsOn, done)
    ensures DepsFirst(jobs, done + [jobs[j].id])
  {
    var next := done + [jobs[j].id];
    forall p, m | 0 <= p < |next| && 0 <= m < |jobs| && jobs[m].id == next[p]
      ensures AllIn(jobs[m].dependsOn, next[..p])
    {
      if p == |done| {
        assert m == j && next[..p] == done;
      } else {
        InPrefix(done, jobs[j].id, jobs[m].dependsOn, p);
      }
    }
  }

  /** Without a cycle, jobs done in dependency order can always be extended to an order of them all. */
  lemma {:induction false} GrowOrder(jobs: seq<Job>, done: seq<string>)
    requires UniqueIds(jobs) && AllKnown(jobs) && !HasCycle(jobs)
    requires NoDuplicates(done) && DepsFirst(jobs, done) && forall k :: 0 <= k < |done| ==> IsJob(jobs, done[k])
    ensures exists order :: IsOrder(jobs, order)
    decreases IdSet(jobs) - Elements(done)
  {
    if forall i :: 0 <= i < |jobs| ==> jobs[i].id in done {
      AllDoneIsOrder(jobs, done);
    } else {
      var i :| 0 <= i < |jobs| && jobs[i].id !in done;
      assert IsJob(jobs, jobs[i].id);
      if Stuck(jobs, done) {
        StuckHasCycle(jobs, done, jobs[i].id);
      }
      var j :| 0 <= j < |jobs| && jobs[j].id !in done && AllIn(jobs[j].dependsOn, done);
      assert IsJob(jobs, jobs[j].id);
      DepsFirstAppend(jobs, done, j);
      Shrinks(jobs, done, jobs[j].id);
      GrowOrder(jobs, done + [jobs[j].id]);
    }
  }

  /** For known dependencies, there is a dependency order exactly when there is no cycle. */
  lemma OrderIffAcyclic(jobs: seq<Job>)
    requires UniqueIds(jobs) && AllKnown(jobs)
    ensures (exists order :: IsOrder(jobs, order)) <==> !HasCycle(jobs)
  {
    if HasCycle(jobs) {
      forall order ensures !IsOrder(jobs, order) {
        CycleHasNoOrder(jobs, order);
      }
    } else {
      GrowOrder(jobs, []);
    }
  }
}
