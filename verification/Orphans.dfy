/**
 * Orphan detection, `findOrphans` of src/core/orphans.ts:36-52, and its link to the launch guard of
 * src/core/bounds.ts:87-120.
 */
module Orphans {
  import opened Basics
  import T = Tags
  import opened TagDecode
  import opened Lifecycle
  import J = JsonText
  import B = TagBudget
  import opened LaunchGuard

  /** `live` is running or pending. */
  datatype Candidate = Candidate(live: bool, cfg: Config)

  /** The position in the list, and how long past deadline and grace. */
  datatype Orphan = Orphan(index: nat, overdueByMs: real)

  const ORPHAN_GRACE_MS := 600000

  function OverdueBy(c: Candidate, now: int, graceMs: int): real {
    now as real - (TtlDeadline(c.cfg) + graceMs as real)
  }

  predicate Overdue(c: Candidate, now: int, graceMs: int) {
    c.live && TtlDeadline(c.cfg) > 0.0 && OverdueBy(c, now, graceMs) > 0.0
  }

  /** Exactly the overdue instances among the first n. */
  predicate Exact(list: seq<Candidate>, n: nat, now: int, graceMs: int, orphans: seq<Orphan>)
    requires n <= |list|
  {
    && (forall o :: o in orphans ==>
          && o.index < n
          && Overdue(list[o.index], now, graceMs)
          && o.overdueByMs == OverdueBy(list[o.index], now, graceMs))
    && (forall i :: 0 <= i < n && Overdue(list[i], now, graceMs) ==>
          Orphan(i, OverdueBy(list[i], now, graceMs)) in orphans)
  }

  /** In the order of the list. */
  predicate InListOrder(orphans: seq<Orphan>) {
    forall k, m :: 0 <= k < m < |orphans| ==> orphans[k].index < orphans[m].index
  }

  /** Most overdue first, equals in the order of the list; so no instance stands there twice. */
  predicate WorstFirst(orphans: seq<Orphan>) {
    forall k, m :: 0 <= k < m < |orphans| ==>
      || orphans[k].overdueByMs > orphans[m].overdueByMs
      || (orphans[k].overdueByMs == orphans[m].overdueByMs && orphans[k].index < orphans[m].index)
  }

  function InsertedAt(sorted: seq<Orphan>, o: Orphan, k: nat): seq<Orphan>
    requires k <= |sorted|
  {
    sorted[..k] + [o] + sorted[k..]
  }

  lemma InsertedInOrder(sorted: seq<Orphan>, o: Orphan, k: nat)
    requires WorstFirst(sorted) && k <= |sorted| && forall m :: 0 <= m < |sorted| ==> sorted[m].index < o.index
    requires k > 0 ==> sorted[k - 1].overdueByMs >= o.overdueByMs
    requires forall m :: k <= m < |sorted| ==> sorted[m].overdueByMs < o.overdueByMs
    ensures WorstFirst(InsertedAt(sorted, o, k))
  {
    var r := InsertedAt(sorted, o, k);
    forall i, j | 0 <= i < j < |r|
      ensures r[i].overdueByMs > r[j].overdueByMs || (r[i].overdueByMs == r[j].overdueByMs && r[i].index < r[j].index)
    {
      var a, b := if i < k then i else i - 1, if j < k then j else j - 1;
      if i != k { assert r[i] == sorted[a]; }
      if j != k { assert r[j] == sorted[b]; }
    }
  }

  lemma InsertedMembers(sorted: seq<Orphan>, o: Orphan, k: nat)
    requires k <= |sorted|
    ensures multiset(InsertedAt(sorted, o, k)) == multiset(sorted) + multiset{o}
  {
    assert sorted == sorted[..k] + sorted[k..];
  }

  /** One more orphan in its place: after those at least as overdue. */
  method InsertOrphan(sorted: seq<Orphan>, o: Orphan) returns (r: seq<Orphan>)
    requires WorstFirst(sorted) && forall m :: 0 <= m < |sorted| ==> sorted[m].index < o.index
    ensures WorstFirst(r) && multiset(r) == multiset(sorted) + multiset{o}
  {
    var k := |sorted|;
    while k > 0 && sorted[k - 1].overdueByMs < o.overdueByMs
      invariant 0 <= k <= |sorted|
      invariant forall m :: k <= m < |sorted| ==> sorted[m].overdueByMs < o.overdueByMs
    {
      k := k - 1;
    }
    r := InsertedAt(sorted, o, k);
    InsertedInOrder(sorted, o, k);
    InsertedMembers(sorted, o, k);
  }

  lemma SameMembers(a: seq<Orphan>, b: seq<Orphan>)
    requires multiset(a) == multiset(b)
    ensures forall o :: o in a <==> o in b
  {
    forall o ensures o in a <==> o in b {
      assert o in a <==> o in multiset(a);
      assert o in b <==> o in multiset(b);
    }
  }

  /** The stable sort by overdue time. */
  method SortWorstFirst(found: seq<Orphan>) returns (sorted: seq<Orphan>)
    requires InListOrder(found)
    ensures WorstFirst(sorted) && multiset(sorted) == multiset(found)
  {
    sorted := [];
    for i := 0 to |found|
      invariant WorstFirst(sorted) && multiset(sorted) == multiset(found[..i])
    {
      SameMembers(sorted, found[..i]);
      forall m | 0 <= m < |sorted| ensures sorted[m].index < found[i].index {
        assert sorted[m] in found[..i];
      }
      sorted := InsertOrphan(sorted, found[i]);
      assert found[..i + 1] == found[..i] + [found[i]];
    }
    assert found[..|found|] == found;
  }

  /** The overdue live instances, worst first. */
  method FindOrphans(list: seq<Candidate>, now: int, graceMs: int := ORPHAN_GRACE_MS) returns (orphans: seq<Orphan>)
    ensures Exact(list, |list|, now, graceMs, orphans) && WorstFirst(orphans)
  {
    var found := [];
    for i := 0 to |list|
      invariant Exact(list, i, now, graceMs, found) && InListOrder(found)
      invariant forall k :: 0 <= k < |found| ==> found[k].index < i
    {
      if list[i].live && TtlDeadline(list[i].cfg) > 0.0 {
        var overdue := now as real - (TtlDeadline(list[i].cfg) + graceMs as real);
        if overdue > 0.0 {
          found := found + [Orphan(i, overdue)];
        }
      }
    }
    orphans := SortWorstFirst(found);
    SameMembers(orphans, found);
  }

  // ---- The launch guard ----

  lemma OverdueFrom(c: Config, now: int, graceMs: int)
    requires c.ttlDeadlineMs > 0
    ensures TtlDeadline(c) == c.ttlDeadlineMs as real > 0.0
    ensures forall live :: Overdue(Candidate(live, c), now, graceMs) <==> live && now > c.ttlDeadlineMs + graceMs
  {
  }

  /** The deadline of a launch. */
  lemma DeadlineOf(spec: T.Spec, launchTimeMs: int)
    requires launchTimeMs > 0
    ensures NormalConfig(spec, launchTimeMs).ttlDeadlineMs ==
              if spec.ttlMs > 0.0 then launchTimeMs + spec.ttlMs.Floor else 0
    ensures spec.ttlMs <= 0.0 ==> TtlDeadline(NormalConfig(spec, launchTimeMs)) == 0.0
  {
    if spec.ttlMs > 0.0 { TruncAdd(launchTimeMs, spec.ttlMs); }
  }

  /**
   * A real launch the guard neither refuses nor warns about is seen by orphan detection, which reads the tags that were
   * sent: its deadline is real, and it is reported exactly when it is live past deadline and grace. One it warns about
   * or lets through otherwise is never reported.
   */
  lemma UnwarnedIsTracked(spec: T.Spec, launchTimeMs: int, id: Option<T.Identity>, username: J.Text, digest: J.Text,
      c: Config, now: int, graceMs: int)
    requires T.ValidSpec(spec) && launchTimeMs > 0
    requires c == DecodeConfig(B.SentOf(T.LaunchTags(spec, launchTimeMs, id), username, digest))
    ensures var v := EvaluateBounds(spec, true);
            if !v.refuse && !v.warn then
              && TtlDeadline(c) == (launchTimeMs + spec.ttlMs.Floor) as real > 0.0
              && forall live ::
                   Overdue(Candidate(live, c), now, graceMs) <==>
                     live && now > launchTimeMs + spec.ttlMs.Floor + graceMs
            else forall live :: !Overdue(Candidate(live, c), now, graceMs)
  {
    SentConfigDecodes(spec, launchTimeMs, id, username, digest);
    DeadlineOf(spec, launchTimeMs);
    if spec.ttlMs > 0.0 { OverdueFrom(c, now, graceMs); }
  }
}
