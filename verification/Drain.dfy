/**
 * Winding down a non-viable job array: `JobArray.enforceViability` (src/core/jobarray.ts:213-236) under any
 * number of overlapping calls, interleaved with the array's pumps, and its registration with the monitor
 * loop (`pumpFanOuts`, src/core/client.ts:260-278).
 *
 * A call runs without interruption up to an `await client.terminate(...)`, and from each outcome of one to
 * the next or to its end.
 */
module Drain {
  import opened Basics
  import opened FanOutModel
  import opened FanOutRuns
  import opened Gating
  import FanOutMachine

  /**
   * One call: the survivors it was started for, those it has yet to look at, the terminate in flight, and its two
   * reports.
   */
  datatype Call = Call(
    asked: seq<InstanceId>,
    rest: seq<InstanceId>,
    inFlight: Option<InstanceId>,
    terminated: seq<InstanceId>,
    failed: seq<InstanceId>)

  datatype System = System(fan: Fan, drained: set<InstanceId>, calls: seq<Call>, registered: bool)

  datatype Move =
    | FanMoves(ev: Event)
    | CallStarts
    | Terminates(c: nat)         // the terminate call c waits for succeeds
    | TerminateFails(c: nat)     // it throws
    | Deregisters                // the monitor loop drops the array if it is complete

  function Survivors(sts: seq<Status>): seq<InstanceId> {
    FanOutMachine.Survivors(sts, |sts|)
  }

  /** How many ids at the front of the list are already claimed. */
  function Skipped(rest: seq<InstanceId>, drained: set<InstanceId>): (n: nat)
    ensures n <= |rest|
    ensures forall k :: 0 <= k < n ==> rest[k] in drained
    ensures n < |rest| ==> rest[n] !in drained
  {
    if |rest| > 0 && rest[0] in drained then 1 + Skipped(rest[1..], drained) else 0
  }

  /** The loop goes on: skip the ids already claimed, claim the next one. */
  function Advance(s: System, call: Call): (System, Call) {
    var n := Skipped(call.rest, s.drained);
    if n == |call.rest| then (s, call.(rest := [], inFlight := None))
    else
      var id := call.rest[n];
      (s.(drained := s.drained + {id}), call.(rest := call.rest[n + 1..], inFlight := Some(id)))
  }

  function StartCall(cfg: Config, s: System): System {
    var ids := if NonViable(cfg, s.fan.sts) then Survivors(s.fan.sts) else [];
    var (s', call) := Advance(s, Call(ids, ids, None, [], []));
    s'.(calls := s.calls + [call])
  }

  function EndTerminate(s: System, c: nat, ok: bool): System
    requires c < |s.calls| && s.calls[c].inFlight.Some?
  {
    var call := s.calls[c];
    var id := call.inFlight.value;
    var (s', call') :=
      if ok then Advance(s, call.(terminated := call.terminated + [id]))
      else Advance(s.(drained := s.drained - {id}), call.(failed := call.failed + [id]));
    s'.(calls := s.calls[c := call'])
  }

  function Moved(cfg: Config, s: System, m: Move): System
    requires Inv(cfg, s.fan)
  {
    match m
    case FanMoves(ev) => s.(fan := Step(cfg, Hist(s.fan, 0, []), ev).fan)
    case CallStarts => StartCall(cfg, s)
    case Terminates(c) => if c < |s.calls| && s.calls[c].inFlight.Some? then EndTerminate(s, c, true) else s
    case TerminateFails(c) => if c < |s.calls| && s.calls[c].inFlight.Some? then EndTerminate(s, c, false) else s
    case Deregisters => s.(registered := s.registered && !AllTerminal(s.fan.sts))
  }

  // ---- Claims ----

  function Times(ids: seq<InstanceId>, id: InstanceId): nat {
    if |ids| == 0 then 0 else Times(ids[..|ids| - 1], id) + (if ids[|ids| - 1] == id then 1 else 0)
  }

  /** How often an id has been reported terminated, by all calls together. */
  function Reported(calls: seq<Call>, id: InstanceId): nat {
    if |calls| == 0 then 0 else Reported(calls[..|calls| - 1], id) + Times(calls[|calls| - 1].terminated, id)
  }

  /** How many calls are waiting for its termination. */
  function Waiting(calls: seq<Call>, id: InstanceId): nat {
    if |calls| == 0 then 0
    else Waiting(calls[..|calls| - 1], id) + (if calls[|calls| - 1].inFlight == Some(id) then 1 else 0)
  }

  lemma {:induction false} ClaimsUpdate(calls: seq<Call>, c: nat, call: Call, id: InstanceId)
    requires c < |calls|
    ensures Reported(calls[c := call], id) + Times(calls[c].terminated, id) ==
              Reported(calls, id) + Times(call.terminated, id)
    ensures Waiting(calls[c := call], id) + (if calls[c].inFlight == Some(id) then 1 else 0)
            == Waiting(calls, id) + (if call.inFlight == Some(id) then 1 else 0)
  {
    var n := |calls| - 1;
    if c == n {
      assert calls[c := call][..n] == calls[..n];
    } else {
      assert calls[c := call][..n] == calls[..n][c := call];
      ClaimsUpdate(calls[..n], c, call, id);
    }
  }

  lemma TimesAppend(ids: seq<InstanceId>, x: InstanceId, id: InstanceId)
    ensures Times(ids + [x], id) == Times(ids, id) + (if x == id then 1 else 0)
  {
    assert (ids + [x])[..|ids|] == ids;
  }

  /** Every claimed id is in flight or reported terminated, once; nothing else is. */
  ghost predicate ClaimsExact(s: System) {
    forall id :: Reported(s.calls, id) + Waiting(s.calls, id) == if id in s.drained then 1 else 0
  }

  predicate IsFailure(calls: seq<Call>, id: InstanceId) {
    exists c :: 0 <= c < |calls| && id in calls[c].failed
  }

  /** No id a call was started for is forgotten. */
  predicate CallCovers(s: System, call: Call) {
    forall k :: 0 <= k < |call.asked| ==>
      call.asked[k] in call.rest || call.asked[k] in s.drained || IsFailure(s.calls, call.asked[k])
  }

  predicate Covers(s: System) {
    forall c :: 0 <= c < |s.calls| ==> CallCovers(s, s.calls[c])
  }

  /** The instances of members that have come up. */
  predicate IsOwn(sts: seq<Status>, id: InstanceId) {
    exists i :: 0 <= i < |sts| && sts[i].state.CameUp() && sts[i].instanceId == Some(id)
  }

  predicate CallOwn(sts: seq<Status>, call: Call) {
    && (forall k :: 0 <= k < |call.asked| ==> IsOwn(sts, call.asked[k]))
    && (forall k :: 0 <= k < |call.rest| ==> call.rest[k] in call.asked)
    && (call.inFlight.Some? ==> call.inFlight.value in call.asked)
    && (forall k :: 0 <= k < |call.terminated| ==> call.terminated[k] in call.asked)
  }

  ghost predicate DrainInv(cfg: Config, s: System) {
    && Inv(cfg, s.fan)
    && ClaimsExact(s)
    && Covers(s)
    && (forall c :: 0 <= c < |s.calls| ==> CallOwn(s.fan.sts, s.calls[c]))
    && ((exists c :: 0 <= c < |s.calls| && s.calls[c].asked != []) ==> NonViable(cfg, s.fan.sts))
    && (!s.registered ==> AllTerminal(s.fan.sts))
  }

  // ---- Moves keep the invariant ----

  /** What one stretch of a call does to it and to the claim set. */
  lemma AdvanceFacts(s: System, call: Call)
    ensures var (s', call') := Advance(s, call);
            && s'.fan == s.fan && s'.calls == s.calls && s'.registered == s.registered
            && call'.asked == call.asked && call'.terminated == call.terminated && call'.failed == call.failed
            && (call'.inFlight.None? ==> s'.drained == s.drained && call'.rest == [])
            && (call'.inFlight.Some? ==>
                  var id := call'.inFlight.value;
                  id in call.rest && id !in s.drained && s'.drained == s.drained + {id})
            && (forall k :: 0 <= k < |call'.rest| ==> call'.rest[k] in call.rest)
            && (forall id :: id in call.rest ==> id in call'.rest || id in s'.drained)
  {
    var n := Skipped(call.rest, s.drained);
    forall id | id in call.rest
      ensures var (s', call') := Advance(s, call);
              id in call'.rest || id in s'.drained
    {
      var k :| 0 <= k < |call.rest| && call.rest[k] == id;
      if k > n {
        assert call.rest[n + 1..][k - (n + 1)] == id;
      }
    }
  }

  lemma StartClaims(cfg: Config, s: System)
    requires ClaimsExact(s)
    ensures ClaimsExact(StartCall(cfg, s))
  {
    var ids := if NonViable(cfg, s.fan.sts) then Survivors(s.fan.sts) else [];
    var call := Call(ids, ids, None, [], []);
    AdvanceFacts(s, call);
    var (s', call') := Advance(s, call);
    assert (s.calls + [call'])[..|s.calls|] == s.calls;
  }

  /** The claims on x when call c becomes `call`, in terms of what c reported and waited for before. */
  lemma CallReplaced(s: System, c: nat, call: Call, x: InstanceId)
    requires c < |s.calls|
    ensures Reported(s.calls[c := call], x) + Waiting(s.calls[c := call], x)
            + Times(s.calls[c].terminated, x) + (if s.calls[c].inFlight == Some(x) then 1 else 0)
            == Reported(s.calls, x) + Waiting(s.calls, x)
               + Times(call.terminated, x) + (if call.inFlight == Some(x) then 1 else 0)
  {
    ClaimsUpdate(s.calls, c, call, x);
  }

  lemma InFlightClaimed(s: System, c: nat)
    requires ClaimsExact(s) && c < |s.calls| && s.calls[c].inFlight.Some?
    ensures s.calls[c].inFlight.value in s.drained
  {
    WaitingSome(s.calls, c);
  }

  lemma EndClaims(s: System, c: nat, ok: bool)
    requires ClaimsExact(s) && c < |s.calls| && s.calls[c].inFlight.Some?
    ensures ClaimsExact(EndTerminate(s, c, ok))
  {
    var call := s.calls[c];
    var id := call.inFlight.value;
    var s1 := if ok then s else s.(drained := s.drained - {id});
    var call1 := if ok then call.(terminated := call.terminated + [id]) else call.(failed := call.failed + [id]);
    AdvanceFacts(s1, call1);
    var t := EndTerminate(s, c, ok);
    var call' := t.calls[c];
    assert t.calls == s.calls[c := call'];
    InFlightClaimed(s, c);
    forall x ensures Reported(t.calls, x) + Waiting(t.calls, x) == if x in t.drained then 1 else 0 {
      CallReplaced(s, c, call', x);
      TimesAppend(call.terminated, id, x);
    }
  }

  lemma {:induction false} WaitingSome(calls: seq<Call>, c: nat)
    requires c < |calls| && calls[c].inFlight.Some?
    ensures Waiting(calls, calls[c].inFlight.value) > 0
  {
    if c < |calls| - 1 {
      WaitingSome(calls[..|calls| - 1], c);
    }
  }

  /** With every list of failures at least as long and no claim lost but to a failure, coverage stays. */
  lemma CoversMono(s: System, t: System, call: Call)
    requires CallCovers(s, call) && |s.calls| <= |t.calls|
    requires forall c, id :: 0 <= c < |s.calls| && id in s.calls[c].failed ==> id in t.calls[c].failed
    requires forall id :: id in s.drained ==> id in t.drained || IsFailure(t.calls, id)
    ensures CallCovers(t, call)
  {
    forall k | 0 <= k < |call.asked| && IsFailure(s.calls, call.asked[k])
      ensures IsFailure(t.calls, call.asked[k])
    {
      var c :| 0 <= c < |s.calls| && call.asked[k] in s.calls[c].failed;
      assert call.asked[k] in t.calls[c].failed;
    }
  }

  lemma StartCovers(cfg: Config, s: System)
    requires Covers(s)
    ensures Covers(StartCall(cfg, s))
  {
    var ids := if NonViable(cfg, s.fan.sts) then Survivors(s.fan.sts) else [];
    var call := Call(ids, ids, None, [], []);
    AdvanceFacts(s, call);
    var t := StartCall(cfg, s);
    forall c | 0 <= c < |t.calls| ensures CallCovers(t, t.calls[c]) {
      if c < |s.calls| {
        CoversMono(s, t, s.calls[c]);
      }
    }
  }

  lemma EndCovers(s: System, c: nat, ok: bool)
    requires Covers(s) && c < |s.calls| && s.calls[c].inFlight.Some?
    ensures Covers(EndTerminate(s, c, ok))
  {
    var call := s.calls[c];
    var id := call.inFlight.value;
    var s1 := if ok then s else s.(drained := s.drained - {id});
    var call1 := if ok then call.(terminated := call.terminated + [id]) else call.(failed := call.failed + [id]);
    AdvanceFacts(s1, call1);
    var t := EndTerminate(s, c, ok);
    forall x | x in s.drained ensures x in t.drained || IsFailure(t.calls, x) {
      assert !ok ==> id in t.calls[c].failed;
    }
    forall d | 0 <= d < |t.calls| ensures CallCovers(t, t.calls[d]) {
      CoversMono(s, t, s.calls[d]);
      if d == c {
        forall k | 0 <= k < |call.asked|
          ensures call.asked[k] in t.calls[c].rest || call.asked[k] in t.drained || IsFailure(t.calls, call.asked[k])
        {
          assert CallCovers(t, s.calls[c]);
        }
      }
    }
  }

  lemma SurvivorsOwn(sts: seq<Status>)
    ensures forall k :: 0 <= k < |Survivors(sts)| ==> IsOwn(sts, Survivors(sts)[k])
  {
    forall k | 0 <= k < |Survivors(sts)| ensures IsOwn(sts, Survivors(sts)[k]) {
      FanOutMachine.SurvivorsAreRunning(sts, |sts|, Survivors(sts)[k]);
    }
  }

  lemma OwnForward(a: seq<Status>, b: seq<Status>, call: Call)
    requires Forward(a, b) && CallOwn(a, call)
    ensures CallOwn(b, call)
  {
    forall k | 0 <= k < |call.asked| ensures IsOwn(b, call.asked[k]) {
      var i :| 0 <= i < |a| && a[i].state.CameUp() && a[i].instanceId == Some(call.asked[k]);
      assert b[i].state.CameUp() && b[i].instanceId == a[i].instanceId;
    }
  }

  lemma FanMoveInv(cfg: Config, s: System, ev: Event)
    requires DrainInv(cfg, s)
    ensures DrainInv(cfg, Moved(cfg, s, FanMoves(ev)))
  {
    var t := Moved(cfg, s, FanMoves(ev));
    StepInv(cfg, Hist(s.fan, 0, []), ev);
    CountMono(s.fan.sts, t.fan.sts, IsLost, IsLost);
    forall c | 0 <= c < |s.calls| ensures CallOwn(t.fan.sts, s.calls[c]) && CallCovers(t, s.calls[c]) {
      OwnForward(s.fan.sts, t.fan.sts, s.calls[c]);
      CoversMono(s, t, s.calls[c]);
    }
  }

  /** The new call asks for survivors, and for any only when the array is not viable. */
  lemma StartCalls(cfg: Config, s: System)
    requires forall c :: 0 <= c < |s.calls| ==> CallOwn(s.fan.sts, s.calls[c])
    ensures var t := StartCall(cfg, s);
            && t.fan == s.fan && t.registered == s.registered
            && (forall c :: 0 <= c < |t.calls| ==> CallOwn(t.fan.sts, t.calls[c]))
            && ((exists c :: 0 <= c < |t.calls| && t.calls[c].asked != []) ==>
                  NonViable(cfg, s.fan.sts) || exists c :: 0 <= c < |s.calls| && s.calls[c].asked != [])
  {
    SurvivorsOwn(s.fan.sts);
    var ids := if NonViable(cfg, s.fan.sts) then Survivors(s.fan.sts) else [];
    AdvanceFacts(s, Call(ids, ids, None, [], []));
  }

  lemma StartInv(cfg: Config, s: System)
    requires DrainInv(cfg, s)
    ensures DrainInv(cfg, StartCall(cfg, s))
  {
    StartClaims(cfg, s);
    StartCovers(cfg, s);
    StartCalls(cfg, s);
  }

  lemma EndInv(cfg: Config, s: System, c: nat, ok: bool)
    requires DrainInv(cfg, s) && c < |s.calls| && s.calls[c].inFlight.Some?
    ensures DrainInv(cfg, EndTerminate(s, c, ok))
  {
    var call := s.calls[c];
    var id := call.inFlight.value;
    EndClaims(s, c, ok);
    EndCovers(s, c, ok);
    AdvanceFacts(if ok then s else s.(drained := s.drained - {id}),
                 if ok then call.(terminated := call.terminated + [id]) else call.(failed := call.failed + [id]));
    EndOwn(s, c, ok);
    if d :| 0 <= d < |s.calls| && EndTerminate(s, c, ok).calls[d].asked != [] {
      assert s.calls[d].asked != [];
    }
  }

  lemma EndOwn(s: System, c: nat, ok: bool)
    requires c < |s.calls| && s.calls[c].inFlight.Some?
    requires forall d :: 0 <= d < |s.calls| ==> CallOwn(s.fan.sts, s.calls[d])
    ensures var t := EndTerminate(s, c, ok); forall d :: 0 <= d < |t.calls| ==> CallOwn(t.fan.sts, t.calls[d])
  {
    var t, id, call := EndTerminate(s, c, ok), s.calls[c].inFlight.value, s.calls[c];
    AdvanceFacts(if ok then s else s.(drained := s.drained - {id}),
                 if ok then call.(terminated := call.terminated + [id]) else call.(failed := call.failed + [id]));
    assert CallOwn(s.fan.sts, call);
    forall d | 0 <= d < |t.calls| ensures CallOwn(t.fan.sts, t.calls[d]) {
      assert CallOwn(s.fan.sts, s.calls[d]);
    }
  }

  lemma MoveInv(cfg: Config, s: System, m: Move)
    requires DrainInv(cfg, s)
    ensures DrainInv(cfg, Moved(cfg, s, m))
  {
    match m
    case FanMoves(ev) => FanMoveInv(cfg, s, ev);
    case CallStarts => StartInv(cfg, s);
    case Terminates(c) => if c < |s.calls| && s.calls[c].inFlight.Some? { EndInv(cfg, s, c, true); }
    case TerminateFails(c) => if c < |s.calls| && s.calls[c].inFlight.Some? { EndInv(cfg, s, c, false); }
    case Deregisters =>
      var t := Moved(cfg, s, m);
      forall c | 0 <= c < |s.calls| ensures CallCovers(t, s.calls[c]) {
        CoversMono(s, t, s.calls[c]);
      }
  }

  ghost function After(cfg: Config, moves: seq<Move>): (s: System)
    ensures DrainInv(cfg, s)
  {
    if |moves| == 0 then System(Start(cfg), {}, [], true)
    else
      var p := After(cfg, moves[..|moves| - 1]);
      MoveInv(cfg, p, moves[|moves| - 1]);
      Moved(cfg, p, moves[|moves| - 1])
  }

  // ---- Main results ----

  /**
   * However the calls and pumps interleave: the claim set is exactly the instances being terminated and
   * those reported terminated; no instance is reported twice, nor terminated while reported, nor by two
   * calls at once.
   */
  lemma DrainedAtMostOnce(cfg: Config, moves: seq<Move>, id: InstanceId)
    ensures var s := After(cfg, moves);
            && Reported(s.calls, id) + Waiting(s.calls, id) <= 1
            && (id in s.drained <==> Reported(s.calls, id) + Waiting(s.calls, id) == 1)
  {
    assert ClaimsExact(After(cfg, moves));
  }

  lemma {:induction false} NoClaims(calls: seq<Call>, id: InstanceId)
    requires forall c :: 0 <= c < |calls| ==> calls[c].terminated == [] && calls[c].inFlight.None?
    ensures Reported(calls, id) + Waiting(calls, id) == 0
  {
    if |calls| > 0 {
      NoClaims(calls[..|calls| - 1], id);
    }
  }

  lemma WorkWasAsked(sts: seq<Status>, call: Call)
    requires CallOwn(sts, call)
    ensures |call.terminated| > 0 || call.inFlight.Some? ==> |call.asked| > 0
  {
    if |call.terminated| > 0 {
      assert call.terminated[0] in call.asked;
    }
  }

  /** Only the array's own instances are ever terminated, and none while the array is viable. */
  lemma ViableArraysAreLeftAlone(cfg: Config, s: System)
    requires DrainInv(cfg, s)
    ensures forall c, k :: 0 <= c < |s.calls| && 0 <= k < |s.calls[c].terminated| ==>
              IsOwn(s.fan.sts, s.calls[c].terminated[k])
    ensures !NonViable(cfg, s.fan.sts) ==>
              s.drained == {} && forall c :: 0 <= c < |s.calls| ==>
                s.calls[c].terminated == [] && s.calls[c].inFlight.None?
  {
    forall c, k | 0 <= c < |s.calls| && 0 <= k < |s.calls[c].terminated|
      ensures IsOwn(s.fan.sts, s.calls[c].terminated[k])
    {
      assert CallOwn(s.fan.sts, s.calls[c]);
      var id := s.calls[c].terminated[k];
      assert id in s.calls[c].asked;
      var j :| 0 <= j < |s.calls[c].asked| && s.calls[c].asked[j] == id;
      assert IsOwn(s.fan.sts, s.calls[c].asked[j]);
    }
    if !NonViable(cfg, s.fan.sts) {
      forall c | 0 <= c < |s.calls| ensures s.calls[c].terminated == [] && s.calls[c].inFlight.None? {
        WorkWasAsked(s.fan.sts, s.calls[c]);
      }
      forall id ensures id !in s.drained {
        NoClaims(s.calls, id);
      }
    }
  }

  /**
   * When a call has nothing left to look at, every instance it was started for is being terminated, has
   * been reported terminated, or has been reported as failed by some call: none is forgotten.
   */
  lemma NoSurvivorForgotten(cfg: Config, s: System, c: nat)
    requires DrainInv(cfg, s) && c < |s.calls| && s.calls[c].rest == []
    ensures forall k :: 0 <= k < |s.calls[c].asked| ==>
              var id := s.calls[c].asked[k];
              Reported(s.calls, id) > 0 || Waiting(s.calls, id) > 0 || IsFailure(s.calls, id)
  {
    assert CallCovers(s, s.calls[c]);
  }

  /** An instance whose terminate failed is reported so and not claimed any more. */
  lemma FailureReleasesClaim(cfg: Config, s: System, c: nat)
    requires DrainInv(cfg, s) && c < |s.calls| && s.calls[c].inFlight.Some?
    ensures var id := s.calls[c].inFlight.value;
            var t := EndTerminate(s, c, false);
            id in t.calls[c].failed && (id in t.drained ==> t.calls[c].inFlight == Some(id))
  {
    var id := s.calls[c].inFlight.value;
    AdvanceFacts(s.(drained := s.drained - {id}), s.calls[c].(failed := s.calls[c].failed + [id]));
  }

  /** A call started on a non-viable array claims or queues every running member's instance nobody has claimed. */
  lemma NextCallClaims(cfg: Config, s: System, id: InstanceId)
    requires DrainInv(cfg, s) && NonViable(cfg, s.fan.sts)
    requires exists i :: 0 <= i < |s.fan.sts| && s.fan.sts[i].state.Running? && s.fan.sts[i].instanceId == Some(id)
    ensures var t := StartCall(cfg, s);
            |t.calls| == |s.calls| + 1 && (id in t.drained || id in t.calls[|s.calls|].rest)
  {
    var ids := Survivors(s.fan.sts);
    FanOutMachine.SurvivorsAreRunning(s.fan.sts, |s.fan.sts|, id);
    AdvanceFacts(s, Call(ids, ids, None, [], []));
  }

  /** The array stays registered with the monitor loop while any member is recorded running. */
  lemma RegisteredWhileSurvivors(cfg: Config, s: System)
    requires DrainInv(cfg, s) && Survivors(s.fan.sts) != []
    ensures s.registered
  {
    FanOutMachine.SurvivorsAreRunning(s.fan.sts, |s.fan.sts|, Survivors(s.fan.sts)[0]);
  }

  // ---- Each call goes through its list once ----

  function AsMultiset(id: Option<InstanceId>): multiset<InstanceId> {
    if id.Some? then multiset{id.value} else multiset{}
  }

  /** What a call has yet to look at is the end of its list. */
  predicate AtSuffix(call: Call) {
    |call.rest| <= |call.asked| && call.rest == call.asked[|call.asked| - |call.rest|..]
  }

  /** What it has looked at. */
  function Seen(call: Call): seq<InstanceId>
    requires |call.rest| <= |call.asked|
  {
    call.asked[..|call.asked| - |call.rest|]
  }

  /** Everything reported or in flight was met once, in the part of the list already looked at. */
  predicate OncePerCall(call: Call) {
    && AtSuffix(call)
    && multiset(call.terminated) + multiset(call.failed) + AsMultiset(call.inFlight) <= multiset(Seen(call))
  }

  /** What a call met, if its reports are these. */
  predicate Met(call: Call, met: multiset<InstanceId>) {
    AtSuffix(call) && met <= multiset(Seen(call))
  }

  lemma AdvanceOnce(s: System, call: Call)
    requires Met(call, multiset(call.terminated) + multiset(call.failed))
    ensures OncePerCall(Advance(s, call).1)
  {
    AdvanceMeets(s, call, multiset(call.terminated) + multiset(call.failed));
  }

  lemma AdvanceMeets(s: System, call: Call, met: multiset<InstanceId>)
    requires Met(call, met)
    ensures var next := Advance(s, call).1;
            && Met(next, met + AsMultiset(next.inFlight))
            && next.terminated == call.terminated && next.failed == call.failed
  {
    var n := Skipped(call.rest, s.drained);
    if n < |call.rest| { TookNext(call, n, met); } else { CameToEnd(call, met); }
  }

  lemma TookNext(call: Call, n: nat, met: multiset<InstanceId>)
    requires Met(call, met) && n < |call.rest|
    ensures Met(call.(rest := call.rest[n + 1..], inFlight := Some(call.rest[n])), met + multiset{call.rest[n]})
  {
    var p := |call.asked| - |call.rest|;
    assert call.rest[n] == call.asked[p + n];
    RestOf(call.asked, p, n + 1);
    MetNext(call.asked, p, p + n, met);
  }

  lemma CameToEnd(call: Call, met: multiset<InstanceId>)
    requires Met(call, met)
    ensures Met(call.(rest := [], inFlight := None), met + multiset{})
  {
    MetMore(call.asked, |call.asked| - |call.rest|, |call.asked|, met);
    assert met + multiset{} == met;
  }

  lemma RestOf(asked: seq<InstanceId>, p: nat, n: nat)
    requires p + n <= |asked|
    ensures asked[p..][n..] == asked[p + n..]
  {
  }

  lemma MetMore(asked: seq<InstanceId>, p: nat, q: nat, met: multiset<InstanceId>)
    requires p <= q <= |asked| && met <= multiset(asked[..p])
    ensures met <= multiset(asked[..q])
  {
    assert asked[..q] == asked[..p] + asked[p..q];
  }

  lemma MetNext(asked: seq<InstanceId>, p: nat, q: nat, met: multiset<InstanceId>)
    requires p <= q < |asked| && met <= multiset(asked[..p])
    ensures met + multiset{asked[q]} <= multiset(asked[..q + 1])
  {
    MetMore(asked, p, q, met);
    assert asked[..q + 1] == asked[..q] + [asked[q]];
  }

  /** The call with the outcome of its terminate in its report. */
  function Noted(call: Call, ok: bool): Call
    requires call.inFlight.Some?
  {
    var id := call.inFlight.value;
    if ok then call.(terminated := call.terminated + [id]) else call.(failed := call.failed + [id])
  }

  lemma NotedOnce(call: Call, ok: bool)
    requires call.inFlight.Some? && OncePerCall(call)
    ensures var next := Noted(call, ok); Met(next, multiset(next.terminated) + multiset(next.failed))
  {
  }

  /** The outcome concerns its own call only. */
  lemma EndIsLocal(s: System, c: nat, ok: bool)
    requires c < |s.calls| && s.calls[c].inFlight.Some?
    ensures var t := EndTerminate(s, c, ok);
            var released := if ok then s else s.(drained := s.drained - {s.calls[c].inFlight.value});
            && t.calls == s.calls[c := t.calls[c]]
            && t.calls[c] == Advance(released, Noted(s.calls[c], ok)).1
  {
  }

  lemma EndOnce(s: System, c: nat, ok: bool, d: nat)
    requires c < |s.calls| && s.calls[c].inFlight.Some? && d < |s.calls|
    requires OncePerCall(s.calls[c]) && OncePerCall(s.calls[d])
    ensures |EndTerminate(s, c, ok).calls| == |s.calls| && OncePerCall(EndTerminate(s, c, ok).calls[d])
  {
    EndIsLocal(s, c, ok);
    if d == c {
      NotedOnce(s.calls[c], ok);
      AdvanceOnce(if ok then s else s.(drained := s.drained - {s.calls[c].inFlight.value}), Noted(s.calls[c], ok));
    }
  }

  lemma StartAppends(s: System, t: System, next: Call, call: Call)
    requires (t, next) == Advance(s, call)
    ensures t.calls == s.calls && t.(calls := s.calls + [next]).calls[|s.calls|] == next
  {
  }

  lemma StartOnce(cfg: Config, s: System)
    ensures OncePerCall(StartCall(cfg, s).calls[|s.calls|])
  {
    var ids := if NonViable(cfg, s.fan.sts) then Survivors(s.fan.sts) else [];
    var call := Call(ids, ids, None, [], []);
    AdvanceOnce(s, call);
    StartAppends(s, Advance(s, call).0, Advance(s, call).1, call);
  }

  lemma EndKeeps(s: System, d: nat, ok: bool, c: nat)
    requires d < |s.calls| && s.calls[d].inFlight.Some? && c < |EndTerminate(s, d, ok).calls|
    requires forall e :: 0 <= e < |s.calls| ==> OncePerCall(s.calls[e])
    ensures OncePerCall(EndTerminate(s, d, ok).calls[c])
  {
    EndIsLocal(s, d, ok);
    EndOnce(s, d, ok, c);
  }

  lemma StartKeeps(cfg: Config, s: System, c: nat)
    requires c < |StartCall(cfg, s).calls| && forall d :: 0 <= d < |s.calls| ==> OncePerCall(s.calls[d])
    ensures OncePerCall(StartCall(cfg, s).calls[c])
  {
    StartOnce(cfg, s);
  }

  lemma MoveOnce(cfg: Config, s: System, m: Move, c: nat)
    requires Inv(cfg, s.fan) && forall d :: 0 <= d < |s.calls| ==> OncePerCall(s.calls[d])
    requires c < |Moved(cfg, s, m).calls|
    ensures OncePerCall(Moved(cfg, s, m).calls[c])
  {
    match m
    case CallStarts => StartKeeps(cfg, s, c);
    case Terminates(d) => if d < |s.calls| && s.calls[d].inFlight.Some? { EndKeeps(s, d, true, c); }
    case TerminateFails(d) => if d < |s.calls| && s.calls[d].inFlight.Some? { EndKeeps(s, d, false, c); }
    case _ =>
  }

  /**
   * In every run each call has gone through a first part of its list and has the rest before it: every survivor it was
   * started for is terminated by it, reported failed by it or in flight at most as often as the list holds it, however
   * its terminates end.
   */
  lemma {:induction false} EachCallOnce(cfg: Config, moves: seq<Move>)
    ensures forall c :: 0 <= c < |After(cfg, moves).calls| ==> OncePerCall(After(cfg, moves).calls[c])
  {
    if |moves| > 0 {
      var n := |moves| - 1;
      var s, t := After(cfg, moves[..n]), After(cfg, moves);
      EachCallOnce(cfg, moves[..n]);
      forall c | 0 <= c < |t.calls| ensures OncePerCall(t.calls[c]) {
        MoveOnce(cfg, s, moves[n], c);
      }
    }
  }

  /**
   * The outcome of a terminate is reported by its call, and brings the call to the next survivor further on, or to its
   * end.
   */
  lemma OutcomeReported(cfg: Config, s: System, c: nat, ok: bool)
    requires Inv(cfg, s.fan) && c < |s.calls| && s.calls[c].inFlight.Some?
    ensures var t := Moved(cfg, s, if ok then Terminates(c) else TerminateFails(c));
            var id := [s.calls[c].inFlight.value];
            && |t.calls| == |s.calls|
            && t.calls[c].terminated == s.calls[c].terminated + (if ok then id else [])
            && t.calls[c].failed == s.calls[c].failed + (if ok then [] else id)
            && (if t.calls[c].inFlight.Some? then |t.calls[c].rest| < |s.calls[c].rest| else t.calls[c].rest == [])
  {
    EndIsLocal(s, c, ok);
  }

  /** The monitor loop drops the array exactly when every member is completed, failed or skipped. */
  lemma DroppedIffComplete(cfg: Config, s: System)
    requires Inv(cfg, s.fan) && s.registered
    ensures Moved(cfg, s, Deregisters).registered <==>
              exists i :: 0 <= i < |s.fan.sts| && s.fan.sts[i].state !in {Completed, Failed, MemberState.Skipped}
  {
  }

  function EventsOf(moves: seq<Move>): seq<Event> {
    if |moves| == 0 then []
    else EventsOf(moves[..|moves| - 1]) + (match moves[|moves| - 1] case FanMoves(ev) => [ev] case _ => [])
  }

  lemma MoveIsStep(cfg: Config, s: System, h: Hist, m: Move)
    requires Inv(cfg, s.fan) && s.fan == h.fan
    ensures Moved(cfg, s, m).fan == if m.FanMoves? then Step(cfg, h, m.ev).fan else s.fan
  {
  }

  /** Winding down leaves the pumps alone: the fan-out's part of a run is the run of its own events. */
  lemma {:induction false} FanOutRunsOn(cfg: Config, moves: seq<Move>)
    ensures After(cfg, moves).fan == Run(cfg, EventsOf(moves)).fan
  {
    if |moves| > 0 {
      var before, m := moves[..|moves| - 1], moves[|moves| - 1];
      var h := Run(cfg, EventsOf(before));
      FanOutRunsOn(cfg, before);
      MoveIsStep(cfg, After(cfg, before), h, m);
      if m.FanMoves? {
        RunAppend(cfg, EventsOf(before), m.ev);
      } else {
        assert EventsOf(before) + [] == EventsOf(before);
      }
    }
  }
}
