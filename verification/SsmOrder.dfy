/**
 * When SSM input keeps its order, and when all of it has been numbered (src/ssm/session.ts:139-204).
 */
module SsmOrder {
  import opened Basics
  import opened JsonText
  import opened SsmSession

  predicate TakesInput(step: Step) { step.SendInput? || step.Resize? }

  predicate SomeFresh(numbered: seq<Numbered>) {
    exists i :: 0 <= i < |numbered| && numbered[i].origin == Fresh
  }

  /** Input given later has a number before input that was queued. */
  predicate OutOfOrder(numbered: seq<Numbered>) {
    exists i, j :: 0 <= i < j < |numbered| && numbered[i].origin == Fresh && numbered[j].origin == Queued
  }

  /** It has, or it will once the flush goes on. */
  predicate Overtakes(s: Session) {
    OutOfOrder(s.numbered) || (s.flush != [] && SomeFresh(s.numbered))
  }

  /** No input is given while the flush has something left to number. */
  predicate QuietRun(steps: seq<Step>) {
    |steps| > 0 ==>
      && QuietRun(steps[..|steps| - 1])
      && (TakesInput(steps[|steps| - 1]) ==> Run(steps[..|steps| - 1]).session.flush == [])
  }

  predicate NoInput(steps: seq<Step>) {
    forall k :: 0 <= k < |steps| ==> !TakesInput(steps[k])
  }

  lemma NumberedAppend(numbered: seq<Numbered>, m: Numbered)
    ensures SomeFresh(numbered + [m]) <==> SomeFresh(numbered) || m.origin == Fresh
    ensures OutOfOrder(numbered + [m]) <==> OutOfOrder(numbered) || (m.origin == Queued && SomeFresh(numbered))
  {
    var more, n := numbered + [m], |numbered|;
    assert more[n] == m && forall i :: 0 <= i < n ==> more[i] == numbered[i];
    if SomeFresh(numbered) {
      var i :| 0 <= i < n && numbered[i].origin == Fresh;
      assert more[i].origin == Fresh;
    }
    if OutOfOrder(numbered) {
      var i, j :| 0 <= i < j < n && numbered[i].origin == Fresh && numbered[j].origin == Queued;
      assert more[i].origin == Fresh && more[j].origin == Queued;
    }
  }

  /** One turn of the flush, with something left in it. */
  lemma FlushOvertakes(s: Session)
    requires s.flush != []
    ensures OutOfOrder(FlushNext(s).numbered) <==> OutOfOrder(s.numbered) || SomeFresh(s.numbered)
    ensures SomeFresh(FlushNext(s).numbered) <==> SomeFresh(s.numbered)
  {
    NumberedAppend(s.numbered, Numbered(s.seqNo, s.flush[0], Queued));
  }

  lemma NoFreshBeforeLive(steps: seq<Step>)
    requires !Run(steps).session.handshakeDone
    ensures !SomeFresh(Run(steps).session.numbered) && !OutOfOrder(Run(steps).session.numbered)
  {
    var numbered := Run(steps).session.numbered;
    forall i | 0 <= i < |numbered| ensures numbered[i].origin == Reply {
      NoInputBeforeLive(steps, i);
    }
  }

  lemma InputOvertakes(s: Session, step: Step)
    requires TakesInput(step) && FlushOk(s)
    ensures Overtakes(Apply(s, step)) <==> Overtakes(s) || s.flush != []
  {
    if s.handshakeDone {
      NumberedAppend(s.numbered, Numbered(s.seqNo, Accepts(step)[0], Fresh));
    }
  }

  lemma LiveOvertakes(s: Session)
    requires FlushOk(s) && !s.handshakeDone && !SomeFresh(s.numbered) && !OutOfOrder(s.numbered)
    ensures !Overtakes(Apply(s, Live))
  {
    if s.pending != [] {
      FlushOvertakes(s.(handshakeDone := true, flush := s.pending, pending := []));
    }
  }

  /** A step brings an overtaking about exactly when it gives input to a session with a flush under way. */
  lemma StepOvertakes(s: Session, step: Step)
    requires FlushOk(s) && (!s.handshakeDone ==> !SomeFresh(s.numbered) && !OutOfOrder(s.numbered))
    ensures Overtakes(Apply(s, step)) <==> Overtakes(s) || (TakesInput(step) && s.flush != [])
  {
    if TakesInput(step) {
      InputOvertakes(s, step);
    } else if step.HandshakeRequested? {
      NumberedAppend(s.numbered, Numbered(s.seqNo, HandshakeResponse, Reply));
    } else if step.Live? && !s.handshakeDone {
      LiveOvertakes(s);
    } else if step.FlushGoesOn? && s.flush != [] {
      FlushOvertakes(s);
    }
  }

  lemma {:induction false} OvertakesIffNotQuiet(steps: seq<Step>)
    ensures Overtakes(Run(steps).session) <==> !QuietRun(steps)
  {
    if |steps| > 0 {
      var before := steps[..|steps| - 1];
      OvertakesIffNotQuiet(before);
      RunInv(before);
      if !Run(before).session.handshakeDone { NoFreshBeforeLive(before); }
      StepOvertakes(Run(before).session, steps[|steps| - 1]);
    }
  }

  lemma {:induction false} QuietContinues(steps: seq<Step>, more: seq<Step>)
    requires QuietRun(steps) && NoInput(more)
    ensures QuietRun(steps + more)
  {
    if |more| == 0 {
      assert steps + more == steps;
    } else {
      var n := |more| - 1;
      QuietContinues(steps, more[..n]);
      assert (steps + more)[..|steps + more| - 1] == steps + more[..n];
      assert (steps + more)[|steps + more| - 1] == more[n];
    }
  }

  /** Whatever happens from here on without further input, no queued input gets its number after input given later. */
  ghost predicate KeepsOrder(steps: seq<Step>) {
    forall more :: NoInput(more) ==> !OutOfOrder(Run(steps + more).session.numbered)
  }

  /** The frame the flush waits for has gone out, and the flush goes on. */
  predicate IsTurn(s: Session, step: Step) {
    step.FlushGoesOn? && s.waiting.Some? && s.waiting.value in s.wire
  }

  /** The frame the flush waits for is serialized, and its next turn can come. */
  lemma FrameOut(s: Session)
    requires FlushOk(s) && s.flush != []
    ensures s.waiting.Some?
    ensures var t := Apply(s, Serialized(s.waiting.value));
            t.flush == s.flush && t.numbered == s.numbered && IsTurn(t, FlushGoesOn)
  {
  }

  lemma RunTwo(steps: seq<Step>, a: Step, b: Step)
    ensures Run(steps + [a, b]) == Next(Next(Run(steps), a), b)
  {
    RunAppend(steps, a);
    RunAppend(steps + [a], b);
    assert steps + [a, b] == steps + [a] + [b];
  }

  lemma FlushOkRun(steps: seq<Step>)
    ensures FlushOk(Run(steps).session)
  {
    RunInv(steps);
  }

  /** One frame serialized, and the flush numbers what it has left after later input. */
  lemma OvertakenNext(steps: seq<Step>, s: Session) returns (more: seq<Step>)
    requires s == Run(steps).session && Overtakes(s)
    ensures NoInput(more) && OutOfOrder(Run(steps + more).session.numbered)
  {
    if OutOfOrder(s.numbered) {
      more := [];
      assert steps + more == steps;
    } else {
      FlushOkRun(steps);
      FrameOut(s);
      more := [Serialized(s.waiting.value), FlushGoesOn];
      RunTwo(steps, Serialized(s.waiting.value), FlushGoesOn);
      FlushOvertakes(Apply(s, Serialized(s.waiting.value)));
    }
  }

  /**
   * Exactly the runs in which no input is given while a flush has something left to number keep all input in the order
   * in which it was accepted, for good.
   */
  lemma OrderKeptIffQuiet(steps: seq<Step>)
    ensures KeepsOrder(steps) <==> QuietRun(steps)
  {
    if QuietRun(steps) {
      forall more | NoInput(more) ensures !OutOfOrder(Run(steps + more).session.numbered) {
        QuietContinues(steps, more);
        OvertakesIffNotQuiet(steps + more);
      }
    } else {
      OvertakesIffNotQuiet(steps);
      var more := OvertakenNext(steps, Run(steps).session);
    }
  }

  // ---- The numbered input as it was given ----

  /** The input that has a number, in the order of the numbers. */
  function InputOf(numbered: seq<Numbered>): seq<Item> {
    if |numbered| == 0 then []
    else
      var n := |numbered| - 1;
      InputOf(numbered[..n]) + (if numbered[n].origin != Reply then [numbered[n].item] else [])
  }

  lemma {:induction false} FreshIffFrom(numbered: seq<Numbered>)
    ensures SomeFresh(numbered) <==> From(numbered, Fresh) != []
  {
    if |numbered| > 0 {
      var n := |numbered| - 1;
      FreshIffFrom(numbered[..n]);
      NumberedAppend(numbered[..n], numbered[n]);
      assert numbered[..n] + [numbered[n]] == numbered;
    }
  }

  lemma {:induction false} InOrderInput(numbered: seq<Numbered>)
    requires !OutOfOrder(numbered)
    ensures InputOf(numbered) == From(numbered, Queued) + From(numbered, Fresh)
  {
    if |numbered| > 0 {
      var n := |numbered| - 1;
      assert numbered[..n] + [numbered[n]] == numbered;
      NumberedAppend(numbered[..n], numbered[n]);
      InOrderInput(numbered[..n]);
      FreshIffFrom(numbered[..n]);
    }
  }

  lemma OrderedInput(h: History)
    requires Inv(h) && !Overtakes(h.session) && (!h.session.handshakeDone ==> !SomeFresh(h.session.numbered))
    ensures InputOf(h.session.numbered) + h.session.flush + h.session.pending == h.accepted
  {
    var s := h.session;
    InOrderInput(s.numbered);
    FreshIffFrom(s.numbered);
    var q, f := From(s.numbered, Queued), From(s.numbered, Fresh);
    assert h.accepted[..h.early] + h.accepted[h.early..] == h.accepted;
    if s.flush == [] && s.pending == [] {
      assert q + [] + [] == q && q + f + [] + [] == q + f;
    } else {
      assert f == [] && q + [] == q;
      assert h.accepted[..h.early] == h.accepted;
    }
  }

  /** In such a run the input numbered so far, and then what is queued, is what was accepted. */
  lemma QuietInput(steps: seq<Step>, h: History)
    requires QuietRun(steps) && h == Run(steps)
    ensures InputOf(h.session.numbered) + h.session.flush + h.session.pending == h.accepted
  {
    RunInv(steps);
    OvertakesIffNotQuiet(steps);
    if !h.session.handshakeDone { NoFreshBeforeLive(steps); }
    OrderedInput(h);
  }

  // ---- When all input has its number ----

  function Turns(h: History, steps: seq<Step>): nat
    decreases |steps|
  {
    if |steps| == 0 then 0 else (if IsTurn(h.session, steps[0]) then 1 else 0) + Turns(Next(h, steps[0]), steps[1..])
  }

  lemma TurnShrinks(s: Session, step: Step)
    requires s.handshakeDone
    ensures Apply(s, step).handshakeDone
    ensures |Apply(s, step).flush| == if IsTurn(s, step) && s.flush != [] then |s.flush| - 1 else |s.flush|
  {
  }

  lemma {:induction false} TurnsLeave(h: History, steps: seq<Step>)
    requires h.session.handshakeDone
    ensures RunFrom(h, steps).session.handshakeDone
    ensures |RunFrom(h, steps).session.flush| == Max(0, |h.session.flush| - Turns(h, steps))
    decreases |steps|
  {
    if |steps| > 0 {
      TurnShrinks(h.session, steps[0]);
      TurnsLeave(Next(h, steps[0]), steps[1..]);
    }
  }

  lemma NumberedIffFlushed(h: History)
    requires Inv(h) && h.session.handshakeDone
    ensures AllNumbered(h) <==> h.session.flush == []
  {
    if h.session.flush == [] {
      DrainedIsNumbered(h);
    } else {
      var q, f := From(h.session.numbered, Queued), From(h.session.numbered, Fresh);
      assert |q| + |h.session.flush| == h.early && |f| == |h.accepted| - h.early;
      assert |q + f| < |h.accepted|;
    }
  }

  lemma NumberedAt(steps: seq<Step>, h: History)
    requires h == Run(steps) && h.session.handshakeDone
    ensures AllNumbered(h) <==> h.session.flush == []
  {
    RunInv(steps);
    NumberedIffFlushed(h);
  }

  lemma RunOn(steps: seq<Step>, more: seq<Step>, h: History, after: History)
    requires h == Run(steps) && after == Run(steps + more)
    ensures after == RunFrom(h, more)
  {
    RunFromRuns(steps, more);
  }

  lemma TurnsEmpty(h: History, more: seq<Step>, after: History)
    requires h.session.handshakeDone && after == RunFrom(h, more)
    ensures after.session.handshakeDone
    ensures after.session.flush == [] <==> Turns(h, more) >= |h.session.flush|
  {
    TurnsLeave(h, more);
  }

  /**
   * From every live state h, after every continuation, whatever input it brings: all input accepted has its number if
   * and only if the flush has had as many turns as there was input left in it.
   */
  lemma AllNumberedIffTurns(steps: seq<Step>, more: seq<Step>, h: History, after: History)
    requires h == Run(steps) && h.session.handshakeDone && after == Run(steps + more)
    ensures AllNumbered(after) <==> Turns(h, more) >= |h.session.flush|
  {
    RunOn(steps, more, h, after);
    TurnsEmpty(h, more, after);
    NumberedAt(steps + more, after);
  }

  /** And a turn is one serialized frame away as long as anything is left. */
  lemma TurnComes(steps: seq<Step>, s: Session)
    requires s == Run(steps).session && s.flush != []
    ensures s.waiting.Some? && IsTurn(Run(steps + [Serialized(s.waiting.value)]).session, FlushGoesOn)
  {
    FlushOkRun(steps);
    FrameOut(s);
    RunAppend(steps, Serialized(s.waiting.value));
  }
}
