/**
 * The input queue of src/ssm/session.ts:109-204: sequence numbers, and what becomes of input given before and after the
 * session is live.
 *
 * `sendData` takes its number at once, then waits for the digest before the socket gets the frame; `flushPending`
 * waits for each frame before it numbers the next. Each stretch between two waits is a step, and any step may come at
 * any time.
 */
module SsmSession {
  import opened Basics
  import opened JsonText

  /** What a client-to-agent stream message carries. */
  datatype Item = Keys(text: Text) | Size(cols: int, rows: int) | HandshakeResponse

  /** Input queued before the session was live, input sent at once, and replies to the agent. */
  datatype Origin = Queued | Fresh | Reply

  datatype Numbered = Numbered(number: nat, item: Item, origin: Origin)

  datatype Session = Session(
    seqNo: nat,
    handshakeDone: bool,
    pending: seq<Item>,
    flush: seq<Item>,          // what a running flushPending has still to number
    waiting: Option<nat>,      // the number of the frame it waits for
    numbered: seq<Numbered>,   // the messages made so far
    wire: seq<nat>)            // the numbers handed to the socket, in that order

  /** Input as it was given, in order, and how much of it before the session was live. */
  datatype History = History(session: Session, accepted: seq<Item>, early: nat)

  datatype Step =
    | SendInput(text: Text)
    | Resize(cols: int, rows: int)
    | HandshakeRequested
    | Live                     // shell output or HandshakeComplete arrived
    | Serialized(number: nat)
    | FlushGoesOn

  const LF: Code := 0x0a
  const CR: Code := 0x0d

  /** A lone line feed is sent as a carriage return. */
  function Normalize(text: Text): Text {
    if text == [LF] then [CR] else text
  }

  function Start(): Session {
    Session(0, false, [], [], None, [], [])
  }

  /** The part of `sendData` before its wait. */
  function MakeMessage(s: Session, item: Item, origin: Origin): Session {
    s.(seqNo := s.seqNo + 1, numbered := s.numbered + [Numbered(s.seqNo, item, origin)])
  }

  function EnqueueOrSend(s: Session, item: Item): Session {
    if s.handshakeDone then MakeMessage(s, item, Fresh) else s.(pending := s.pending + [item])
  }

  /** The loop of `flushPending` up to its next wait. */
  function FlushNext(s: Session): Session {
    if |s.flush| == 0 then s.(waiting := None)
    else MakeMessage(s.(flush := s.flush[1..], waiting := Some(s.seqNo)), s.flush[0], Queued)
  }

  function MarkReady(s: Session): Session {
    if s.handshakeDone then s else FlushNext(s.(handshakeDone := true, flush := s.pending, pending := []))
  }

  function Apply(s: Session, step: Step): Session {
    match step
    case SendInput(text) => EnqueueOrSend(s, Keys(Normalize(text)))
    case Resize(cols, rows) => EnqueueOrSend(s, Size(cols, rows))
    case HandshakeRequested => MakeMessage(s, HandshakeResponse, Reply)
    case Live => MarkReady(s)
    case Serialized(number) => if number < |s.numbered| && number !in s.wire then s.(wire := s.wire + [number]) else s
    case FlushGoesOn => if s.waiting.Some? && s.waiting.value in s.wire then FlushNext(s) else s
  }

  function Accepts(step: Step): seq<Item> {
    match step
    case SendInput(text) => [Keys(Normalize(text))]
    case Resize(cols, rows) => [Size(cols, rows)]
    case _ => []
  }

  function Next(h: History, step: Step): History {
    History(
      Apply(h.session, step), h.accepted + Accepts(step),
      if h.session.handshakeDone then h.early else |h.accepted + Accepts(step)|)
  }

  function Run(steps: seq<Step>): History {
    if |steps| == 0 then History(Start(), [], 0) else Next(Run(steps[..|steps| - 1]), steps[|steps| - 1])
  }

  // ---- What is sent ----

  /**
   * What a user types is what is sent, but for a lone line feed, which is sent as a carriage return; with a live
   * session it takes the next number, and before that it waits last.
   */
  lemma TypedIsSent(h: History, text: Text)
    ensures var sent := if text == [0x0a] then [0x0d] else text;
            var s, t := h.session, Next(h, SendInput(text)).session;
            && Next(h, SendInput(text)).accepted == h.accepted + [Keys(sent)]
            && (if s.handshakeDone then
                  && t.numbered == s.numbered + [Numbered(s.seqNo, Keys(sent), Fresh)] && t.seqNo == s.seqNo + 1
                  && t.pending == s.pending
                else t.pending == s.pending + [Keys(sent)] && t.numbered == s.numbered && t.seqNo == s.seqNo)
  {
  }

  // ---- What every run keeps ----

  /** The items of one origin, in the order of their numbers. */
  function From(numbered: seq<Numbered>, origin: Origin): seq<Item> {
    if |numbered| == 0 then []
    else
      var n := |numbered| - 1;
      From(numbered[..n], origin) + (if numbered[n].origin == origin then [numbered[n].item] else [])
  }

  lemma FromAppend(numbered: seq<Numbered>, m: Numbered, origin: Origin)
    ensures From(numbered + [m], origin) == From(numbered, origin) + (if m.origin == origin then [m.item] else [])
  {
    assert (numbered + [m])[..|numbered|] == numbered;
  }

  /** Sequence numbers are 0, 1, 2, ... */
  predicate Consecutive(s: Session) {
    s.seqNo == |s.numbered| && forall i :: 0 <= i < |s.numbered| ==> s.numbered[i].number == i
  }

  /** Every message is handed to the socket at most once. */
  predicate WireOk(s: Session) {
    && (forall i :: 0 <= i < |s.wire| ==> s.wire[i] < |s.numbered|)
    && (forall i, j :: 0 <= i < j < |s.wire| ==> s.wire[i] != s.wire[j])
  }

  /** A flush with something left waits for a message that has a number. */
  predicate FlushOk(s: Session) {
    && (|s.flush| > 0 ==> s.waiting.Some?)
    && (s.waiting.Some? ==> s.handshakeDone && s.waiting.value < |s.numbered|)
    && (if s.handshakeDone then s.pending == [] else s.flush == [] && s.waiting.None?)
  }

  /** Each input accepted is numbered exactly once or still waits, in order within the early and the later ones. */
  predicate Conserved(h: History) {
    var s := h.session;
    && h.early <= |h.accepted|
    && From(s.numbered, Queued) + s.flush + s.pending == h.accepted[..h.early]
    && From(s.numbered, Fresh) == h.accepted[h.early..]
    && (!s.handshakeDone ==> h.early == |h.accepted| && From(s.numbered, Queued) == [])
  }

  predicate Inv(h: History) {
    Consecutive(h.session) && WireOk(h.session) && FlushOk(h.session) && Conserved(h)
  }

  lemma NumberConserves(s: Session, item: Item, origin: Origin)
    ensures From(MakeMessage(s, item, origin).numbered, Queued)
            == From(s.numbered, Queued) + (if origin == Queued then [item] else [])
    ensures From(MakeMessage(s, item, origin).numbered, Fresh)
            == From(s.numbered, Fresh) + (if origin == Fresh then [item] else [])
  {
    FromAppend(s.numbered, Numbered(s.seqNo, item, origin), Queued);
    FromAppend(s.numbered, Numbered(s.seqNo, item, origin), Fresh);
  }

  lemma FlushConserves(s: Session)
    ensures From(FlushNext(s).numbered, Queued) + FlushNext(s).flush == From(s.numbered, Queued) + s.flush
    ensures From(FlushNext(s).numbered, Fresh) == From(s.numbered, Fresh)
    ensures FlushNext(s).pending == s.pending && FlushNext(s).handshakeDone == s.handshakeDone
  {
    if |s.flush| > 0 {
      NumberConserves(s.(flush := s.flush[1..], waiting := Some(s.seqNo)), s.flush[0], Queued);
      assert s.flush == [s.flush[0]] + s.flush[1..];
    }
  }

  lemma InputConserves(h: History, step: Step)
    requires Inv(h) && (step.SendInput? || step.Resize?)
    ensures Conserved(Next(h, step))
  {
    if h.session.handshakeDone {
      LiveInputConserves(h, step);
    } else {
      EarlyInputConserves(h, step);
    }
  }

  lemma LiveInputConserves(h: History, step: Step)
    requires Inv(h) && (step.SendInput? || step.Resize?) && h.session.handshakeDone
    ensures Conserved(Next(h, step))
  {
    var item := Accepts(step)[0];
    var accepted := h.accepted + [item];
    NumberConserves(h.session, item, Fresh);
    assert accepted[..h.early] == h.accepted[..h.early];
    assert accepted[h.early..] == h.accepted[h.early..] + [item];
  }

  lemma EarlyInputConserves(h: History, step: Step)
    requires Inv(h) && (step.SendInput? || step.Resize?) && !h.session.handshakeDone
    ensures Conserved(Next(h, step))
  {
    var s, item := h.session, Accepts(step)[0];
    var accepted := h.accepted + [item];
    assert accepted[..|accepted|] == accepted && h.accepted[..h.early] == h.accepted;
    assert s.flush + s.pending == s.pending && s.flush + (s.pending + [item]) == s.pending + [item];
  }

  lemma LiveConserves(h: History)
    requires Inv(h) && !h.session.handshakeDone
    ensures Conserved(Next(h, Live))
  {
    var s := h.session;
    var t := s.(handshakeDone := true, flush := s.pending, pending := []);
    FlushConserves(t);
    assert h.accepted + [] == h.accepted;
    assert From(s.numbered, Queued) + s.flush + s.pending == From(t.numbered, Queued) + t.flush;
    assert From(FlushNext(t).numbered, Queued) + FlushNext(t).flush + []
        == From(FlushNext(t).numbered, Queued) + FlushNext(t).flush;
  }

  lemma ReplyConserves(h: History)
    requires Inv(h)
    ensures Conserved(Next(h, HandshakeRequested))
  {
    assert h.accepted + [] == h.accepted;
    NumberConserves(h.session, HandshakeResponse, Reply);
  }

  lemma SerializedConserves(h: History, number: nat)
    requires Inv(h)
    ensures Conserved(Next(h, Serialized(number)))
  {
    assert h.accepted + [] == h.accepted;
  }

  lemma FlushStepConserves(h: History)
    requires Inv(h)
    ensures Conserved(Next(h, FlushGoesOn))
  {
    assert h.accepted + [] == h.accepted;
    FlushConserves(h.session);
  }

  lemma LiveAgainConserves(h: History)
    requires Inv(h) && h.session.handshakeDone
    ensures Conserved(Next(h, Live))
  {
    assert h.accepted + [] == h.accepted;
  }

  lemma StepConserves(h: History, step: Step)
    requires Inv(h)
    ensures Conserved(Next(h, step))
  {
    match step
    case SendInput(_) => InputConserves(h, step);
    case Resize(_, _) => InputConserves(h, step);
    case HandshakeRequested => ReplyConserves(h);
    case Live => if h.session.handshakeDone { LiveAgainConserves(h); } else { LiveConserves(h); }
    case Serialized(number) => SerializedConserves(h, number);
    case FlushGoesOn => FlushStepConserves(h);
  }

  lemma StepConsecutive(s: Session, step: Step)
    requires Consecutive(s) && FlushOk(s)
    ensures Consecutive(Apply(s, step))
  {
  }

  lemma StepWire(s: Session, step: Step)
    requires WireOk(s)
    ensures WireOk(Apply(s, step))
  {
  }

  lemma StepFlush(s: Session, step: Step)
    requires FlushOk(s) && Consecutive(s)
    ensures FlushOk(Apply(s, step))
  {
  }

  /**
   * In every run: numbers are 0, 1, 2, ...; each message reaches the socket at most once; no input has a number before
   * the session is live; each input accepted has exactly one number or is still queued; early input keeps its order,
   * and so does later input.
   */
  lemma {:induction false} RunInv(steps: seq<Step>)
    ensures Inv(Run(steps))
  {
    if |steps| > 0 {
      var h, step := Run(steps[..|steps| - 1]), steps[|steps| - 1];
      RunInv(steps[..|steps| - 1]);
      StepConserves(h, step);
      StepConsecutive(h.session, step);
      StepWire(h.session, step);
      StepFlush(h.session, step);
    }
  }

  lemma {:induction false} NoneFrom(numbered: seq<Numbered>, origin: Origin, i: nat)
    requires From(numbered, origin) == [] && i < |numbered|
    ensures numbered[i].origin != origin
  {
    var n := |numbered| - 1;
    if i < n { NoneFrom(numbered[..n], origin, i); }
  }

  /** Before the session is live only replies to the agent have numbers. */
  lemma NoInputBeforeLive(steps: seq<Step>, i: nat)
    requires !Run(steps).session.handshakeDone && i < |Run(steps).session.numbered|
    ensures Run(steps).session.numbered[i].origin == Reply
  {
    RunInv(steps);
    var h := Run(steps);
    assert h.accepted[h.early..] == [];
    NoneFrom(h.session.numbered, Queued, i);
    NoneFrom(h.session.numbered, Fresh, i);
  }

  // ---- Runs that go on ----

  function RunFrom(h: History, steps: seq<Step>): History
    decreases |steps|
  {
    if |steps| == 0 then h else RunFrom(Next(h, steps[0]), steps[1..])
  }

  lemma {:induction false} RunFromRuns(steps: seq<Step>, more: seq<Step>)
    ensures RunFrom(Run(steps), more) == Run(steps + more)
    decreases |more|
  {
    if |more| == 0 {
      assert steps + more == steps;
    } else {
      assert (steps + [more[0]])[..|steps|] == steps;
      assert steps + more == steps + [more[0]] + more[1..];
      RunFromRuns(steps + [more[0]], more[1..]);
    }
  }

  predicate AllNumbered(h: History) {
    From(h.session.numbered, Queued) + From(h.session.numbered, Fresh) == h.accepted
  }

  lemma DrainedIsNumbered(h: History)
    requires Inv(h) && h.session.handshakeDone && h.session.flush == []
    ensures AllNumbered(h)
  {
    var q := From(h.session.numbered, Queued);
    assert q + [] + [] == q;
    assert h.accepted[..h.early] + h.accepted[h.early..] == h.accepted;
  }

  lemma RunAppend(steps: seq<Step>, step: Step)
    ensures Run(steps + [step]) == Next(Run(steps), step)
  {
    assert (steps + [step])[..|steps|] == steps;
  }

  /** Two inputs queued, and the session live: the first has its number, the second waits. */
  lemma TwoQueued(a: Text, b: Text)
    ensures var s := Run([SendInput(a), SendInput(b), Live]).session;
            s == Session(1, true, [], [Keys(Normalize(b))], Some(0), [Numbered(0, Keys(Normalize(a)), Queued)], [])
  {
    RunAppend([], SendInput(a));
    assert [] + [SendInput(a)] == [SendInput(a)];
    RunAppend([SendInput(a)], SendInput(b));
    assert [SendInput(a)] + [SendInput(b)] == [SendInput(a), SendInput(b)];
    RunAppend([SendInput(a), SendInput(b)], Live);
    assert [SendInput(a), SendInput(b)] + [Live] == [SendInput(a), SendInput(b), Live];
    assert Run([SendInput(a), SendInput(b)]).session.pending == [Keys(Normalize(a)), Keys(Normalize(b))];
  }

  lemma Overtaken(s: Session, x: Item, y: Item, c: Text)
    requires s == Session(1, true, [], [y], Some(0), [Numbered(0, x, Queued)], [])
    ensures Apply(Apply(Apply(s, SendInput(c)), Serialized(0)), FlushGoesOn).numbered
         == [Numbered(0, x, Queued), Numbered(1, Keys(Normalize(c)), Fresh), Numbered(2, y, Queued)]
  {
  }

  /** The order is not kept between queued and later input: with two inputs queued, a third overtakes the second. */
  lemma LaterInputOvertakes(a: Text, b: Text, c: Text)
    ensures var s := Run([SendInput(a), SendInput(b), Live, SendInput(c), Serialized(0), FlushGoesOn]).session;
            s.numbered == [Numbered(0, Keys(Normalize(a)), Queued), Numbered(1, Keys(Normalize(c)), Fresh),
                           Numbered(2, Keys(Normalize(b)), Queued)]
  {
    var start := [SendInput(a), SendInput(b), Live];
    TwoQueued(a, b);
    Overtaken(Run(start).session, Keys(Normalize(a)), Keys(Normalize(b)), c);
    RunAppend(start, SendInput(c));
    RunAppend(start + [SendInput(c)], Serialized(0));
    RunAppend(start + [SendInput(c)] + [Serialized(0)], FlushGoesOn);
    assert start + [SendInput(c)] + [Serialized(0)] + [FlushGoesOn]
        == [SendInput(a), SendInput(b), Live, SendInput(c), Serialized(0), FlushGoesOn];
  }

  /** The fields of the source; `queue` and `waiting` are the locals of a suspended `flushPending`. */
  class SsmSessionClient {
    var seqNo: nat
    var handshakeDone: bool
    var pending: seq<Item>
    var queue: seq<Item>
    var waiting: Option<nat>
    ghost var numbered: seq<Numbered>
    ghost var wire: seq<nat>

    ghost function View(): Session
      reads this
    {
      Session(seqNo, handshakeDone, pending, queue, waiting, numbered, wire)
    }

    constructor ()
      ensures View() == Start()
    {
      seqNo, handshakeDone, pending, queue, waiting := 0, false, [], [], None;
      numbered, wire := [], [];
    }

    /** Up to the wait for the digest: the message made, with its number. */
    method SendData(item: Item, ghost origin: Origin) returns (number: nat)
      modifies this
      ensures View() == MakeMessage(old(View()), item, origin) && number == old(seqNo)
    {
      number := seqNo;
      seqNo := seqNo + 1;
      numbered := numbered + [Numbered(number, item, origin)];
    }

    /** After the wait: the frame goes to the socket. */
    method FrameSerialized(number: nat)
      modifies this
      ensures View() == Apply(old(View()), Serialized(number))
    {
      if number < |numbered| && number !in wire { wire := wire + [number]; }
    }

    method EnqueueOrSendItem(item: Item)
      modifies this
      ensures View() == EnqueueOrSend(old(View()), item)
    {
      if handshakeDone {
        var _ := SendData(item, Fresh);
      } else {
        pending := pending + [item];
      }
    }

    /** One turn of the loop of `flushPending`. */
    method FlushTurn()
      modifies this
      ensures View() == FlushNext(old(View()))
    {
      if |queue| == 0 {
        waiting := None;
      } else {
        var item := queue[0];
        queue := queue[1..];
        var number := SendData(item, Queued);
        waiting := Some(number);
      }
    }

    method MarkSessionReady()
      modifies this
      ensures View() == MarkReady(old(View()))
    {
      if handshakeDone { return; }
      handshakeDone := true;
      queue := pending;
      pending := [];
      FlushTurn();
    }

    method Input(text: Text)
      modifies this
      ensures View() == Apply(old(View()), SendInput(text))
    {
      EnqueueOrSendItem(Keys(if text == [LF] then [CR] else text));
    }

    method ResizeTerminal(cols: int, rows: int)
      modifies this
      ensures View() == Apply(old(View()), Resize(cols, rows))
    {
      EnqueueOrSendItem(Size(cols, rows));
    }
  }
}
