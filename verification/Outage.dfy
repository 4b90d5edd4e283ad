/**
 The mock upstream's outage as interleaved steps: one controller failing and
 restoring it, and any number of accepted connections reading queries, checking
 whether their listener is still the mock's, and answering.
 */
module Outage {
  import opened Wrappers
  import opened MockState
  import opened Trace

  /** Where the controller is inside `fail` or `restore`. */
  datatype Control = Idle | Closing | HoldingUdp | HoldingTcp | Releasing | Listening

  /** How the last call that returned, returned. */
  datatype Outcome = Started | Failed(mode: Mode, ok: bool) | Restored(ok: bool)

  /** Where a connection is in the loop of `serveConn`. */
  datatype Phase = Reading | AskingGone | AskingRefused | AskingBlackhole | Replying | Closed

  /** `readAt` is where in the trace its last query was read. */
  datatype Conn = Conn(listener: Id, phase: Phase, readAt: nat)

  datatype World = World(
    mock: State,
    control: Control,
    last: Outcome,
    conns: map<nat, Conn>,
    nextId: Id,
    trace: seq<Event>)

  datatype Action =
    | CallFail(mode: Mode)
    | CloseStep
    | HoldUdpStep(ok: bool)
    | HoldTcpStep(ok: bool)
    | CallRestore
    | ReleaseStep
    | ListenStep(udpOk: bool, tcpOk: bool, picked: nat)
    | Accept(conn: nat)
    | Read(conn: nat)
    | HangUp(conn: nat)
    | AskGone(conn: nat)
    | AskRefused(conn: nat)
    | AskBlackhole(conn: nat)
    | Reply(conn: nat, ok: bool)

  predicate InPhase(w: World, c: nat, phase: Phase) {
    c in w.conns && w.conns[c].phase == phase
  }

  predicate Enabled(w: World, a: Action) {
    match a
    case CallFail(_) => w.control == Idle
    case CloseStep => w.control == Closing
    case HoldUdpStep(_) => w.control == HoldingUdp
    case HoldTcpStep(_) => w.control == HoldingTcp
    case CallRestore => w.control == Idle
    case ReleaseStep => w.control == Releasing
    case ListenStep(_, _, _) => w.control == Listening
    case Accept(c) => w.mock.ln.Some? && c !in w.conns
    case Read(c) => InPhase(w, c, Reading)
    case HangUp(c) => InPhase(w, c, Reading)
    case AskGone(c) => InPhase(w, c, AskingGone)
    case AskRefused(c) => InPhase(w, c, AskingRefused)
    case AskBlackhole(c) => InPhase(w, c, AskingBlackhole)
    case Reply(c, _) => InPhase(w, c, Replying)
  }

  function Moved(w: World, c: nat, phase: Phase): World
    requires c in w.conns
  {
    w.(conns := w.conns[c := w.conns[c].(phase := phase)])
  }

  function ClearedEvents(s: State): seq<Event> {
    if s.ln.Some? then [Cleared(s.ln.value)] else []
  }

  /** One atomic step; `nextId` supplies sockets no one has seen. */
  function Step(w: World, a: Action): World
    requires Enabled(w, a)
  {
    match a
    case CallFail(mode) =>
      var v := w.(mock := StoreMode(w.mock, mode), trace := w.trace + [ModeSet(mode)]);
      if mode == Refused then v.(control := Closing) else v.(last := Failed(mode, true))
    case CloseStep =>
      w.(mock := CloseSockets(w.mock), control := HoldingUdp, trace := w.trace + ClearedEvents(w.mock))
    case HoldUdpStep(ok) =>
      if ok then w.(mock := w.mock.(hold := Some(w.nextId)), nextId := w.nextId + 1, control := HoldingTcp)
      else w.(control := Idle, last := Failed(Refused, false))
    case HoldTcpStep(ok) =>
      if ok then
        w.(mock := w.mock.(tcpHold := Some(w.nextId)), nextId := w.nextId + 1, control := Idle,
           last := Failed(Refused, true))
      else w.(control := Idle, last := Failed(Refused, false))
    case CallRestore =>
      var v := w.(mock := StoreMode(w.mock, Up), trace := w.trace + [ModeSet(Up)]);
      if w.mock.mode == Refused then v.(control := Releasing) else v.(last := Restored(true))
    case ReleaseStep =>
      w.(mock := ReleaseHolds(w.mock), control := Listening)
    case ListenStep(udpOk, tcpOk, picked) =>
      if udpOk && tcpOk then
        w.(mock := Install(w.mock, w.nextId, w.nextId + 1, picked), nextId := w.nextId + 2,
           control := Idle, last := Restored(true))
      else w.(control := Idle, last := Restored(false))
    case Accept(c) =>
      w.(conns := w.conns[c := Conn(w.mock.ln.value, Reading, 0)])
    case Read(c) =>
      var conn := w.conns[c];
      w.(conns := w.conns[c := conn.(phase := AskingGone, readAt := |w.trace|)],
         trace := w.trace + [ReadQuery(c, conn.listener)])
    case HangUp(c) => Moved(w, c, Closed)
    case AskGone(c) => Moved(w, c, if w.mock.ln != Some(w.conns[c].listener) then Closed else AskingRefused)
    case AskRefused(c) => Moved(w, c, if w.mock.mode == Refused then Closed else AskingBlackhole)
    case AskBlackhole(c) => Moved(w, c, if w.mock.mode == Blackhole then Reading else Replying)
    case Reply(c, ok) =>
      var conn := w.conns[c];
      if !ok then Moved(w, c, Closed)
      else Moved(w, c, Reading).(trace := w.trace + [Answered(c, conn.listener, conn.readAt)])
  }

  /** A mock that has started: up, listening, holding nothing. */
  predicate Init(w: World) {
    && w.mock.mode == Up && w.mock.addr.port != 0 && HoldsNothing(w.mock)
    && w.mock.pc.Some? && w.mock.ln.Some? && w.mock.ln.value < w.nextId
    && w.control == Idle && w.last == Started && w.conns == map[] && w.trace == []
  }

  predicate AllEnabled(w: World, actions: seq<Action>)
    decreases actions
  {
    actions == [] || (Enabled(w, actions[0]) && AllEnabled(Step(w, actions[0]), actions[1..]))
  }

  /** The world after a run: any interleaving of any length. */
  function Run(w: World, actions: seq<Action>): World
    requires AllEnabled(w, actions)
    decreases actions
  {
    if actions == [] then w else Run(Step(w, actions[0]), actions[1..])
  }

  predicate Serves(a: Action) {
    a.Accept? || a.Read? || a.HangUp? || a.AskGone? || a.AskRefused? || a.AskBlackhole? || a.Reply?
  }

  /** Nothing a connection does changes the mock or the controller. */
  lemma ServingLeavesTheMock(w: World, a: Action)
    requires Enabled(w, a) && Serves(a)
    ensures Step(w, a).mock == w.mock && Step(w, a).control == w.control && Step(w, a).last == w.last
    ensures Step(w, a).nextId == w.nextId
  {
  }

  lemma RunNone(w: World)
    ensures AllEnabled(w, []) && Run(w, []) == w
  {
  }

  lemma RunFirst(w: World, a: Action, rest: seq<Action>)
    requires Enabled(w, a) && AllEnabled(Step(w, a), rest)
    ensures AllEnabled(w, [a] + rest) && Run(w, [a] + rest) == Run(Step(w, a), rest)
  {
    assert ([a] + rest)[1..] == rest;
  }

  lemma StepTrace(w: World, a: Action)
    requires Enabled(w, a)
    ensures |w.trace| <= |Step(w, a).trace| && Step(w, a).trace == w.trace + Step(w, a).trace[|w.trace|..]
    ensures |Step(w, a).trace| <= |w.trace| + 1
    ensures forall i :: |w.trace| <= i < |Step(w, a).trace| ==> !Step(w, a).trace[i].SentTo?
    ensures w.nextId <= Step(w, a).nextId
  {
  }

  // ---------------------------------------------------------- no answer after the listener is gone

  ghost predicate ClearedBefore(trace: seq<Event>, listener: Id, end: nat)
    requires end <= |trace|
  {
    exists i :: 0 <= i < end && trace[i] == Cleared(listener)
  }

  /** The query a connection is working on was read at `readAt`, from its own listener. */
  ghost predicate HasRead(w: World, c: nat)
    requires c in w.conns
  {
    var conn := w.conns[c];
    conn.readAt < |w.trace| && w.trace[conn.readAt] == ReadQuery(c, conn.listener)
  }

  /** An answer belongs to a query read earlier, and read before its listener was cleared. */
  ghost predicate Legitimate(trace: seq<Event>, m: nat)
    requires m < |trace| && trace[m].Answered?
  {
    var e := trace[m];
    e.readAt < m && trace[e.readAt] == ReadQuery(e.conn, e.listener) && !ClearedBefore(trace, e.listener, e.readAt)
  }

  ghost predicate ListenersKnown(w: World) {
    && (w.mock.ln.Some? ==> w.mock.ln.value < w.nextId && !ClearedBefore(w.trace, w.mock.ln.value, |w.trace|))
    && (forall i :: 0 <= i < |w.trace| && w.trace[i].Cleared? ==> w.trace[i].listener < w.nextId)
  }

  ghost predicate ConnsSound(w: World) {
    forall c :: c in w.conns ==>
      && (w.conns[c].phase in {AskingGone, AskingRefused, AskingBlackhole, Replying} ==> HasRead(w, c))
      && (w.conns[c].phase in {AskingRefused, AskingBlackhole, Replying} ==>
            !ClearedBefore(w.trace, w.conns[c].listener, w.conns[c].readAt))
  }

  ghost predicate AnswersLegitimate(w: World) {
    forall m :: 0 <= m < |w.trace| && w.trace[m].Answered? ==> Legitimate(w.trace, m)
  }

  ghost predicate Sound(w: World) {
    ListenersKnown(w) && ConnsSound(w) && AnswersLegitimate(w)
  }

  /** A longer trace changes nothing about its beginning. */
  lemma TraceGrows(trace: seq<Event>, more: seq<Event>, listener: Id, end: nat)
    requires end <= |trace|
    ensures ClearedBefore(trace + more, listener, end) <==> ClearedBefore(trace, listener, end)
  {
    if ClearedBefore(trace, listener, end) {
      var i :| 0 <= i < end && trace[i] == Cleared(listener);
      assert (trace + more)[i] == Cleared(listener);
    }
  }

  lemma LegitimateStays(trace: seq<Event>, more: seq<Event>, m: nat)
    requires m < |trace| && trace[m].Answered? && Legitimate(trace, m)
    ensures Legitimate(trace + more, m)
  {
    TraceGrows(trace, more, trace[m].listener, trace[m].readAt);
  }

  /** A connection the step did not move stays sound under any longer trace. */
  lemma ConnStays(w: World, v: World, more: seq<Event>, c: nat)
    requires Sound(w) && v.trace == w.trace + more && c in w.conns && c in v.conns && v.conns[c] == w.conns[c]
    ensures v.conns[c].phase in {AskingGone, AskingRefused, AskingBlackhole, Replying} ==> HasRead(v, c)
    ensures v.conns[c].phase in {AskingRefused, AskingBlackhole, Replying} ==>
              !ClearedBefore(v.trace, v.conns[c].listener, v.conns[c].readAt)
  {
  }

  /** The answers so far stay legitimate when events are added that are no answers. */
  lemma AnswersStay(w: World, v: World, more: seq<Event>)
    requires Sound(w) && v.trace == w.trace + more && forall i :: 0 <= i < |more| ==> !more[i].Answered?
    ensures AnswersLegitimate(v)
  {
  }

  lemma StepKeepsConns(w: World, a: Action)
    requires Sound(w) && Enabled(w, a)
    ensures ConnsSound(Step(w, a))
  {
    var v := Step(w, a);
    var more := v.trace[|w.trace|..];
    assert v.trace == w.trace + more;
    forall c | c in v.conns
      ensures v.conns[c].phase in {AskingGone, AskingRefused, AskingBlackhole, Replying} ==> HasRead(v, c)
      ensures v.conns[c].phase in {AskingRefused, AskingBlackhole, Replying} ==>
                !ClearedBefore(v.trace, v.conns[c].listener, v.conns[c].readAt)
    {
      if c in w.conns && v.conns[c] == w.conns[c] {
        ConnStays(w, v, more, c);
      } else if a.AskGone? && v.conns[c].phase == AskingRefused {
        assert !ClearedBefore(w.trace, w.conns[c].listener, |w.trace|);
      }
    }
  }

  /** The listener stays, goes, or is one no one has seen; and it goes when it is cleared. */
  lemma StepListeners(w: World, a: Action)
    requires Enabled(w, a)
    ensures var v := Step(w, a);
            && (v.mock.ln == w.mock.ln || v.mock.ln.None?
                || (v.mock.ln == Some(w.nextId + 1) && v.nextId == w.nextId + 2))
            && forall i :: |w.trace| <= i < |v.trace| && v.trace[i].Cleared? ==>
                 w.mock.ln == Some(v.trace[i].listener) && v.mock.ln.None?
  {
    if Serves(a) { ServingLeavesTheMock(w, a); }
  }

  lemma StepKeepsListeners(w: World, a: Action)
    requires Sound(w) && Enabled(w, a)
    ensures ListenersKnown(Step(w, a))
  {
    StepListeners(w, a);
    StepTrace(w, a);
    hide ConnsSound, AnswersLegitimate, Step, Enabled;
    var v := Step(w, a);
    assert forall i :: 0 <= i < |w.trace| ==> v.trace[i] == w.trace[i];
    if v.mock.ln.Some? {
      forall i | 0 <= i < |v.trace| ensures v.trace[i] != Cleared(v.mock.ln.value) {}
    }
  }

  lemma StepKeepsAnswers(w: World, a: Action)
    requires Sound(w) && Enabled(w, a)
    ensures AnswersLegitimate(Step(w, a))
  {
    var v := Step(w, a);
    var more := v.trace[|w.trace|..];
    assert v.trace == w.trace + more;
    if a.Reply? && a.ok {
      var conn := w.conns[a.conn];
      TraceGrows(w.trace, more, conn.listener, conn.readAt);
      forall m | 0 <= m < |v.trace| && v.trace[m].Answered? ensures Legitimate(v.trace, m) {
        if m < |w.trace| { LegitimateStays(w.trace, more, m); }
      }
    } else {
      AnswersStay(w, v, more);
    }
  }

  lemma {:induction false} RunKeepsSound(w: World, actions: seq<Action>)
    requires Sound(w) && AllEnabled(w, actions)
    ensures Sound(Run(w, actions))
    decreases actions
  {
    hide Step, Enabled, ListenersKnown, ConnsSound, AnswersLegitimate;
    if actions != [] {
      StepKeepsConns(w, actions[0]);
      StepKeepsListeners(w, actions[0]);
      StepKeepsAnswers(w, actions[0]);
      RunKeepsSound(Step(w, actions[0]), actions[1..]);
    }
  }

  /**
   In every interleaved run: after a listener is cleared, whatever the
   connections it accepted still read goes unanswered, even once the mock is
   back.
   */
  lemma NoAnswerOnceCleared(w: World, actions: seq<Action>, i: nat, j: nat, m: nat)
    requires Init(w) && AllEnabled(w, actions)
    requires i < j < m < |Run(w, actions).trace|
    requires var trace := Run(w, actions).trace;
             trace[i].Cleared? && trace[j].ReadQuery? && trace[j].listener == trace[i].listener
    ensures var trace := Run(w, actions).trace;
            trace[m] != Answered(trace[j].conn, trace[j].listener, j)
  {
    RunKeepsSound(w, actions);
    var trace := Run(w, actions).trace;
    if trace[m] == Answered(trace[j].conn, trace[j].listener, j) {
      assert Legitimate(trace, m);
      assert trace[i] == Cleared(trace[j].listener);
      assert ClearedBefore(trace, trace[j].listener, j);
    }
  }

  /** Every answer in a run is to a query that connection read before. */
  lemma EveryAnswerWasAsked(w: World, actions: seq<Action>, m: nat)
    requires Init(w) && AllEnabled(w, actions)
    requires m < |Run(w, actions).trace| && Run(w, actions).trace[m].Answered?
    ensures var trace := Run(w, actions).trace;
            trace[m].readAt < m && trace[trace[m].readAt] == ReadQuery(trace[m].conn, trace[m].listener)
  {
    RunKeepsSound(w, actions);
    assert Legitimate(Run(w, actions).trace, m);
  }

  // ---------------------------------------------------------- the mode in the trace

  lemma OnlyCallsSetMode(w: World, a: Action)
    requires Enabled(w, a)
    ensures Step(w, a).mock.mode == if a.CallFail? then a.mode else if a.CallRestore? then Up else w.mock.mode
  {
  }

  /** The mode is what the trace says it is. */
  lemma StepKeepsMode(w: World, a: Action)
    requires w.mock.mode == ModeAt(w.trace, |w.trace|) && Enabled(w, a)
    ensures Step(w, a).mock.mode == ModeAt(Step(w, a).trace, |Step(w, a).trace|)
  {
    StepTrace(w, a);
    ModeAtStays(w.trace, Step(w, a).trace[|w.trace|..], |w.trace|);
  }

  // ---------------------------------------------------------- what each call leaves, whatever runs beside it

  /** The controller's bookkeeping: ports held while refused, none otherwise, and never another address. */
  predicate Kept(w: World, addr: Addr) {
    && w.mock.addr == addr && addr.port != 0
    && (w.control == Idle && w.last == Failed(Refused, true) ==> w.mock.mode == Refused && HoldsBoth(w.mock))
    && (w.control == Idle && w.last == Restored(true) ==> w.mock.mode == Up && HoldsNothing(w.mock))
    && (w.control == Closing || w.control == HoldingUdp || w.control == HoldingTcp ==> w.mock.mode == Refused)
    && (w.control == HoldingUdp || w.control == HoldingTcp ==> w.mock.ln.None?)
    && (w.control == HoldingTcp ==> w.mock.hold.Some?)
    && (w.control == Releasing || w.control == Listening ==> w.mock.mode == Up)
    && (w.control == Listening ==> HoldsNothing(w.mock))
    && (w.control == Idle && w.mock.mode != Refused ==> HoldsNothing(w.mock))
    && (w.control == Idle && w.mock.mode == Refused ==> w.last.Failed? && w.last.mode == Refused)
    && (w.control == Idle && w.last.Failed? ==> w.mock.mode == w.last.mode)
  }

  /** Every `fail` finds the mock up, as the outage schedule calls it. */
  predicate AlternatingRun(w: World, actions: seq<Action>)
    requires AllEnabled(w, actions)
    decreases actions
  {
    actions == [] ||
    ((actions[0].CallFail? ==> w.mock.mode == Up) && AlternatingRun(Step(w, actions[0]), actions[1..]))
  }

  lemma StepKeeps(w: World, a: Action, addr: Addr)
    requires Enabled(w, a) && Kept(w, addr) && (a.CallFail? ==> w.mock.mode == Up)
    ensures Kept(Step(w, a), addr)
  {
    if Serves(a) {
      hide Step;
      ServingLeavesTheMock(w, a);
    }
  }

  lemma {:induction false} RunKeeps(w: World, actions: seq<Action>, addr: Addr)
    requires Kept(w, addr) && AllEnabled(w, actions) && AlternatingRun(w, actions)
    ensures Kept(Run(w, actions), addr)
    decreases actions
  {
    hide Step, Enabled, Kept;
    if actions != [] {
      StepKeeps(w, actions[0], addr);
      RunKeeps(Step(w, actions[0]), actions[1..], addr);
    }
  }

  /**
   In every interleaved run whose calls alternate: after each successful refusal
   both ports are held and there is no listener, after each successful restore
   no hold remains, and the address is the one it started with.
   */
  lemma CallsLeaveTheirState(w: World, actions: seq<Action>)
    requires Init(w) && AllEnabled(w, actions) && AlternatingRun(w, actions)
    ensures var v := Run(w, actions);
            && v.mock.addr == w.mock.addr
            && (v.control == Idle && v.last == Failed(Refused, true) ==> HoldsBoth(v.mock) && v.mock.mode == Refused)
            && (v.control == Idle && v.last == Restored(true) ==> HoldsNothing(v.mock) && v.mock.mode == Up)
  {
    RunKeeps(w, actions, w.mock.addr);
  }

  // ---------------------------------------------------------- an answer after the outage

  /** `w`, but for a connection the listener accepted and the events so far. */
  function Serving(w: World, c: nat, phase: Phase, readAt: nat, trace: seq<Event>): World
    requires w.mock.ln.Some?
  {
    w.(conns := w.conns[c := Conn(w.mock.ln.value, phase, readAt)], trace := trace)
  }

  /** What a connection does next while all goes well, and where that leaves it. */
  function TurnOf(phase: Phase, c: nat): (Action, Phase)
    requires phase != Closed
  {
    match phase
    case Reading => (Read(c), AskingGone)
    case AskingGone => (AskGone(c), AskingRefused)
    case AskingRefused => (AskRefused(c), AskingBlackhole)
    case AskingBlackhole => (AskBlackhole(c), Replying)
    case Replying => (Reply(c, true), Reading)
  }

  function TraceAfter(trace: seq<Event>, phase: Phase, c: nat, ln: Id, readAt: nat): seq<Event> {
    if phase == Reading then trace + [ReadQuery(c, ln)]
    else if phase == Replying then trace + [Answered(c, ln, readAt)]
    else trace
  }

  /** One such turn, before whatever follows it. */
  lemma ServingTurn(w: World, c: nat, phase: Phase, readAt: nat, trace: seq<Event>, rest: seq<Action>)
    requires w.mock.mode == Up && w.mock.ln.Some? && phase != Closed
    requires AllEnabled(AfterTurn(w, c, phase, readAt, trace), rest)
    ensures var s, turn := Serving(w, c, phase, readAt, trace), [TurnOf(phase, c).0] + rest;
            AllEnabled(s, turn) && Run(s, turn) == Run(AfterTurn(w, c, phase, readAt, trace), rest)
  {
    hide AllEnabled, Run;
    var s, a := Serving(w, c, phase, readAt, trace), TurnOf(phase, c).0;
    assert Enabled(s, a) && Step(s, a) == AfterTurn(w, c, phase, readAt, trace);
    RunFirst(s, a, rest);
  }

  function AfterTurn(w: World, c: nat, phase: Phase, readAt: nat, trace: seq<Event>): World
    requires w.mock.ln.Some? && phase != Closed
  {
    Serving(w, c, TurnOf(phase, c).1, if phase == Reading then |trace| else readAt,
            TraceAfter(trace, phase, c, w.mock.ln.value, readAt))
  }

  /** The checks of a query, and what follows them. */
  function ChecksThen(c: nat, rest: seq<Action>): seq<Action> {
    [AskGone(c)] + ([AskRefused(c)] + ([AskBlackhole(c)] + rest))
  }

  lemma ChecksPass(w: World, c: nat, readAt: nat, trace: seq<Event>, rest: seq<Action>)
    requires w.mock.mode == Up && w.mock.ln.Some? && AllEnabled(Serving(w, c, Replying, readAt, trace), rest)
    ensures var s := Serving(w, c, AskingGone, readAt, trace);
            && AllEnabled(s, ChecksThen(c, rest))
            && Run(s, ChecksThen(c, rest)) == Run(Serving(w, c, Replying, readAt, trace), rest)
  {
    hide AllEnabled, Run, Step, Enabled, Serving;
    ServingTurn(w, c, AskingBlackhole, readAt, trace, rest);
    ServingTurn(w, c, AskingRefused, readAt, trace, [AskBlackhole(c)] + rest);
    ServingTurn(w, c, AskingGone, readAt, trace, [AskRefused(c)] + ([AskBlackhole(c)] + rest));
  }

  lemma Replies(w: World, c: nat, readAt: nat, trace: seq<Event>)
    requires w.mock.mode == Up && w.mock.ln.Some?
    ensures var s, reply := Serving(w, c, Replying, readAt, trace), [Reply(c, true)] + [];
            AllEnabled(s, reply) && Run(s, reply).trace == trace + [Answered(c, w.mock.ln.value, readAt)]
  {
    hide AllEnabled, Run, Step, Enabled;
    RunNone(AfterTurn(w, c, Replying, readAt, trace));
    ServingTurn(w, c, Replying, readAt, trace, []);
  }

  function QueryThen(c: nat, rest: seq<Action>): seq<Action> {
    [Accept(c)] + ([Read(c)] + ChecksThen(c, rest))
  }

  /** A new connection's query passes every check of a mock that is up and listening. */
  lemma QueryPasses(w: World, c: nat, rest: seq<Action>)
    requires w.mock.mode == Up && w.mock.ln.Some? && c !in w.conns
    requires AllEnabled(Serving(w, c, Replying, |w.trace|, w.trace + [ReadQuery(c, w.mock.ln.value)]), rest)
    ensures AllEnabled(w, QueryThen(c, rest))
    ensures Run(w, QueryThen(c, rest)) ==
            Run(Serving(w, c, Replying, |w.trace|, w.trace + [ReadQuery(c, w.mock.ln.value)]), rest)
  {
    assert Enabled(w, Accept(c)) && Step(w, Accept(c)) == Serving(w, c, Reading, 0, w.trace);
    hide AllEnabled, Run, Step, Enabled, Serving, ChecksThen;
    ChecksPass(w, c, |w.trace|, w.trace + [ReadQuery(c, w.mock.ln.value)], rest);
    ServingTurn(w, c, Reading, 0, w.trace, ChecksThen(c, rest));
    RunFirst(w, Accept(c), [Read(c)] + ChecksThen(c, rest));
  }

  function ServeSteps(c: nat): seq<Action> {
    QueryThen(c, [Reply(c, true)] + [])
  }

  /** A mock that is up and listening answers a connection it accepts. */
  lemma UpAnswers(w: World, c: nat)
    requires w.mock.mode == Up && w.mock.ln.Some? && c !in w.conns
    ensures AllEnabled(w, ServeSteps(c))
    ensures var ln := w.mock.ln.value;
            Run(w, ServeSteps(c)).trace == w.trace + [ReadQuery(c, ln), Answered(c, ln, |w.trace|)]
  {
    hide AllEnabled, Run, Serving, QueryThen;
    Replies(w, c, |w.trace|, w.trace + [ReadQuery(c, w.mock.ln.value)]);
    QueryPasses(w, c, [Reply(c, true)] + []);
  }

  /**
   After every outage that ends in fresh sockets: a connection accepted on the
   new listener has its query answered, under the new listener's identity.
   */
  lemma AnsweredOnceRestored(w: World, actions: seq<Action>, picked: nat, c: nat)
    requires Init(w) && AllEnabled(w, actions) && AlternatingRun(w, actions)
    requires Run(w, actions).control == Listening && c !in Run(w, actions).conns
    ensures var u := Run(w, actions);
            var v := Step(u, ListenStep(true, true, picked));
            && v.last == Restored(true) && AllEnabled(v, ServeSteps(c))
            && Run(v, ServeSteps(c)).trace ==
               u.trace + [ReadQuery(c, u.nextId + 1), Answered(c, u.nextId + 1, |u.trace|)]
  {
    hide Run, AllEnabled, ServeSteps;
    RunKeeps(w, actions, w.mock.addr);
    UpAnswers(Step(Run(w, actions), ListenStep(true, true, picked)), c);
  }

  // ---------------------------------------------------------- what was read while down

  /** A connection past its checks found the mode up since its read, or is about to find it blackholed. */
  ghost predicate QueryTimely(w: World, c: nat)
    requires c in w.conns
  {
    var conn := w.conns[c];
    && (conn.phase in {AskingGone, AskingRefused, AskingBlackhole, Replying} ==> conn.readAt < |w.trace|)
    && (conn.phase == AskingBlackhole ==> UpSince(w.trace, conn.readAt) || w.mock.mode == Blackhole)
    && (conn.phase == Replying ==> UpSince(w.trace, conn.readAt))
  }

  ghost predicate AnswerTimely(trace: seq<Event>, m: nat)
    requires m < |trace| && trace[m].Answered?
  {
    trace[m].readAt < m && UpSince(trace[..m], trace[m].readAt)
  }

  ghost predicate Timely(w: World) {
    && w.mock.mode == ModeAt(w.trace, |w.trace|)
    && (forall c :: c in w.conns ==> QueryTimely(w, c))
    && (forall m :: 0 <= m < |w.trace| && w.trace[m].Answered? ==> AnswerTimely(w.trace, m))
  }

  /** The connection an action is a step of. */
  predicate Concerns(a: Action, c: nat) {
    Serves(a) && a.conn == c
  }

  lemma OthersStay(w: World, a: Action, c: nat)
    requires Enabled(w, a) && !Concerns(a, c)
    ensures c in Step(w, a).conns <==> c in w.conns
    ensures c in w.conns ==> Step(w, a).conns[c] == w.conns[c]
  {
  }

  lemma UpNow(w: World, from: nat)
    requires w.mock.mode == Up && w.mock.mode == ModeAt(w.trace, |w.trace|) && from <= |w.trace|
    ensures UpSince(w.trace, from)
  {
  }

  lemma OtherQueryStays(w: World, a: Action, c: nat)
    requires Timely(w) && Enabled(w, a) && !Concerns(a, c) && c in w.conns && (a.CallFail? ==> w.mock.mode == Up)
    ensures c in Step(w, a).conns && QueryTimely(Step(w, a), c)
  {
    OthersStay(w, a, c);
    StepTrace(w, a);
    OnlyCallsSetMode(w, a);
    StepKeepsMode(w, a);
    var v, r := Step(w, a), w.conns[c].readAt;
    assert QueryTimely(w, c);
    hide Step, Enabled, ModeAt, UpSince, AnswerTimely;
    if w.conns[c].phase in {AskingBlackhole, Replying} {
      if v.mock.mode == Up { UpNow(v, r); }
      if w.mock.mode == Up { UpNow(w, r); }
      if UpSince(w.trace, r) { UpSinceStays(w.trace, v.trace[|w.trace|..], r); }
    }
  }

  lemma OwnQueryStays(w: World, a: Action, c: nat)
    requires Timely(w) && Enabled(w, a) && Concerns(a, c)
    ensures c in Step(w, a).conns && QueryTimely(Step(w, a), c)
  {
    hide ModeAt, UpSince, AnswerTimely;
    if c in w.conns {
      assert QueryTimely(w, c);
      var r := w.conns[c].readAt;
      if w.mock.mode == Up && r <= |w.trace| { UpNow(w, r); }
    }
  }

  /** Only a reply adds an answer, its connection's own. */
  lemma AnswersAdded(w: World, a: Action, m: nat)
    requires Enabled(w, a) && |w.trace| <= m < |Step(w, a).trace| && Step(w, a).trace[m].Answered?
    ensures a.Reply? && m == |w.trace| && w.conns[a.conn].phase == Replying
    ensures Step(w, a).trace[m] == Answered(a.conn, w.conns[a.conn].listener, w.conns[a.conn].readAt)
  {
  }

  lemma StepKeepsAnswerTimely(w: World, a: Action, m: nat)
    requires Timely(w) && Enabled(w, a) && m < |Step(w, a).trace| && Step(w, a).trace[m].Answered?
    ensures AnswerTimely(Step(w, a).trace, m)
  {
    StepTrace(w, a);
    var v := Step(w, a);
    if m < |w.trace| {
      assert v.trace[m] == w.trace[m] && AnswerTimely(w.trace, m) && v.trace[..m] == w.trace[..m];
    } else {
      AnswersAdded(w, a, m);
      assert QueryTimely(w, a.conn) && v.trace[..m] == w.trace;
    }
  }

  lemma StepKeepsTimely(w: World, a: Action)
    requires Timely(w) && Enabled(w, a) && (a.CallFail? ==> w.mock.mode == Up)
    ensures Timely(Step(w, a))
  {
    hide Step, Enabled, QueryTimely, AnswerTimely, ModeAt;
    StepKeepsMode(w, a);
    forall c | c in Step(w, a).conns ensures QueryTimely(Step(w, a), c) {
      if Concerns(a, c) {
        OwnQueryStays(w, a, c);
      } else {
        OthersStay(w, a, c);
        OtherQueryStays(w, a, c);
      }
    }
    forall m | 0 <= m < |Step(w, a).trace| && Step(w, a).trace[m].Answered? ensures AnswerTimely(Step(w, a).trace, m) {
      StepKeepsAnswerTimely(w, a, m);
    }
  }

  lemma {:induction false} RunKeepsTimely(w: World, actions: seq<Action>)
    requires Timely(w) && AllEnabled(w, actions) && AlternatingRun(w, actions)
    ensures Timely(Run(w, actions))
    decreases actions
  {
    hide Step, Enabled, Timely;
    if actions != [] {
      StepKeepsTimely(w, actions[0]);
      RunKeepsTimely(Step(w, actions[0]), actions[1..]);
    }
  }

  /**
   In every interleaved alternating run: a query read while the mock was down
   is answered only if the mock was brought back between the read and the
   answer.
   */
  lemma QueryReadWhileDownNeedsRestore(w: World, actions: seq<Action>, r: nat, m: nat) returns (k: nat)
    requires Init(w) && AllEnabled(w, actions) && AlternatingRun(w, actions)
    requires r < |Run(w, actions).trace| && ModeAt(Run(w, actions).trace, r) != Up
    requires var trace := Run(w, actions).trace;
             m < |trace| && trace[m].Answered? && trace[m].readAt == r
    ensures var trace := Run(w, actions).trace;
            && r < k < m && trace[k] == ModeSet(Up)
            && trace[r] == ReadQuery(trace[m].conn, trace[m].listener)
  {
    hide Run, AllEnabled, AlternatingRun;
    EveryAnswerWasAsked(w, actions, m);
    RunKeepsTimely(w, actions);
    assert AnswerTimely(Run(w, actions).trace, m);
    k := SetUpSinceRead(Run(w, actions).trace, r, m);
  }

  function LateReplySteps(c: nat): seq<Action> {
    QueryThen(c, [CallFail(Blackhole)] + ([Reply(c, true)] + []))
  }

  /** One read before, and past its checks, is answered during the outage: the mode is not looked at again. */
  lemma AnswerDuringOutage(w: World, c: nat)
    requires w.mock.mode == Up && w.mock.ln.Some? && w.control == Idle && c !in w.conns
    ensures AllEnabled(w, LateReplySteps(c))
    ensures var ln, v := w.mock.ln.value, Run(w, LateReplySteps(c));
            && v.mock.mode == Blackhole
            && v.trace == w.trace + [ReadQuery(c, ln), ModeSet(Blackhole), Answered(c, ln, |w.trace|)]
  {
    var ln := w.mock.ln.value;
    var replying := Serving(w, c, Replying, |w.trace|, w.trace + [ReadQuery(c, ln)]);
    var down := Step(replying, CallFail(Blackhole));
    var end := Step(down, Reply(c, true));
    assert end.mock.mode == Blackhole;
    assert end.trace == w.trace + [ReadQuery(c, ln), ModeSet(Blackhole), Answered(c, ln, |w.trace|)];
    hide AllEnabled, Run, Step, Serving, QueryThen;
    RunNone(end);
    RunFirst(down, Reply(c, true), []);
    RunFirst(replying, CallFail(Blackhole), [Reply(c, true)] + []);
    QueryPasses(w, c, [CallFail(Blackhole)] + ([Reply(c, true)] + []));
  }

  // ---------------------------------------------------------- a connection through a blackhole

  /** A mock that drops: the query of an open connection is read, checked and left, and the connection reads on. */
  function DropThen(c: nat, rest: seq<Action>): seq<Action> {
    [Read(c)] + ([AskGone(c)] + ([AskRefused(c)] + ([AskBlackhole(c)] + rest)))
  }

  /** The four steps, two by two. */
  lemma DropReads(w: World, c: nat)
    requires InPhase(w, c, Reading) && w.mock.ln == Some(w.conns[c].listener)
    ensures var n, read := |w.trace|, w.trace + [ReadQuery(c, w.conns[c].listener)];
            var w1, w2 := Serving(w, c, AskingGone, n, read), Serving(w, c, AskingRefused, n, read);
            && Enabled(w, Read(c)) && Step(w, Read(c)) == w1
            && Enabled(w1, AskGone(c)) && Step(w1, AskGone(c)) == w2
  {
  }

  lemma DropLeaves(w: World, c: nat, n: nat, trace: seq<Event>)
    requires w.mock.mode == Blackhole && w.mock.ln.Some?
    ensures var w2, w3 := Serving(w, c, AskingRefused, n, trace), Serving(w, c, AskingBlackhole, n, trace);
            && Enabled(w2, AskRefused(c)) && Step(w2, AskRefused(c)) == w3
            && Enabled(w3, AskBlackhole(c)) && Step(w3, AskBlackhole(c)) == Serving(w, c, Reading, n, trace)
  {
  }

  lemma Drops(w: World, c: nat, rest: seq<Action>)
    requires w.mock.mode == Blackhole && InPhase(w, c, Reading) && w.mock.ln == Some(w.conns[c].listener)
    requires var ln := w.conns[c].listener;
             AllEnabled(Serving(w, c, Reading, |w.trace|, w.trace + [ReadQuery(c, ln)]), rest)
    ensures AllEnabled(w, DropThen(c, rest))
    ensures Run(w, DropThen(c, rest)) ==
            Run(Serving(w, c, Reading, |w.trace|, w.trace + [ReadQuery(c, w.conns[c].listener)]), rest)
  {
    hide AllEnabled, Run, Step, Enabled, Serving;
    var n, read := |w.trace|, w.trace + [ReadQuery(c, w.conns[c].listener)];
    DropReads(w, c);
    DropLeaves(w, c, n, read);
    RunFirst(Serving(w, c, AskingBlackhole, n, read), AskBlackhole(c), rest);
    RunFirst(Serving(w, c, AskingRefused, n, read), AskRefused(c), [AskBlackhole(c)] + rest);
    RunFirst(Serving(w, c, AskingGone, n, read), AskGone(c), [AskRefused(c)] + ([AskBlackhole(c)] + rest));
    RunFirst(w, Read(c), [AskGone(c)] + ([AskRefused(c)] + ([AskBlackhole(c)] + rest)));
  }

  function BackAndAsked(c: nat): seq<Action> {
    [CallRestore] + ([Read(c)] + ChecksThen(c, [Reply(c, true)] + []))
  }

  lemma RestoreIsUp(w: World, c: nat)
    requires w.control == Idle && InPhase(w, c, Reading) && w.mock.ln == Some(w.conns[c].listener)
    ensures Enabled(w, CallRestore)
    ensures var v := Step(w, CallRestore);
            && v.mock.mode == Up && v.mock.ln == w.mock.ln && v.trace == w.trace + [ModeSet(Up)]
            && c in v.conns && v == Serving(v, c, Reading, v.conns[c].readAt, v.trace)
  {
  }

  /** A connection's next query, asked of a mock that is up. */
  lemma AsksAgain(v: World, c: nat)
    requires v.mock.mode == Up && v.mock.ln.Some? && c in v.conns
    requires v == Serving(v, c, Reading, v.conns[c].readAt, v.trace)
    ensures var again := [Read(c)] + ChecksThen(c, [Reply(c, true)] + []);
            && AllEnabled(v, again)
            && Run(v, again).trace ==
               v.trace + [ReadQuery(c, v.mock.ln.value)] + [Answered(c, v.mock.ln.value, |v.trace|)]
  {
    hide AllEnabled, Run, Serving, ChecksThen;
    var read := v.trace + [ReadQuery(c, v.mock.ln.value)];
    Replies(v, c, |v.trace|, read);
    ChecksPass(v, c, |v.trace|, read, [Reply(c, true)] + []);
    ServingTurn(v, c, Reading, v.conns[c].readAt, v.trace, ChecksThen(c, [Reply(c, true)] + []));
  }

  lemma AnswersOnceBack(w: World, c: nat)
    requires w.control == Idle && InPhase(w, c, Reading) && w.mock.ln == Some(w.conns[c].listener)
    ensures AllEnabled(w, BackAndAsked(c))
    ensures var ln := w.conns[c].listener;
            Run(w, BackAndAsked(c)).trace ==
            w.trace + [ModeSet(Up), ReadQuery(c, ln), Answered(c, ln, |w.trace| + 1)]
  {
    hide AllEnabled, Run, Step, Enabled, Serving, ChecksThen;
    RestoreIsUp(w, c);
    AsksAgain(Step(w, CallRestore), c);
    RunFirst(w, CallRestore, [Read(c)] + ChecksThen(c, [Reply(c, true)] + []));
  }

  /** Its query dropped, the connection stays, and its next one is answered once the mock is back. */
  lemma DroppedThenAnswered(w: World, c: nat)
    requires w.mock.mode == Blackhole && w.control == Idle && InPhase(w, c, Reading)
    requires w.mock.ln == Some(w.conns[c].listener)
    ensures AllEnabled(w, DropThen(c, BackAndAsked(c)))
    ensures var ln := w.conns[c].listener;
            Run(w, DropThen(c, BackAndAsked(c))).trace ==
            w.trace + [ReadQuery(c, ln), ModeSet(Up), ReadQuery(c, ln), Answered(c, ln, |w.trace| + 2)]
  {
    var v := Serving(w, c, Reading, |w.trace|, w.trace + [ReadQuery(c, w.conns[c].listener)]);
    assert v.control == Idle && InPhase(v, c, Reading) && v.mock == w.mock;
    assert v.conns[c].listener == w.conns[c].listener && v.trace == w.trace + [ReadQuery(c, w.conns[c].listener)];
    hide AllEnabled, Run, Serving, DropThen, BackAndAsked;
    AnswersOnceBack(v, c);
    Drops(w, c, BackAndAsked(c));
  }

  /** What would end a connection other than the mock's doing: a refusal, its peer, or a write that fails. */
  predicate Ends(a: Action, c: nat) {
    a.CallFail? || a == HangUp(c) || a == Reply(c, false)
  }

  /** Up or dropping, at rest, and the connection one of its own. */
  predicate HeldOpen(w: World, c: nat) {
    && w.control == Idle && w.mock.mode != Refused
    && c in w.conns && w.conns[c].phase != Closed && w.mock.ln == Some(w.conns[c].listener)
  }

  lemma StepKeepsOpen(w: World, a: Action, c: nat)
    requires HeldOpen(w, c) && Enabled(w, a) && !Ends(a, c)
    ensures HeldOpen(Step(w, a), c)
  {
  }

  /** Through a blackhole and back, in every interleaving, the mock never closes a connection of its own. */
  lemma {:induction false} StaysOpen(w: World, more: seq<Action>, c: nat)
    requires HeldOpen(w, c) && AllEnabled(w, more) && forall i :: 0 <= i < |more| ==> !Ends(more[i], c)
    ensures HeldOpen(Run(w, more), c)
    decreases more
  {
    hide Step, Enabled, HeldOpen, Ends;
    if more != [] {
      StepKeepsOpen(w, more[0], c);
      assert forall i :: 0 <= i < |more[1..]| ==> more[1..][i] == more[i + 1];
      StaysOpen(Step(w, more[0]), more[1..], c);
    }
  }

  // ---------------------------------------------------------- exactly when an answer can still come

  /** Connection `c` answered the query it read at `r`. */
  ghost predicate AnsweredIn(trace: seq<Event>, c: nat, r: nat) {
    exists m :: 0 <= m < |trace| && trace[m].Answered? && trace[m].conn == c && trace[m].readAt == r
  }

  /** Some way on from `w` answers the query `c` read at `r`. */
  ghost predicate CanBeAnswered(w: World, c: nat, r: nat) {
    exists more :: AllEnabled(w, more) && AnsweredIn(Run(w, more).trace, c, r)
  }

  lemma RestoreAnswers(w: World, c: nat)
    requires w.control == Idle && InPhase(w, c, AskingGone) && w.mock.ln == Some(w.conns[c].listener)
    ensures CanBeAnswered(w, c, w.conns[c].readAt)
  {
    var v, r := Step(w, CallRestore), w.conns[c].readAt;
    assert v == Serving(v, c, AskingGone, r, v.trace) && v.mock.mode == Up && Enabled(w, CallRestore);
    hide AllEnabled, Run, Step, Enabled, Serving, ChecksThen;
    var reply := [Reply(c, true)] + [];
    Replies(v, c, r, v.trace);
    ChecksPass(v, c, r, v.trace, reply);
    RunFirst(w, CallRestore, ChecksThen(c, reply));
    var trace := Run(w, [CallRestore] + ChecksThen(c, reply)).trace;
    assert trace[|trace| - 1] == Answered(c, v.mock.ln.value, r);
  }

  ghost predicate IdsKnown(w: World) {
    && (w.mock.ln.Some? ==> w.mock.ln.value < w.nextId)
    && (forall c :: c in w.conns ==> w.conns[c].listener < w.nextId)
  }

  lemma StepKeepsIds(w: World, a: Action)
    requires IdsKnown(w) && Enabled(w, a)
    ensures IdsKnown(Step(w, a))
  {
    if Serves(a) { ServingLeavesTheMock(w, a); }
  }

  lemma {:induction false} RunKeepsIds(w: World, actions: seq<Action>)
    requires IdsKnown(w) && AllEnabled(w, actions)
    ensures IdsKnown(Run(w, actions))
    decreases actions
  {
    hide Step, Enabled, IdsKnown;
    if actions != [] {
      StepKeepsIds(w, actions[0]);
      RunKeepsIds(Step(w, actions[0]), actions[1..]);
    }
  }

  /** Not answered, and never to be: it has yet to ask, and another listener stands in its listener's place, or none. */
  ghost predicate PastAnswering(w: World, c: nat, r: nat) {
    && c in w.conns && !AnsweredIn(w.trace, c, r)
    && w.conns[c].phase in {AskingGone, Closed}
    && w.conns[c].listener < w.nextId && w.mock.ln != Some(w.conns[c].listener)
  }

  lemma NotAnsweredNow(w: World, a: Action, c: nat, r: nat)
    requires Enabled(w, a) && !AnsweredIn(w.trace, c, r) && c in w.conns && w.conns[c].phase != Replying
    ensures !AnsweredIn(Step(w, a).trace, c, r)
  {
    StepTrace(w, a);
    var next := Step(w, a).trace;
    forall m | 0 <= m < |next| ensures !(next[m].Answered? && next[m].conn == c && next[m].readAt == r) {
      if m < |w.trace| {
        assert next[m] == w.trace[m];
      } else if next[m].Answered? {
        AnswersAdded(w, a, m);
      }
    }
  }

  lemma StepKeepsPast(w: World, a: Action, c: nat, r: nat)
    requires PastAnswering(w, c, r) && Enabled(w, a)
    ensures PastAnswering(Step(w, a), c, r)
  {
    NotAnsweredNow(w, a, c, r);
    StepListeners(w, a);
    StepTrace(w, a);
    if Concerns(a, c) {
      ServingLeavesTheMock(w, a);
    } else {
      OthersStay(w, a, c);
      hide Step;
    }
  }

  lemma {:induction false} RunKeepsPast(w: World, more: seq<Action>, c: nat, r: nat)
    requires PastAnswering(w, c, r) && AllEnabled(w, more)
    ensures PastAnswering(Run(w, more), c, r)
    decreases more
  {
    hide Step, Enabled, PastAnswering;
    if more != [] {
      StepKeepsPast(w, more[0], c, r);
      RunKeepsPast(Step(w, more[0]), more[1..], c, r);
    }
  }

  /**
   From every world a run reaches with the controller at rest, up or down: a
   query read and not yet looked at is answered on some way on exactly when
   its listener is still the mock's.
   */
  lemma CanBeAnsweredIff(w: World, actions: seq<Action>, c: nat)
    requires Init(w) && AllEnabled(w, actions) && Run(w, actions).control == Idle
    requires InPhase(Run(w, actions), c, AskingGone)
    requires !AnsweredIn(Run(w, actions).trace, c, Run(w, actions).conns[c].readAt)
    ensures var v := Run(w, actions);
            CanBeAnswered(v, c, v.conns[c].readAt) <==> v.mock.ln == Some(v.conns[c].listener)
  {
    RunKeepsIds(w, actions);
    hide Run, AllEnabled, AnsweredIn;
    var v := Run(w, actions);
    var r := v.conns[c].readAt;
    if v.mock.ln == Some(v.conns[c].listener) {
      RestoreAnswers(v, c);
    } else {
      forall more | AllEnabled(v, more) ensures !AnsweredIn(Run(v, more).trace, c, r) {
        RunKeepsPast(v, more, c, r);
      }
    }
  }

  // ---------------------------------------------------------- the steps are the calls

  function HeldId(ok: bool, id: Id): Option<Id> {
    if ok then Some(id) else None
  }

  function FailSteps(udpOk: bool, tcpOk: bool): seq<Action> {
    [CallFail(Refused)] + ([CloseStep] + ([HoldUdpStep(udpOk)] + if udpOk then [HoldTcpStep(tcpOk)] + [] else []))
  }

  /** The controller's steps, whatever they meet, add up to the `Fail` method's new state and result. */
  lemma FailStepsAreFail(w: World, udpOk: bool, tcpOk: bool)
    requires w.control == Idle
    ensures AllEnabled(w, FailSteps(udpOk, tcpOk))
    ensures var after := AfterFail(w.mock, Refused, Holds(HeldId(udpOk, w.nextId), HeldId(tcpOk, w.nextId + 1)));
            var v := Run(w, FailSteps(udpOk, tcpOk));
            v.control == Idle && v.mock == after.0 && v.last == Failed(Refused, after.1)
  {
    hide AllEnabled, Run;
    var w1 := Step(w, CallFail(Refused));
    var w2 := Step(w1, CloseStep);
    var w3 := Step(w2, HoldUdpStep(udpOk));
    var tail := if udpOk then [HoldTcpStep(tcpOk)] + [] else [];
    if udpOk {
      var w4 := Step(w3, HoldTcpStep(tcpOk));
      RunNone(w4);
      RunFirst(w3, HoldTcpStep(tcpOk), []);
    } else {
      RunNone(w3);
    }
    RunFirst(w2, HoldUdpStep(udpOk), tail);
    RunFirst(w1, CloseStep, [HoldUdpStep(udpOk)] + tail);
    RunFirst(w, CallFail(Refused), [CloseStep] + ([HoldUdpStep(udpOk)] + tail));
  }

  function RestoreSteps(mode: Mode, udpOk: bool, tcpOk: bool, picked: nat): seq<Action> {
    [CallRestore] + if mode == Refused then [ReleaseStep] + ([ListenStep(udpOk, tcpOk, picked)] + []) else []
  }

  lemma RefusedRestore(w: World, udpOk: bool, tcpOk: bool, picked: nat)
    requires w.control == Idle && w.mock.mode == Refused
    ensures var listen := ListenStep(udpOk, tcpOk, picked);
            var after := AfterRestore(w.mock, Binds(HeldId(udpOk, w.nextId), HeldId(tcpOk, w.nextId + 1), picked));
            && Enabled(w, CallRestore) && Enabled(Step(w, CallRestore), ReleaseStep)
            && Enabled(Step(Step(w, CallRestore), ReleaseStep), listen)
            && var v := Step(Step(Step(w, CallRestore), ReleaseStep), listen);
               v.control == Idle && v.mock == after.0 && v.last == Restored(after.1)
  {
  }

  /** And those of a restore to the `Restore` method's. */
  lemma RestoreStepsAreRestore(w: World, udpOk: bool, tcpOk: bool, picked: nat)
    requires w.control == Idle
    ensures AllEnabled(w, RestoreSteps(w.mock.mode, udpOk, tcpOk, picked))
    ensures var after := AfterRestore(w.mock, Binds(HeldId(udpOk, w.nextId), HeldId(tcpOk, w.nextId + 1), picked));
            var v := Run(w, RestoreSteps(w.mock.mode, udpOk, tcpOk, picked));
            v.control == Idle && v.mock == after.0 && v.last == Restored(after.1)
  {
    hide AllEnabled, Run;
    var w1 := Step(w, CallRestore);
    if w.mock.mode == Refused {
      RefusedRestore(w, udpOk, tcpOk, picked);
      hide Step, Enabled, AfterRestore;
      var listen := ListenStep(udpOk, tcpOk, picked);
      var w2 := Step(w1, ReleaseStep);
      RunNone(Step(w2, listen));
      RunFirst(w2, listen, []);
      RunFirst(w1, ReleaseStep, [listen] + []);
      RunFirst(w, CallRestore, [ReleaseStep] + ([listen] + []));
    } else {
      RunNone(w1);
      RunFirst(w, CallRestore, []);
    }
  }
}
