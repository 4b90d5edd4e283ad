/**
 The datagram side of the mock upstream, interleaved with the outage: a read
 from an open socket, a look at the mode, the work, a second look, the write.
 The kernel lets nothing be read from or written to a closed socket.
 */
module Datagrams {
  import opened Wrappers
  import opened MockState
  import opened Trace
  import Outage

  datatype Phase = Looking | Working | Writing | Sent | Dropped | Unanswerable

  /** A datagram in hand: the socket it came by, how far it got, where in the trace it was read. */
  datatype Datagram = Datagram(socket: Id, phase: Phase, readAt: nat)

  datatype World = World(core: Outage.World, open: set<Id>, datagrams: map<nat, Datagram>)

  datatype Action =
    | Core(step: Outage.Action)
    | Read(datagram: nat, socket: Id)
    | Look(datagram: nat)
    | LookAgain(datagram: nat, answerable: bool)
    | Write(datagram: nat)

  predicate InPhase(w: World, d: nat, phase: Phase) {
    d in w.datagrams && w.datagrams[d].phase == phase
  }

  predicate Enabled(w: World, a: Action) {
    match a
    case Core(step) => Outage.Enabled(w.core, step)
    case Read(d, socket) => socket in w.open && d !in w.datagrams
    case Look(d) => InPhase(w, d, Looking)
    case LookAgain(d, _) => InPhase(w, d, Working)
    case Write(d) => InPhase(w, d, Writing)
  }

  function OpenAfter(w: World, step: Outage.Action): set<Id> {
    match step
    case CloseStep => w.open - (if w.core.mock.pc.Some? then {w.core.mock.pc.value} else {})
    case ListenStep(udpOk, tcpOk, _) => if udpOk && tcpOk then w.open + {w.core.nextId} else w.open
    case _ => w.open
  }

  function Noted(w: World, e: Event): World {
    w.(core := w.core.(trace := w.core.trace + [e]))
  }

  function Moved(w: World, d: nat, phase: Phase): World
    requires d in w.datagrams
  {
    w.(datagrams := w.datagrams[d := w.datagrams[d].(phase := phase)])
  }

  function Step(w: World, a: Action): World
    requires Enabled(w, a)
  {
    match a
    case Core(step) =>
      w.(core := Outage.Step(w.core, step), open := OpenAfter(w, step))
    case Read(d, socket) =>
      Noted(w.(datagrams := w.datagrams[d := Datagram(socket, Looking, |w.core.trace|)]), ReadFrom(d, socket))
    case Look(d) =>
      Moved(w, d, if w.core.mock.mode == Up then Working else Dropped)
    case LookAgain(d, answerable) =>
      Moved(w, d, if !answerable then Unanswerable else if w.core.mock.mode == Up then Writing else Dropped)
    case Write(d) =>
      var datagram := w.datagrams[d];
      if datagram.socket in w.open then
        Noted(Moved(w, d, Sent), SentTo(d, datagram.socket, datagram.readAt))
      else Moved(w, d, Dropped)
  }

  predicate Init(w: World) {
    && Outage.Init(w.core) && w.core.mock.pc.value < w.core.nextId
    && w.open == {w.core.mock.pc.value} && w.datagrams == map[]
  }

  predicate AllEnabled(w: World, actions: seq<Action>)
    decreases actions
  {
    actions == [] || (Enabled(w, actions[0]) && AllEnabled(Step(w, actions[0]), actions[1..]))
  }

  function Run(w: World, actions: seq<Action>): World
    requires AllEnabled(w, actions)
    decreases actions
  {
    if actions == [] then w else Run(Step(w, actions[0]), actions[1..])
  }

  predicate Fails(a: Action) {
    a.Core? && a.step.CallFail?
  }

  // ---------------------------------------------------------- no answer to what was read while down

  ghost predicate DatagramSound(w: World, d: nat)
    requires d in w.datagrams
  {
    var datagram := w.datagrams[d];
    && datagram.socket < w.core.nextId
    && datagram.readAt < |w.core.trace| && w.core.trace[datagram.readAt] == ReadFrom(d, datagram.socket)
    && (datagram.phase in {Working, Writing} ==> UpSince(w.core.trace, datagram.readAt))
  }

  /** What was sent was read before, and the mode was up at some time since. */
  ghost predicate SendSound(trace: seq<Event>, m: nat)
    requires m < |trace| && trace[m].SentTo?
  {
    var e := trace[m];
    e.readAt < m && trace[e.readAt] == ReadFrom(e.datagram, e.socket) && UpSince(trace[..m], e.readAt)
  }

  ghost predicate Sound(w: World) {
    && w.core.mock.mode == ModeAt(w.core.trace, |w.core.trace|)
    && (forall s :: s in w.open ==> s < w.core.nextId)
    && (forall d :: d in w.datagrams ==> DatagramSound(w, d))
    && (forall m :: 0 <= m < |w.core.trace| && w.core.trace[m].SentTo? ==> SendSound(w.core.trace, m))
  }

  lemma SendStays(trace: seq<Event>, more: seq<Event>, m: nat)
    requires m < |trace| && trace[m].SentTo? && SendSound(trace, m)
    ensures SendSound(trace + more, m)
  {
    assert (trace + more)[..m] == trace[..m];
  }

  /** A datagram the step did not move stays sound under any longer trace. */
  lemma DatagramStays(w: World, v: World, more: seq<Event>, d: nat)
    requires d in w.datagrams && DatagramSound(w, d) && v.core.trace == w.core.trace + more
    requires d in v.datagrams && v.datagrams[d] == w.datagrams[d] && v.core.nextId >= w.core.nextId
    ensures DatagramSound(v, d)
  {
    hide ModeAt;
    if UpSince(w.core.trace, w.datagrams[d].readAt) { UpSinceStays(w.core.trace, more, w.datagrams[d].readAt); }
  }

  /** A step adds to the trace, and only a write adds an answer, its own. */
  lemma StepTrace(w: World, a: Action)
    requires Enabled(w, a)
    ensures var trace, next := w.core.trace, Step(w, a).core.trace;
            && |trace| <= |next| && next == trace + next[|trace|..]
            && forall m :: |trace| <= m < |next| && next[m].SentTo? ==>
                 && m == |trace| && a.Write? && w.datagrams[a.datagram].socket in w.open
                 && next[m] == SentTo(a.datagram, w.datagrams[a.datagram].socket, w.datagrams[a.datagram].readAt)
  {
    hide Outage.Step, Outage.Enabled;
    if a.Core? { Outage.StepTrace(w.core, a.step); }
  }

  predicate Concerns(a: Action, d: nat) {
    !a.Core? && a.datagram == d
  }

  lemma OthersStay(w: World, a: Action, d: nat)
    requires Enabled(w, a) && !Concerns(a, d)
    ensures d in Step(w, a).datagrams <==> d in w.datagrams
    ensures d in w.datagrams ==> Step(w, a).datagrams[d] == w.datagrams[d]
  {
    hide Outage.Step, Outage.Enabled;
  }

  lemma MovedIsSound(w: World, a: Action, d: nat)
    requires Sound(w) && Enabled(w, a) && Concerns(a, d)
    ensures DatagramSound(Step(w, a), d)
  {
    hide Outage.Step, Outage.Enabled, SendSound, ModeAt;
    if d in w.datagrams {
      assert DatagramSound(w, d);
      if UpSince(w.core.trace, w.datagrams[d].readAt) {
        UpSinceStays(w.core.trace, Step(w, a).core.trace[|w.core.trace|..], w.datagrams[d].readAt);
      }
      assert w.core.mock.mode == Up ==> UpSince(w.core.trace, w.datagrams[d].readAt);
    }
  }

  lemma StepKeepsDatagrams(w: World, a: Action, d: nat)
    requires Sound(w) && Enabled(w, a) && d in Step(w, a).datagrams
    ensures DatagramSound(Step(w, a), d)
  {
    hide Step, Enabled, SendSound;
    if Concerns(a, d) {
      MovedIsSound(w, a, d);
    } else {
      OthersStay(w, a, d);
      StepTrace(w, a);
      IdsGrow(w, a);
      DatagramStays(w, Step(w, a), Step(w, a).core.trace[|w.core.trace|..], d);
    }
  }

  /** Socket identities are never used twice. */
  lemma IdsGrow(w: World, a: Action)
    requires Enabled(w, a)
    ensures Step(w, a).core.nextId >= w.core.nextId
    ensures forall s :: s in Step(w, a).open && s !in w.open ==> w.core.nextId <= s < Step(w, a).core.nextId
  {
  }

  lemma StepKeepsMode(w: World, a: Action)
    requires Sound(w) && Enabled(w, a)
    ensures Step(w, a).core.mock.mode == ModeAt(Step(w, a).core.trace, |Step(w, a).core.trace|)
  {
    if a.Core? {
      Outage.StepKeepsMode(w.core, a.step);
    } else {
      hide Outage.Step, Outage.Enabled, DatagramSound, SendSound;
      var more := Step(w, a).core.trace[|w.core.trace|..];
      assert Step(w, a).core.trace == w.core.trace + more;
      ModeAtStays(w.core.trace, more, |w.core.trace|);
    }
  }

  lemma StepKeepsSends(w: World, a: Action, m: nat)
    requires Sound(w) && Enabled(w, a) && m < |Step(w, a).core.trace| && Step(w, a).core.trace[m].SentTo?
    ensures SendSound(Step(w, a).core.trace, m)
  {
    hide Step, Enabled;
    var trace, next := w.core.trace, Step(w, a).core.trace;
    StepTrace(w, a);
    if m < |trace| {
      SendStays(trace, next[|trace|..], m);
    } else {
      WritesSound(w, a);
      assert next[..m] == trace;
    }
  }

  lemma WritesSound(w: World, a: Action)
    requires Sound(w) && Enabled(w, a) && a.Write?
    ensures a.datagram in w.datagrams && DatagramSound(w, a.datagram) && w.datagrams[a.datagram].phase == Writing
  {
    hide DatagramSound, SendSound;
  }

  lemma StepKeepsSound(w: World, a: Action)
    requires Sound(w) && Enabled(w, a)
    ensures Sound(Step(w, a))
  {
    hide Step, Enabled, DatagramSound, SendSound;
    StepKeepsMode(w, a);
    IdsGrow(w, a);
    forall d | d in Step(w, a).datagrams ensures DatagramSound(Step(w, a), d) { StepKeepsDatagrams(w, a, d); }
    forall m | 0 <= m < |Step(w, a).core.trace| && Step(w, a).core.trace[m].SentTo?
      ensures SendSound(Step(w, a).core.trace, m)
    {
      StepKeepsSends(w, a, m);
    }
  }

  lemma {:induction false} RunKeepsSound(w: World, actions: seq<Action>)
    requires Sound(w) && AllEnabled(w, actions)
    ensures Sound(Run(w, actions))
    decreases actions
  {
    hide Step, Enabled, Sound;
    if actions != [] {
      StepKeepsSound(w, actions[0]);
      RunKeepsSound(Step(w, actions[0]), actions[1..]);
    }
  }

  /**
   In every interleaved run: a datagram read while the mock was down is
   answered only if the mock was brought back between the read and the answer.
   */
  lemma ReadWhileDownNeedsRestore(w: World, actions: seq<Action>, r: nat, m: nat) returns (k: nat)
    requires Init(w) && AllEnabled(w, actions)
    requires r < |Run(w, actions).core.trace| && ModeAt(Run(w, actions).core.trace, r) != Up
    requires var trace := Run(w, actions).core.trace;
             m < |trace| && trace[m].SentTo? && trace[m].readAt == r
    ensures var trace := Run(w, actions).core.trace;
            && r < k < m && trace[k] == ModeSet(Up)
            && trace[r] == ReadFrom(trace[m].datagram, trace[m].socket)
  {
    hide Run, AllEnabled;
    RunKeepsSound(w, actions);
    assert SendSound(Run(w, actions).core.trace, m);
    k := SetUpSinceRead(Run(w, actions).core.trace, r, m);
  }

  // ---------------------------------------------------------- answers, and when they may be late

  lemma RunFirst(w: World, a: Action, rest: seq<Action>)
    requires Enabled(w, a) && AllEnabled(Step(w, a), rest)
    ensures AllEnabled(w, [a] + rest) && Run(w, [a] + rest) == Run(Step(w, a), rest)
  {
    assert ([a] + rest)[1..] == rest;
  }

  lemma RunNone(w: World)
    ensures AllEnabled(w, []) && Run(w, []) == w
  {
  }

  predicate InHand(phase: Phase) {
    phase in {Looking, Working, Writing}
  }

  /** What is left to do with a datagram in hand. */
  function SendSteps(phase: Phase, d: nat): seq<Action>
    requires InHand(phase)
    decreases phase == Looking, phase == Working
  {
    match phase
    case Looking => [Look(d)] + SendSteps(Working, d)
    case Working => [LookAgain(d, true)] + SendSteps(Writing, d)
    case Writing => [Write(d)] + []
  }

  /** A mock that is up answers what it has in hand, if the socket is still open. */
  lemma UpSends(w: World, d: nat)
    requires w.core.mock.mode == Up && d in w.datagrams
    requires InHand(w.datagrams[d].phase) && w.datagrams[d].socket in w.open
    ensures AllEnabled(w, SendSteps(w.datagrams[d].phase, d))
    ensures Run(w, SendSteps(w.datagrams[d].phase, d)).core.trace ==
            w.core.trace + [SentTo(d, w.datagrams[d].socket, w.datagrams[d].readAt)]
    decreases w.datagrams[d].phase == Looking, w.datagrams[d].phase == Working
  {
    hide AllEnabled, Run, Outage.Step, Outage.Enabled;
    match w.datagrams[d].phase
    case Looking =>
      UpSends(Step(w, Look(d)), d);
      RunFirst(w, Look(d), SendSteps(Working, d));
    case Working =>
      UpSends(Step(w, LookAgain(d, true)), d);
      RunFirst(w, LookAgain(d, true), SendSteps(Writing, d));
    case Writing =>
      RunNone(Step(w, Write(d)));
      RunFirst(w, Write(d), []);
  }

  function LateSteps(d: nat, socket: Id): seq<Action> {
    [Core(Outage.CallFail(Blackhole))] + ([Read(d, socket)] + ([Core(Outage.CallRestore)] + SendSteps(Looking, d)))
  }

  /** The restore does happen in between: read while blackholed, looked at once back, and answered. */
  lemma LateAnswer(w: World, d: nat)
    requires Init(w)
    ensures var socket := w.core.mock.pc.value;
            && AllEnabled(w, LateSteps(d, socket))
            && Run(w, LateSteps(d, socket)).core.trace ==
               [ModeSet(Blackhole), ReadFrom(d, socket), ModeSet(Up), SentTo(d, socket, 1)]
  {
    var socket := w.core.mock.pc.value;
    var fail, restore := Core(Outage.CallFail(Blackhole)), Core(Outage.CallRestore);
    var w1 := Step(w, fail);
    var w2 := Step(w1, Read(d, socket));
    var w3 := Step(w2, restore);
    assert w3.core.trace == [ModeSet(Blackhole), ReadFrom(d, socket), ModeSet(Up)];
    hide AllEnabled, Run, Step, SendSteps;
    UpSends(w3, d);
    RunFirst(w2, restore, SendSteps(Looking, d));
    RunFirst(w1, Read(d, socket), [restore] + SendSteps(Looking, d));
    RunFirst(w, fail, [Read(d, socket)] + ([restore] + SendSteps(Looking, d)));
  }

  // ---------------------------------------------------------- exactly when an answer can still come

  ghost predicate AnsweredIn(trace: seq<Event>, d: nat) {
    exists m :: 0 <= m < |trace| && trace[m].SentTo? && trace[m].datagram == d
  }

  /** Some way on from `w` answers `d`. */
  ghost predicate CanBeAnswered(w: World, d: nat) {
    exists more :: AllEnabled(w, more) && AnsweredIn(Run(w, more).core.trace, d)
  }

  /** Bringing the mock back answers what is in hand. */
  lemma RestoreAnswers(w: World, d: nat)
    requires w.core.control == Outage.Idle && d in w.datagrams
    requires InHand(w.datagrams[d].phase) && w.datagrams[d].socket in w.open
    ensures CanBeAnswered(w, d)
  {
    hide AllEnabled, Run, SendSteps;
    var restore, rest := Core(Outage.CallRestore), SendSteps(w.datagrams[d].phase, d);
    var v := Step(w, restore);
    UpSends(v, d);
    RunFirst(w, restore, rest);
    var trace := Run(w, [restore] + rest).core.trace;
    assert trace[|trace| - 1].datagram == d;
  }

  /** Not answered, and out of hand or its socket gone for good. */
  ghost predicate PastAnswering(w: World, d: nat) {
    && d in w.datagrams && !AnsweredIn(w.core.trace, d)
    && (!InHand(w.datagrams[d].phase) || (w.datagrams[d].socket !in w.open && w.datagrams[d].socket < w.core.nextId))
  }

  lemma StepAnswersOthers(w: World, a: Action, d: nat)
    requires Enabled(w, a) && !AnsweredIn(w.core.trace, d)
    requires a == Write(d) ==> w.datagrams[d].socket !in w.open
    ensures !AnsweredIn(Step(w, a).core.trace, d)
  {
    hide Step;
    StepTrace(w, a);
    var trace, next := w.core.trace, Step(w, a).core.trace;
    forall m | 0 <= m < |next| ensures !(next[m].SentTo? && next[m].datagram == d) {
      if m < |trace| { assert next[m] == trace[m]; }
    }
  }

  lemma StepKeepsPast(w: World, a: Action, d: nat)
    requires PastAnswering(w, d) && Enabled(w, a)
    ensures PastAnswering(Step(w, a), d)
  {
    hide AnsweredIn, Outage.Step, Outage.Enabled;
    StepAnswersOthers(w, a, d);
    IdsGrow(w, a);
    if !Concerns(a, d) { OthersStay(w, a, d); }
  }

  lemma {:induction false} RunKeepsPast(w: World, more: seq<Action>, d: nat)
    requires PastAnswering(w, d) && AllEnabled(w, more)
    ensures PastAnswering(Run(w, more), d)
    decreases more
  {
    hide Step, Enabled, PastAnswering;
    if more != [] {
      StepKeepsPast(w, more[0], d);
      RunKeepsPast(Step(w, more[0]), more[1..], d);
    }
  }

  /**
   From every world a run reaches with the controller at rest, up or down: a
   datagram not answered yet is answered on some way on exactly when it is
   still in hand and its socket is open.
   */
  lemma CanBeAnsweredIff(w: World, actions: seq<Action>, d: nat)
    requires Init(w) && AllEnabled(w, actions) && d in Run(w, actions).datagrams
    requires Run(w, actions).core.control == Outage.Idle && !AnsweredIn(Run(w, actions).core.trace, d)
    ensures var v := Run(w, actions);
            CanBeAnswered(v, d) <==> InHand(v.datagrams[d].phase) && v.datagrams[d].socket in v.open
  {
    hide Run, AllEnabled, Sound, InHand, AnsweredIn;
    InitIsSound(w);
    RunKeepsSound(w, actions);
    var v := Run(w, actions);
    SocketsOld(v);
    if InHand(v.datagrams[d].phase) && v.datagrams[d].socket in v.open {
      RestoreAnswers(v, d);
    } else {
      forall more | AllEnabled(v, more) ensures !AnsweredIn(Run(v, more).core.trace, d) {
        RunKeepsPast(v, more, d);
      }
    }
  }

  predicate SetsUp(a: Action) {
    a.Core? && (a.step.CallRestore? || a.step == Outage.CallFail(Up))
  }

  predicate NeverUp(actions: seq<Action>) {
    forall i :: 0 <= i < |actions| ==> !SetsUp(actions[i])
  }

  /** Down, and not past the first look. */
  ghost predicate Unlooked(w: World, d: nat) {
    && w.core.mock.mode != Up && d in w.datagrams && !AnsweredIn(w.core.trace, d)
    && w.datagrams[d].phase !in {Working, Writing}
  }

  lemma StepKeepsUnlooked(w: World, a: Action, d: nat)
    requires Unlooked(w, d) && Enabled(w, a) && !SetsUp(a)
    ensures Unlooked(Step(w, a), d)
  {
    hide AnsweredIn, Outage.Step, Outage.Enabled;
    StepAnswersOthers(w, a, d);
    if a.Core? { Outage.OnlyCallsSetMode(w.core, a.step); }
    if !Concerns(a, d) { OthersStay(w, a, d); }
  }

  /** And never without the mock being brought back, if it was down before the first look. */
  lemma {:induction false} NoAnswerWithoutRestore(w: World, more: seq<Action>, d: nat)
    requires Unlooked(w, d) && AllEnabled(w, more) && NeverUp(more)
    ensures Unlooked(Run(w, more), d) && !AnsweredIn(Run(w, more).core.trace, d)
    decreases more
  {
    if more == [] {
      RunNone(w);
    } else {
      assert !SetsUp(more[0]);
      assert NeverUp(more[1..]) by { assert forall i :: 0 <= i < |more[1..]| ==> more[1..][i] == more[i + 1]; }
      hide Step, Enabled, SetsUp, NeverUp, AnsweredIn;
      StepKeepsUnlooked(w, more[0], d);
      NoAnswerWithoutRestore(Step(w, more[0]), more[1..], d);
    }
  }

  // ---------------------------------------------------------- what the order inside restore is for

  /** Every `fail` finds the mock up, as the outage schedule calls it. */
  predicate AlternatingRun(w: World, actions: seq<Action>)
    requires AllEnabled(w, actions)
    decreases actions
  {
    actions == [] ||
    ((Fails(actions[0]) ==> w.core.mock.mode == Up) && AlternatingRun(Step(w, actions[0]), actions[1..]))
  }

  predicate Refusing(w: Outage.World) {
    w.control in {Outage.HoldingUdp, Outage.HoldingTcp, Outage.Releasing, Outage.Listening}
    || (w.control == Outage.Idle && w.mock.mode == Refused)
  }

  /** The controller's bookkeeping, and no open socket but the mock's own, none while it is refusing. */
  ghost predicate Opened(w: World, addr: Addr) {
    && Outage.Kept(w.core, addr)
    && w.core.mock.pc.Some? && w.open <= {w.core.mock.pc.value}
    && (Refusing(w.core) ==> w.open == {})
  }

  lemma StepKeepsOpened(w: World, a: Action, addr: Addr)
    requires Opened(w, addr) && Enabled(w, a) && (Fails(a) ==> w.core.mock.mode == Up)
    ensures Opened(Step(w, a), addr)
  {
    if a.Core? { Outage.StepKeeps(w.core, a.step, addr); }
  }

  lemma {:induction false} RunKeepsOpened(w: World, actions: seq<Action>, addr: Addr)
    requires Opened(w, addr) && AllEnabled(w, actions) && AlternatingRun(w, actions)
    ensures Opened(Run(w, actions), addr)
    decreases actions
  {
    hide Step, Enabled, Opened, Fails;
    if actions != [] {
      StepKeepsOpened(w, actions[0], addr);
      RunKeepsOpened(Step(w, actions[0]), actions[1..], addr);
    }
  }

  /** In every interleaved alternating run: a refused mock has no socket to read a datagram from, nor to answer one. */
  lemma RefusedMeansClosed(w: World, actions: seq<Action>)
    requires Init(w) && AllEnabled(w, actions) && AlternatingRun(w, actions)
    ensures var v := Run(w, actions).core;
            v.control == Outage.Idle && v.mock.mode == Refused ==> Run(w, actions).open == {}
  {
    hide Run;
    RunKeepsOpened(w, actions, w.core.mock.addr);
  }

  predicate NoFail(actions: seq<Action>) {
    forall i :: 0 <= i < |actions| ==> !Fails(actions[i])
  }

  /** Up, at rest, and nothing that came by `socket` was turned away. */
  ghost predicate Serving(w: World, socket: Id) {
    && w.core.mock.mode == Up && w.core.control == Outage.Idle && socket in w.open
    && forall d :: d in w.datagrams && w.datagrams[d].socket == socket ==> w.datagrams[d].phase != Dropped
  }

  lemma StepKeepsServing(w: World, a: Action, socket: Id)
    requires Serving(w, socket) && Enabled(w, a) && !Fails(a)
    ensures Serving(Step(w, a), socket)
  {
  }

  lemma {:induction false} RunKeepsServing(w: World, actions: seq<Action>, socket: Id)
    requires Serving(w, socket) && AllEnabled(w, actions) && NoFail(actions)
    ensures Serving(Run(w, actions), socket)
    decreases actions
  {
    hide Step, Enabled, Serving, Fails;
    if actions != [] {
      StepKeepsServing(w, actions[0], socket);
      assert forall i :: 0 <= i < |actions[1..]| ==> actions[1..][i] == actions[i + 1];
      RunKeepsServing(Step(w, actions[0]), actions[1..], socket);
    }
  }

  /**
   `restore` sets the mode before it opens the sockets: in every interleaved
   alternating run, no datagram read on the sockets it opened is turned away,
   the first one included, until `fail` is called again.
   */
  lemma NothingDroppedOnceRestored(w: World, actions: seq<Action>, picked: nat, more: seq<Action>)
    requires Init(w) && AllEnabled(w, actions) && AlternatingRun(w, actions)
    requires Run(w, actions).core.control == Outage.Listening
    requires var v := Step(Run(w, actions), Core(Outage.ListenStep(true, true, picked)));
             AllEnabled(v, more) && NoFail(more)
    ensures var socket := Run(w, actions).core.nextId;
            var v := Step(Run(w, actions), Core(Outage.ListenStep(true, true, picked)));
            && v.core.mock.pc == Some(socket) && Run(v, more).core.mock.mode == Up
            && forall d :: d in Run(v, more).datagrams && Run(v, more).datagrams[d].socket == socket ==>
                 Run(v, more).datagrams[d].phase != Dropped
  {
    hide Run, AllEnabled, AlternatingRun, NoFail, Step, Opened, Sound;
    InitIsSound(w);
    RunKeepsOpened(w, actions, w.core.mock.addr);
    RunKeepsSound(w, actions);
    ListenOpens(Run(w, actions), picked, w.core.mock.addr);
    var v := Step(Run(w, actions), Core(Outage.ListenStep(true, true, picked)));
    RunKeepsServing(v, more, Run(w, actions).core.nextId);
  }

  lemma SocketsOld(w: World)
    requires Sound(w)
    ensures forall d :: d in w.datagrams ==> w.datagrams[d].socket < w.core.nextId
  {
    hide SendSound;
    forall d | d in w.datagrams ensures w.datagrams[d].socket < w.core.nextId { assert DatagramSound(w, d); }
  }

  lemma InitIsSound(w: World)
    requires Init(w)
    ensures Sound(w) && Opened(w, w.core.mock.addr)
  {
  }

  lemma ListenOpens(u: World, picked: nat, addr: Addr)
    requires Opened(u, addr) && Sound(u) && u.core.control == Outage.Listening
    ensures Enabled(u, Core(Outage.ListenStep(true, true, picked)))
    ensures var v := Step(u, Core(Outage.ListenStep(true, true, picked)));
            v.core.mock.pc == Some(u.core.nextId) && Serving(v, u.core.nextId)
  {
    SocketsOld(u);
    assert u.core.mock.mode == Up;
    hide Opened, Sound;
  }
}
