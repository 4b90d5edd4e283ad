/**
 The mock upstream's own state, and the calls that take it down and bring it
 back. Each field update made under the mutex, or on the atomic mode, is one
 function here; the methods of `Mock` are what the calls do when nothing else
 runs, and the `Outage` machine interleaves the same updates.
 */
module MockState {
  import opened Wrappers

  datatype Mode = Up | Blackhole | Refused

  /** Sockets are told apart by identities never used twice. */
  type Id = nat

  /** A host's port; port 0 asks the kernel to pick one. */
  datatype Addr = Addr(host: string, port: nat)

  datatype State = State(mode: Mode, addr: Addr, pc: Option<Id>, ln: Option<Id>, hold: Option<Id>, tcpHold: Option<Id>)

  // ---------------------------------------------------------- atomic updates

  function StoreMode(s: State, mode: Mode): State {
    s.(mode := mode)
  }

  function ReleaseHolds(s: State): State {
    s.(hold := None, tcpHold := None)
  }

  /** `closeSockets`: `pc` stays the closed socket, `ln` becomes nil. */
  function CloseSockets(s: State): State {
    ReleaseHolds(s.(ln := None))
  }

  /** The address a socket bound to `addr` has: the port asked for, or the one picked. */
  function BoundTo(addr: Addr, picked: nat): Addr {
    if addr.port == 0 then addr.(port := picked) else addr
  }

  function Install(s: State, pc: Id, ln: Id, picked: nat): State {
    s.(pc := Some(pc), ln := Some(ln), addr := BoundTo(s.addr, picked))
  }

  // ---------------------------------------------------------- what the kernel answered

  /** Whether the two binds of `fail` succeeded, and with which sockets. */
  datatype Holds = Holds(udp: Option<Id>, tcp: Option<Id>)

  /** Whether the two binds of `listen` succeeded, with which sockets, and the port picked. */
  datatype Binds = Binds(udp: Option<Id>, tcp: Option<Id>, picked: nat)

  // ---------------------------------------------------------- whole calls

  function AfterFail(s: State, mode: Mode, holds: Holds): (State, bool) {
    var s1 := StoreMode(s, mode);
    if mode != Refused then (s1, true)
    else
      var s2 := CloseSockets(s1);
      if holds.udp.None? then (s2, false)
      else
        var s3 := s2.(hold := holds.udp);
        if holds.tcp.None? then (s3, false) else (s3.(tcpHold := holds.tcp), true)
  }

  function AfterListen(s: State, binds: Binds): (State, bool) {
    if binds.udp.None? || binds.tcp.None? then (s, false)
    else (Install(s, binds.udp.value, binds.tcp.value, binds.picked), true)
  }

  function AfterRestore(s: State, binds: Binds): (State, bool) {
    var s1 := StoreMode(s, Up);
    if s.mode != Refused then (s1, true) else AfterListen(ReleaseHolds(s1), binds)
  }

  class Mock {
    var mode: Mode
    var addr: Addr
    var pc: Option<Id>
    var ln: Option<Id>
    var hold: Option<Id>
    var tcpHold: Option<Id>

    function View(): State
      reads this
    {
      State(mode, addr, pc, ln, hold, tcpHold)
    }

    constructor (host: string)
      ensures View() == State(Up, Addr(host, 0), None, None, None, None)
    {
      mode := Up;
      addr := Addr(host, 0);
      pc, ln, hold, tcpHold := None, None, None, None;
    }

    method Listen(binds: Binds) returns (ok: bool)
      modifies this
      ensures (View(), ok) == AfterListen(old(View()), binds)
      ensures ok <==> binds.udp.Some? && binds.tcp.Some?
      ensures mode == old(mode) && hold == old(hold) && tcpHold == old(tcpHold)
      ensures pc == (if ok then binds.udp else old(pc)) && ln == (if ok then binds.tcp else old(ln))
      ensures addr.host == old(addr).host
      ensures addr.port == if ok && old(addr).port == 0 then binds.picked else old(addr).port
    {
      if binds.udp.None? {
        return false;
      }
      if binds.tcp.None? {
        return false;
      }
      pc, ln, addr := binds.udp, binds.tcp, BoundTo(addr, binds.picked);
      return true;
    }

    /** `releaseHolds`: closed or not, both fields end up empty. */
    method ReleaseHeld()
      modifies this
      ensures View() == ReleaseHolds(old(View()))
      ensures hold == None && tcpHold == None
      ensures mode == old(mode) && addr == old(addr) && pc == old(pc) && ln == old(ln)
    {
      if hold != None { hold := None; }
      if tcpHold != None { tcpHold := None; }
    }

    method Close()
      modifies this
      ensures View() == CloseSockets(old(View()))
      ensures ln == None && hold == None && tcpHold == None
      ensures mode == old(mode) && addr == old(addr) && pc == old(pc)
    {
      if ln != None { ln := None; }
      ReleaseHeld();
    }

    method Fail(mode: Mode, holds: Holds) returns (ok: bool)
      modifies this
      ensures (View(), ok) == AfterFail(old(View()), mode, holds)
      ensures this.mode == mode && pc == old(pc) && addr == old(addr)
      ensures mode != Refused ==> ok && ln == old(ln) && hold == old(hold) && tcpHold == old(tcpHold)
      ensures mode == Refused ==>
                && (ok <==> holds.udp.Some? && holds.tcp.Some?)
                && ln == None && hold == holds.udp && tcpHold == if holds.udp.Some? then holds.tcp else None
    {
      this.mode := mode;
      if mode != Refused {
        return true;
      }
      Close();
      if holds.udp.None? {
        return false;
      }
      hold := holds.udp;
      if holds.tcp.None? {
        return false;
      }
      tcpHold := holds.tcp;
      return true;
    }

    method Restore(binds: Binds) returns (ok: bool)
      modifies this
      ensures (View(), ok) == AfterRestore(old(View()), binds)
      ensures mode == Up && addr.host == old(addr).host
      ensures old(mode) != Refused ==>
                && ok && pc == old(pc) && ln == old(ln) && addr == old(addr)
                && hold == old(hold) && tcpHold == old(tcpHold)
      ensures old(mode) == Refused ==>
                && (ok <==> binds.udp.Some? && binds.tcp.Some?) && hold == None && tcpHold == None
                && pc == (if ok then binds.udp else old(pc)) && ln == (if ok then binds.tcp else old(ln))
                && addr.port == if ok && old(addr).port == 0 then binds.picked else old(addr).port
    {
      var refused := mode == Refused;
      mode := Up;
      if !refused {
        return true;
      }
      ReleaseHeld();
      ok := Listen(binds);
    }
  }

  // ---------------------------------------------------------- what the calls leave

  predicate HoldsNothing(s: State) {
    s.hold.None? && s.tcpHold.None?
  }

  predicate HoldsBoth(s: State) {
    s.hold.Some? && s.tcpHold.Some? && s.ln.None?
  }

  /** Any number of calls, in any order, each with what the kernel answered. */
  datatype Call = Fail(mode: Mode, holds: Holds) | Restore(binds: Binds)

  function AfterCall(s: State, c: Call): (State, bool) {
    match c
    case Fail(mode, holds) => AfterFail(s, mode, holds)
    case Restore(binds) => AfterRestore(s, binds)
  }

  function AfterCalls(s: State, calls: seq<Call>): State
    decreases calls
  {
    if calls == [] then s else AfterCalls(AfterCall(s, calls[0]).0, calls[1..])
  }

  /** Every `fail` finds the mock up, as the outage schedule calls it. */
  predicate Alternating(s: State, calls: seq<Call>)
    decreases calls
  {
    calls == [] || ((calls[0].Fail? ==> s.mode == Up) && Alternating(AfterCall(s, calls[0]).0, calls[1..]))
  }

  /** A refused mock that comes back leaves no hold: the port is its own again. */
  lemma {:induction false} AlternatingCallsLeaveNoHold(s: State, calls: seq<Call>)
    requires Alternating(s, calls) && (s.mode != Refused ==> HoldsNothing(s))
    ensures AfterCalls(s, calls).mode != Refused ==> HoldsNothing(AfterCalls(s, calls))
    decreases calls
  {
    if calls != [] {
      AlternatingCallsLeaveNoHold(AfterCall(s, calls[0]).0, calls[1..]);
    }
  }

  /** A mock just made takes the port the kernel picks, and both sockets, as soon as both binds succeed. */
  lemma {:induction false} FirstListenPicksThePort(host: string, attempts: seq<Binds>, binds: Binds)
    requires forall i :: 0 <= i < |attempts| ==> attempts[i].udp.None? || attempts[i].tcp.None?
    requires binds.udp.Some? && binds.tcp.Some?
    ensures AfterListens(State(Up, Addr(host, 0), None, None, None, None), attempts + [binds]) ==
            State(Up, Addr(host, binds.picked), binds.udp, binds.tcp, None, None)
  {
    var s := State(Up, Addr(host, 0), None, None, None, None);
    if attempts == [] {
      assert AfterListens(s, [binds]) == AfterListens(AfterListen(s, binds).0, [binds][1..]);
    } else {
      assert (attempts + [binds])[0] == attempts[0] && (attempts + [binds])[1..] == attempts[1..] + [binds];
      FirstListenPicksThePort(host, attempts[1..], binds);
    }
  }

  /** The tries of `startMock`, one after another. */
  function AfterListens(s: State, attempts: seq<Binds>): State
    decreases attempts
  {
    if attempts == [] then s else AfterListens(AfterListen(s, attempts[0]).0, attempts[1..])
  }

  /** The port, once picked, is the mock's for good. */
  lemma {:induction false} AddressIsKept(s: State, calls: seq<Call>)
    requires s.addr.port != 0
    ensures AfterCalls(s, calls).addr == s.addr
    decreases calls
  {
    if calls != [] {
      AddressIsKept(AfterCall(s, calls[0]).0, calls[1..]);
    }
  }

  /**
   A successful `restore` leaves no hold exactly when it found the mock refused
   or holding nothing, and a listener exactly when it found it refused or
   listening: it looks at the mode, not at the sockets.
   */
  lemma RestoreReleasesIff(s: State, binds: Binds)
    requires AfterRestore(s, binds).1
    ensures HoldsNothing(AfterRestore(s, binds).0) <==> s.mode == Refused || HoldsNothing(s)
    ensures AfterRestore(s, binds).0.ln.Some? <==> s.mode == Refused || s.ln.Some?
  {
  }

  /** So a refused mock told to blackhole keeps its ports held, and stays without sockets, after `restore`. */
  lemma BlackholingARefusedMockStrandsIt(addr: Addr, pc: Id, ln: Id, udp: Id, tcp: Id, binds: Binds)
    ensures var s := State(Up, addr, Some(pc), Some(ln), None, None);
            var refuse, blackhole := Fail(Refused, Holds(Some(udp), Some(tcp))), Fail(Blackhole, Holds(None, None));
            var end := AfterCalls(s, [refuse, blackhole, Restore(binds)]);
            end.mode == Up && HoldsBoth(end)
  {
    var s := State(Up, addr, Some(pc), Some(ln), None, None);
    var c1, c2, c3 := Fail(Refused, Holds(Some(udp), Some(tcp))), Fail(Blackhole, Holds(None, None)), Restore(binds);
    var s1 := AfterCall(s, c1).0;
    var s2 := AfterCall(s1, c2).0;
    assert [c1, c2, c3][1..] == [c2, c3] && [c2, c3][1..] == [c3] && [c3][1..] == [];
    assert AfterCalls(s2, [c3]) == AfterCalls(AfterCall(s2, c3).0, []);
    assert AfterCalls(s1, [c2, c3]) == AfterCalls(s2, [c3]);
  }
}
