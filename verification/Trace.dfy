/** What happens around a mock upstream, in order, and the mode each moment falls in. */
module Trace {
  import opened MockState

  /** `readAt` is where in the trace the query or datagram answered was read. */
  datatype Event =
    | ModeSet(mode: Mode)
    | Cleared(listener: Id)
    | ReadQuery(conn: nat, listener: Id)
    | Answered(conn: nat, listener: Id, readAt: nat)
    | ReadFrom(datagram: nat, socket: Id)
    | SentTo(datagram: nat, socket: Id, readAt: nat)

  /** The mode after the first `n` events, up to begin with. */
  function ModeAt(trace: seq<Event>, n: nat): Mode
    requires n <= |trace|
  {
    if n == 0 then Up else if trace[n - 1].ModeSet? then trace[n - 1].mode else ModeAt(trace, n - 1)
  }

  lemma {:induction false} ModeAtStays(trace: seq<Event>, more: seq<Event>, n: nat)
    requires n <= |trace|
    ensures ModeAt(trace + more, n) == ModeAt(trace, n)
  {
    if n > 0 { ModeAtStays(trace, more, n - 1); }
  }

  /** The mode was up at some time from event `from` on. */
  ghost predicate UpSince(trace: seq<Event>, from: nat) {
    exists n :: from <= n <= |trace| && ModeAt(trace, n) == Up
  }

  lemma UpSinceStays(trace: seq<Event>, more: seq<Event>, from: nat)
    requires UpSince(trace, from)
    ensures UpSince(trace + more, from)
  {
    var n :| from <= n <= |trace| && ModeAt(trace, n) == Up;
    ModeAtStays(trace, more, n);
  }

  /** Between a time it was down and a time it was up, the mode was set to up. */
  lemma {:induction false} SetUpBetween(trace: seq<Event>, from: nat, end: nat) returns (k: nat)
    requires from <= end <= |trace| && ModeAt(trace, from) != Up && ModeAt(trace, end) == Up
    ensures from <= k < end && trace[k] == ModeSet(Up)
    decreases end
  {
    if trace[end - 1].ModeSet? {
      k := end - 1;
    } else {
      k := SetUpBetween(trace, from, end - 1);
    }
  }

  /** What was read at `r` while down, and was up at some time before event `m`, was set up in between. */
  lemma SetUpSinceRead(trace: seq<Event>, r: nat, m: nat) returns (k: nat)
    requires r < m <= |trace| && !trace[r].ModeSet? && ModeAt(trace, r) != Up && UpSince(trace[..m], r)
    ensures r < k < m && trace[k] == ModeSet(Up)
  {
    var n :| r <= n <= m && ModeAt(trace[..m], n) == Up;
    assert trace == trace[..m] + trace[m..];
    ModeAtStays(trace[..m], trace[m..], n);
    k := SetUpBetween(trace, r, n);
  }
}
