/** The mock upstream's answer: as many A records as an arm asks for. */
module MockAnswer {
  import opened Wrappers
  import opened Bytes
  import opened DnsWire

  /** The address of record `i`; the first is record 0. */
  function AddressAt(i: nat): Address {
    [203, 0, 113, 1 + i % 250]
  }

  /** The first `n` records, one after another. */
  function Records(n: nat, ttl: u32): (r: Octets)
    ensures |r| == 16 * n
  {
    if n == 0 then [] else Records(n - 1, ttl) + PointedRecord(AddressAt(n - 1), ttl)
  }

  /** How many records an answer holds: `AnswerA` always writes one. */
  function Present(records: int): nat {
    if records < 1 then 1 else records
  }

  /** `uint16(records)` truncates. */
  function Announced(records: int): u16 {
    records % 0x1_0000
  }

  /** `answer`: records appended one by one, then their count patched in. */
  method Answer(query: array<byte>, records: int, ttl: u32) returns (r: Result<array<byte>, WireError>)
    ensures query[..] == old(query[..])
    ensures QuestionEndOf(query[..]).Err? ==> r == Err(QuestionEndOf(query[..]).error)
    ensures QuestionEndOf(query[..]).Ok? ==>
              r.Ok? && fresh(r.value)
              && r.value[..] == ReplyTo(query[..], Announced(records), Records(Present(records), ttl))
  {
    hide PointedRecord, Records, ReplyHead, QuestionEndOf, ReadU16, PutU16;
    var first :- AnswerA(query, AddressAt(0), ttl);
    var out := first[..];
    ghost var front := ReplyHead(ReadU16(query[..], 0), 1) + query[12..QuestionEndOf(query[..]).value];
    FirstRecord(front, ttl);
    var i := 1;
    while i < records
      invariant 1 <= i && (i <= records || i == 1)
      invariant out == front + Records(i, ttl)
    {
      out := AppendRecord(out, [203, 0, 113, 1 + i % 250], ttl);
      OneMoreRecord(front, i, ttl);
      i := i + 1;
    }
    AnnounceCount(query[..], Announced(records), Records(i, ttl));
    var buf := new byte[|out|](i requires 0 <= i < |out| => out[i]);
    assert buf[..] == out;
    PutUint16(buf, 6, Announced(records));
    return Ok(buf);
  }

  lemma FirstRecord(front: Octets, ttl: u32)
    ensures front + PointedRecord(AddressAt(0), ttl) == front + Records(1, ttl)
  {
    assert Records(1, ttl) == Records(0, ttl) + PointedRecord(AddressAt(0), ttl);
  }

  lemma OneMoreRecord(front: Octets, n: nat, ttl: u32)
    ensures front + Records(n, ttl) + PointedRecord(AddressAt(n), ttl) == front + Records(n + 1, ttl)
  {
    assert Records(n + 1, ttl) == Records(n, ttl) + PointedRecord(AddressAt(n), ttl);
  }

  /** Patching ANCOUNT touches nothing else. */
  lemma AnnounceCount(query: Octets, ancount: u16, records: Octets)
    requires QuestionEndOf(query).Ok?
    ensures PutU16(ReplyTo(query, 1, records), 6, ancount) == ReplyTo(query, ancount, records)
  {
  }
}
