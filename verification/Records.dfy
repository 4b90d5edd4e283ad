/** Resource records of the fixture generator, and how they go on the wire. */
module Records {
  import opened Wrappers
  import opened Bytes
  import opened Names
  import opened Reader

  /** The TTL fixtures carry unless given another, signed and published alike. */
  const TTL: u32 := 3600

  /** One record of a fixture; its RDATA is packed by whoever builds it. */
  datatype RR = RR(name: Octets, rtype: u16, rdata: Octets, ttl: u32)

  /** What `wire_name` asserts and `struct.pack` can hold. */
  predicate Packable(rr: RR) {
    Encodable(rr.name) && |rr.rdata| < 0x1_0000
  }

  /** `RR.wire`: owner, fixed fields, and the RDATA behind its length. */
  function Wire(rr: RR): Octets
    requires Packable(rr)
  {
    WireName(rr.name) + U16(rr.rtype) + U16(CLASS_IN) + U32(rr.ttl) + U16(|rr.rdata|) + rr.rdata
  }

  /** The record a reader of RFC 1035 should see. */
  function AsRead(rr: RR): WireRecord
    requires WellFormed(rr.name) && |rr.rdata| < 0x1_0000
  {
    WireNameOfLabels(rr.name);
    Record(LabelsOf(rr.name), rr.rtype, CLASS_IN, rr.ttl, rr.rdata)
  }

  /** A reader of RFC 1035 sees each field of the record itself, anywhere in a message. */
  lemma WireReads(rr: RR, m: Octets, off: nat)
    requires WellFormed(rr.name) && |rr.rdata| < 0x1_0000 && Packable(rr) && At(m, off, Wire(rr))
    ensures ReadRecord(m, off) ==
            Some((Record(LabelsOf(rr.name), rr.rtype, 1, rr.ttl, rr.rdata), off + |Wire(rr)|))
  {
    hide Wire, At, EncodeRecord, ReadRecord, WellFormed, LabelsOf;
    WireIsEncoding(rr);
    ReadRecordFinds(m, off, AsRead(rr));
  }

  lemma WireIsEncoding(rr: RR)
    requires WellFormed(rr.name) && |rr.rdata| < 0x1_0000
    ensures Packable(rr) && Wire(rr) == EncodeRecord(AsRead(rr))
  {
    WireNameOfLabels(rr.name);
    hide WireName, EncodeName, U16, U32, WellFormed, LabelsOf;
    var name, after := WireName(rr.name), EncodeAfterOwner(AsRead(rr));
    assert Wire(rr) == name + after;
  }
}
