/** Whole fixture replies, as `message` packs them, and what readers make of them. */
module FixtureMessage {
  import opened Wrappers
  import opened Bytes
  import opened Names
  import opened Reader
  import opened Records
  import DnsWire

  const QID: u16 := 0x1234
  const FLAGS: nat := 0x8580

  /** The arguments of `message`. */
  datatype Reply = Reply(
    qname: Octets,
    qtype: u16,
    answer: seq<RR>,
    authority: seq<RR>,
    additional: seq<RR>,
    rcode: u16)

  predicate AllPackable(rrs: seq<RR>) {
    |rrs| < 0x1_0000 && forall i :: 0 <= i < |rrs| ==> Packable(rrs[i])
  }

  /** What packing needs: names of encodable labels, counts and lengths that fit 16 bits. */
  predicate Sendable(r: Reply) {
    && Encodable(r.qname)
    && AllPackable(r.answer) && AllPackable(r.authority) && AllPackable(r.additional)
    && BitOr(FLAGS, r.rcode) < 0x1_0000
  }

  function Section(rrs: seq<RR>): Octets
    requires forall i :: 0 <= i < |rrs| ==> Packable(rrs[i])
  {
    if rrs == [] then []
    else
      var n := |rrs| - 1;
      Section(rrs[..n]) + Wire(rrs[n])
  }

  function HeadWire(flags: u16, an: u16, ns: u16, ar: u16): Octets {
    U16(QID) + U16(flags) + U16(1) + U16(an) + U16(ns) + U16(ar)
  }

  function MessageWire(r: Reply): Octets
    requires Sendable(r)
  {
    HeadWire(BitOr(FLAGS, r.rcode), |r.answer|, |r.authority|, |r.additional|)
    + WireName(r.qname) + U16(r.qtype) + U16(CLASS_IN)
    + Section(r.answer) + Section(r.authority) + Section(r.additional)
  }

  /** The record loop over one section. */
  method AppendSection(out: Octets, rrs: seq<RR>) returns (more: Octets)
    requires forall i :: 0 <= i < |rrs| ==> Packable(rrs[i])
    ensures more == out + Section(rrs)
  {
    hide Wire;
    more := out;
    for i := 0 to |rrs|
      invariant more == out + Section(rrs[..i])
    {
      assert rrs[..i + 1][..i] == rrs[..i];
      more := more + Wire(rrs[i]);
    }
    assert rrs[..|rrs|] == rrs;
  }

  /** `message` */
  method Build(r: Reply) returns (out: Octets)
    requires Sendable(r)
    ensures out == MessageWire(r)
  {
    hide WireName, U16, Encodable;
    out := HeadWire(BitOr(FLAGS, r.rcode), |r.answer|, |r.authority|, |r.additional|);
    var qname := EncodeWireName(r.qname);
    out := out + qname + U16(r.qtype) + U16(CLASS_IN);
    out := AppendSection(out, r.answer);
    out := AppendSection(out, r.authority);
    out := AppendSection(out, r.additional);
  }

  // ---------------------------------------------------------- what a reader sees

  predicate AllWellFormed(rrs: seq<RR>) {
    |rrs| < 0x1_0000 && forall i :: 0 <= i < |rrs| ==> WellFormed(rrs[i].name) && |rrs[i].rdata| < 0x1_0000
  }

  /** A reply over names without an empty label inside, with a 4-bit rcode. */
  predicate Lawful(r: Reply) {
    && WellFormed(r.qname) && r.rcode < 0x10
    && AllWellFormed(r.answer) && AllWellFormed(r.authority) && AllWellFormed(r.additional)
  }

  function AsReadAll(rrs: seq<RR>): (r: seq<WireRecord>)
    requires AllWellFormed(rrs)
    ensures |r| == |rrs|
  {
    seq(|rrs|, i requires 0 <= i < |rrs| => AsRead(rrs[i]))
  }

  lemma WellFormedPacks(rrs: seq<RR>)
    requires AllWellFormed(rrs)
    ensures AllPackable(rrs)
  {
    hide Packable, WellFormed;
    forall i | 0 <= i < |rrs| ensures Packable(rrs[i]) { WireIsEncoding(rrs[i]); }
  }

  lemma ReadAllGrows(rrs: seq<RR>)
    requires AllWellFormed(rrs) && rrs != []
    ensures var n := |rrs| - 1;
            AllWellFormed(rrs[..n]) && AsReadAll(rrs) == AsReadAll(rrs[..n]) + [AsRead(rrs[n])]
  {
    hide WellFormed, AsRead;
  }

  lemma {:induction false} SectionIsRecords(rrs: seq<RR>)
    requires AllWellFormed(rrs)
    ensures AllPackable(rrs) && Section(rrs) == EncodeRecords(AsReadAll(rrs))
  {
    WellFormedPacks(rrs);
    if rrs != [] {
      hide Wire, EncodeRecord, EncodeRecords, AsRead, AsReadAll, Packable, WellFormed;
      var n := |rrs| - 1;
      ReadAllGrows(rrs);
      SectionIsRecords(rrs[..n]);
      WireIsEncoding(rrs[n]);
      EncodeRecordsAppend(AsReadAll(rrs[..n]), AsRead(rrs[n]));
    }
  }

  /** FLAGS has its low four bits clear, so a 4-bit rcode is added. */
  lemma FlagsAndRcode(rcode: u16)
    requires rcode < 0x10
    ensures BitOr(FLAGS, rcode) == FLAGS + rcode
  {
    assert Pow2(4) == 0x10;
    OrLowBits(0x858, rcode, 4);
  }

  lemma LawfulIsSendable(r: Reply)
    requires Lawful(r)
    ensures Sendable(r)
  {
    WireNameOfLabels(r.qname);
    SectionIsRecords(r.answer);
    SectionIsRecords(r.authority);
    SectionIsRecords(r.additional);
    FlagsAndRcode(r.rcode);
  }

  /** Where each part of the message lies. */
  lemma MessageParts(r: Reply)
    requires Lawful(r)
    ensures Sendable(r)
    ensures var m := MessageWire(r);
            var name := EncodeName(LabelsOf(r.qname));
            var an := EncodeRecords(AsReadAll(r.answer));
            var ns := EncodeRecords(AsReadAll(r.authority));
            var ar := EncodeRecords(AsReadAll(r.additional));
            var off := 12 + |name| + 4;
            && At(m, 0, HeadWire(FLAGS + r.rcode, |r.answer|, |r.authority|, |r.additional|))
            && At(m, 12, name) && At(m, 12 + |name|, U16(r.qtype)) && At(m, 12 + |name| + 2, U16(CLASS_IN))
            && At(m, off, an) && At(m, off + |an|, ns) && At(m, off + |an| + |ns|, ar)
            && |m| == off + |an| + |ns| + |ar|
  {
    hide WireName, EncodeName, AsReadAll, Section, EncodeRecords, Sendable, LabelsOf, At, U16, BitOr, AllPackable;
    LawfulIsSendable(r);
    FlagsAndRcode(r.rcode);
    WireNameOfLabels(r.qname);
    SectionIsRecords(r.answer);
    SectionIsRecords(r.authority);
    SectionIsRecords(r.additional);
    var m := MessageWire(r);
    var name := EncodeName(LabelsOf(r.qname));
    var an, ns, ar := Section(r.answer), Section(r.authority), Section(r.additional);
    var p1 := HeadWire(FLAGS + r.rcode, |r.answer|, |r.authority|, |r.additional|);
    var p2 := p1 + name;
    var p3 := p2 + U16(r.qtype);
    var p4 := p3 + U16(CLASS_IN);
    var p5 := p4 + an;
    var p6 := p5 + ns;
    assert m == p6 + ar;
    AtWhole(m);
    HeadIs12(FLAGS + r.rcode, |r.answer|, |r.authority|, |r.additional|);
    AtSplit(m, 0, p6, ar);
    AtSplit(m, 0, p5, ns);
    AtSplit(m, 0, p4, an);
    AtSplit(m, 0, p3, U16(CLASS_IN));
    AtSplit(m, 0, p2, U16(r.qtype));
    AtSplit(m, 0, p1, name);
  }

  lemma HeadIs12(flags: u16, an: u16, ns: u16, ar: u16)
    ensures |HeadWire(flags, an, ns, ar)| == 12
  {
  }

  /** The records a reader saw are those given, field by field. */
  predicate Matches(seen: seq<Record>, rrs: seq<RR>) {
    |seen| == |rrs| && forall i :: 0 <= i < |rrs| ==>
      seen[i] == Record(LabelsOf(rrs[i].name), rrs[i].rtype, 1, rrs[i].ttl, rrs[i].rdata)
  }

  lemma ReadAllMatch(rrs: seq<RR>)
    requires AllWellFormed(rrs)
    ensures Matches(AsReadAll(rrs), rrs)
  {
    hide LabelsOf, WellFormed;
  }

  /**
   Walking a fixture reply by its header's counts recovers the question and
   all three sections exactly, and ends at the last octet.
   */
  lemma MessageReads(r: Reply)
    requires Lawful(r)
    ensures Sendable(r)
    ensures var m := MessageWire(r);
            && ReadMessage(m).Some? && ReadMessage(m).value.1 == |m|
            && var message := ReadMessage(m).value.0;
               && message.header == Header(0x1234, 0x8580 + r.rcode, 1, |r.answer|, |r.authority|, |r.additional|)
               && message.questions == [Question(LabelsOf(r.qname), r.qtype, 1)]
               && Matches(message.answers, r.answer) && Matches(message.authorities, r.authority)
               && Matches(message.additionals, r.additional)
  {
    hide MessageWire, EncodeName, EncodeRecords, ReadRecords, ReadQuestions, ReadHeader, ReadMessage, AsReadAll,
         Sendable, LabelsOf, BitOr, At, ReadU16, Matches;
    ReadAllMatch(r.answer);
    ReadAllMatch(r.authority);
    ReadAllMatch(r.additional);
    MessageParts(r);
    var m := MessageWire(r);
    var labels := LabelsOf(r.qname);
    HeadFields(m, QID, FLAGS + r.rcode, 1, |r.answer|, |r.authority|, |r.additional|);
    WireNameOfLabels(r.qname);
    var at := 12 + |EncodeName(labels)|;
    AtU16(m, at, r.qtype);
    AtU16(m, at + 2, CLASS_IN);
    QuestionFinds(m, labels, r.qtype, CLASS_IN);
    var an, ns, ar := AsReadAll(r.answer), AsReadAll(r.authority), AsReadAll(r.additional);
    var o1 := at + 4;
    var o2 := o1 + |EncodeRecords(an)|;
    var o3 := o2 + |EncodeRecords(ns)|;
    ReadRecordsFinds(m, o1, an);
    ReadRecordsFinds(m, o2, ns);
    ReadRecordsFinds(m, o3, ar);
    WalkIs(m, [Question(labels, r.qtype, CLASS_IN)], o1, an, o2, ns, o3, ar, |m|);
  }

  /** The benchmark's own parser reads the same reply: id, rcode and answer count, TC and AD clear. */
  lemma ParseReplyReads(r: Reply)
    requires Lawful(r)
    ensures Sendable(r)
    ensures DnsWire.ParseReply(MessageWire(r)) == Ok(DnsWire.Reply(0x1234, r.rcode, |r.answer|, false, false))
  {
    hide MessageWire, EncodeRecords, AsReadAll, Sendable, LabelsOf, BitOr;
    MessageParts(r);
    HeadFields(MessageWire(r), QID, FLAGS + r.rcode, 1, |r.answer|, |r.authority|, |r.additional|);
    FlagBits(r.rcode);
  }

  lemma FlagBits(rcode: nat)
    requires rcode < 0x10
    ensures var flags := FLAGS + rcode;
            flags / 0x8000 % 2 == 1 && flags % 0x10 == rcode && flags / 0x200 % 2 == 0 && flags / 0x20 % 2 == 0
  {
  }
}
