/**
 A reader of DNS messages, independent of both codecs: names with compression
 pointers, and the question and record sections a header counts
 (sections 4.1.1 to 4.1.4 of RFC 1035).
 */
module Reader {
  import opened Wrappers
  import opened Bytes
  import opened Names

  const CLASS_IN: u16 := 1

  datatype NameError = NamePast | CompressionPointer | LabelPast

  /** The uncompressed name at `off`, and the offset after it. */
  function PlainName(m: Octets, off: nat): (r: Result<(Labels, nat), NameError>)
    ensures r.Ok? ==> off < r.value.1 <= |m|
    decreases |m| - off
  {
    if off >= |m| then Err(NamePast)
    else if m[off] == 0 then Ok(([], off + 1))
    else if m[off] >= 64 then Err(CompressionPointer)
    else if off + 1 + m[off] > |m| then Err(LabelPast)
    else
      var rest :- PlainName(m, off + 1 + m[off]);
      Ok(([m[off + 1..off + 1 + m[off]]] + rest.0, rest.1))
  }

  /** The name at `off`, following pointers that point strictly before `limit`. */
  function ReadName(m: Octets, off: nat, limit: nat): (r: Option<(Labels, nat)>)
    ensures r.Some? ==> off < r.value.1 <= |m|
    decreases limit, |m| - off
  {
    if off >= |m| then None
    else if m[off] == 0 then Some(([], off + 1))
    else if m[off] >= 0xC0 then
      if off + 2 > |m| then None
      else
        var target := (m[off] as int - 0xC0) * 0x100 + m[off + 1];
        if target >= limit then None
        else var pointed :- ReadName(m, target, target); Some((pointed.0, off + 2))
    else if m[off] >= 64 || off + 1 + m[off] > |m| then None
    else
      var rest :- ReadName(m, off + 1 + m[off], limit);
      Some(([m[off + 1..off + 1 + m[off]]] + rest.0, rest.1))
  }

  datatype Question = Question(name: Labels, qtype: u16, qclass: u16)
  datatype Record = Record(owner: Labels, rtype: u16, rclass: u16, ttl: u32, rdata: Octets)
  datatype Header = Header(id: u16, flags: u16, qdcount: u16, ancount: u16, nscount: u16, arcount: u16)
  datatype Message = Message(
    header: Header,
    questions: seq<Question>,
    answers: seq<Record>,
    authorities: seq<Record>,
    additionals: seq<Record>)

  function ReadHeader(m: Octets): Header
    requires |m| >= 12
  {
    Header(ReadU16(m, 0), ReadU16(m, 2), ReadU16(m, 4), ReadU16(m, 6), ReadU16(m, 8), ReadU16(m, 10))
  }

  function ReadQuestion(m: Octets, off: nat): (r: Option<(Question, nat)>)
    ensures r.Some? ==> off < r.value.1 <= |m|
  {
    var name :- ReadName(m, off, off);
    if name.1 + 4 > |m| then None
    else Some((Question(name.0, ReadU16(m, name.1), ReadU16(m, name.1 + 2)), name.1 + 4))
  }

  function ReadQuestions(m: Octets, off: nat, count: nat): Option<(seq<Question>, nat)>
    decreases count
  {
    if count == 0 then Some(([], off))
    else
      var first :- ReadQuestion(m, off);
      var rest :- ReadQuestions(m, first.1, count - 1);
      Some(([first.0] + rest.0, rest.1))
  }

  function ReadRecord(m: Octets, off: nat): (r: Option<(Record, nat)>)
    ensures r.Some? ==> off < r.value.1 <= |m|
  {
    var name :- ReadName(m, off, off);
    ReadAfterOwner(m, name.1, name.0)
  }

  /** Type, class, TTL, length and RDATA. */
  function ReadAfterOwner(m: Octets, at: nat, owner: Labels): (r: Option<(Record, nat)>)
    ensures r.Some? ==> at < r.value.1 <= |m|
  {
    if at + 10 > |m| then None
    else
      var end := at + 10 + ReadU16(m, at + 8);
      if end > |m| then None
      else Some((Record(owner, ReadU16(m, at), ReadU16(m, at + 2), ReadU32(m, at + 4), m[at + 10..end]), end))
  }

  function ReadRecords(m: Octets, off: nat, count: nat): Option<(seq<Record>, nat)>
    decreases count
  {
    if count == 0 then Some(([], off))
    else
      var first :- ReadRecord(m, off);
      var rest :- ReadRecords(m, first.1, count - 1);
      Some(([first.0] + rest.0, rest.1))
  }

  /** The whole message by its header's counts, and the offset the walk ends at. */
  function ReadMessage(m: Octets): Option<(Message, nat)> {
    if |m| < 12 then None
    else
      var h := ReadHeader(m);
      var qd :- ReadQuestions(m, 12, h.qdcount);
      var an :- ReadRecords(m, qd.1, h.ancount);
      var ns :- ReadRecords(m, an.1, h.nscount);
      var ar :- ReadRecords(m, ns.1, h.arcount);
      Some((Message(h, qd.0, an.0, ns.0, ar.0), ar.1))
  }

  // ---------------------------------------------------------- names

  lemma EncodeNameCons(l: Octets, rest: Labels)
    requires |l| < 0x100
    ensures EncodeName([l] + rest) == [|l|] + (l + EncodeName(rest))
  {
    assert ([l] + rest)[1..] == rest;
  }

  lemma AtLabel(m: Octets, off: nat, l: Octets, tail: Octets)
    requires |l| < 0x100
    ensures At(m, off, [|l|] + (l + tail)) <==>
            At(m, off, [|l|]) && At(m, off + 1, l) && At(m, off + 1 + |l|, tail)
  {
    AtSplit(m, off, [|l|], l + tail);
    AtSplit(m, off + 1, l, tail);
  }

  lemma AtOctet(m: Octets, off: nat, b: byte)
    ensures At(m, off, [b]) <==> off < |m| && m[off] == b
  {
    if off < |m| { assert m[off..off + 1] == [m[off]]; }
  }

  /** One label read, and the name after it. */
  lemma PlainNameStep(m: Octets, off: nat, l: Octets)
    requires ValidLabel(l) && At(m, off, [|l|]) && At(m, off + 1, l)
    ensures PlainName(m, off) ==
            match PlainName(m, off + 1 + |l|)
            case Ok((rest, end)) => Ok(([l] + rest, end))
            case Err(why) => Err(why)
  {
    AtOctet(m, off, |l|);
  }

  lemma RootFinds(m: Octets, off: nat)
    requires At(m, off, EncodeName([]))
    ensures PlainName(m, off) == Ok(([], off + |EncodeName([])|))
  {
    assert EncodeName([]) == [0];
    AtOctet(m, off, 0);
  }

  /** The reader finds every encoded name, whatever surrounds it. */
  lemma {:induction false} PlainNameFinds(m: Octets, off: nat, ls: Labels)
    requires ValidLabels(ls) && At(m, off, EncodeName(ls))
    ensures PlainName(m, off) == Ok((ls, off + |EncodeName(ls)|))
    decreases ls
  {
    hide EncodeName, EncodeLabels, PlainName, At;
    if ls == [] {
      RootFinds(m, off);
    } else {
      var l, rest := ls[0], ls[1..];
      assert ValidLabel(l) && ls == [l] + rest;
      assert ValidLabels(rest) by { assert forall i :: 0 <= i < |rest| ==> rest[i] == ls[i + 1]; }
      EncodeNameCons(l, rest);
      AtLabel(m, off, l, EncodeName(rest));
      PlainNameStep(m, off, l);
      PlainNameFinds(m, off + 1 + |l|, rest);
    }
  }

  /** It finds nothing else: what it reads is encoded there. */
  lemma {:induction false} PlainNameOnly(m: Octets, off: nat)
    requires PlainName(m, off).Ok?
    ensures var (ls, end) := PlainName(m, off).value;
            ValidLabels(ls) && At(m, off, EncodeName(ls)) && end == off + |EncodeName(ls)|
    decreases |m| - off
  {
    var n := m[off];
    AtOctet(m, off, n);
    if n != 0 {
      var l := m[off + 1..off + 1 + n];
      assert ValidLabel(l) && At(m, off + 1, l);
      PlainNameStep(m, off, l);
      assert PlainName(m, off + 1 + n).Ok?;
      hide EncodeName, EncodeLabels, PlainName, At;
      PlainNameOnly(m, off + 1 + n);
      var (rest, end) := PlainName(m, off + 1 + n).value;
      EncodeNameCons(l, rest);
      AtLabel(m, off, l, EncodeName(rest));
    }
  }

  /** Following pointers changes nothing where there are none. */
  lemma {:induction false} ReadPlain(m: Octets, off: nat, limit: nat)
    requires PlainName(m, off).Ok?
    ensures ReadName(m, off, limit) == Some(PlainName(m, off).value)
    decreases |m| - off
  {
    if m[off] != 0 { ReadPlain(m, off + 1 + m[off], limit); }
  }

  lemma ReadNameFinds(m: Octets, off: nat, limit: nat, ls: Labels)
    requires ValidLabels(ls) && At(m, off, EncodeName(ls))
    ensures ReadName(m, off, limit) == Some((ls, off + |EncodeName(ls)|))
  {
    PlainNameFinds(m, off, ls);
    ReadPlain(m, off, limit);
  }

  /** A name's encoding is never a prefix of another's: both the name and what follows are determined. */
  lemma NamePrefixFree(a: Labels, x: Octets, b: Labels, y: Octets)
    requires ValidLabels(a) && ValidLabels(b)
    requires EncodeName(a) + x == EncodeName(b) + y
    ensures a == b && x == y
  {
    var m := EncodeName(a) + x;
    PlainNameFinds(m, 0, a);
    PlainNameFinds(m, 0, b);
    assert x == m[|EncodeName(a)|..] && y == m[|EncodeName(b)|..];
  }

  // ---------------------------------------------------------- records

  function EncodeAfterOwner(r: Record): Octets
    requires |r.rdata| < 0x1_0000
  {
    U16(r.rtype) + U16(r.rclass) + U32(r.ttl) + U16(|r.rdata|) + r.rdata
  }

  function EncodeRecord(r: WireRecord): Octets {
    EncodeName(r.owner) + EncodeAfterOwner(r)
  }

  predicate Encodes(r: Record) {
    ValidLabels(r.owner) && |r.rdata| < 0x1_0000
  }

  /** A record with a name of the protocol and RDATA its length field can count. */
  type WireRecord = r: Record | Encodes(r) witness Record([], 0, 0, 0, [])

  lemma ReadAfterOwnerFinds(m: Octets, at: nat, r: Record)
    requires |r.rdata| < 0x1_0000 && At(m, at, EncodeAfterOwner(r))
    ensures ReadAfterOwner(m, at, r.owner) == Some((r, at + |EncodeAfterOwner(r)|))
  {
    var f1 := U16(r.rtype);
    var f2 := f1 + U16(r.rclass);
    var f3 := f2 + U32(r.ttl);
    var f4 := f3 + U16(|r.rdata|);
    AtSplit(m, at, f4, r.rdata);
    AtSplit(m, at, f3, U16(|r.rdata|));
    AtSplit(m, at, f2, U32(r.ttl));
    AtSplit(m, at, f1, U16(r.rclass));
    AtU16(m, at, r.rtype);
    AtU16(m, at + 2, r.rclass);
    AtU32(m, at + 4, r.ttl);
    AtU16(m, at + 8, |r.rdata|);
  }

  lemma ReadRecordFinds(m: Octets, off: nat, r: WireRecord)
    requires At(m, off, EncodeRecord(r))
    ensures ReadRecord(m, off) == Some((r, off + |EncodeRecord(r)|))
  {
    hide EncodeName, EncodeAfterOwner, ReadAfterOwner, ReadName;
    AtSplit(m, off, EncodeName(r.owner), EncodeAfterOwner(r));
    ReadNameFinds(m, off, off, r.owner);
    ReadAfterOwnerFinds(m, off + |EncodeName(r.owner)|, r);
  }

  function EncodeRecords(rs: seq<WireRecord>): Octets {
    if rs == [] then [] else EncodeRecord(rs[0]) + EncodeRecords(rs[1..])
  }

  lemma {:induction false} ReadRecordsFinds(m: Octets, off: nat, rs: seq<WireRecord>)
    requires At(m, off, EncodeRecords(rs))
    ensures ReadRecords(m, off, |rs|) == Some((rs, off + |EncodeRecords(rs)|))
    decreases rs
  {
    hide ReadRecord, EncodeRecord;
    if rs != [] {
      var first, rest := rs[0], rs[1..];
      assert rs == [first] + rest;
      AtSplit(m, off, EncodeRecord(first), EncodeRecords(rest));
      ReadRecordFinds(m, off, first);
      var mid := off + |EncodeRecord(first)|;
      ReadRecordsFinds(m, mid, rest);
    }
  }

  lemma {:induction false} EncodeRecordsAppend(rs: seq<WireRecord>, r: WireRecord)
    ensures EncodeRecords(rs + [r]) == EncodeRecords(rs) + EncodeRecord(r)
  {
    hide EncodeRecord;
    var e := EncodeRecord(r);
    if rs == [] {
      assert rs + [r] == [r];
      assert EncodeRecords([r]) == e + EncodeRecords([]);
    } else {
      var first, rest := rs[0], rs[1..];
      assert (rs + [r])[0] == first && (rs + [r])[1..] == rest + [r];
      EncodeRecordsAppend(rest, r);
      assert EncodeRecord(first) + (EncodeRecords(rest) + e) == EncodeRecord(first) + EncodeRecords(rest) + e;
    }
  }

  // ---------------------------------------------------------- sections

  lemma HeadFields(m: Octets, a: u16, b: u16, c: u16, d: u16, e: u16, f: u16)
    requires At(m, 0, U16(a) + U16(b) + U16(c) + U16(d) + U16(e) + U16(f))
    ensures |m| >= 12 && ReadHeader(m) == Header(a, b, c, d, e, f)
  {
  }

  /** One question in the question section. */
  lemma OneQuestion(m: Octets, q: Question, end: nat)
    requires ReadQuestion(m, 12) == Some((q, end))
    ensures ReadQuestions(m, 12, 1) == Some(([q], end))
  {
    hide ReadQuestion;
    assert ReadQuestions(m, end, 0) == Some(([], end));
    assert [q] + [] == [q];
  }

  lemma OneRecord(m: Octets, off: nat, r: Record, end: nat)
    requires ReadRecord(m, off) == Some((r, end))
    ensures ReadRecords(m, off, 1) == Some(([r], end))
  {
    hide ReadRecord;
    assert ReadRecords(m, end, 0) == Some(([], end));
    assert [r] + [] == [r];
  }

  lemma NoRecords(m: Octets, off: nat)
    ensures ReadRecords(m, off, 0) == Some(([], off))
  {
  }

  /** A walk put together from the walks of its sections. */
  lemma WalkIs(m: Octets, qs: seq<Question>, o1: nat, an: seq<Record>, o2: nat, ns: seq<Record>, o3: nat,
               ar: seq<Record>, o4: nat)
    requires |m| >= 12 && ReadQuestions(m, 12, ReadHeader(m).qdcount) == Some((qs, o1))
    requires ReadRecords(m, o1, ReadHeader(m).ancount) == Some((an, o2))
    requires ReadRecords(m, o2, ReadHeader(m).nscount) == Some((ns, o3))
    requires ReadRecords(m, o3, ReadHeader(m).arcount) == Some((ar, o4))
    ensures ReadMessage(m) == Some((Message(ReadHeader(m), qs, an, ns, ar), o4))
  {
    hide ReadHeader, ReadQuestions, ReadRecords;
  }

  lemma NoWalk(m: Octets, qs: seq<Question>, o1: nat)
    requires |m| >= 12 && ReadQuestions(m, 12, ReadHeader(m).qdcount) == Some((qs, o1))
    requires ReadRecords(m, o1, ReadHeader(m).ancount) == None
    ensures ReadMessage(m) == None
  {
    hide ReadHeader, ReadQuestions, ReadRecords;
  }

  /** A question at the start of its section: an encoded name, a type and a class. */
  lemma QuestionFinds(m: Octets, labels: Labels, qtype: u16, qclass: u16)
    requires ValidLabels(labels) && At(m, 12, EncodeName(labels))
    requires var off := 12 + |EncodeName(labels)|;
             off + 4 <= |m| && ReadU16(m, off) == qtype && ReadU16(m, off + 2) == qclass
    ensures ReadQuestions(m, 12, 1) == Some(([Question(labels, qtype, qclass)], 12 + |EncodeName(labels)| + 4))
  {
    hide ReadName, EncodeName, ReadU16, ReadQuestions, At, ValidLabels;
    ReadNameFinds(m, 12, 12, labels);
    OneQuestion(m, Question(labels, qtype, qclass), 12 + |EncodeName(labels)| + 4);
  }
}
