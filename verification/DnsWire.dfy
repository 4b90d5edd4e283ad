/**
 The benchmark's own DNS codec: queries, the question a message asks, replies,
 and the two answers the mock upstreams give.
 */
module DnsWire {
  import opened Wrappers
  import opened Bytes
  import opened Names
  import opened Reader

  const TYPE_A: u16 := 1
  const TYPE_OPT: u16 := 41

  // ---------------------------------------------------------- names

  /** `strings.TrimSuffix(name, ".")`: one dot, not all of them. */
  function TrimDot(name: Octets): Octets {
    if name != [] && name[|name| - 1] == DOT then name[..|name| - 1] else name
  }

  function NameLabels(name: Octets): Labels {
    if TrimDot(name) == [] then [] else Split(TrimDot(name))
  }

  method AppendName(buf: Octets, name: Octets) returns (out: Octets)
    ensures out == buf + EncodeName(NameLabels(name))
  {
    out := buf;
    var trimmed := TrimDot(name);
    if trimmed != [] {
      var labels := Split(trimmed);
      for i := 0 to |labels|
        invariant out == buf + EncodeLabels(labels[..i])
      {
        EncodeOneMore(labels, i);
        out := out + [|labels[i]| % 0x100];
        out := out + labels[i];
      }
      assert labels[..|labels|] == labels;
    }
    out := out + [0];
  }

  /** A dotted name and the labels it means: what `appendName` is asked to encode. */
  predicate Spells(name: Octets, labels: Labels) {
    && ValidLabels(labels) && AllDotFree(labels)
    && (name == Join(labels) || name == Join(labels) + [DOT])
  }

  lemma SpelledLabels(name: Octets, labels: Labels)
    requires Spells(name, labels)
    ensures NameLabels(name) == labels
  {
    if labels != [] {
      assert ValidLabel(labels[|labels| - 1]);
      JoinEndsInLabel(labels);
      SplitJoin(labels);
      assert (Join(labels) + [DOT])[..|Join(labels)|] == Join(labels);
    }
  }

  /** One final dot is dropped and no more: `..` is two empty labels here, and one to `wire_name`. */
  lemma TwoDots()
    ensures NameLabels([DOT, DOT]) == [[], []] && EncodeName(NameLabels([DOT, DOT])) == [0, 0, 0]
    ensures WireName([DOT, DOT]) == [0, 0]
  {
    assert TrimDot([DOT, DOT]) == [DOT];
    assert Split([DOT]) == [[]] + Split([DOT][1..]) && Split([]) == [[]];
    assert StripDots([DOT, DOT][..1]) == StripDots([DOT][..0]) == [];
    assert EncodeLabels([[], []]) == [0] + [] + EncodeLabels([[]]) && EncodeLabels([[]]) == [0] + [] + EncodeLabels([]);
  }

  // ---------------------------------------------------------- queries

  /** The EDNS0 record a query of a payload size carries (section 6.1.2 of RFC 6891). */
  function OptRecord(udpSize: u16, do: bool): WireRecord {
    Record([], TYPE_OPT, udpSize, if do then 0x8000 else 0, [])
  }

  function QueryHead(id: u16, udpSize: u16): Octets {
    U16(id) + U16(0x0100) + U16(1) + U16(0) + U16(0) + U16(if udpSize > 0 then 1 else 0)
  }

  function QueryWire(id: u16, name: Octets, qtype: u16, udpSize: u16, do: bool): Octets {
    QueryHead(id, udpSize) + EncodeName(NameLabels(name)) + U16(qtype) + U16(CLASS_IN)
    + if udpSize > 0 then EncodeRecord(OptRecord(udpSize, do)) else []
  }

  lemma OptWire(udpSize: u16, do: bool)
    ensures EncodeRecord(OptRecord(udpSize, do)) ==
            [0] + U16(TYPE_OPT) + U16(udpSize) + [0, 0] + U16(if do then 0x8000 else 0) + U16(0)
  {
    assert EncodeName([]) == [0];
    assert U32(if do then 0x8000 else 0) == [0, 0] + U16(if do then 0x8000 else 0);
  }

  method AppendOpt(buf: Octets, udpSize: u16, do: bool) returns (out: Octets)
    ensures out == buf + EncodeRecord(OptRecord(udpSize, do))
  {
    hide U16, EncodeRecord;
    var opt: Octets := [0];
    opt := opt + U16(TYPE_OPT);
    opt := opt + U16(udpSize);
    var flags: u16 := 0;
    if do {
      flags := 0x8000;
    }
    opt := opt + [0, 0];
    opt := opt + U16(flags);
    opt := opt + U16(0);
    OptWire(udpSize, do);
    out := buf + opt;
  }

  method Query(id: u16, name: Octets, qtype: u16, udpSize: u16, do: bool) returns (buf: Octets)
    ensures buf == QueryWire(id, name, qtype, udpSize, do)
  {
    hide U16, EncodeRecord, EncodeName, NameLabels;
    buf := U16(id);
    buf := buf + U16(0x0100); // RD
    buf := buf + U16(1);
    buf := buf + U16(0);
    buf := buf + U16(0);
    var arcount: u16 := 0;
    if udpSize > 0 {
      arcount := 1;
    }
    buf := buf + U16(arcount);
    buf := AppendName(buf, name);
    buf := buf + U16(qtype);
    buf := buf + U16(CLASS_IN);
    if udpSize > 0 {
      buf := AppendOpt(buf, udpSize, do);
    } else {
      assert buf + [] == buf;
    }
  }

  // ---------------------------------------------------------- the question

  datatype WireError = Short | BadName(why: NameError) | Truncated

  function TextOf(labels: Labels): Octets {
    if labels == [] then [] else labels[0] + [DOT] + TextOf(labels[1..])
  }

  /** The name and type a message asks about, by the grammar of its question. */
  function QuestionOf(msg: Octets): Result<(Octets, u16), WireError> {
    if |msg| < 12 then Err(Short)
    else match PlainName(msg, 12)
      case Err(why) => Err(BadName(why))
      case Ok((labels, off)) =>
        if off + 4 > |msg| then Err(Truncated) else Ok((TextOf(labels), ReadU16(msg, off)))
  }

  /** Where the question ends. A label cut short is seen as a name that runs on. */
  function QuestionEndOf(msg: Octets): (r: Result<nat, WireError>)
    ensures r.Ok? ==> 17 <= r.value <= |msg|
  {
    if |msg| < 12 then Err(Short)
    else match PlainName(msg, 12)
      case Err(LabelPast) => Err(BadName(NamePast))
      case Err(why) => Err(BadName(why))
      case Ok((labels, off)) => if off + 4 > |msg| then Err(Truncated) else Ok(off + 4)
  }

  /** A name read so far, put before what follows it. */
  function After(labels: Labels, rest: Result<(Labels, nat), NameError>): Result<(Labels, nat), NameError> {
    match rest
    case Err(why) => Err(why)
    case Ok((more, end)) => Ok((labels + more, end))
  }

  lemma AfterNothing(r: Result<(Labels, nat), NameError>)
    ensures After([], r) == r
  {
    if r.Ok? { assert [] + r.value.0 == r.value.0; }
  }

  lemma AfterLabel(msg: Octets, off: nat, labels: Labels)
    requires off < |msg| && 0 < msg[off] < 64 && off + 1 + msg[off] <= |msg|
    ensures var l := msg[off + 1..off + 1 + msg[off]];
            After(labels, PlainName(msg, off)) == After(labels + [l], PlainName(msg, off + 1 + msg[off]))
  {
    var l := msg[off + 1..off + 1 + msg[off]];
    match PlainName(msg, off + 1 + msg[off])
    case Err(_) =>
    case Ok((more, end)) => assert labels + ([l] + more) == labels + [l] + more;
  }

  lemma PlainNameAt(msg: Octets, off: nat)
    ensures off >= |msg| ==> PlainName(msg, off) == Err(NamePast)
    ensures off < |msg| && msg[off] == 0 ==> PlainName(msg, off) == Ok(([], off + 1))
    ensures off < |msg| && msg[off] >= 64 ==> PlainName(msg, off) == Err(CompressionPointer)
    ensures off < |msg| && 0 < msg[off] < 64 && off + 1 + msg[off] > |msg| ==> PlainName(msg, off) == Err(LabelPast)
  {
  }

  lemma TextCons(l: Octets, rest: Labels)
    ensures TextOf([l] + rest) == l + [DOT] + TextOf(rest)
  {
    assert ([l] + rest)[1..] == rest;
  }

  lemma {:induction false} TextAppend(labels: Labels, l: Octets)
    ensures TextOf(labels + [l]) == TextOf(labels) + l + [DOT]
  {
    if labels == [] {
      assert labels + [l] == [l] + [];
      TextCons(l, []);
      assert TextOf([]) == [] && l + [DOT] + [] == [] + l + [DOT];
    } else {
      hide TextOf;
      var first, rest := labels[0], labels[1..];
      assert labels == [first] + rest && labels + [l] == [first] + (rest + [l]);
      TextCons(first, rest);
      TextCons(first, rest + [l]);
      TextAppend(rest, l);
    }
  }

  /** `Question`, which checks each piece's bound in its loop. */
  method Question(msg: Octets) returns (r: Result<(Octets, u16), WireError>)
    ensures r == QuestionOf(msg)
  {
    if |msg| < 12 {
      return Err(Short);
    }
    var off := 12;
    var text: Octets := [];
    ghost var labels: Labels := [];
    AfterNothing(PlainName(msg, 12));
    assert text == TextOf(labels);
    hide PlainName, TextOf;
    while true
      invariant 12 <= off <= |msg|
      invariant PlainName(msg, 12) == After(labels, PlainName(msg, off))
      invariant text == TextOf(labels)
      decreases |msg| - off
    {
      PlainNameAt(msg, off);
      if off >= |msg| {
        return Err(BadName(NamePast));
      }
      var n := msg[off];
      if n == 0 {
        off := off + 1;
        break;
      }
      if n >= 64 {
        return Err(BadName(CompressionPointer));
      }
      if off + 1 + n > |msg| {
        return Err(BadName(LabelPast));
      }
      var piece := msg[off + 1..off + 1 + n];
      AfterLabel(msg, off, labels);
      TextAppend(labels, piece);
      labels := labels + [piece];
      text := text + piece;
      text := text + [DOT];
      off := off + 1 + n;
    }
    assert labels + [] == labels;
    if off + 4 > |msg| {
      return Err(Truncated);
    }
    return Ok((text, ReadU16(msg, off)));
  }

  /** Where a name read ends, whatever its labels. */
  function EndOf(name: Result<(Labels, nat), NameError>): Result<nat, NameError> {
    match name
    case Err(why) => Err(why)
    case Ok((_, end)) => Ok(end)
  }

  lemma EndAfterLabel(msg: Octets, off: nat)
    requires off < |msg| && 0 < msg[off] < 64 && off + 1 + msg[off] <= |msg|
    ensures EndOf(PlainName(msg, off)) == EndOf(PlainName(msg, off + 1 + msg[off]))
  {
  }

  /** `questionEnd`, which steps over labels unchecked and only then looks where it is. */
  method QuestionEnd(msg: Octets) returns (r: Result<nat, WireError>)
    ensures r == QuestionEndOf(msg)
  {
    if |msg| < 12 {
      return Err(Short);
    }
    var off := 12;
    ghost var end := EndOf(PlainName(msg, 12));
    hide PlainName;
    while true
      invariant 12 <= off
      invariant off <= |msg| ==> end == EndOf(PlainName(msg, off))
      invariant off > |msg| ==> end == Err(LabelPast)
      decreases |msg| - off
    {
      PlainNameAt(msg, off);
      if off >= |msg| {
        return Err(BadName(NamePast));
      }
      var n := msg[off];
      off := off + 1;
      if n == 0 {
        break;
      }
      if n >= 64 {
        return Err(BadName(CompressionPointer));
      }
      if off + n <= |msg| { EndAfterLabel(msg, off - 1); }
      off := off + n;
    }
    off := off + 4;
    if off > |msg| {
      return Err(Truncated);
    }
    return Ok(off);
  }

  /**
   On every octet string the two loops agree: both succeed, on exactly the
   messages that hold an encoded name and four octets more after the header,
   and then stop at the same offset; or both fail, for the same reason but for
   the label one of them does not check.
   */
  lemma LoopsAgree(msg: Octets)
    ensures QuestionOf(msg).Ok? <==> QuestionEndOf(msg).Ok?
    ensures QuestionOf(msg).Ok? <==>
            exists labels :: ValidLabels(labels) && At(msg, 12, EncodeName(labels))
                             && 12 + |EncodeName(labels)| + 4 <= |msg|
    ensures forall labels :: QuestionOf(msg).Ok? && ValidLabels(labels) && At(msg, 12, EncodeName(labels)) ==>
              QuestionEndOf(msg) == Ok(12 + |EncodeName(labels)| + 4)
              && QuestionOf(msg).value.0 == TextOf(labels)
    ensures QuestionOf(msg).Err? ==>
              QuestionEndOf(msg) == if QuestionOf(msg) == Err(BadName(LabelPast)) then Err(BadName(NamePast))
                                    else Err(QuestionOf(msg).error)
  {
    forall labels | ValidLabels(labels) && At(msg, 12, EncodeName(labels))
      ensures PlainName(msg, 12) == Ok((labels, 12 + |EncodeName(labels)|))
    {
      PlainNameFinds(msg, 12, labels);
    }
    if QuestionOf(msg).Ok? { PlainNameOnly(msg, 12); }
  }

  // ---------------------------------------------------------- replies

  datatype Reply = Reply(id: u16, rcode: nat, anCount: nat, truncated: bool, ad: bool)
  datatype ReplyError = ShortReply | NotAResponse

  /** `ParseReply`: the flags are tested with 0x8000, 0x000F, 0x0200 and 0x0020. */
  function ParseReply(msg: Octets): Result<Reply, ReplyError> {
    if |msg| < 12 then Err(ShortReply)
    else
      var flags := ReadU16(msg, 2);
      if flags / 0x8000 % 2 == 0 then Err(NotAResponse)
      else Ok(Reply(ReadU16(msg, 0), flags % 0x10, ReadU16(msg, 6), flags / 0x200 % 2 == 1, flags / 0x20 % 2 == 1))
  }

  /**
   Section 4.1.1 of RFC 1035, for every message: a reply is recognised by its
   QR bit alone, and each field is the bits it should be, whatever the others.
   */
  lemma ParseReplyIs(msg: Octets)
    ensures |msg| < 12 ==> ParseReply(msg) == Err(ShortReply)
    ensures |msg| >= 12 ==>
              var flags := ReadU16(msg, 2);
              && (ParseReply(msg).Ok? <==> Bit(flags, 15))
              && (ParseReply(msg).Err? ==> ParseReply(msg).error == NotAResponse)
              && (ParseReply(msg).Ok? ==>
                    var r := ParseReply(msg).value;
                    && r.id == ReadU16(msg, 0) && r.anCount == ReadU16(msg, 6)
                    && 0 <= r.rcode < 16 && (forall k :: 0 <= k < 4 ==> (Bit(r.rcode, k) <==> Bit(flags, k)))
                    && (r.truncated <==> Bit(flags, 9)) && (r.ad <==> Bit(flags, 5)))
  {
    if |msg| >= 12 {
      var flags := ReadU16(msg, 2);
      Powers();
      BitIs(flags, 15);
      BitIs(flags, 9);
      BitIs(flags, 5);
      forall k | 0 <= k < 4 ensures Bit(flags % 16, k) <==> Bit(flags, k) { LowBits(flags, 4, k); }
    }
  }

  lemma Powers()
    ensures Pow2(4) == 0x10 && Pow2(5) == 0x20 && Pow2(9) == 0x200 && Pow2(15) == 0x8000
  {
    assert Pow2(4) == 16;
    assert Pow2(8) == 2 * 2 * 2 * 2 * Pow2(4);
    assert Pow2(12) == 2 * 2 * 2 * 2 * Pow2(8);
  }

  // ---------------------------------------------------------- answers

  /** `binary.BigEndian.PutUint16(buf[off:off+2], v)` */
  function PutU16(buf: Octets, off: nat, v: u16): (r: Octets)
    requires off + 2 <= |buf|
    ensures |r| == |buf| && r[..off] == buf[..off] && r[off + 2..] == buf[off + 2..]
    ensures ReadU16(r, off) == v
  {
    buf[off := v / 0x100][off + 1 := v % 0x100]
  }

  method PutUint16(buf: array<byte>, off: nat, v: u16)
    requires off + 2 <= buf.Length
    modifies buf
    ensures buf[..] == PutU16(old(buf[..]), off, v)
  {
    buf[off] := v / 0x100;
    buf[off + 1] := v % 0x100;
  }

  /** The reply header the answers share: QR, RD, RA, one question, `ancount` answers. */
  function ReplyHead(id: u16, ancount: u16): (r: Octets)
    ensures |r| == 12
  {
    U16(id) + U16(0x8180) + U16(1) + U16(ancount) + U16(0) + U16(0)
  }

  type Address = ip: Octets | |ip| == 4 witness [0, 0, 0, 0]

  /** An A record whose owner is a pointer to offset 12. */
  function PointedRecord(ip: Address, ttl: u32): (r: Octets)
    ensures |r| == 16
  {
    [0xC0, 0x0C] + U16(TYPE_A) + U16(CLASS_IN) + U32(ttl) + U16(4) + ip
  }

  /** The reply `AnswerA` and `AnswerEmpty` build: a new header over the query's question. */
  function ReplyTo(query: Octets, ancount: u16, records: Octets): Octets
    requires QuestionEndOf(query).Ok?
  {
    ReplyHead(ReadU16(query, 0), ancount) + query[12..QuestionEndOf(query).value] + records
  }

  method AppendRecord(buf: Octets, ip: Address, ttl: u32) returns (out: Octets)
    ensures out == buf + PointedRecord(ip, ttl)
  {
    hide U16, U32;
    var record: Octets := [0xC0, 0x0C]; // offset 12
    record := record + U16(TYPE_A);
    record := record + U16(CLASS_IN);
    record := record + U32(ttl);
    record := record + U16(4);
    record := record + [ip[0], ip[1], ip[2], ip[3]];
    assert [ip[0], ip[1], ip[2], ip[3]] == ip;
    out := buf + record;
  }

  /** The five header fields every answer overwrites, in the fresh buffer itself. */
  method PatchBuffer(buf: array<byte>, ancount: u16)
    requires buf.Length >= 12
    modifies buf
    ensures buf[..] == ReplyHead(ReadU16(old(buf[..]), 0), ancount) + old(buf[12..])
  {
    hide ReplyHead, ReadU16;
    ghost var was := buf[..];
    PutUint16(buf, 2, 0x8180);
    PutUint16(buf, 4, 1);
    PutUint16(buf, 6, ancount);
    PutUint16(buf, 8, 0);
    PutUint16(buf, 10, 0);
    PatchedIs(was, ancount);
  }

  lemma PatchedIs(was: Octets, ancount: u16)
    requires |was| >= 12
    ensures PutU16(PutU16(PutU16(PutU16(PutU16(was, 2, 0x8180), 4, 1), 6, ancount), 8, 0), 10, 0) ==
            ReplyHead(ReadU16(was, 0), ancount) + was[12..]
  {
    assert U16(ReadU16(was, 0)) == [was[0], was[1]];
  }

  /** What both answers start from: the query up to its question's end under a new header, and room behind it. */
  method FreshReply(query: array<byte>, qEnd: nat, room: nat, ancount: u16) returns (out: array<byte>)
    requires 12 <= qEnd <= query.Length
    ensures fresh(out) && out.Length == qEnd + room
    ensures out[..qEnd] == ReplyHead(ReadU16(query[..], 0), ancount) + query[12..qEnd]
  {
    hide ReplyHead, ReadU16;
    out := new byte[qEnd + room](i requires 0 <= i < qEnd + room reads query => if i < qEnd then query[i] else 0);
    assert out[..][..qEnd] == query[..][..qEnd];
    PatchedQuestion(query[..], out[..], qEnd, ancount);
    PatchBuffer(out, ancount);
    assert out[..qEnd] == out[..][..qEnd] && query[12..qEnd] == query[..][12..qEnd];
  }

  /** `AnswerA`: a fresh buffer, the query left as it was. */
  method AnswerA(query: array<byte>, ip: Address, ttl: u32) returns (r: Result<array<byte>, WireError>)
    ensures query[..] == old(query[..])
    ensures QuestionEndOf(query[..]).Err? ==> r == Err(QuestionEndOf(query[..]).error)
    ensures QuestionEndOf(query[..]).Ok? ==>
              r.Ok? && fresh(r.value) && r.value[..] == ReplyTo(query[..], 1, PointedRecord(ip, ttl))
  {
    hide ReplyHead, PointedRecord, ReadU16, QuestionEndOf;
    var qEnd :- QuestionEnd(query[..]);
    var out := FreshReply(query, qEnd, 16, 1);
    ghost var front := out[..qEnd];
    var record := AppendRecord([], ip, ttl);
    forall i | 0 <= i < 16 {
      out[qEnd + i] := record[i];
    }
    assert out[..] == front + PointedRecord(ip, ttl);
    assert query[12..qEnd] == query[..][12..qEnd];
    return Ok(out);
  }

  /** `AnswerEmpty`: the same, with nothing after the question. */
  method AnswerEmpty(query: array<byte>) returns (r: Result<array<byte>, WireError>)
    ensures query[..] == old(query[..])
    ensures QuestionEndOf(query[..]).Err? ==> r == Err(QuestionEndOf(query[..]).error)
    ensures QuestionEndOf(query[..]).Ok? ==> r.Ok? && fresh(r.value) && r.value[..] == ReplyTo(query[..], 0, [])
  {
    hide ReplyHead, ReadU16, QuestionEndOf;
    var qEnd :- QuestionEnd(query[..]);
    var out := FreshReply(query, qEnd, 0, 0);
    assert out[..] == out[..qEnd] + [];
    assert query[12..qEnd] == query[..][12..qEnd];
    return Ok(out);
  }

  /** A buffer that starts as the query does keeps its id and question under a new header. */
  lemma PatchedQuestion(query: Octets, buf: Octets, qEnd: nat, ancount: u16)
    requires 12 <= qEnd <= |query| && qEnd <= |buf| && buf[..qEnd] == query[..qEnd]
    ensures (ReplyHead(ReadU16(buf, 0), ancount) + buf[12..])[..qEnd] ==
            ReplyHead(ReadU16(query, 0), ancount) + query[12..qEnd]
  {
    assert buf[0] == buf[..qEnd][0] && buf[1] == buf[..qEnd][1];
    assert buf[12..qEnd] == buf[..qEnd][12..] == query[..qEnd][12..];
  }
}
