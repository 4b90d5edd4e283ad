/**
 What the codec's messages mean to a reader of RFC 1035: a query asks what it
 was built from, and an answer holds the query's question and its records.
 */
module AnswerLaws {
  import opened Wrappers
  import opened Bytes
  import opened Names
  import opened Reader
  import opened DnsWire
  import opened MockAnswer

  // ---------------------------------------------------------- queries

  lemma QueryParts(id: u16, name: Octets, labels: Labels, qtype: u16, udpSize: u16, do: bool)
    requires Spells(name, labels)
    ensures var m := QueryWire(id, name, qtype, udpSize, do);
            var off := 12 + |EncodeName(labels)|;
            && |m| >= off + 4 && At(m, 0, QueryHead(id, udpSize)) && At(m, 12, EncodeName(labels))
            && ReadU16(m, off) == qtype && ReadU16(m, off + 2) == CLASS_IN
            && At(m, off + 4, if udpSize > 0 then EncodeRecord(OptRecord(udpSize, do)) else [])
            && |m| == off + 4 + if udpSize > 0 then 11 else 0
  {
    hide NameLabels, Spells, EncodeName, At, U16, EncodeRecord, ReadU16;
    SpelledLabels(name, labels);
    var m := QueryWire(id, name, qtype, udpSize, do);
    var p1 := QueryHead(id, udpSize);
    var p2 := p1 + EncodeName(labels);
    var p3 := p2 + U16(qtype);
    var p4 := p3 + U16(CLASS_IN);
    var opt := if udpSize > 0 then EncodeRecord(OptRecord(udpSize, do)) else [];
    OptLength(udpSize, do);
    assert m == p4 + opt;
    AtWhole(m);
    AtSplit(m, 0, p4, opt);
    AtSplit(m, 0, p3, U16(CLASS_IN));
    AtSplit(m, 0, p2, U16(qtype));
    AtSplit(m, 0, p1, EncodeName(labels));
    AtU16(m, |p2|, qtype);
    AtU16(m, |p3|, CLASS_IN);
  }

  lemma OptLength(udpSize: u16, do: bool)
    ensures |EncodeRecord(OptRecord(udpSize, do))| == 11
  {
    assert EncodeName([]) == [0];
  }

  /** `Question` undoes `query`, with or without the OPT record, for every name of the protocol. */
  lemma QuestionOfQuery(id: u16, name: Octets, labels: Labels, qtype: u16, udpSize: u16, do: bool)
    requires Spells(name, labels)
    ensures QuestionOf(QueryWire(id, name, qtype, udpSize, do)) == Ok((TextOf(labels), qtype))
  {
    hide QueryWire, At, EncodeName, PlainName, ReadU16, EncodeRecord, QueryHead, TextOf;
    QueryParts(id, name, labels, qtype, udpSize, do);
    PlainNameFinds(QueryWire(id, name, qtype, udpSize, do), 12, labels);
  }

  /** The text it gives back spells the same labels, so asking it again asks the same question. */
  lemma {:induction false} TextIsJoin(labels: Labels)
    ensures TextOf(labels) == if labels == [] then [] else Join(labels) + [DOT]
  {
    if |labels| == 1 {
      assert TextOf(labels[1..]) == [];
      assert labels[0] + [DOT] + [] == labels[0] + [DOT];
    } else if |labels| > 1 {
      TextIsJoin(labels[1..]);
    }
  }

  lemma RequeryAsksTheSame(id: u16, labels: Labels, qtype: u16, udpSize: u16, do: bool)
    requires ValidLabels(labels) && AllDotFree(labels)
    ensures QuestionOf(QueryWire(id, TextOf(labels), qtype, udpSize, do)) == Ok((TextOf(labels), qtype))
  {
    TextIsJoin(labels);
    QuestionOfQuery(id, TextOf(labels), labels, qtype, udpSize, do);
  }

  /** A reader walks a query to its last octet: one question, and the OPT record if a size was given. */
  lemma QueryReads(id: u16, name: Octets, labels: Labels, qtype: u16, udpSize: u16, do: bool)
    requires Spells(name, labels)
    ensures var m := QueryWire(id, name, qtype, udpSize, do);
            ReadMessage(m) == Some((Message(
              Header(id, 0x0100, 1, 0, 0, if udpSize > 0 then 1 else 0),
              [Reader.Question(labels, qtype, CLASS_IN)], [], [],
              if udpSize > 0 then [Record([], 41, udpSize, if do then 0x8000 else 0, [])] else []), |m|))
  {
    hide QueryWire, ReadQuestions, ReadRecords, EncodeRecord, EncodeName, At, ReadHeader, ReadU16, ReadMessage;
    var m := QueryWire(id, name, qtype, udpSize, do);
    SpelledLabels(name, labels);
    QueryParts(id, name, labels, qtype, udpSize, do);
    HeadFields(m, id, 0x0100, 1, 0, 0, if udpSize > 0 then 1 else 0);
    QuestionFinds(m, labels, qtype, CLASS_IN);
    var off := 12 + |EncodeName(labels)| + 4;
    NoRecords(m, off);
    if udpSize > 0 {
      OptLength(udpSize, do);
      ReadRecordFinds(m, off, OptRecord(udpSize, do));
      OneRecord(m, off, OptRecord(udpSize, do), |m|);
    }
    WalkIs(m, [Reader.Question(labels, qtype, CLASS_IN)], off, [], off, [], off,
           if udpSize > 0 then [OptRecord(udpSize, do)] else [], |m|);
  }

  // ---------------------------------------------------------- replies keep the question

  /** Where a well-formed query's question lies. */
  lemma QuestionLies(query: Octets) returns (labels: Labels, end: nat)
    requires QuestionEndOf(query).Ok?
    ensures PlainName(query, 12) == Ok((labels, end)) && QuestionEndOf(query) == Ok(end + 4) && end + 4 <= |query|
    ensures ValidLabels(labels) && At(query, 12, EncodeName(labels)) && end == 12 + |EncodeName(labels)|
  {
    hide PlainName, EncodeName, At;
    PlainNameOnly(query, 12);
    labels, end := PlainName(query, 12).value.0, PlainName(query, 12).value.1;
  }

  /** What a reply shares with its query: the octets of the question, read the same. */
  lemma ReplyKeepsName(query: Octets, ancount: u16, records: Octets)
    requires QuestionEndOf(query).Ok?
    ensures var m := ReplyTo(query, ancount, records);
            var qEnd := QuestionEndOf(query).value;
            && |m| == qEnd + |records| && At(m, qEnd, records)
            && PlainName(m, 12) == PlainName(query, 12) && PlainName(query, 12).Ok?
            && PlainName(query, 12).value.1 + 4 == qEnd
            && m[12..qEnd] == query[12..qEnd]
            && At(m, 0, ReplyHead(ReadU16(query, 0), ancount))
  {
    hide ReplyHead, QuestionEndOf, PlainName, EncodeName, At, ReadU16, ValidLabels;
    var m := ReplyTo(query, ancount, records);
    var labels, end := QuestionLies(query);
    AtMiddle(ReplyHead(ReadU16(query, 0), ancount), query[12..end + 4], records);
    AtShared(m, query, 12, end + 4, 12, EncodeName(labels));
    PlainNameFinds(m, 12, labels);
  }

  /**
   An answer, empty or not, re-parses to the query's own question and id, and
   is a plain NOERROR reply announcing `ancount` answers.
   */
  lemma ReplyReparses(query: Octets, ancount: u16, records: Octets)
    requires QuestionEndOf(query).Ok?
    ensures var m := ReplyTo(query, ancount, records);
            && QuestionOf(m) == QuestionOf(query) && QuestionOf(m).Ok?
            && QuestionEndOf(m) == QuestionEndOf(query)
            && ParseReply(m) == Ok(Reply(ReadU16(query, 0), 0, ancount, false, false))
  {
    hide PlainName, ReplyTo, At;
    var m := ReplyTo(query, ancount, records);
    var qEnd := QuestionEndOf(query).value;
    ReplyKeepsName(query, ancount, records);
    HeadFields(m, ReadU16(query, 0), 0x8180, 1, ancount, 0, 0);
    SameU16(m, query, 12, qEnd, qEnd - 4);
  }

  lemma SameU16(m: Octets, n: Octets, from: nat, to: nat, off: nat)
    requires from <= off && off + 2 <= to <= |m| && to <= |n| && m[from..to] == n[from..to]
    ensures ReadU16(m, off) == ReadU16(n, off)
  {
    assert m[off] == m[from..to][off - from] && n[off] == n[from..to][off - from];
    assert m[off + 1] == m[from..to][off + 1 - from] && n[off + 1] == n[from..to][off + 1 - from];
  }

  // ---------------------------------------------------------- the records

  function PointedAs(labels: Labels, ip: Address, ttl: u32): Record {
    Record(labels, TYPE_A, CLASS_IN, ttl, ip)
  }

  /** The owner pointer 0xC00C resolves to the question's name. */
  lemma PointerResolves(m: Octets, off: nat, limit: nat)
    requires PlainName(m, 12).Ok? && At(m, off, [0xC0, 0x0C]) && limit > 12
    ensures ReadName(m, off, limit) == Some((PlainName(m, 12).value.0, off + 2))
  {
    assert m[off] == m[off..off + 2][0] && m[off + 1] == m[off..off + 2][1];
    ReadPlain(m, 12, 12);
  }

  lemma PointedRecordReads(m: Octets, off: nat, ip: Address, ttl: u32)
    requires PlainName(m, 12).Ok? && off > 12 && At(m, off, PointedRecord(ip, ttl))
    ensures ReadRecord(m, off) == Some((PointedAs(PlainName(m, 12).value.0, ip, ttl), off + 16))
  {
    hide ReadName, PlainName, ReadAfterOwner, EncodeAfterOwner;
    var r := PointedAs(PlainName(m, 12).value.0, ip, ttl);
    PointedBody(ip, ttl, r.owner);
    AtSplit(m, off, [0xC0, 0x0C], EncodeAfterOwner(r));
    PointerResolves(m, off, off);
    ReadAfterOwnerFinds(m, off + 2, r);
  }

  lemma PointedBody(ip: Address, ttl: u32, labels: Labels)
    ensures var after := EncodeAfterOwner(PointedAs(labels, ip, ttl));
            PointedRecord(ip, ttl) == [0xC0, 0x0C] + after && |after| == 14
  {
  }

  function AnswersRead(labels: Labels, n: nat, ttl: u32): (r: seq<Record>)
    ensures |r| == n
  {
    seq(n, i requires 0 <= i < n => PointedAs(labels, AddressAt(i), ttl))
  }

  lemma {:induction false} RecordAtIndex(m: Octets, off: nat, n: nat, ttl: u32, i: nat)
    requires At(m, off, Records(n, ttl)) && i < n
    ensures At(m, off + 16 * i, PointedRecord(AddressAt(i), ttl))
  {
    hide PointedRecord;
    AtSplit(m, off, Records(n - 1, ttl), PointedRecord(AddressAt(n - 1), ttl));
    if i < n - 1 { RecordAtIndex(m, off, n - 1, ttl, i); }
  }

  /** Reading `k` records from record `i` on: they are there, or the message ends first. */
  lemma {:induction false} RecordsRead(m: Octets, off: nat, n: nat, ttl: u32, i: nat, k: nat)
    requires PlainName(m, 12).Ok? && off > 12 && At(m, off, Records(n, ttl)) && |m| == off + 16 * n && i <= n
    ensures ReadRecords(m, off + 16 * i, k) ==
            if i + k <= n then Some((AnswersRead(PlainName(m, 12).value.0, n, ttl)[i..i + k], off + 16 * (i + k)))
            else None
    decreases k
  {
    hide PlainName, PointedRecord, ReadRecord;
    if k == 0 {
      assert AnswersRead(PlainName(m, 12).value.0, n, ttl)[i..i] == [];
    } else {
      if i < n {
        RecordAtIndex(m, off, n, ttl, i);
        PointedRecordReads(m, off + 16 * i, AddressAt(i), ttl);
        RecordsRead(m, off, n, ttl, i + 1, k - 1);
        var all := AnswersRead(PlainName(m, 12).value.0, n, ttl);
        if i + k <= n { assert [all[i]] + all[i + 1..i + k] == all[i..i + k]; }
      } else {
        NothingAtEnd(m);
      }
    }
  }

  lemma NothingAtEnd(m: Octets)
    ensures ReadRecord(m, |m|) == None
  {
  }

  // ---------------------------------------------------------- the mock's answer

  /** What `answer` returns on a query with a question. */
  function AnswerOf(query: Octets, records: int, ttl: u32): Octets
    requires QuestionEndOf(query).Ok?
  {
    ReplyTo(query, Announced(records), Records(Present(records), ttl))
  }

  function QuestionRead(query: Octets): Reader.Question
    requires QuestionEndOf(query).Ok?
  {
    var qEnd := QuestionEndOf(query).value;
    Reader.Question(PlainName(query, 12).value.0, ReadU16(query, qEnd - 4), ReadU16(query, qEnd - 2))
  }

  /** A reader of the query sees that question, and stops where both loops do. */
  lemma QuestionReadIs(query: Octets)
    requires QuestionEndOf(query).Ok?
    ensures ReadQuestion(query, 12) == Some((QuestionRead(query), QuestionEndOf(query).value))
    ensures QuestionOf(query) == Ok((TextOf(QuestionRead(query).name), QuestionRead(query).qtype))
  {
    hide PlainName, ReadName;
    var labels, end := QuestionLies(query);
    ReadPlain(query, 12, 12);
  }

  lemma ReplyQuestionReads(query: Octets, ancount: u16, records: Octets)
    requires QuestionEndOf(query).Ok?
    ensures var m := ReplyTo(query, ancount, records);
            && |m| >= 12 && ReadHeader(m) == Header(ReadU16(query, 0), 0x8180, 1, ancount, 0, 0)
            && ReadQuestions(m, 12, 1) == Some(([QuestionRead(query)], QuestionEndOf(query).value))
  {
    hide PlainName, ReadQuestions, EncodeName, At, ReplyTo, ReadHeader, QuestionEndOf, ValidLabels, ReadU16;
    var m := ReplyTo(query, ancount, records);
    var labels, end := QuestionLies(query);
    ReplyKeepsName(query, ancount, records);
    HeadFields(m, ReadU16(query, 0), 0x8180, 1, ancount, 0, 0);
    SameU16(m, query, 12, end + 4, end);
    SameU16(m, query, 12, end + 4, end + 2);
    AtShared(m, query, 12, end + 4, 12, EncodeName(labels));
    QuestionFinds(m, labels, ReadU16(query, end), ReadU16(query, end + 2));
  }

  /** The walk of any reply whose record section is `n` pointed records. */
  lemma ReplyWalk(query: Octets, ancount: u16, n: nat, ttl: u32)
    requires QuestionEndOf(query).Ok?
    ensures var m := ReplyTo(query, ancount, Records(n, ttl));
            var q := QuestionRead(query);
            && |m| == QuestionEndOf(query).value + 16 * n
            && ReadMessage(m) ==
               if ancount <= n then
                 Some((Message(ReadHeader(m), [q], AnswersRead(q.name, n, ttl)[..ancount], [], []),
                       QuestionEndOf(query).value + 16 * ancount))
               else None
  {
    hide ReplyTo, PlainName, QuestionEndOf, ReadQuestions, ReadRecords, ReadMessage, ReadHeader, At, AnswersRead;
    var records := Records(n, ttl);
    var m := ReplyTo(query, ancount, records);
    var qEnd := QuestionEndOf(query).value;
    ReplyKeepsName(query, ancount, records);
    ReplyQuestionReads(query, ancount, records);
    RecordsRead(m, qEnd, n, ttl, 0, ancount);
    var o2 := qEnd + 16 * ancount;
    var q := QuestionRead(query);
    assert q.name == PlainName(m, 12).value.0;
    NoRecords(m, o2);
    if ancount <= n {
      var answers := AnswersRead(q.name, n, ttl)[..ancount];
      WalkIs(m, [q], qEnd, answers, o2, [], o2, [], o2);
    } else {
      NoWalk(m, [q], qEnd);
    }
  }

  /**
   For every well-formed query and 1 to 65535 records, the answer's length,
   its ANCOUNT and the records a reader walks all agree, the walk ends at the
   last octet, and each record is an A record of the question's name, the
   addresses going through 203.0.113.1 to 203.0.113.250 in turn.
   */
  lemma AnswerReads(query: Octets, records: int, ttl: u32)
    requires QuestionEndOf(query).Ok? && 1 <= records < 0x1_0000
    ensures var m := AnswerOf(query, records, ttl);
            var q := QuestionRead(query);
            && |m| == QuestionEndOf(query).value + 16 * records
            && ReadMessage(m).Some? && ReadMessage(m).value.1 == |m|
            && var message := ReadMessage(m).value.0;
               && message.header == Header(ReadU16(query, 0), 0x8180, 1, records, 0, 0)
               && message.questions == [q] && message.authorities == [] && message.additionals == []
               && |message.answers| == records
               && forall i :: 0 <= i < records ==>
                    message.answers[i] == Record(q.name, 1, 1, ttl, [203, 0, 113, 1 + i % 250])
  {
    hide ReplyTo, Records, PlainName, QuestionEndOf, QuestionRead, ReadMessage, ReadHeader, ReadQuestions;
    ReplyWalk(query, records, records, ttl);
    ReplyQuestionReads(query, records, Records(records, ttl));
    var all := AnswersRead(QuestionRead(query).name, records, ttl);
    assert all[..records] == all;
  }

  /** So no two of the first 250 records have the same address. */
  lemma AddressesDiffer(query: Octets, records: int, ttl: u32, i: nat, j: nat)
    requires QuestionEndOf(query).Ok? && i < j < records < 0x1_0000 && j < 250
    ensures var m := ReadMessage(AnswerOf(query, records, ttl));
            && m.Some? && j < |m.value.0.answers|
            && m.value.0.answers[i].rdata != m.value.0.answers[j].rdata
  {
    hide ReadMessage, AnswerOf, QuestionRead;
    AnswerReads(query, records, ttl);
    var answers := ReadMessage(AnswerOf(query, records, ttl)).value.0.answers;
    assert answers[i].rdata[3] == 1 + i && answers[j].rdata[3] == 1 + j;
  }

  /** When the announced records end at the last octet: for 1 to 65535 of them, and the few below that truncate to 1. */
  lemma CountsAgreeIff(query: Octets, records: int, ttl: u32)
    requires QuestionEndOf(query).Ok?
    ensures var m := AnswerOf(query, records, ttl);
            (ReadMessage(m).Some? && ReadMessage(m).value.1 == |m|)
            <==> 1 <= records < 0x1_0000 || (records < 1 && records % 0x1_0000 == 1)
  {
    hide ReplyTo, Records, PlainName, QuestionEndOf, QuestionRead, ReadMessage, ReadHeader, AnswersRead;
    ReplyWalk(query, Announced(records), Present(records), ttl);
  }

  /** Asked for none, or for 65536, an answer announces none, and the walk stops before the records. */
  lemma NoneAnnounced(query: Octets, records: int, ttl: u32)
    requires QuestionEndOf(query).Ok? && (records == 0 || records == 0x1_0000)
    ensures var m := AnswerOf(query, records, ttl);
            && |m| == QuestionEndOf(query).value + 16 * Present(records)
            && ReadMessage(m).Some? && ReadMessage(m).value.0.answers == []
            && ReadMessage(m).value.1 == QuestionEndOf(query).value
  {
    hide ReplyTo, Records, PlainName, QuestionEndOf, QuestionRead, ReadMessage, ReadHeader, AnswersRead;
    ReplyWalk(query, 0, Present(records), ttl);
  }

  /** `AnswerA` itself: one record, the address and TTL it was given. */
  lemma AnswerAReads(query: Octets, ip: Address, ttl: u32)
    requires QuestionEndOf(query).Ok?
    ensures var m := ReplyTo(query, 1, PointedRecord(ip, ttl));
            var q := QuestionRead(query);
            ReadMessage(m) == Some((Message(
              Header(ReadU16(query, 0), 0x8180, 1, 1, 0, 0), [q],
              [Record(q.name, 1, 1, ttl, ip)], [], []), |m|))
  {
    hide ReplyTo, PlainName, QuestionEndOf, ReadQuestions, ReadRecords, PointedRecord, ReadMessage, ReadHeader, At;
    var records := PointedRecord(ip, ttl);
    var m := ReplyTo(query, 1, records);
    var qEnd := QuestionEndOf(query).value;
    ReplyKeepsName(query, 1, records);
    ReplyQuestionReads(query, 1, records);
    PointedRecordReads(m, qEnd, ip, ttl);
    var q := QuestionRead(query);
    OneRecord(m, qEnd, PointedAs(q.name, ip, ttl), |m|);
    NoRecords(m, |m|);
    WalkIs(m, [q], qEnd, [PointedAs(q.name, ip, ttl)], |m|, [], |m|, [], |m|);
  }

  /** `AnswerEmpty`: the question and nothing else. */
  lemma AnswerEmptyReads(query: Octets)
    requires QuestionEndOf(query).Ok?
    ensures var m := ReplyTo(query, 0, []);
            ReadMessage(m) == Some((Message(
              Header(ReadU16(query, 0), 0x8180, 1, 0, 0, 0), [QuestionRead(query)], [], [], []), |m|))
  {
    hide ReplyTo, PlainName, QuestionEndOf, ReadQuestions, ReadRecords, QuestionRead, ReadMessage, ReadHeader, At;
    var m := ReplyTo(query, 0, []);
    ReplyKeepsName(query, 0, []);
    ReplyQuestionReads(query, 0, []);
    NoRecords(m, |m|);
    WalkIs(m, [QuestionRead(query)], |m|, [], |m|, [], |m|, [], |m|);
  }
}
