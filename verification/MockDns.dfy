/** The stand-alone mock upstream: what it answers, and its stream loop. */
module MockDns {
  import opened Wrappers
  import opened Bytes
  import Reader
  import opened DnsWire
  import opened Framing
  import opened AnswerLaws

  const ADDRESS: Address := [93, 184, 216, 34]

  /** The reply to a query, or none where it has no question. */
  function ReplyOf(query: Octets, ttl: u32): Option<Octets> {
    match QuestionOf(query)
    case Err(_) => None
    case Ok((_, qtype)) =>
      assert QuestionEndOf(query).Ok? by { LoopsAgree(query); }
      Some(if qtype != TYPE_A then ReplyTo(query, 0, []) else ReplyTo(query, 1, PointedRecord(ADDRESS, ttl)))
  }

  /**
   What a reader makes of a reply to `query`: its id and question, and the
   address 93.184.216.34 for a question of type A, or nothing for any other;
   the walk ends at the last octet.
   */
  predicate Answers(reply: Octets, query: Octets, ttl: u32) {
    && QuestionOf(query).Ok? && |query| >= 12
    && var question := Reader.ReadQuestion(query, 12);
       && question.Some?
       && var q := question.value.0;
          Reader.ReadMessage(reply) == Some((Reader.Message(
            Reader.Header(ReadU16(query, 0), 0x8180, 1, if q.qtype == 1 then 1 else 0, 0, 0), [q],
            if q.qtype == 1 then [Reader.Record(q.name, 1, 1, ttl, [93, 184, 216, 34])] else [], [], []), |reply|))
  }

  lemma ReplyAnswers(query: Octets, ttl: u32)
    requires QuestionOf(query).Ok?
    ensures ReplyOf(query, ttl).Some? && Answers(ReplyOf(query, ttl).value, query, ttl)
  {
    hide ReplyTo, PointedRecord, Reader.ReadMessage, Reader.ReadQuestion, QuestionRead;
    LoopsAgree(query);
    QuestionReadIs(query);
    if QuestionOf(query).value.1 == TYPE_A {
      AnswerAReads(query, ADDRESS, ttl);
    } else {
      AnswerEmptyReads(query);
    }
  }

  /** `answer`: once `Question` has succeeded, building the reply cannot fail. */
  method Answer(query: array<byte>, ttl: u32) returns (r: Result<array<byte>, WireError>)
    ensures query[..] == old(query[..])
    ensures r.Err? <==> QuestionOf(query[..]).Err?
    ensures r.Err? <==> ReplyOf(query[..], ttl).None?
    ensures r.Ok? ==> fresh(r.value) && ReplyOf(query[..], ttl) == Some(r.value[..])
    ensures r.Ok? ==> Answers(r.value[..], query[..], ttl)
  {
    hide ReplyTo, PointedRecord, Answers;
    LoopsAgree(query[..]);
    if QuestionOf(query[..]).Ok? { ReplyAnswers(query[..], ttl); }
    var asked := Question(query[..]);
    if asked.Err? {
      return Err(asked.error);
    }
    if asked.value.1 != TYPE_A {
      r := AnswerEmpty(query);
    } else {
      r := AnswerA(query, ADDRESS, ttl);
    }
  }

  /** The replies to the queries before the first that has none. */
  function RepliesTo(queries: seq<Octets>, ttl: u32): seq<Octets> {
    if queries == [] || ReplyOf(queries[0], ttl).None? then []
    else [ReplyOf(queries[0], ttl).value] + RepliesTo(queries[1..], ttl)
  }

  lemma RepliesStep(query: Octets, rest: seq<Octets>, ttl: u32)
    ensures RepliesTo([], ttl) == []
    ensures ReplyOf(query, ttl).None? ==> RepliesTo([query] + rest, ttl) == []
    ensures ReplyOf(query, ttl).Some? ==>
              RepliesTo([query] + rest, ttl) == [ReplyOf(query, ttl).value] + RepliesTo(rest, ttl)
  {
    hide ReplyOf;
    assert ([query] + rest)[1..] == rest;
  }

  function First(msgs: seq<Octets>, n: nat): seq<Octets> {
    if n <= |msgs| then msgs[..n] else msgs
  }

  /** What a stream of queries is answered with, where `writes` writes succeed before one fails. */
  function AnswerStream(data: Octets, ttl: u32, writes: nat): Octets {
    FrameAll(First(RepliesTo(Deframe(data), ttl), writes))
  }

  lemma FirstFrame(reply: Octets, rest: seq<Octets>, n: nat)
    ensures FrameAll(First([reply] + rest, n)) == if n == 0 then [] else FrameOf(reply) + FrameAll(First(rest, n - 1))
  {
    hide FrameOf;
    if n > 0 {
      assert First([reply] + rest, n) == [reply] + First(rest, n - 1);
      assert ([reply] + First(rest, n - 1))[1..] == First(rest, n - 1);
    }
  }

  /** One turn of a connection: the next query's framed reply, ready to be written, or the end. */
  method ServeOne(c: Conn, ttl: u32, ghost writes: nat) returns (out: Octets, more: bool)
    modifies c
    ensures AnswerStream(old(c.pending), ttl, writes) ==
            if more && writes > 0 then out + AnswerStream(c.pending, ttl, writes - 1) else []
    ensures more ==> |c.pending| < |old(c.pending)|
  {
    assert FrameAll([]) == [];
    hide ReplyOf, FrameOf, Deframe, RepliesTo, FrameAll;
    var query, whole := ReadMessage(c);
    RepliesStep(query[..], Deframe(c.pending), ttl);
    if !whole {
      return [], false;
    }
    var r := Answer(query, ttl);
    if r.Err? {
      return [], false;
    }
    FirstFrame(r.value[..], RepliesTo(Deframe(c.pending), ttl), writes);
    out := Frame(r.value[..]);
    more := true;
  }

  lemma Regroup(all: Octets, a: Octets, b: Octets, c: Octets)
    requires all == a + (b + c)
    ensures all == a + b + c
  {
  }

  /**
   The loop of one connection in `serveTCP`: read, answer, write, until a read
   or an answer fails, or a write does after `writes` that did not.
   */
  method ServeConn(c: Conn, ttl: u32, writes: nat) returns (written: Octets)
    modifies c
    ensures written == FrameAll(First(RepliesTo(Deframe(old(c.pending)), ttl), writes))
  {
    written := [];
    ghost var all := AnswerStream(c.pending, ttl, writes);
    assert all == FrameAll(First(RepliesTo(Deframe(old(c.pending)), ttl), writes));
    hide AnswerStream;
    var left := writes;
    while true
      invariant all == written + AnswerStream(c.pending, ttl, left)
      decreases |c.pending|
    {
      var out, more := ServeOne(c, ttl, left);
      if !more || left == 0 {
        return;
      }
      Regroup(all, written, out, AnswerStream(c.pending, ttl, left - 1));
      written := written + out;
      left := left - 1;
    }
  }

  /** The first query without a question ends the connection: those before it are answered, those after it are not. */
  lemma {:induction false} NothingAfterUnanswerable(before: seq<Octets>, bad: Octets, after: seq<Octets>, ttl: u32)
    requires QuestionOf(bad).Err? && forall i :: 0 <= i < |before| ==> QuestionOf(before[i]).Ok?
    ensures |RepliesTo(before + [bad] + after, ttl)| == |before|
    ensures forall i :: 0 <= i < |before| ==>
              Answers(RepliesTo(before + [bad] + after, ttl)[i], before[i], ttl)
  {
    hide Answers, QuestionOf;
    var all := before + [bad] + after;
    if before == [] {
      assert all[0] == bad;
      NoReply(bad, ttl);
    } else {
      assert all[0] == before[0] && all[1..] == before[1..] + [bad] + after;
      assert forall i :: 0 <= i < |before[1..]| ==> before[1..][i] == before[i + 1];
      ReplyAnswers(before[0], ttl);
      hide ReplyOf;
      NothingAfterUnanswerable(before[1..], bad, after, ttl);
      assert RepliesTo(all, ttl) == [ReplyOf(before[0], ttl).value] + RepliesTo(all[1..], ttl);
    }
  }

  lemma NoReply(query: Octets, ttl: u32)
    requires QuestionOf(query).Err?
    ensures ReplyOf(query, ttl).None?
  {
  }

  // ---------------------------------------------------------- an exchange

  /** Queries the mock answers, with replies that fit a frame. */
  predicate Answerable(queries: seq<Octets>, ttl: u32) {
    forall i :: 0 <= i < |queries| ==>
      |queries[i]| < 0x1_0000 && ReplyOf(queries[i], ttl).Some? && |ReplyOf(queries[i], ttl).value| < 0x1_0000
  }

  lemma {:induction false} EveryQueryAnswered(queries: seq<Octets>, ttl: u32)
    requires Answerable(queries, ttl)
    ensures |RepliesTo(queries, ttl)| == |queries|
    ensures forall i :: 0 <= i < |queries| ==> ReplyOf(queries[i], ttl) == Some(RepliesTo(queries, ttl)[i])
  {
    hide ReplyOf;
    if queries != [] {
      assert forall i :: 0 <= i < |queries[1..]| ==> queries[1..][i] == queries[i + 1];
      EveryQueryAnswered(queries[1..], ttl);
    }
  }

  /**
   A client that frames its queries gets back, however both streams are split,
   one reply per query in the order asked, each answering its own query.
   */
  lemma ExchangeInOrder(queries: seq<Octets>, ttl: u32)
    requires Answerable(queries, ttl)
    ensures var replies := Deframe(FrameAll(RepliesTo(Deframe(FrameAll(queries)), ttl)));
            && |replies| == |queries|
            && forall i :: 0 <= i < |queries| ==>
                 && Answers(replies[i], queries[i], ttl)
                 && QuestionOf(replies[i]) == QuestionOf(queries[i])
                 && |queries[i]| >= 2
                 && ParseReply(replies[i]).Ok? && ParseReply(replies[i]).value.id == ReadU16(queries[i], 0)
  {
    hide ReplyOf, FrameOf, Deframe, QuestionOf, ParseReply, Answers;
    DeframeAll(queries);
    EveryQueryAnswered(queries, ttl);
    var replies := RepliesTo(queries, ttl);
    DeframeAll(replies);
    forall i | 0 <= i < |queries|
      ensures Answers(replies[i], queries[i], ttl)
      ensures QuestionOf(replies[i]) == QuestionOf(queries[i])
      ensures |queries[i]| >= 2
      ensures ParseReply(replies[i]).Ok? && ParseReply(replies[i]).value.id == ReadU16(queries[i], 0)
    {
      ReplyMatches(queries[i], ttl);
    }
  }

  lemma DeframeAll(msgs: seq<Octets>)
    requires AllFit(msgs)
    ensures Deframe(FrameAll(msgs)) == msgs
  {
    DeframeUndoesFrame(msgs, []);
    assert FrameAll(msgs) + [] == FrameAll(msgs);
    assert Deframe([]) == [] && msgs + [] == msgs;
  }

  lemma ReplyMatches(query: Octets, ttl: u32)
    requires ReplyOf(query, ttl).Some?
    ensures var reply := ReplyOf(query, ttl).value;
            && QuestionOf(reply) == QuestionOf(query) && |query| >= 12 && Answers(reply, query, ttl)
            && ParseReply(reply).Ok? && ParseReply(reply).value.id == ReadU16(query, 0)
  {
    hide ReplyTo, ParseReply, PointedRecord, Answers;
    LoopsAgree(query);
    ReplyAnswers(query, ttl);
    ReplyReparses(query, 0, []);
    ReplyReparses(query, 1, PointedRecord(ADDRESS, ttl));
  }
}
