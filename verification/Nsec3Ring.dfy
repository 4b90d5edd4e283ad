/**
 What the records of an NSEC3 chain say together: they are one ring through
 every node, and they partition the hash space (section 3.1.7 of RFC 5155).
 Everything is stated of the records as a reader sees them.
 */
module Nsec3Ring {
  import opened Wrappers
  import opened Bytes
  import opened Names
  import opened Records
  import opened Nsec3
  import B32 = Base32Hex

  // ---------------------------------------------------------- a record as read

  /** The hash a record's owner name spells. */
  function OwnerHash(rr: RR): Option<Octets> {
    var ls := LabelsOf(rr.name);
    if ls == [] || !B32.IsEncoded(ls[0]) then None else Some(B32.Decode(ls[0]))
  }

  /** The next hashed owner its RDATA names. */
  function NextHash(rr: RR): Option<Octets> {
    var f :- ReadRdata(rr.rdata);
    Some(f.next)
  }

  /** `h` lies strictly between `owner` and `next`, the span wrapping when `next` is not after `owner`. */
  predicate Covers(owner: Octets, next: Octets, h: Octets) {
    if Less(owner, next) then Less(owner, h) && Less(h, next)
    else Less(owner, h) || Less(h, next)
  }

  predicate Matches(rr: RR, h: Octets) {
    OwnerHash(rr) == Some(h)
  }

  predicate CoversHash(rr: RR, h: Octets) {
    OwnerHash(rr).Some? && NextHash(rr).Some? && Covers(OwnerHash(rr).value, NextHash(rr).value, h)
  }

  /** The index after `i` on a ring of `n`. */
  function Next(i: nat, n: nat): (r: nat)
    requires i < n
    ensures r < n
  {
    if i + 1 == n then 0 else i + 1
  }

  // ---------------------------------------------------------- the sorted hashes

  ghost predicate DistinctHashes(sha1: Sha1, z: Zone, nodes: seq<Node>) {
    forall i, j :: 0 <= i < j < |nodes| ==>
        HashOf(sha1, nodes[i].name, z.salt, z.iterations) != HashOf(sha1, nodes[j].name, z.salt, z.iterations)
  }

  ghost predicate StrictlySorted(s: seq<Entry>) {
    forall i, j :: 0 <= i < j < |s| ==> Less(s[i].digest, s[j].digest)
  }

  ghost predicate DistinctDigests(s: seq<Entry>) {
    forall i, j :: 0 <= i < j < |s| ==> s[i].digest != s[j].digest
  }

  lemma InsertMember(e: Entry, s: seq<Entry>, x: Entry)
    ensures x in InsertEntry(e, s) <==> x == e || x in s
  {
  }

  lemma {:induction false} InsertSorted(e: Entry, s: seq<Entry>)
    requires StrictlySorted(s) && forall i :: 0 <= i < |s| ==> s[i].digest != e.digest
    ensures StrictlySorted(InsertEntry(e, s))
  {
    if s != [] {
      if Less(s[0].digest, e.digest) {
        InsertSorted(e, s[1..]);
        var r := InsertEntry(e, s[1..]);
        forall j | 0 <= j < |r| ensures Less(s[0].digest, r[j].digest) {
          InsertMember(e, s[1..], r[j]);
        }
      } else {
        LessTotal(s[0].digest, e.digest);
        forall j | 0 < j < |s| ensures Less(e.digest, s[j].digest) {
          LessTransitive(e.digest, s[0].digest, s[j].digest);
        }
      }
    }
  }

  lemma {:induction false} SortSorts(s: seq<Entry>)
    requires DistinctDigests(s)
    ensures StrictlySorted(SortEntries(s))
  {
    if s != [] {
      SortSorts(s[1..]);
      var r := SortEntries(s[1..]);
      SortedMembers(s[1..]);
      forall i | 0 <= i < |r| ensures r[i].digest != s[0].digest {
        assert r[i] in multiset(r) && r[i] in s[1..];
      }
      InsertSorted(s[0], r);
    }
  }

  ghost predicate NamesDistinct(hashed: seq<Entry>) {
    forall i, j :: 0 <= i < j < |hashed| ==> hashed[i].name != hashed[j].name
  }

  /** What the ring's properties rest on: hashes in strict order, names apart, each entry a node's. */
  ghost predicate Ordered(hashed: seq<Entry>) {
    && Digests(hashed)
    && StrictlySorted(hashed)
    && NamesDistinct(hashed)
  }

  lemma EntriesApart(sha1: Sha1, z: Zone, nodes: seq<Node>)
    requires DistinctHashes(sha1, z, nodes)
    ensures DistinctDigests(EntriesOf(sha1, z, nodes))
  {
    hide HashOf;
  }

  /** Sorting neither adds nor loses an entry. */
  lemma HashedMembers(sha1: Sha1, z: Zone, nodes: seq<Node>)
    ensures forall i :: 0 <= i < |nodes| ==> EntryOf(sha1, z, nodes[i]) in Hashed(sha1, z, nodes)
    ensures forall k :: 0 <= k < |nodes| ==>
              exists i :: 0 <= i < |nodes| && Hashed(sha1, z, nodes)[k] == EntryOf(sha1, z, nodes[i])
  {
    hide HashOf, EntryOf, SortEntries;
    var entries := EntriesOf(sha1, z, nodes);
    var hashed := Hashed(sha1, z, nodes);
    SortedMembers(entries);
    forall i | 0 <= i < |nodes| ensures EntryOf(sha1, z, nodes[i]) in hashed {
      assert entries[i] in multiset(entries);
    }
    forall k | 0 <= k < |nodes|
      ensures exists i :: 0 <= i < |nodes| && hashed[k] == EntryOf(sha1, z, nodes[i])
    {
      assert hashed[k] in multiset(hashed);
      var i :| 0 <= i < |nodes| && entries[i] == hashed[k];
    }
  }

  /** Entries with one name have one hash, so strictly sorted ones are apart by name. */
  lemma HashedNamesApart(sha1: Sha1, z: Zone, nodes: seq<Node>)
    requires StrictlySorted(Hashed(sha1, z, nodes))
    ensures NamesDistinct(Hashed(sha1, z, nodes))
  {
    hide HashOf, Hashed;
    var hashed := Hashed(sha1, z, nodes);
    HashedMembers(sha1, z, nodes);
    forall i, j | 0 <= i < j < |hashed| ensures hashed[i].name != hashed[j].name {
      LessAsymmetric(hashed[i].digest, hashed[j].digest);
      var k :| 0 <= k < |nodes| && hashed[i] == EntryOf(sha1, z, nodes[k]);
      var l :| 0 <= l < |nodes| && hashed[j] == EntryOf(sha1, z, nodes[l]);
    }
  }

  lemma HashedIsOrdered(sha1: Sha1, z: Zone, nodes: seq<Node>)
    requires DistinctHashes(sha1, z, nodes)
    ensures Ordered(Hashed(sha1, z, nodes))
  {
    hide HashOf, SortEntries, EntriesOf, StrictlySorted, NamesDistinct, DistinctDigests;
    HashedDigests(sha1, z, nodes);
    EntriesApart(sha1, z, nodes);
    SortSorts(EntriesOf(sha1, z, nodes));
    HashedNamesApart(sha1, z, nodes);
  }

  // ---------------------------------------------------------- the chain as read

  lemma {:induction false} ChainKeys(z: Zone, hashed: seq<Entry>, i: nat)
    requires i <= |hashed| && |z.salt| < 0x100 && Digests(hashed)
    ensures forall name :: name in ChainUpTo(z, hashed, i) <==> exists k :: 0 <= k < i && hashed[k].name == name
  {
    hide RecordAt;
    if i > 0 { ChainKeys(z, hashed, i - 1); }
  }

  /** Of the entries of one name, the last has its record in the dictionary. */
  lemma {:induction false} LastOfNameStays(z: Zone, hashed: seq<Entry>, i: nat, k: nat)
    requires k < i <= |hashed| && |z.salt| < 0x100 && Digests(hashed)
    requires forall l :: k < l < i ==> hashed[l].name != hashed[k].name
    ensures hashed[k].name in ChainUpTo(z, hashed, i)
    ensures ChainUpTo(z, hashed, i)[hashed[k].name] == RecordAt(z, hashed, k)
  {
    hide RecordAt;
    if k < i - 1 { LastOfNameStays(z, hashed, i - 1, k); }
  }

  lemma ChainValue(z: Zone, hashed: seq<Entry>, i: nat, k: nat)
    requires k < i <= |hashed| && |z.salt| < 0x100 && Digests(hashed) && NamesDistinct(hashed)
    ensures hashed[k].name in ChainUpTo(z, hashed, i)
    ensures ChainUpTo(z, hashed, i)[hashed[k].name] == RecordAt(z, hashed, k)
  {
    hide RecordAt, ChainUpTo, Digests;
    LastOfNameStays(z, hashed, i, k);
  }

  lemma {:induction false} StripAppend(p: Octets, t: Octets)
    ensures StripDots(t) != [] ==> StripDots(p + t) == p + StripDots(t)
    ensures StripDots(t) == [] ==> StripDots(p + t) == StripDots(p)
    decreases |t|
  {
    if t == [] {
      assert p + t == p;
    } else if t[|t| - 1] == DOT {
      assert (p + t)[..|p + t| - 1] == p + t[..|t| - 1];
      StripAppend(p, t[..|t| - 1]);
    }
  }

  lemma StripAfterLabel(l: Octets, name: Octets)
    requires DotFree(l) && l != []
    ensures StripDots(l + [DOT] + name) == if StripDots(name) == [] then l else l + [DOT] + StripDots(name)
  {
    assert l + [DOT] + name == l + ([DOT] + name);
    StripAppend([DOT], name);
    assert StripDots([DOT]) == [];
    StripAppend(l, [DOT] + name);
    assert StripDots(l) == l;
    assert l + ([DOT] + StripDots(name)) == l + [DOT] + StripDots(name);
  }

  /** One label put before a name. */
  lemma PrependLabel(l: Octets, name: Octets)
    requires DotFree(l) && ValidLabel(l) && WellFormed(name)
    ensures LabelsOf(l + [DOT] + name) == [l] + LabelsOf(name)
    ensures WellFormed(l + [DOT] + name)
  {
    hide StripDots, Split;
    StripAfterLabel(l, name);
    SplitLabel(l, StripDots(name));
    EmptyText();
    if IsRoot(name) {
      assert ValidLabels([l]);
      assert NonEmpty([l]) == [l] + NonEmpty([]);
    } else {
      var rest := Split(StripDots(name));
      assert ValidLabel(rest[0]);
      assert ([l] + rest)[1..] == rest;
      assert forall i :: 0 <= i < |rest| + 1 ==> ValidLabel(([l] + rest)[i]);
    }
  }

  lemma EmptyText()
    ensures StripDots([]) == [] && StripDots([DOT]) == [] && Split([]) == [[]]
    ensures LabelsOf([]) == [] && LabelsOf([DOT]) == []
  {
    assert NonEmpty([[]]) == [];
  }

  lemma EncodedLabel(digest: Octets)
    requires |digest| == 20
    ensures B32.IsEncoded(B32.Encode(digest)) && B32.Decode(B32.Encode(digest)) == digest
    ensures |B32.Encode(digest)| == 32 && DotFree(B32.Encode(digest)) && Lower(B32.Encode(digest)) == B32.Encode(digest)
  {
    B32.DecodeEncode(digest);
    var text := B32.Encode(digest);
    forall i | 0 <= i < |text| ensures text[i] != DOT && LowerByte(text[i]) == text[i] {
      assert B32.IsChar(text[i]);
    }
  }

  /** A reader finds in record `i` its own hash, and the hash of the record after it. */
  lemma RecordReads(z: Zone, hashed: seq<Entry>, i: nat)
    requires i < |hashed| && |z.salt| < 0x100 && Digests(hashed) && WellFormed(z.name)
    ensures OwnerHash(RecordAt(z, hashed, i)) == Some(hashed[i].digest)
    ensures NextHash(RecordAt(z, hashed, i)) == Some(hashed[Next(i, |hashed|)].digest)
    ensures LabelsOf(RecordAt(z, hashed, i).name) == [B32.Encode(hashed[i].digest)] + LabelsOf(z.name)
  {
    hide Rdata, ReadRdata, B32.Encode, B32.Decode, LabelsOf, WellFormed, Lower;
    EncodedLabel(hashed[i].digest);
    PrependLabel(B32.Encode(hashed[i].digest), z.name);
    assert |hashed[Next(i, |hashed|)].digest| == 20;
    ReadRdataReads(FieldsAt(z, hashed, i));
  }

  /** The keys are the entries' names. */
  ghost predicate KeysAre(chain: map<Octets, RR>, hashed: seq<Entry>) {
    forall name :: name in chain <==> exists k :: 0 <= k < |hashed| && hashed[k].name == name
  }

  /** A reader of entry `k`'s record sees its own hash, and the hash after it. */
  ghost predicate ReadsAt(chain: map<Octets, RR>, hashed: seq<Entry>, k: nat)
    requires k < |hashed|
  {
    && hashed[k].name in chain
    && OwnerHash(chain[hashed[k].name]) == Some(hashed[k].digest)
    && NextHash(chain[hashed[k].name]) == Some(hashed[Next(k, |hashed|)].digest)
  }

  /** The chain of a zone, as its readers know it. */
  ghost predicate ReadsAs(chain: map<Octets, RR>, hashed: seq<Entry>) {
    KeysAre(chain, hashed) && forall k :: 0 <= k < |hashed| ==> ReadsAt(chain, hashed, k)
  }

  lemma ChainRecordReads(z: Zone, hashed: seq<Entry>, k: nat)
    requires k < |hashed| && |z.salt| < 0x100 && Digests(hashed) && NamesDistinct(hashed) && WellFormed(z.name)
    ensures ReadsAt(ChainUpTo(z, hashed, |hashed|), hashed, k)
  {
    hide RecordAt, ChainUpTo, OwnerHash, NextHash, WellFormed, NamesDistinct, Digests;
    ChainValue(z, hashed, |hashed|, k);
    RecordReads(z, hashed, k);
  }

  lemma ChainKeysAre(z: Zone, hashed: seq<Entry>)
    requires |z.salt| < 0x100 && Digests(hashed)
    ensures KeysAre(ChainUpTo(z, hashed, |hashed|), hashed)
  {
    hide ChainUpTo, Digests;
    ChainKeys(z, hashed, |hashed|);
  }

  lemma LinkedReads(z: Zone, hashed: seq<Entry>)
    requires |z.salt| < 0x100 && WellFormed(z.name) && Digests(hashed) && NamesDistinct(hashed)
    ensures ReadsAs(ChainUpTo(z, hashed, |hashed|), hashed)
  {
    hide ChainUpTo, WellFormed, Digests, NamesDistinct, KeysAre, ReadsAt;
    ChainKeysAre(z, hashed);
    forall k | 0 <= k < |hashed| ensures ReadsAt(ChainUpTo(z, hashed, |hashed|), hashed, k) {
      ChainRecordReads(z, hashed, k);
    }
  }

  lemma ChainReads(sha1: Sha1, z: Zone, nodes: seq<Node>)
    requires |z.salt| < 0x100 && WellFormed(z.name) && DistinctHashes(sha1, z, nodes)
    ensures Ordered(Hashed(sha1, z, nodes))
    ensures ReadsAs(Chain(sha1, z, nodes), Hashed(sha1, z, nodes))
  {
    hide ChainUpTo, Hashed, WellFormed, DistinctHashes, ReadsAs, Digests, StrictlySorted, NamesDistinct;
    HashedIsOrdered(sha1, z, nodes);
    LinkedReads(z, Hashed(sha1, z, nodes));
  }

  // ---------------------------------------------------------- the ring

  /** The record of `a` names the hash `b`'s record is owned by. */
  ghost predicate Follows(chain: map<Octets, RR>, a: Octets, b: Octets) {
    a in chain && b in chain && NextHash(chain[a]).Some? && NextHash(chain[a]) == OwnerHash(chain[b])
  }

  ghost predicate IsWalk(chain: map<Octets, RR>, walk: seq<Octets>) {
    forall k :: 0 <= k < |walk| - 1 ==> Follows(chain, walk[k], walk[k + 1])
  }

  lemma SameDigestSameIndex(hashed: seq<Entry>, i: nat, j: nat)
    requires Ordered(hashed) && i < |hashed| && j < |hashed| && hashed[i].digest == hashed[j].digest
    ensures i == j
  {
    if i < j {
      LessAsymmetric(hashed[i].digest, hashed[j].digest);
    } else if j < i {
      LessAsymmetric(hashed[j].digest, hashed[i].digest);
    }
  }

  lemma FollowsIsSuccessor(chain: map<Octets, RR>, hashed: seq<Entry>, i: nat, b: Octets)
    requires Ordered(hashed) && ReadsAs(chain, hashed) && i < |hashed|
    ensures Follows(chain, hashed[i].name, b) <==> b == hashed[Next(i, |hashed|)].name
  {
    hide OwnerHash, NextHash, Ordered, KeysAre;
    assert ReadsAt(chain, hashed, i) && ReadsAt(chain, hashed, Next(i, |hashed|));
    if Follows(chain, hashed[i].name, b) {
      var j := EntryNamed(chain, hashed, b);
      assert ReadsAt(chain, hashed, j);
      SameDigestSameIndex(hashed, Next(i, |hashed|), j);
    }
  }

  /** The index `k` steps on from `start`, for at most one turn. */
  function Turn(start: nat, k: nat, n: nat): (r: nat)
    requires start < n && k <= n
    ensures r < n
  {
    if start + k < n then start + k else start + k - n
  }

  lemma {:induction false} WalkIndices(
    chain: map<Octets, RR>, hashed: seq<Entry>, walk: seq<Octets>, start: nat, k: nat)
    requires Ordered(hashed) && ReadsAs(chain, hashed) && IsWalk(chain, walk)
    requires start < |hashed| && k < |walk| <= |hashed| + 1 && walk[0] == hashed[start].name
    ensures walk[k] == hashed[Turn(start, k, |hashed|)].name
  {
    hide Follows, ReadsAs, Ordered;
    if k > 0 {
      WalkIndices(chain, hashed, walk, start, k - 1);
      assert Follows(chain, walk[k - 1], walk[k - 1 + 1]);
      FollowsIsSuccessor(chain, hashed, Turn(start, k - 1, |hashed|), walk[k]);
    }
  }

  lemma EntryNamed(chain: map<Octets, RR>, hashed: seq<Entry>, name: Octets) returns (k: nat)
    requires ReadsAs(chain, hashed) && name in chain
    ensures k < |hashed| && hashed[k].name == name
  {
    hide ReadsAt;
    k :| 0 <= k < |hashed| && hashed[k].name == name;
  }

  lemma NamesApart(hashed: seq<Entry>, i: nat, j: nat)
    requires Ordered(hashed) && i < |hashed| && j < |hashed| && i != j
    ensures hashed[i].name != hashed[j].name
  {
  }

  /** However a ring is walked, a turn visits every entry once and returns. */
  lemma RingWalk(chain: map<Octets, RR>, hashed: seq<Entry>, walk: seq<Octets>)
    requires Ordered(hashed) && ReadsAs(chain, hashed) && IsWalk(chain, walk)
    requires |walk| == |hashed| + 1 && walk[0] in chain
    ensures walk[|hashed|] == walk[0]
    ensures forall j, k :: 0 <= j < k < |hashed| ==> walk[j] != walk[k]
    ensures forall i :: 0 <= i < |hashed| ==> hashed[i].name in walk[..|hashed|]
  {
    hide OwnerHash, NextHash, IsWalk, ReadsAs, Ordered;
    var n := |hashed|;
    var start := EntryNamed(chain, hashed, walk[0]);
    WalkIndices(chain, hashed, walk, start, n);
    forall j, k | 0 <= j < k < n ensures walk[j] != walk[k] {
      WalkIndices(chain, hashed, walk, start, j);
      WalkIndices(chain, hashed, walk, start, k);
      NamesApart(hashed, Turn(start, j, n), Turn(start, k, n));
    }
    forall i | 0 <= i < n ensures hashed[i].name in walk[..n] {
      var k := if i >= start then i - start else i + n - start;
      WalkIndices(chain, hashed, walk, start, k);
      assert walk[..n][k] == hashed[i].name;
    }
  }

  /**
   Following next through the chain of any nodes with distinct hashes: however
   one starts, as many steps as there are nodes visit every node exactly once
   and return.
   */
  lemma ChainIsOneRing(sha1: Sha1, z: Zone, nodes: seq<Node>, walk: seq<Octets>)
    requires |z.salt| < 0x100 && WellFormed(z.name) && DistinctHashes(sha1, z, nodes)
    requires |walk| == |nodes| + 1 && IsWalk(Chain(sha1, z, nodes), walk) && walk[0] in Chain(sha1, z, nodes)
    ensures walk[|nodes|] == walk[0]
    ensures forall j, k :: 0 <= j < k < |nodes| ==> walk[j] != walk[k]
    ensures forall i :: 0 <= i < |nodes| ==> nodes[i].name in walk[..|nodes|]
  {
    hide Chain, HashOf, WellFormed, IsWalk, Hashed, ReadsAs, Ordered;
    var hashed := Hashed(sha1, z, nodes);
    ChainReads(sha1, z, nodes);
    HashedMembers(sha1, z, nodes);
    RingWalk(Chain(sha1, z, nodes), hashed, walk);
    forall i | 0 <= i < |nodes| ensures nodes[i].name in walk[..|nodes|] {
      var k :| 0 <= k < |hashed| && hashed[k] == EntryOf(sha1, z, nodes[i]);
      assert hashed[k].name == nodes[i].name;
    }
  }

  lemma NameInChain(chain: map<Octets, RR>, hashed: seq<Entry>, k: nat)
    requires ReadsAs(chain, hashed) && k < |hashed|
    ensures hashed[k].name in chain
  {
    hide ReadsAt;
  }

  /** The keys are the nodes' names, and from each there is exactly one way on. */
  lemma ChainGoesOn(sha1: Sha1, z: Zone, nodes: seq<Node>, i: nat) returns (next: Octets)
    requires |z.salt| < 0x100 && WellFormed(z.name) && DistinctHashes(sha1, z, nodes) && i < |nodes|
    ensures nodes[i].name in Chain(sha1, z, nodes)
    ensures forall b :: Follows(Chain(sha1, z, nodes), nodes[i].name, b) <==> b == next
  {
    hide Chain, HashOf, WellFormed, Hashed, Follows, ReadsAs, Ordered;
    var chain, hashed := Chain(sha1, z, nodes), Hashed(sha1, z, nodes);
    ChainReads(sha1, z, nodes);
    HashedMembers(sha1, z, nodes);
    var k :| 0 <= k < |hashed| && hashed[k] == EntryOf(sha1, z, nodes[i]);
    assert hashed[k].name == nodes[i].name;
    NameInChain(chain, hashed, k);
    next := hashed[Next(k, |hashed|)].name;
    forall b ensures Follows(chain, nodes[i].name, b) <==> b == next {
      FollowsIsSuccessor(chain, hashed, k, b);
    }
  }

  /** From every node there is a walk of every length, so a turn can always be made. */
  lemma {:induction false} WalkExists(sha1: Sha1, z: Zone, nodes: seq<Node>, i: nat, length: nat)
    returns (walk: seq<Octets>)
    requires |z.salt| < 0x100 && WellFormed(z.name) && DistinctHashes(sha1, z, nodes) && i < |nodes| && length > 0
    ensures |walk| == length && walk[0] == nodes[i].name && IsWalk(Chain(sha1, z, nodes), walk)
    ensures forall k :: 0 <= k < length ==> walk[k] in Chain(sha1, z, nodes)
    decreases length
  {
    hide Chain, WellFormed, DistinctHashes, OwnerHash, NextHash;
    if length == 1 {
      var _ := ChainGoesOn(sha1, z, nodes, i);
      walk := [nodes[i].name];
    } else {
      var front := WalkExists(sha1, z, nodes, i, length - 1);
      var last := front[length - 2];
      var j := NodeOf(sha1, z, nodes, last);
      var next := ChainGoesOn(sha1, z, nodes, j);
      assert Follows(Chain(sha1, z, nodes), last, next);
      walk := front + [next];
    }
  }

  /** Every key of the chain is a node's name. */
  lemma NodeOf(sha1: Sha1, z: Zone, nodes: seq<Node>, name: Octets) returns (j: nat)
    requires |z.salt| < 0x100 && WellFormed(z.name) && DistinctHashes(sha1, z, nodes) && name in Chain(sha1, z, nodes)
    ensures j < |nodes| && nodes[j].name == name
  {
    hide Chain, WellFormed, HashOf, Hashed, ReadsAs, Ordered;
    ChainReads(sha1, z, nodes);
    HashedMembers(sha1, z, nodes);
    var k := EntryNamed(Chain(sha1, z, nodes), Hashed(sha1, z, nodes), name);
    j :| 0 <= j < |nodes| && Hashed(sha1, z, nodes)[k] == EntryOf(sha1, z, nodes[j]);
  }

  // ---------------------------------------------------------- the partition of the hash space

  /** How record `i` of the sorted chain stands to a hash. */
  predicate SpeaksAt(hashed: seq<Entry>, i: nat, h: Octets)
    requires i < |hashed|
  {
    h == hashed[i].digest || Covers(hashed[i].digest, hashed[Next(i, |hashed|)].digest, h)
  }

  /** The last entry whose hash is not after `h`, if any. */
  lemma {:induction false} LastNotAfter(hashed: seq<Entry>, h: Octets, n: nat) returns (i: int)
    requires StrictlySorted(hashed) && n <= |hashed|
    ensures -1 <= i < n
    ensures i >= 0 ==> !Less(h, hashed[i].digest)
    ensures forall k :: i < k < n ==> Less(h, hashed[k].digest)
  {
    if n == 0 {
      i := -1;
    } else if Less(h, hashed[n - 1].digest) {
      i := LastNotAfter(hashed, h, n - 1);
    } else {
      i := n - 1;
    }
  }

  lemma SomeEntrySpeaks(hashed: seq<Entry>, h: Octets) returns (i: nat)
    requires Ordered(hashed) && hashed != []
    ensures i < |hashed| && SpeaksAt(hashed, i, h)
  {
    var n := |hashed|;
    var last := LastNotAfter(hashed, h, n);
    if last < 0 {
      i := n - 1;
      if n > 1 { LessAsymmetric(hashed[0].digest, hashed[n - 1].digest); } else { LessIrreflexive(hashed[0].digest); }
    } else {
      i := last;
      LessTotal(h, hashed[i].digest);
      if i == n - 1 {
          if n > 1 { LessAsymmetric(hashed[0].digest, hashed[i].digest); } else { LessIrreflexive(hashed[0].digest); }
      }
    }
  }

  /** What speaking means in the sorted order. */
  lemma SpeaksWhere(hashed: seq<Entry>, i: nat, h: Octets)
    requires Ordered(hashed) && i < |hashed| && SpeaksAt(hashed, i, h)
    ensures i < |hashed| - 1 ==> !Less(h, hashed[i].digest) && Less(h, hashed[i + 1].digest)
    ensures i == |hashed| - 1 ==> !Less(h, hashed[i].digest) || Less(h, hashed[0].digest)
  {
    LessIrreflexive(h);
    if Less(hashed[i].digest, h) { LessAsymmetric(hashed[i].digest, h); }
    if i == |hashed| - 1 {
      if i > 0 { LessAsymmetric(hashed[0].digest, hashed[i].digest); } else { LessIrreflexive(hashed[i].digest); }
    }
  }

  lemma AtMostOneSpeaks(hashed: seq<Entry>, i: nat, j: nat, h: Octets)
    requires Ordered(hashed) && i < j < |hashed|
    ensures !(SpeaksAt(hashed, i, h) && SpeaksAt(hashed, j, h))
  {
    if SpeaksAt(hashed, i, h) && SpeaksAt(hashed, j, h) {
      SpeaksWhere(hashed, i, h);
      SpeaksWhere(hashed, j, h);
      if i + 1 < j { LessTransitive(h, hashed[i + 1].digest, hashed[j].digest); }
      assert Less(h, hashed[j].digest);
      assert Less(h, hashed[0].digest);
      if i > 0 { LessTransitive(h, hashed[0].digest, hashed[i].digest); }
      assert false;
    }
  }

  /** The record of `name` is owned by `h` or spans it. */
  predicate Speaks(chain: map<Octets, RR>, name: Octets, h: Octets) {
    name in chain && (Matches(chain[name], h) || CoversHash(chain[name], h))
  }

  lemma SpeaksIsSpeaksAt(chain: map<Octets, RR>, hashed: seq<Entry>, k: nat, h: Octets)
    requires ReadsAs(chain, hashed) && k < |hashed|
    ensures Speaks(chain, hashed[k].name, h) <==> SpeaksAt(hashed, k, h)
  {
    hide OwnerHash, NextHash, Covers, KeysAre;
    assert ReadsAt(chain, hashed, k);
  }

  lemma RingPartition(chain: map<Octets, RR>, hashed: seq<Entry>, h: Octets)
    requires Ordered(hashed) && ReadsAs(chain, hashed) && hashed != []
    ensures exists name :: Speaks(chain, name, h)
    ensures forall a, b :: Speaks(chain, a, h) && Speaks(chain, b, h) ==> a == b
  {
    hide OwnerHash, NextHash, SpeaksAt, Ordered, Matches, CoversHash;
    var i := SomeEntrySpeaks(hashed, h);
    SpeaksIsSpeaksAt(chain, hashed, i, h);
    forall a, b | Speaks(chain, a, h) && Speaks(chain, b, h) ensures a == b {
      var j :| 0 <= j < |hashed| && hashed[j].name == a;
      var k :| 0 <= k < |hashed| && hashed[k].name == b;
      SpeaksIsSpeaksAt(chain, hashed, j, h);
      SpeaksIsSpeaksAt(chain, hashed, k, h);
      if j < k { AtMostOneSpeaks(hashed, j, k, h); } else if k < j { AtMostOneSpeaks(hashed, k, j, h); }
    }
  }

  /**
   The records partition the hash space: exactly one of them is owned by a
   given hash or strictly spans it, and no record does both.
   */
  lemma ChainPartitionsHashes(sha1: Sha1, z: Zone, nodes: seq<Node>, h: Octets)
    requires |z.salt| < 0x100 && WellFormed(z.name) && DistinctHashes(sha1, z, nodes) && nodes != []
    ensures exists name :: Speaks(Chain(sha1, z, nodes), name, h)
    ensures forall a, b :: Speaks(Chain(sha1, z, nodes), a, h) && Speaks(Chain(sha1, z, nodes), b, h) ==> a == b
    ensures forall rr :: !(Matches(rr, h) && CoversHash(rr, h))
  {
    hide Chain, HashOf, WellFormed, Hashed, OwnerHash, NextHash, Speaks, Covers, ReadsAs, Ordered;
    ChainReads(sha1, z, nodes);
    RingPartition(Chain(sha1, z, nodes), Hashed(sha1, z, nodes), h);
    forall rr | Matches(rr, h) ensures !CoversHash(rr, h) {
      if NextHash(rr).Some? { NoSpanHoldsItsOwner(h, NextHash(rr).value); }
    }
  }

  lemma NoSpanHoldsItsOwner(owner: Octets, next: Octets)
    ensures !Covers(owner, next, owner)
  {
    LessIrreflexive(owner);
  }

  /** A lone record names itself next and spans everything but itself. */
  lemma LoneRecordCoversTheRest(sha1: Sha1, z: Zone, node: Node, h: Octets)
    requires |z.salt| < 0x100 && WellFormed(z.name)
    ensures node.name in Chain(sha1, z, [node])
    ensures CoversHash(Chain(sha1, z, [node])[node.name], h)
            <==> h != HashOf(sha1, node.name, z.salt, z.iterations)
  {
    hide Chain, Hashed, HashOf, WellFormed, OwnerHash, NextHash, Ordered, KeysAre, Less;
    var chain, hashed := Chain(sha1, z, [node]), Hashed(sha1, z, [node]);
    ChainReads(sha1, z, [node]);
    HashedMembers(sha1, z, [node]);
    assert hashed[0] == EntryOf(sha1, z, [node][0]);
    assert ReadsAt(chain, hashed, 0);
    var own := hashed[0].digest;
    LessIrreflexive(own);
    LessTotal(own, h);
  }

  // ---------------------------------------------------------- what the partition needs

  ghost predicate NodesApart(nodes: seq<Node>) {
    forall i, j :: 0 <= i < j < |nodes| ==> nodes[i].name != nodes[j].name
  }

  ghost predicate SpokenOnce(chain: map<Octets, RR>, h: Octets) {
    && (exists name :: Speaks(chain, name, h))
    && (forall a, b :: Speaks(chain, a, h) && Speaks(chain, b, h) ==> a == b)
  }

  ghost predicate Partitions(chain: map<Octets, RR>) {
    forall h :: SpokenOnce(chain, h)
  }

  lemma {:induction false} InsertKeepsNames(e: Entry, s: seq<Entry>)
    requires NamesDistinct(s) && forall i :: 0 <= i < |s| ==> s[i].name != e.name
    ensures NamesDistinct(InsertEntry(e, s))
  {
    hide Less;
    if s != [] && Less(s[0].digest, e.digest) {
      InsertKeepsNames(e, s[1..]);
      var r := InsertEntry(e, s[1..]);
      forall j | 0 <= j < |r| ensures r[j].name != s[0].name { InsertMember(e, s[1..], r[j]); }
    }
  }

  lemma {:induction false} SortKeepsNames(s: seq<Entry>)
    requires NamesDistinct(s)
    ensures NamesDistinct(SortEntries(s))
  {
    if s != [] {
      SortKeepsNames(s[1..]);
      var r := SortEntries(s[1..]);
      SortedMembers(s[1..]);
      forall i | 0 <= i < |r| ensures r[i].name != s[0].name {
        assert r[i] in multiset(r) && r[i] in s[1..];
      }
      InsertKeepsNames(s[0], r);
    }
  }

  lemma HashedNames(sha1: Sha1, z: Zone, nodes: seq<Node>)
    requires NodesApart(nodes)
    ensures NamesDistinct(Hashed(sha1, z, nodes))
  {
    hide HashOf, SortEntries;
    assert NamesDistinct(EntriesOf(sha1, z, nodes));
    SortKeepsNames(EntriesOf(sha1, z, nodes));
  }

  /** Names apart are enough for the records to read as their entries, whatever the hashes. */
  lemma ChainReadsByName(sha1: Sha1, z: Zone, nodes: seq<Node>)
    requires |z.salt| < 0x100 && WellFormed(z.name) && NodesApart(nodes)
    ensures ReadsAs(Chain(sha1, z, nodes), Hashed(sha1, z, nodes))
  {
    hide ChainUpTo, WellFormed, ReadsAs, Digests, Hashed, NamesDistinct;
    HashedDigests(sha1, z, nodes);
    HashedNames(sha1, z, nodes);
    LinkedReads(z, Hashed(sha1, z, nodes));
  }

  /** The record of a node is owned by the node's hash. */
  lemma NodeSpeaks(sha1: Sha1, z: Zone, nodes: seq<Node>, i: nat)
    requires |z.salt| < 0x100 && WellFormed(z.name) && NodesApart(nodes) && i < |nodes|
    ensures Speaks(Chain(sha1, z, nodes), nodes[i].name, HashOf(sha1, nodes[i].name, z.salt, z.iterations))
  {
    hide Chain, Hashed, WellFormed, HashOf, OwnerHash, NextHash, KeysAre, CoversHash;
    ChainReadsByName(sha1, z, nodes);
    HashedMembers(sha1, z, nodes);
    var chain, hashed := Chain(sha1, z, nodes), Hashed(sha1, z, nodes);
    var k :| 0 <= k < |hashed| && hashed[k] == EntryOf(sha1, z, nodes[i]);
    assert ReadsAt(chain, hashed, k);
  }

  lemma NextIsModulo(i: nat, n: nat)
    requires i < n
    ensures (i + 1) % n == Next(i, n)
  {
  }

  lemma RecordFields(z: Zone, hashed: seq<Entry>, i: nat)
    requires i < |hashed| && |z.salt| < 0x100 && Digests(hashed)
    ensures var rr := RecordAt(z, hashed, i);
            && rr.rtype == 50 && rr.ttl == 3600
            && ReadRdata(rr.rdata) == Some(Fields(z.flags, z.iterations, z.salt,
                                                  hashed[Next(i, |hashed|)].digest, set t | t in hashed[i].types))
  {
    hide Rdata, ReadRdata, OwnerText;
    NextIsModulo(i, |hashed|);
    ReadRdataReads(FieldsAt(z, hashed, i));
  }

  /**
   What a reader finds in the record of each node: an NSEC3 record owned by
   the node's own hash under the zone, with the zone's parameters and exactly
   the node's own types.
   */
  lemma NodeRecordReads(sha1: Sha1, z: Zone, nodes: seq<Node>, i: nat)
    requires |z.salt| < 0x100 && WellFormed(z.name) && NodesApart(nodes) && i < |nodes|
    ensures nodes[i].name in Chain(sha1, z, nodes)
    ensures var rr := Chain(sha1, z, nodes)[nodes[i].name];
            var f := ReadRdata(rr.rdata);
            && rr.rtype == 50 && rr.ttl == 3600
            && LabelsOf(rr.name) == [B32.Encode(HashOf(sha1, nodes[i].name, z.salt, z.iterations))] + LabelsOf(z.name)
            && f.Some? && f.value.flags == z.flags && f.value.iterations == z.iterations && f.value.salt == z.salt
            && f.value.types == set t | t in nodes[i].types
  {
    hide ChainUpTo, RecordAt, Hashed, WellFormed, HashOf, ReadRdata, LabelsOf, B32.Encode;
    var hashed := Hashed(sha1, z, nodes);
    HashedDigests(sha1, z, nodes);
    HashedNames(sha1, z, nodes);
    HashedMembers(sha1, z, nodes);
    var k :| 0 <= k < |hashed| && hashed[k] == EntryOf(sha1, z, nodes[i]);
    ChainValue(z, hashed, |hashed|, k);
    RecordFields(z, hashed, k);
    RecordReads(z, hashed, k);
  }

  /** For nodes of different names, the records partition the hash space exactly when the names hash apart. */
  lemma PartitionsIffHashesApart(sha1: Sha1, z: Zone, nodes: seq<Node>)
    requires |z.salt| < 0x100 && WellFormed(z.name) && NodesApart(nodes) && nodes != []
    ensures Partitions(Chain(sha1, z, nodes)) <==> DistinctHashes(sha1, z, nodes)
  {
    hide Chain, WellFormed, HashOf, Speaks;
    var chain := Chain(sha1, z, nodes);
    if DistinctHashes(sha1, z, nodes) {
      forall h ensures SpokenOnce(chain, h) { ChainPartitionsHashes(sha1, z, nodes, h); }
    } else {
      var i, j :| 0 <= i < j < |nodes| &&
        HashOf(sha1, nodes[i].name, z.salt, z.iterations) == HashOf(sha1, nodes[j].name, z.salt, z.iterations);
      NodeSpeaks(sha1, z, nodes, i);
      NodeSpeaks(sha1, z, nodes, j);
      assert !SpokenOnce(chain, HashOf(sha1, nodes[i].name, z.salt, z.iterations));
    }
  }

  /** No collision is needed: `a.` and `A.` hash alike under every SHA-1, so their chain is no partition. */
  lemma CaseCollides(sha1: Sha1, z: Zone)
    requires |z.salt| < 0x100 && WellFormed(z.name)
    ensures !Partitions(Chain(sha1, z, [Node([97, DOT], []), Node([65, DOT], [])]))
  {
    hide Chain, WellFormed, Iterated, WireName, Partitions;
    var nodes := [Node([97, DOT], []), Node([65, DOT], [])];
    assert Lower([97, DOT]) == Lower([65, DOT]);
    assert HashOf(sha1, nodes[0].name, z.salt, z.iterations) == HashOf(sha1, nodes[1].name, z.salt, z.iterations);
    PartitionsIffHashesApart(sha1, z, nodes);
  }

  // ---------------------------------------------------------- canonical order of the owners

  /** RFC 4034 section 6.1: names compare label by label from the right, lowercased. */
  predicate CanonicallyBefore(a: Labels, b: Labels) {
    b != [] && (a == []
      || Less(Lower(a[|a| - 1]), Lower(b[|b| - 1]))
      || (Lower(a[|a| - 1]) == Lower(b[|b| - 1]) && CanonicallyBefore(a[..|a| - 1], b[..|b| - 1])))
  }

  lemma {:induction false} SameZoneOrder(x: Octets, y: Octets, zone: Labels)
    ensures CanonicallyBefore([x] + zone, [y] + zone) <==> Less(Lower(x), Lower(y))
  {
    if zone == [] {
      assert [x] + zone == [x] && [y] + zone == [y];
      assert !CanonicallyBefore([x][..0], [y][..0]);
    } else {
      var n := |zone| - 1;
      assert ([x] + zone)[..n + 1] == [x] + zone[..n] && ([y] + zone)[..n + 1] == [y] + zone[..n];
      SameZoneOrder(x, y, zone[..n]);
      LessIrreflexive(Lower(zone[n]));
    }
  }

  /** Section 1.3: hash order is the canonical order of the hashed owner names. */
  lemma HashOrderIsCanonicalOrder(sha1: Sha1, z: Zone, nodes: seq<Node>, i: nat, j: nat)
    requires |z.salt| < 0x100 && WellFormed(z.name) && DistinctHashes(sha1, z, nodes)
    requires i < |nodes| && j < |nodes|
    ensures Digests(Hashed(sha1, z, nodes))
    ensures var hashed := Hashed(sha1, z, nodes);
            i < j <==>
            CanonicallyBefore(LabelsOf(RecordAt(z, hashed, i).name), LabelsOf(RecordAt(z, hashed, j).name))
  {
    hide HashOf, WellFormed, LabelsOf, RecordAt, B32.Encode, Lower;
    var hashed := Hashed(sha1, z, nodes);
    HashedIsOrdered(sha1, z, nodes);
    RecordReads(z, hashed, i);
    RecordReads(z, hashed, j);
    var a, b := hashed[i].digest, hashed[j].digest;
    EncodedLabel(a);
    EncodedLabel(b);
    SameZoneOrder(B32.Encode(a), B32.Encode(b), LabelsOf(z.name));
    B32.EncodePreservesOrder(a, b);
    if i == j { LessIrreflexive(a); } else if j < i { LessAsymmetric(b, a); }
  }
}
