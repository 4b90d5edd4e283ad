/**
 NSEC3 records: iterated hashing, RDATA, and the chain `nsec3_chain` builds over
 a zone's names (RFC 5155). SHA-1 is any function with 20-octet results.
 */
module Nsec3 {
  import opened Wrappers
  import opened Bytes
  import opened Names
  import opened Records
  import Bitmap = TypeBitmap
  import B32 = Base32Hex

  type Sha1 = h: Octets -> Octets | forall x :: |h(x)| == 20 witness (x => seq(20, _ => 0))

  const NSEC3: u16 := 50

  // ---------------------------------------------------------- hashing

  /** RFC 5155 section 5: IH(salt, x, k). */
  function Iterated(sha1: Sha1, x: Octets, salt: Octets, k: nat): (r: Octets)
    ensures |r| == 20
  {
    if k == 0 then sha1(x + salt) else sha1(Iterated(sha1, x, salt, k - 1) + salt)
  }

  function HashOf(sha1: Sha1, name: Octets, salt: Octets, iterations: nat): (r: Octets)
    ensures |r| == 20
  {
    Iterated(sha1, CanonicalName(name), salt, iterations)
  }

  /** Each digest of the one before it and the salt, the first of the canonical name and the salt. */
  ghost predicate IsHashing(sha1: Sha1, name: Octets, salt: Octets, digests: seq<Octets>) {
    && digests != [] && digests[0] == sha1(CanonicalName(name) + salt)
    && forall k :: 0 <= k < |digests| - 1 ==> digests[k + 1] == sha1(digests[k] + salt)
  }

  /** The hash with `iterations` more rounds is the last of that many and one digests (RFC 5155, section 5). */
  lemma {:induction false} HashEndsHashing(sha1: Sha1, name: Octets, salt: Octets, digests: seq<Octets>)
    requires IsHashing(sha1, name, salt, digests)
    ensures HashOf(sha1, name, salt, |digests| - 1) == digests[|digests| - 1]
    decreases |digests|
  {
    hide CanonicalName;
    var n := |digests| - 1;
    if n > 0 {
      assert forall k :: 0 <= k < n - 1 ==> digests[..n][k + 1] == sha1(digests[..n][k] + salt);
      HashEndsHashing(sha1, name, salt, digests[..n]);
      assert digests[n - 1 + 1] == sha1(digests[n - 1] + salt);
    }
  }

  method Hash(sha1: Sha1, name: Octets, salt: Octets, iterations: nat) returns (digest: Octets)
    requires Encodable(name)
    ensures digest == HashOf(sha1, name, salt, iterations)
  {
    LabelsOfLower(name);
    var canonical := EncodeWireName(Lower(name));
    digest := sha1(canonical + salt);
    for k := 0 to iterations
      invariant digest == Iterated(sha1, CanonicalName(name), salt, k)
    {
      digest := sha1(digest + salt);
    }
  }

  // ---------------------------------------------------------- RDATA

  /** The RDATA of section 3.2, as its fields. */
  datatype Fields = Fields(flags: byte, iterations: u16, salt: Octets, next: Octets, types: Bitmap.Types)

  predicate Packs(salt: Octets, next: Octets) {
    |salt| < 0x100 && |next| < 0x100
  }

  function Rdata(f: Fields): Octets
    requires Packs(f.salt, f.next)
  {
    [1, f.flags] + U16(f.iterations) + ([|f.salt|] + f.salt) + ([|f.next|] + f.next) + Bitmap.Encoding(f.types)
  }

  /** A reader of NSEC3 RDATA for hash algorithm 1. */
  function ReadRdata(m: Octets): Option<Fields> {
    if |m| < 5 || m[0] != 1 || 5 + m[4] as nat >= |m| then None
    else
      var at := 5 + m[4] as nat;
      if at + 1 + m[at] > |m| then None
      else Some(Fields(m[1], ReadU16(m, 2), m[5..at], m[at + 1..at + 1 + m[at]],
                       Bitmap.Decode(m[at + 1 + m[at]..])))
  }

  lemma ReadRdataReads(f: Fields)
    requires Packs(f.salt, f.next)
    ensures ReadRdata(Rdata(f)) == Some(f)
  {
    hide Bitmap.Encoding, Bitmap.Decode;
    var m := Rdata(f);
    var bitmap := Bitmap.Encoding(f.types);
    Bitmap.DecodesToItsTypes(f.types);
    var head := [1, f.flags] + U16(f.iterations);
    AtSplit(m, 0, head, [|f.salt|] + f.salt);
    var at := 5 + |f.salt|;
    assert m[2..4] == U16(f.iterations);
    AtU16(m, 2, f.iterations);
    assert m[0] == 1 && m[1] == f.flags && m[4] == |f.salt|;
    assert m[5..at] == f.salt && m[at] == |f.next|;
    assert m[at + 1..at + 1 + |f.next|] == f.next;
    assert m[at + 1 + |f.next|..] == bitmap;
  }

  // ---------------------------------------------------------- the chain

  datatype Node = Node(name: Octets, types: seq<u16>)
  datatype Entry = Entry(digest: Octets, name: Octets, types: seq<u16>)

  /** The arguments of `nsec3_chain` besides the nodes. */
  datatype Zone = Zone(name: Octets, salt: Octets, iterations: u16, flags: byte)

  function EntryOf(sha1: Sha1, z: Zone, node: Node): Entry {
    Entry(HashOf(sha1, node.name, z.salt, z.iterations), node.name, node.types)
  }

  function EntriesOf(sha1: Sha1, z: Zone, nodes: seq<Node>): (r: seq<Entry>)
    ensures |r| == |nodes|
  {
    seq(|nodes|, i requires 0 <= i < |nodes| => EntryOf(sha1, z, nodes[i]))
  }

  function InsertEntry(e: Entry, s: seq<Entry>): (r: seq<Entry>)
    ensures |r| == |s| + 1
  {
    if s == [] || !Less(s[0].digest, e.digest) then [e] + s
    else [s[0]] + InsertEntry(e, s[1..])
  }

  /** `sorted(entries, key=digest)`, which is stable. */
  function SortEntries(s: seq<Entry>): (r: seq<Entry>)
    ensures |r| == |s|
  {
    if s == [] then [] else InsertEntry(s[0], SortEntries(s[1..]))
  }

  function Hashed(sha1: Sha1, z: Zone, nodes: seq<Node>): (r: seq<Entry>)
    ensures |r| == |nodes|
  {
    SortEntries(EntriesOf(sha1, z, nodes))
  }

  function FieldsAt(z: Zone, hashed: seq<Entry>, i: nat): Fields
    requires i < |hashed|
  {
    Fields(z.flags, z.iterations, z.salt, hashed[(i + 1) % |hashed|].digest, Bitmap.SetOf(hashed[i].types))
  }

  function OwnerText(z: Zone, digest: Octets): Octets
    requires |digest| == 20
  {
    B32.Encode(digest) + [DOT] + z.name
  }

  predicate Digests(hashed: seq<Entry>) {
    forall i :: 0 <= i < |hashed| ==> |hashed[i].digest| == 20
  }

  function RecordAt(z: Zone, hashed: seq<Entry>, i: nat): RR
    requires i < |hashed| && Digests(hashed) && |z.salt| < 0x100
  {
    RR(OwnerText(z, hashed[i].digest), NSEC3, Rdata(FieldsAt(z, hashed, i)), TTL)
  }

  /** The dictionary after the first `i` records. */
  function ChainUpTo(z: Zone, hashed: seq<Entry>, i: nat): map<Octets, RR>
    requires i <= |hashed| && Digests(hashed) && |z.salt| < 0x100
  {
    if i == 0 then map[]
    else ChainUpTo(z, hashed, i - 1)[hashed[i - 1].name := RecordAt(z, hashed, i - 1)]
  }

  lemma {:induction false} InsertedMembers(e: Entry, s: seq<Entry>)
    ensures multiset(InsertEntry(e, s)) == multiset{e} + multiset(s)
  {
    if s != [] && Less(s[0].digest, e.digest) {
      assert s == [s[0]] + s[1..];
      InsertedMembers(e, s[1..]);
    }
  }

  lemma {:induction false} SortedMembers(s: seq<Entry>)
    ensures multiset(SortEntries(s)) == multiset(s)
  {
    if s != [] {
      assert s == [s[0]] + s[1..];
      SortedMembers(s[1..]);
      InsertedMembers(s[0], SortEntries(s[1..]));
    }
  }

  ghost predicate InOrder(s: seq<Entry>) {
    forall i, j :: 0 <= i < j < |s| ==> !Less(s[j].digest, s[i].digest)
  }

  /** The entries of one digest, as they stand. */
  function OfDigest(s: seq<Entry>, digest: Octets): seq<Entry> {
    if s == [] then [] else (if s[0].digest == digest then [s[0]] else []) + OfDigest(s[1..], digest)
  }

  lemma {:induction false} InsertInOrder(e: Entry, s: seq<Entry>)
    requires InOrder(s)
    ensures InOrder(InsertEntry(e, s))
  {
    hide Less;
    if s == [] {
    } else if Less(s[0].digest, e.digest) {
      InsertInOrder(e, s[1..]);
      InsertedMembers(e, s[1..]);
      var r := InsertEntry(e, s[1..]);
      forall j | 0 <= j < |r| ensures !Less(r[j].digest, s[0].digest) {
        assert r[j] in multiset(r);
        if r[j] == e { LessAsymmetric(s[0].digest, e.digest); } else { assert r[j] in s[1..]; }
      }
    } else {
      forall j | 0 <= j < |s| ensures !Less(s[j].digest, e.digest) {
        LessIrreflexive(s[0].digest);
        NotLessThrough(e.digest, s[0].digest, s[j].digest);
      }
    }
  }

  lemma NotLessThrough(a: Octets, b: Octets, c: Octets)
    requires !Less(b, a) && !Less(c, b)
    ensures !Less(c, a)
  {
    LessTotal(b, c);
    if Less(c, a) && Less(b, c) { LessTransitive(b, c, a); }
  }

  lemma OfDigestCons(e: Entry, s: seq<Entry>, digest: Octets)
    ensures OfDigest([e] + s, digest) == (if e.digest == digest then [e] else []) + OfDigest(s, digest)
  {
    assert ([e] + s)[1..] == s;
  }

  lemma {:induction false} InsertKeepsOrder(e: Entry, s: seq<Entry>, digest: Octets)
    ensures OfDigest(InsertEntry(e, s), digest) == (if e.digest == digest then [e] else []) + OfDigest(s, digest)
  {
    hide Less, OfDigest;
    if s != [] && Less(s[0].digest, e.digest) {
      LessIrreflexive(e.digest);
      var first, rest := s[0], s[1..];
      assert s == [first] + rest;
      InsertKeepsOrder(e, rest, digest);
      OfDigestCons(first, rest, digest);
      OfDigestCons(first, InsertEntry(e, rest), digest);
    } else {
      OfDigestCons(e, s, digest);
    }
  }

  /** The sort is by hash, and entries of one hash keep their order; with the members kept, that is all it can be. */
  lemma {:induction false} SortIsStable(s: seq<Entry>, digest: Octets)
    ensures InOrder(SortEntries(s)) && OfDigest(SortEntries(s), digest) == OfDigest(s, digest)
  {
    if s != [] {
      hide Less, InOrder, OfDigest, InsertEntry;
      var first, rest := s[0], s[1..];
      assert s == [first] + rest;
      SortIsStable(rest, digest);
      InsertInOrder(first, SortEntries(rest));
      InsertKeepsOrder(first, SortEntries(rest), digest);
      OfDigestCons(first, rest, digest);
    }
  }

  lemma EntriesDigests(sha1: Sha1, z: Zone, nodes: seq<Node>)
    ensures Digests(EntriesOf(sha1, z, nodes))
  {
    hide HashOf;
  }

  lemma HashedDigests(sha1: Sha1, z: Zone, nodes: seq<Node>)
    ensures Digests(Hashed(sha1, z, nodes))
  {
    hide EntriesOf, SortEntries;
    var hashed, entries := Hashed(sha1, z, nodes), EntriesOf(sha1, z, nodes);
    EntriesDigests(sha1, z, nodes);
    SortedMembers(entries);
    forall i | 0 <= i < |hashed| ensures |hashed[i].digest| == 20 {
      assert hashed[i] in multiset(entries);
      assert hashed[i] in entries;
    }
  }

  function Chain(sha1: Sha1, z: Zone, nodes: seq<Node>): map<Octets, RR>
    requires |z.salt| < 0x100
  {
    HashedDigests(sha1, z, nodes);
    ChainUpTo(z, Hashed(sha1, z, nodes), |nodes|)
  }

  method BuildRdata(flags: byte, iterations: u16, salt: Octets, next: Octets, types: seq<u16>) returns (rdata: Octets)
    requires Packs(salt, next)
    ensures rdata == Rdata(Fields(flags, iterations, salt, next, Bitmap.SetOf(types)))
  {
    var bitmap := Bitmap.BuildBitmap(types);
    rdata := [1, flags] + U16(iterations) + ([|salt|] + salt) + ([|next|] + next) + bitmap;
  }

  /** Every node with its hash. */
  method HashNodes(sha1: Sha1, z: Zone, nodes: seq<Node>) returns (entries: seq<Entry>)
    requires forall i :: 0 <= i < |nodes| ==> Encodable(nodes[i].name)
    ensures entries == EntriesOf(sha1, z, nodes)
  {
    hide HashOf, Encodable;
    entries := [];
    for i := 0 to |nodes|
      invariant |entries| == i
      invariant forall k :: 0 <= k < i ==> entries[k] == EntryOf(sha1, z, nodes[k])
    {
      var digest := Hash(sha1, nodes[i].name, z.salt, z.iterations);
      entries := entries + [Entry(digest, nodes[i].name, nodes[i].types)];
    }
  }

  /** The record loop: each record's next is the following hash, the last one's the first. */
  method LinkRecords(z: Zone, hashed: seq<Entry>) returns (out: map<Octets, RR>)
    requires |z.salt| < 0x100 && Digests(hashed)
    ensures out == ChainUpTo(z, hashed, |hashed|)
  {
    hide Rdata, B32.Encode;
    out := map[];
    for i := 0 to |hashed|
      invariant out == ChainUpTo(z, hashed, i)
    {
      var digest, name := hashed[i].digest, hashed[i].name;
      var owner := B32.Encode(digest) + [DOT] + z.name;
      var next := hashed[(i + 1) % |hashed|].digest;
      var rdata := BuildRdata(z.flags, z.iterations, z.salt, next, hashed[i].types);
      out := out[name := RR(owner, NSEC3, rdata, TTL)];
    }
  }

  /** `nsec3_chain`: hash, sort, link; a node's record is found under the node's name. */
  method BuildChain(sha1: Sha1, z: Zone, nodes: seq<Node>) returns (out: map<Octets, RR>)
    requires |z.salt| < 0x100
    requires forall i :: 0 <= i < |nodes| ==> Encodable(nodes[i].name)
    ensures out == Chain(sha1, z, nodes)
  {
    var entries := HashNodes(sha1, z, nodes);
    HashedDigests(sha1, z, nodes);
    out := LinkRecords(z, SortEntries(entries));
  }
}
