/**
 What the signed octets determine: a reader recovers every field of them, so
 two calls of `sign` agree on the octets exactly when they agree on the fields.
 The owner a record is published under is one of them only while the Labels
 field is honest.
 */
module SigningLaws {
  import opened Wrappers
  import opened Bytes
  import opened Names
  import opened Reader
  import opened Records
  import opened KeyTag
  import opened Signing

  // ---------------------------------------------------------- which owner is signed

  predicate HasAsterisk(ls: Labels) {
    exists i :: 0 <= i < |ls| && ls[i] == ASTERISK
  }

  /** RFC 4035 section 5.3.2 on labels: a short count names the wildcard it expanded from. */
  function SignedUnder(ls: Labels, count: nat): Labels {
    if count >= |ls| || ls[0] == ASTERISK then ls
    else [ASTERISK] + ls[|ls| - count..]
  }

  lemma {:induction false} StripKeepsFront(t: Octets, n: nat)
    requires 0 < n <= |t| && t[n - 1] != DOT
    ensures n <= |StripDots(t)| && StripDots(t)[..n] == t[..n]
  {
    if t[|t| - 1] == DOT {
      assert t[..|t| - 1][..n] == t[..n];
      StripKeepsFront(t[..|t| - 1], n);
    }
  }

  lemma {:induction false} StripIsPrefix(t: Octets)
    ensures |StripDots(t)| <= |t| && StripDots(t) == t[..|StripDots(t)|]
    ensures |StripDots(t)| < |t| ==> t[|StripDots(t)|] == DOT
  {
    if t != [] && t[|t| - 1] == DOT {
      StripIsPrefix(t[..|t| - 1]);
    }
  }

  /** `startswith("*.")` sees a leading asterisk label, except on a bare `*`. */
  lemma WildcardStart(t: Octets)
    requires WellFormed(t)
    ensures var ls := LabelsOf(t);
            ls != [] && ls[0] == ASTERISK <==> StartsWithWildcard(t) || t == ASTERISK
  {
    WireNameOfLabels(t);
    var ls := LabelsOf(t);
    var p := StripDots(t);
    StripIsPrefix(t);
    if IsRoot(t) {
      assert Split(p) == [[]];
    } else {
      NonEmptyOfValid(Split(p));
      if StartsWithWildcard(t) || t == ASTERISK {
        StripKeepsFront(t, 1);
        assert p[0] == STAR;
        if |p| == 1 {
          SplitLabel(ASTERISK, []);
          assert p == ASTERISK;
        } else {
          assert p == ASTERISK + [DOT] + p[2..];
          SplitLabel(ASTERISK, p[2..]);
        }
      } else {
        FirstLabelStarts(p);
        assert p[..|ls[0]|] == ls[0];
      }
    }
  }

  /** Text starts with its first label, and a dot follows it if anything does. */
  lemma {:induction false} FirstLabelStarts(t: Octets)
    ensures var l := Split(t)[0];
            |l| <= |t| && t[..|l|] == l && (|l| < |t| ==> t[|l|] == DOT)
  {
    if t != [] && t[0] != DOT { FirstLabelStarts(t[1..]); }
  }

  lemma WildcardTextLabels(ls: Labels)
    requires ValidLabels(ls) && AllDotFree(ls)
    ensures WellFormed(WildcardText(ls)) && LabelsOf(WildcardText(ls)) == [ASTERISK] + ls
    ensures StartsWithWildcard(WildcardText(ls))
  {
    if ls == [] {
      assert WildcardText(ls) == (ASTERISK + [DOT]) + [DOT];
      StripOneDot(ASTERISK + [DOT]);
      LabelsOfJoin([ASTERISK]);
      StripOneDot(ASTERISK);
      SplitJoin([ASTERISK]);
    } else {
      assert Join([ASTERISK] + ls) == [STAR, DOT] + Join(ls);
      LabelsOfJoin([ASTERISK] + ls);
    }
  }

  lemma BareAsterisk()
    ensures LabelsOf(ASTERISK) == [ASTERISK]
  {
    LabelsOfJoin([ASTERISK]);
  }

  /** The text `signing_owner` builds has the labels RFC 4035 section 5.3.2 names. */
  lemma SigningOwnerLabels(owner: Octets, count: nat)
    requires WellFormed(owner)
    ensures WellFormed(SigningOwner(owner, count))
    ensures LabelsOf(SigningOwner(owner, count)) == SignedUnder(LabelsOf(owner), count)
  {
    hide StripDots, Split, WireName, EncodeLabels;
    var ls := LabelsOf(owner);
    WireNameOfLabels(owner);
    WildcardStart(owner);
    if count < |ls| && !StartsWithWildcard(owner) {
      var tail := ls[|ls| - count..];
      assert forall i :: 0 <= i < |tail| ==> tail[i] == ls[|ls| - count + i];
      WildcardTextLabels(tail);
      if ls[0] == ASTERISK {
        BareAsterisk();
      }
    }
  }

  // ---------------------------------------------------------- honest counts

  /** RFC 4034, section 3.1.3: an asterisk in front is not counted. */
  function RfcLabelCount(ls: Labels): nat {
    if ls != [] && ls[0] == ASTERISK then |ls| - 1 else |ls|
  }

  lemma {:induction false} NotAsteriskCount(ls: Labels)
    ensures |NotAsterisk(ls)| <= |ls|
    ensures |NotAsterisk(ls)| == |ls| <==> !HasAsterisk(ls)
  {
    if ls != [] {
      NotAsteriskCount(ls[1..]);
      if HasAsterisk(ls) {
        var i :| 0 <= i < |ls| && ls[i] == ASTERISK;
        if i > 0 { assert ls[1..][i - 1] == ASTERISK; }
      } else {
        assert !HasAsterisk(ls[1..]);
        assert ls[0] != ASTERISK;
      }
    }
  }

  /**
   `signed_label_count` drops every asterisk where the RFC drops a leading
   one: the two agree exactly when no asterisk is further in.
   */
  lemma LabelCountIsRfcsIff(owner: Octets)
    ensures var ls := LabelsOf(owner);
            SignedLabelCount(owner) == RfcLabelCount(ls) <==> forall i :: 0 < i < |ls| ==> ls[i] != ASTERISK
  {
    var ls := LabelsOf(owner);
    if ls != [] {
      NotAsteriskCount(ls[1..]);
      assert forall i :: 0 < i < |ls| ==> ls[i] == ls[1..][i - 1];
    }
  }

  /** With its own honest count a name is signed under itself iff it has no asterisk or leads with one. */
  lemma HonestCountSignsOwnerIff(owner: Octets)
    requires WellFormed(owner)
    ensures var ls := LabelsOf(owner);
            SignedUnder(ls, SignedLabelCount(owner)) == ls
            <==> (HasAsterisk(ls) ==> ls[0] == ASTERISK)
  {
    NotAsteriskCount(LabelsOf(owner));
  }

  /** In text: `signing_owner` gives back the very owner, except under an asterisk further in, or a bare one. */
  lemma HonestCountReturnsOwnerIff(owner: Octets)
    ensures SigningOwner(owner, SignedLabelCount(owner)) == owner
            <==> (HasAsterisk(LabelsOf(owner)) ==> StartsWithWildcard(owner))
  {
    NotAsteriskCount(LabelsOf(owner));
  }

  /** `a.*.b.`: two labels counted where the RFC counts three, so it is signed as the wildcard `*.*.b.`. */
  lemma AnInnerAsterisk()
    ensures var owner: Octets := [97, DOT, STAR, DOT, 98, DOT];
            && LabelsOf(owner) == [[97], ASTERISK, [98]]
            && SignedLabelCount(owner) == 2 && RfcLabelCount(LabelsOf(owner)) == 3
            && LabelsOf(SigningOwner(owner, SignedLabelCount(owner))) == [ASTERISK, ASTERISK, [98]]
  {
    hide LabelsOf, WellFormed, WireName, StripDots, Split;
    var owner: Octets := [97, DOT, STAR, DOT, 98, DOT];
    var ls: Labels := [[97], ASTERISK, [98]];
    assert Join(ls[2..]) == [98] && Join(ls[1..]) == [STAR, DOT, 98];
    assert Join(ls) + [DOT] == owner;
    LabelsOfJoin(ls);
    assert [97] != ASTERISK && [98] != ASTERISK;
    assert ls[1..][1..] == [[98]] && [[98]][1..] == [];
    assert NotAsterisk([[98]]) == [[98]] + NotAsterisk([]);
    assert NotAsterisk(ls) == [[97]] + NotAsterisk([[98]]);
    SigningOwnerLabels(owner, 2);
  }

  // ---------------------------------------------------------- the fields and their reader

  /** Everything the signed octets speak of, names lowercased. */
  datatype Signed = Signed(
    covered: u16,
    algorithm: byte,
    labels: byte,
    window: Window,
    tag: u16,
    signer: Labels,
    owner: Labels,
    rdatas: set<Octets>)

  predicate Lawful(c: Call) {
    Signable(c) && WellFormed(Signer(c)) && WellFormed(Owner(c))
  }

  function Fields(c: Call): Signed
    requires Lawful(c)
  {
    Signed(CoveredType(c), c.key.algorithm, LabelCount(c), Validity(c), TagOf(c.key),
           LowerAll(LabelsOf(Signer(c))),
           LowerAll(SignedUnder(LabelsOf(Owner(c)), LabelCount(c))),
           Elements(RdatasOf(c.rrset)))
  }

  function ReadToEnd(m: Octets, off: nat): Option<seq<Record>>
    decreases |m| - off
  {
    if off == |m| then Some([])
    else
      var first :- ReadRecord(m, off);
      var rest :- ReadToEnd(m, first.1);
      Some([first.0] + rest)
  }

  function RdatasRead(rs: seq<Record>): set<Octets> {
    set r | r in rs :: r.rdata
  }

  /** A reader that sees nothing but the octets. */
  function ReadSigned(m: Octets): Option<Signed> {
    if |m| < 18 then None
    else
      var signer :- ReadName(m, 18, 18);
      var records :- ReadToEnd(m, signer.1);
      if records == [] then None
      else Some(Signed(ReadU16(m, 0), m[2], m[3], Window(ReadU32(m, 12), ReadU32(m, 8)), ReadU16(m, 16),
                       signer.0, records[0].owner, RdatasRead(records)))
  }

  lemma {:induction false} ReadToEndFinds(m: Octets, off: nat, rs: seq<WireRecord>)
    requires At(m, off, EncodeRecords(rs)) && off + |EncodeRecords(rs)| == |m|
    ensures ReadToEnd(m, off) == Some(rs)
    decreases rs
  {
    hide ReadRecord, EncodeRecord;
    if rs != [] {
      var first, rest := rs[0], rs[1..];
      assert rs == [first] + rest;
      AtSplit(m, off, EncodeRecord(first), EncodeRecords(rest));
      ReadRecordFinds(m, off, first);
      ReadToEndFinds(m, off + |EncodeRecord(first)|, rest);
    }
  }

  /** The record of the canonical set that carries `rdata`. */
  function CanonicalRecord(c: Call, rdata: Octets): WireRecord
    requires Lawful(c) && |rdata| < 0x1_0000
  {
    var owner := SignedUnder(LabelsOf(Owner(c)), LabelCount(c));
    assert ValidLabels(LowerAll(owner)) by {
      SigningOwnerLabels(Owner(c), LabelCount(c));
      CanonicalOfLabels(SigningOwner(Owner(c), LabelCount(c)));
    }
    Record(LowerAll(owner), CoveredType(c), CLASS_IN, TTL, rdata)
  }

  function CanonicalRecords(c: Call, rdatas: seq<Octets>): (r: seq<WireRecord>)
    requires Lawful(c) && AllShort(rdatas)
    ensures |r| == |rdatas|
  {
    seq(|rdatas|, i requires 0 <= i < |rdatas| => CanonicalRecord(c, rdatas[i]))
  }

  lemma BodyRecordIsRecord(c: Call, rdata: Octets)
    requires Lawful(c) && |rdata| < 0x1_0000
    ensures BodyRecord(c, rdata) == EncodeRecord(CanonicalRecord(c, rdata))
  {
    SigningOwnerLabels(Owner(c), LabelCount(c));
    CanonicalOfLabels(SigningOwner(Owner(c), LabelCount(c)));
    var name := CanonicalName(SigningOwner(Owner(c), LabelCount(c)));
    var r := CanonicalRecord(c, rdata);
    assert name == EncodeName(r.owner);
    assert BodyRecord(c, rdata) == name + EncodeAfterOwner(r);
  }

  lemma {:induction false} BodyIsRecords(c: Call, rdatas: seq<Octets>)
    requires Lawful(c) && AllShort(rdatas)
    ensures Body(c, rdatas) == EncodeRecords(CanonicalRecords(c, rdatas))
    decreases rdatas
  {
    hide BodyRecord, EncodeRecord, CanonicalRecord;
    if rdatas != [] {
      var n := |rdatas| - 1;
      BodyIsRecords(c, rdatas[..n]);
      BodyRecordIsRecord(c, rdatas[n]);
      var front := CanonicalRecords(c, rdatas[..n]);
      EncodeRecordsAppend(front, CanonicalRecord(c, rdatas[n]));
      assert CanonicalRecords(c, rdatas) == front + [CanonicalRecord(c, rdatas[n])];
    }
  }

  /** The fixed part of the prefix is read back field by field. */
  lemma ReadPrefix(c: Call, m: Octets)
    requires Signable(c) && At(m, 0, Prefix(c))
    ensures |m| >= 18 && |Prefix(c)| == 18 + |CanonicalName(Signer(c))|
    ensures ReadU16(m, 0) == CoveredType(c) && m[2] == c.key.algorithm && m[3] == LabelCount(c)
    ensures ReadU32(m, 4) == TTL && ReadU32(m, 8) == Validity(c).expiration && ReadU32(m, 12) == Validity(c).inception
    ensures ReadU16(m, 16) == TagOf(c.key) && At(m, 18, CanonicalName(Signer(c)))
  {
    hide TagOf, WireName;
    var f1 := U16(CoveredType(c));
    var f2 := f1 + [c.key.algorithm, LabelCount(c)];
    var f3 := f2 + U32(TTL);
    var f4 := f3 + U32(Validity(c).expiration);
    var f5 := f4 + U32(Validity(c).inception);
    var f6 := f5 + U16(TagOf(c.key));
    AtSplit(m, 0, f6, CanonicalName(Signer(c)));
    AtSplit(m, 0, f5, U16(TagOf(c.key)));
    AtSplit(m, 0, f4, U32(Validity(c).inception));
    AtSplit(m, 0, f3, U32(Validity(c).expiration));
    AtSplit(m, 0, f2, U32(TTL));
    AtSplit(m, 0, f1, [c.key.algorithm, LabelCount(c)]);
    AtU16(m, 0, CoveredType(c));
    AtU32(m, 4, TTL);
    AtU32(m, 8, Validity(c).expiration);
    AtU32(m, 12, Validity(c).inception);
    AtU16(m, 16, TagOf(c.key));
    assert m[2] == m[2..4][0] && m[3] == m[2..4][1];
  }

  lemma CanonicalRdatas(c: Call, rdatas: seq<Octets>)
    requires Lawful(c) && AllShort(rdatas)
    ensures RdatasRead(CanonicalRecords(c, rdatas)) == Elements(rdatas)
  {
    var rs := CanonicalRecords(c, rdatas);
    forall x | x in rdatas ensures x in RdatasRead(rs) {
      var i :| 0 <= i < |rdatas| && rdatas[i] == x;
      assert rs[i] in rs && rs[i].rdata == x;
    }
  }

  /** The canonical set as records, in the order they are signed. */
  lemma BodyReads(c: Call, m: Octets) returns (rs: seq<WireRecord>)
    requires Lawful(c) && m == SigningInput(c)
    ensures ReadToEnd(m, |Prefix(c)|) == Some(rs) && RdatasRead(rs) == Fields(c).rdatas
    ensures rs != [] && rs[0].owner == Fields(c).owner
  {
    hide Prefix, Body, TagOf, SortedUnique, ReadToEnd, EncodeRecord;
    SortedStaysShort(c);
    var rdatas := SortedUnique(RdatasOf(c.rrset));
    SortedUniqueSorts(RdatasOf(c.rrset));
    assert RdatasOf(c.rrset)[0] in Elements(rdatas);
    rs := CanonicalRecords(c, rdatas);
    BodyIsRecords(c, rdatas);
    AtSplit(m, 0, Prefix(c), EncodeRecords(rs));
    ReadToEndFinds(m, |Prefix(c)|, rs);
    CanonicalRdatas(c, rdatas);
    assert rs[0] == CanonicalRecord(c, rdatas[0]);
  }

  /** The signed octets are uniquely decodable: reading them gives back every field. */
  lemma SigningInputIsDecodable(c: Call)
    requires Lawful(c)
    ensures ReadSigned(SigningInput(c)) == Some(Fields(c))
  {
    hide ReadName, Prefix, Body, TagOf, ReadToEnd, SortedUnique, EncodeName;
    var m := SigningInput(c);
    var rs := BodyReads(c, m);
    SortedStaysShort(c);
    AtSplit(m, 0, Prefix(c), Body(c, SortedUnique(RdatasOf(c.rrset))));
    ReadPrefix(c, m);
    CanonicalOfLabels(Signer(c));
    ReadNameFinds(m, 18, 18, LowerAll(LabelsOf(Signer(c))));
  }

  /**
   Two calls hand the key the same octets iff covered type, algorithm, Labels,
   window, tag, lowercased signer and signing owner, and the set of RDATA agree.
   */
  lemma SameInputIffSameFields(c: Call, d: Call)
    requires Lawful(c) && Lawful(d)
    ensures SigningInput(c) == SigningInput(d) <==> Fields(c) == Fields(d)
  {
    SigningInputIsDecodable(c);
    SigningInputIsDecodable(d);
    if Fields(c) == Fields(d) { SameFieldsSameInput(c, d); }
  }

  lemma SameFieldsSameInput(c: Call, d: Call)
    requires Lawful(c) && Lawful(d) && Fields(c) == Fields(d)
    ensures SigningInput(c) == SigningInput(d)
  {
    hide TagOf;
    SortedStaysShort(c);
    SortedStaysShort(d);
    CanonicalOfLabels(Signer(c));
    CanonicalOfLabels(Signer(d));
    assert Prefix(c) == Prefix(d);
    SortedUniqueOfSet(RdatasOf(c.rrset), RdatasOf(d.rrset));
    var rdatas := SortedUnique(RdatasOf(c.rrset));
    BodyIsRecords(c, rdatas);
    BodyIsRecords(d, rdatas);
    assert CanonicalRecords(c, rdatas) == CanonicalRecords(d, rdatas);
  }

  // ---------------------------------------------------------- what a reader of an RRSIG sees

  /** The fields of RRSIG RDATA (section 3.1 of RFC 4034), and what follows them. */
  datatype Rrsig = Rrsig(
    covered: u16,
    algorithm: byte,
    labels: byte,
    ttl: u32,
    expiration: u32,
    inception: u32,
    tag: u16,
    signer: Labels,
    rest: Octets)

  function ReadRrsig(m: Octets): Option<Rrsig> {
    if |m| < 18 then None
    else
      var signer :- ReadName(m, 18, 18);
      Some(Rrsig(ReadU16(m, 0), m[2], m[3], ReadU32(m, 4), ReadU32(m, 8), ReadU32(m, 12), ReadU16(m, 16),
                 signer.0, m[signer.1..]))
  }

  /** Each field is the argument given, and where none was given the truth about the RRset, the key and the fixtures. */
  predicate States(r: Rrsig, c: Call)
    requires c.rrset != []
  {
    var first := c.rrset[0];
    && r.covered == (if c.covered.Some? then c.covered.value else first.rtype)
    && r.algorithm == c.key.algorithm
    && r.labels == (if c.labels.Some? then c.labels.value else SignedLabelCount(first.name))
    && r.ttl == 3600
    && r.expiration == (if c.window.Some? then c.window.value.expiration else 1785664800 + 86400 * 3650)
    && r.inception == (if c.window.Some? then c.window.value.inception else 1785664800 - 86400 * 30)
    && r.tag == TagOf(c.key)
    && r.signer == LowerAll(LabelsOf(if c.signer.Some? then c.signer.value else c.key.zone))
  }

  lemma PrefixReads(c: Call, rest: Octets)
    requires Lawful(c)
    ensures var r := ReadRrsig(Prefix(c) + rest);
            r.Some? && States(r.value, c) && r.value.rest == rest
  {
    hide ReadName, TagOf, WireName, LabelsOf, LowerAll, EncodeName, SignedLabelCount, SigningOwner, WellFormed,
         Encodable;
    var m := Prefix(c) + rest;
    assert At(m, 0, Prefix(c));
    ReadPrefix(c, m);
    CanonicalOfLabels(Signer(c));
    hide Prefix, At, ReadU16, ReadU32;
    ReadNameFinds(m, 18, 18, LowerAll(LabelsOf(Signer(c))));
    assert m[|Prefix(c)|..] == rest;
  }

  /**
   The RRSIG `sign` returns, as a reader sees it: published under the RRset's
   owner, every field as given or as true, and the signature after them.
   */
  lemma RrsigReads(c: Call, ed25519: Octets -> Octets)
    requires Lawful(c)
    ensures var rr := SignOf(c, ed25519);
            && rr.name == c.rrset[0].name && rr.rtype == 46 && rr.ttl == 3600
            && ReadRrsig(rr.rdata).Some? && States(ReadRrsig(rr.rdata).value, c)
            && ReadRrsig(rr.rdata).value.rest == ed25519(SigningInput(c))
  {
    hide Prefix, ReadRrsig, States, SigningInput;
    PrefixReads(c, ed25519(SigningInput(c)));
  }

  /** The count stated where none is given is the RFC's, for every owner with no asterisk further in. */
  lemma StatedCountIsRfcs(c: Call, r: Rrsig)
    requires c.rrset != [] && States(r, c) && c.labels.None?
    requires var ls := LabelsOf(c.rrset[0].name); forall i :: 0 < i < |ls| ==> ls[i] != ASTERISK
    ensures r.labels == RfcLabelCount(LabelsOf(c.rrset[0].name))
  {
    LabelCountIsRfcsIff(c.rrset[0].name);
  }

  /** One record of the canonical set, as it is signed. */
  predicate IsCanonical(record: Record, r: Rrsig, name: Octets) {
    && record.owner == LowerAll(SignedUnder(LabelsOf(name), r.labels))
    && record.rtype == r.covered && record.rclass == 1 && record.ttl == 3600
  }

  ghost predicate CarriedBy(x: Octets, rs: seq<Record>) {
    exists k :: 0 <= k < |rs| && rs[k].rdata == x
  }

  ghost predicate RdataOf(x: Octets, rrset: seq<RR>) {
    exists i :: 0 <= i < |rrset| && rrset[i].rdata == x
  }

  ghost predicate AscendingRdata(rs: seq<Record>) {
    forall j, k :: 0 <= j < k < |rs| ==> Less(rs[j].rdata, rs[k].rdata)
  }

  lemma StatedFields(c: Call, r: Rrsig)
    requires c.rrset != [] && States(r, c)
    ensures r.covered == CoveredType(c) && r.labels == LabelCount(c)
  {
    hide TagOf, LowerAll, LabelsOf, SignedLabelCount;
  }

  lemma CanonicalRecordIs(c: Call, r: Rrsig, rdata: Octets)
    requires Lawful(c) && |rdata| < 0x1_0000 && States(r, c)
    ensures IsCanonical(CanonicalRecord(c, rdata), r, c.rrset[0].name) && CanonicalRecord(c, rdata).rdata == rdata
  {
    hide States, LabelsOf, SignedUnder, LowerAll;
    StatedFields(c, r);
  }

  lemma CanonicalSet(c: Call, rdatas: seq<Octets>, rs: seq<Record>)
    requires Ascending(rdatas) && Elements(rdatas) == Elements(RdatasOf(c.rrset)) && |rs| == |rdatas|
    requires forall k :: 0 <= k < |rs| ==> rs[k].rdata == rdatas[k]
    ensures AscendingRdata(rs)
    ensures forall x :: CarriedBy(x, rs) <==> RdataOf(x, c.rrset)
  {
    hide Less;
    forall x ensures CarriedBy(x, rs) <==> RdataOf(x, c.rrset) {
      assert CarriedBy(x, rs) <==> x in Elements(rdatas) by {
        if x in rdatas { var k :| 0 <= k < |rdatas| && rdatas[k] == x; assert rs[k].rdata == x; }
      }
      assert RdataOf(x, c.rrset) <==> x in Elements(RdatasOf(c.rrset)) by {
        if i :| 0 <= i < |c.rrset| && c.rrset[i].rdata == x { assert RdatasOf(c.rrset)[i] == x; }
      }
    }
  }

  lemma BodyReadsAlone(c: Call, rdatas: seq<Octets>)
    requires Lawful(c) && AllShort(rdatas)
    ensures ReadToEnd(Body(c, rdatas), 0) == Some(CanonicalRecords(c, rdatas))
  {
    hide Body, ReadToEnd, EncodeRecords, CanonicalRecord;
    BodyIsRecords(c, rdatas);
    AtWhole(Body(c, rdatas));
    ReadToEndFinds(Body(c, rdatas), 0, CanonicalRecords(c, rdatas));
  }

  /**
   The octets handed to the key, as a reader sees them: the same fields, and
   then the RRset in canonical form and order, each RDATA once
   (sections 3.1.8.1 and 6.3 of RFC 4034).
   */
  lemma SignedOctetsRead(c: Call) returns (r: Rrsig, rs: seq<Record>)
    requires Lawful(c)
    ensures ReadRrsig(SigningInput(c)) == Some(r) && States(r, c) && ReadToEnd(r.rest, 0) == Some(rs)
    ensures forall k :: 0 <= k < |rs| ==> IsCanonical(rs[k], r, c.rrset[0].name)
    ensures AscendingRdata(rs)
    ensures forall x :: CarriedBy(x, rs) <==> RdataOf(x, c.rrset)
  {
    var rdatas := SortedUnique(RdatasOf(c.rrset));
    SortedStaysShort(c);
    hide Prefix, Body, ReadRrsig, ReadToEnd, States, CanonicalRecord, IsCanonical, CarriedBy, RdataOf, SortedUnique;
    PrefixReads(c, Body(c, rdatas));
    r := ReadRrsig(SigningInput(c)).value;
    BodyReadsAlone(c, rdatas);
    rs := CanonicalRecords(c, rdatas);
    forall k | 0 <= k < |rs| ensures IsCanonical(rs[k], r, c.rrset[0].name) && rs[k].rdata == rdatas[k] {
      CanonicalRecordIs(c, r, rdatas[k]);
    }
    SortedUniqueSorts(RdatasOf(c.rrset));
    CanonicalSet(c, rdatas, rs);
  }

  // ---------------------------------------------------------- what a short Labels field lets through

  /** The two calls differ in nothing signed but, perhaps, the owner. */
  predicate SameButOwner(c: Call, d: Call)
    requires Lawful(c) && Lawful(d)
  {
    Fields(c).(owner := []) == Fields(d).(owner := [])
  }

  function Tail(ls: Labels, n: nat): Labels
    requires n <= |ls|
  {
    ls[|ls| - n..]
  }

  predicate Expands(c: Call)
    requires Lawful(c)
  {
    var ls := LabelsOf(Owner(c));
    LabelCount(c) < |ls| && ls[0] != ASTERISK
  }

  /** A signature whose Labels field is short moves to any name with the same last labels. */
  lemma ShortLabelsMove(c: Call, d: Call)
    requires Lawful(c) && Lawful(d) && SameButOwner(c, d) && Expands(c) && Expands(d)
    ensures SigningInput(c) == SigningInput(d) <==>
            LowerAll(Tail(LabelsOf(Owner(c)), LabelCount(c))) == LowerAll(Tail(LabelsOf(Owner(d)), LabelCount(d)))
  {
    SameInputIffSameFields(c, d);
    LowerSignedUnder(c);
    LowerSignedUnder(d);
    var a := LowerAll(Tail(LabelsOf(Owner(c)), LabelCount(c)));
    var b := LowerAll(Tail(LabelsOf(Owner(d)), LabelCount(d)));
    assert a == ([ASTERISK] + a)[1..] && b == ([ASTERISK] + b)[1..];
  }

  lemma LowerSignedUnder(c: Call)
    requires Lawful(c) && Expands(c)
    ensures Fields(c).owner == [ASTERISK] + LowerAll(Tail(LabelsOf(Owner(c)), LabelCount(c)))
  {
    var ls := LabelsOf(Owner(c));
    var tail := Tail(ls, LabelCount(c));
    assert Lower(ASTERISK) == ASTERISK;
    assert LowerAll([ASTERISK] + tail) == [ASTERISK] + LowerAll(tail);
  }

  /**
   Those octets are the ones the wildcard above signs: whatever text spells
   that wildcard, in whatever case, its own honest signature is over them.
   */
  lemma ShortLabelsAreTheWildcards(c: Call, wild: Call)
    requires Lawful(c) && Expands(c)
    requires Lawful(wild) && wild.labels.None? && SameButOwner(c, wild)
    requires var ls := LabelsOf(Owner(wild));
             && ls != [] && ls[0] == ASTERISK && !HasAsterisk(ls[1..])
             && LowerAll(Tail(LabelsOf(Owner(c)), LabelCount(c))) == LowerAll(ls[1..])
    ensures LabelCount(wild) == |LabelsOf(Owner(wild))| - 1 && SigningInput(c) == SigningInput(wild)
  {
    hide WireName, LabelsOf, TagOf, SigningInput, WellFormed;
    var ls := LabelsOf(Owner(wild));
    NotAsteriskCount(ls[1..]);
    LowerSignedUnder(c);
    LowerLeading(ls);
    SameInputIffSameFields(c, wild);
  }

  lemma LowerLeading(ls: Labels)
    requires ls != [] && ls[0] == ASTERISK
    ensures LowerAll(ls) == [ASTERISK] + LowerAll(ls[1..])
  {
    assert Lower(ASTERISK) == ASTERISK;
  }

  predicate Honest(c: Call)
    requires c.rrset != []
  {
    var ls := LabelsOf(Owner(c));
    c.labels.None? && (HasAsterisk(ls) ==> ls[0] == ASTERISK)
  }

  /** An honest signature pins its owner: two owners that share one are the same name. */
  lemma HonestSignaturePinsOwner(c: Call, d: Call)
    requires Lawful(c) && Lawful(d) && Honest(c) && Honest(d)
    requires SigningInput(c) == SigningInput(d)
    ensures LowerAll(LabelsOf(Owner(c))) == LowerAll(LabelsOf(Owner(d)))
  {
    SameInputIffSameFields(c, d);
    HonestCountSignsOwnerIff(Owner(c));
    HonestCountSignsOwnerIff(Owner(d));
  }
}
