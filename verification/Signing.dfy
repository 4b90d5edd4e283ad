/**
 RRSIG signing: the octets handed to the key and the owner name inside them
 (RFC 4034 sections 3.1.3, 3.1.8.1 and 6.3; RFC 4035, wildcard expansion in
 section 5.3.2).
 */
module Signing {
  import opened Wrappers
  import opened Bytes
  import opened Names
  import opened Reader
  import opened Records
  import opened KeyTag

  const FIXTURE_TIME: nat := 1785664800
  const INCEPTION: u32 := FIXTURE_TIME - 86400 * 30
  const EXPIRATION: u32 := FIXTURE_TIME + 86400 * 3650
  const RRSIG: u16 := 46

  datatype Window = Window(inception: u32, expiration: u32)

  /** The arguments of `sign`; `None` is an argument left out. */
  datatype Call = Call(
    rrset: seq<RR>,
    key: Key,
    signer: Option<Octets>,
    labels: Option<nat>,
    covered: Option<u16>,
    window: Option<Window>)

  // ---------------------------------------------------------- owner names

  const ASTERISK: Octets := [STAR]

  function NotAsterisk(ls: Labels): Labels {
    if ls == [] then []
    else if ls[0] == ASTERISK then NotAsterisk(ls[1..])
    else [ls[0]] + NotAsterisk(ls[1..])
  }

  /** `signed_label_count`: how many labels are not an asterisk, wherever one stands. */
  function SignedLabelCount(owner: Octets): nat {
    |NotAsterisk(LabelsOf(owner))|
  }

  predicate StartsWithWildcard(t: Octets) {
    |t| >= 2 && t[0] == STAR && t[1] == DOT
  }

  /** The presentation form of the wildcard under `ls`. */
  function WildcardText(ls: Labels): Octets {
    [STAR, DOT] + Join(ls) + [DOT]
  }

  /** `signing_owner`: the wildcard over the last `labels` labels where there are more, else the text itself. */
  function SigningOwner(owner: Octets, labels: nat): Octets {
    var parts := LabelsOf(owner);
    if labels >= |parts| || StartsWithWildcard(owner) then owner
    else WildcardText(parts[|parts| - labels..])
  }

  // ---------------------------------------------------------- the signed octets

  function Owner(c: Call): Octets
    requires c.rrset != []
  {
    c.rrset[0].name
  }

  function Signer(c: Call): Octets {
    c.signer.GetOr(c.key.zone)
  }

  function CoveredType(c: Call): u16
    requires c.rrset != []
  {
    c.covered.GetOr(c.rrset[0].rtype)
  }

  function LabelCount(c: Call): nat
    requires c.rrset != []
  {
    c.labels.GetOr(SignedLabelCount(Owner(c)))
  }

  function Validity(c: Call): Window {
    c.window.GetOr(Window(INCEPTION, EXPIRATION))
  }

  function RdatasOf(rrset: seq<RR>): (r: seq<Octets>)
    ensures |r| == |rrset|
  {
    seq(|rrset|, i requires 0 <= i < |rrset| => rrset[i].rdata)
  }

  /** What packing needs: a first record, one octet for Labels, lengths that fit. */
  predicate Signable(c: Call) {
    && c.rrset != []
    && LabelCount(c) < 0x100
    && (forall i :: 0 <= i < |c.rrset| ==> |c.rrset[i].rdata| < 0x1_0000)
    && Encodable(Signer(c))
    && Encodable(SigningOwner(Owner(c), LabelCount(c)))
  }

  /** RRSIG RDATA up to the signature. */
  function Prefix(c: Call): Octets
    requires Signable(c)
  {
    U16(CoveredType(c)) + [c.key.algorithm, LabelCount(c)] + U32(TTL)
    + U32(Validity(c).expiration) + U32(Validity(c).inception)
    + U16(TagOf(c.key)) + CanonicalName(Signer(c))
  }

  /** One record of the set in canonical form. */
  function BodyRecord(c: Call, rdata: Octets): Octets
    requires Signable(c) && |rdata| < 0x1_0000
  {
    CanonicalName(SigningOwner(Owner(c), LabelCount(c)))
    + U16(CoveredType(c)) + U16(CLASS_IN) + U32(TTL) + U16(|rdata|) + rdata
  }

  predicate AllShort(rdatas: seq<Octets>) {
    forall i :: 0 <= i < |rdatas| ==> |rdatas[i]| < 0x1_0000
  }

  function Body(c: Call, rdatas: seq<Octets>): Octets
    requires Signable(c) && AllShort(rdatas)
  {
    if rdatas == [] then []
    else
      var n := |rdatas| - 1;
      Body(c, rdatas[..n]) + BodyRecord(c, rdatas[n])
  }

  lemma SortedStaysShort(c: Call)
    requires Signable(c)
    ensures AllShort(SortedUnique(RdatasOf(c.rrset)))
  {
    var sorted := SortedUnique(RdatasOf(c.rrset));
    SortedUniqueSorts(RdatasOf(c.rrset));
    forall i | 0 <= i < |sorted| ensures |sorted[i]| < 0x1_0000 {
      assert sorted[i] in Elements(sorted);
    }
  }

  /** The octets handed to the key. */
  function SigningInput(c: Call): Octets
    requires Signable(c)
  {
    SortedStaysShort(c);
    Prefix(c) + Body(c, SortedUnique(RdatasOf(c.rrset)))
  }

  /** The fixed fields, each argument left out replaced by its truthful value. */
  method PackPrefix(c: Call) returns (prefix: Octets)
    requires Signable(c)
    ensures prefix == Prefix(c)
  {
    hide TagOf, WireName, Encodable, WellFormed, LabelsOf, SigningOwner, U32;
    var signer := if c.signer.Some? then c.signer.value else c.key.zone;
    var rtype := if c.covered.Some? then c.covered.value else c.rrset[0].rtype;
    var labels := if c.labels.Some? then c.labels.value else SignedLabelCount(c.rrset[0].name);
    var window := if c.window.Some? then c.window.value else Window(INCEPTION, EXPIRATION);
    var tag := Tag(c.key);
    LabelsOfLower(signer);
    var canonicalSigner := EncodeWireName(Lower(signer));
    prefix := U16(rtype) + [c.key.algorithm, labels] + U32(TTL)
    + U32(window.expiration) + U32(window.inception) + U16(tag) + canonicalSigner;
  }

  /** The record loop of `sign`, over the sorted set of RDATA. */
  method PackBody(c: Call) returns (body: Octets)
    requires Signable(c)
    ensures AllShort(SortedUnique(RdatasOf(c.rrset)))
    ensures body == Body(c, SortedUnique(RdatasOf(c.rrset)))
  {
    hide WireName, Encodable, WellFormed, LabelsOf, SigningOwner, U32;
    SortedStaysShort(c);
    var rtype := if c.covered.Some? then c.covered.value else c.rrset[0].rtype;
    var signOwner := SigningOwner(Owner(c), LabelCount(c));
    LabelsOfLower(signOwner);
    var sorted := SortedUnique(RdatasOf(c.rrset));
    body := [];
    for i := 0 to |sorted|
      invariant body == Body(c, sorted[..i])
    {
      var rdata := sorted[i];
      assert sorted[..i + 1][..i] == sorted[..i];
      var canonicalOwner := EncodeWireName(Lower(signOwner));
      var record := canonicalOwner + U16(rtype) + U16(CLASS_IN) + U32(TTL) + U16(|rdata|) + rdata;
      body := body + record;
    }
    assert sorted[..|sorted|] == sorted;
  }

  /** What `sign` returns, the key's signature over any octets being `ed25519`. */
  function SignOf(c: Call, ed25519: Octets -> Octets): RR
    requires Signable(c)
  {
    RR(Owner(c), RRSIG, Prefix(c) + ed25519(SigningInput(c)), TTL)
  }

  /** `sign` */
  method Sign(c: Call, ed25519: Octets -> Octets) returns (rrsig: RR)
    requires Signable(c)
    ensures rrsig == SignOf(c, ed25519)
  {
    var prefix := PackPrefix(c);
    var body := PackBody(c);
    rrsig := RR(c.rrset[0].name, RRSIG, prefix + ed25519(prefix + body), TTL);
  }
}
