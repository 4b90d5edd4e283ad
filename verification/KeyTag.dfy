/**
 DNSKEY RDATA, the checksum that serves as its key tag (RFC 4034 appendix B),
 and how the REVOKE flag of RFC 5011 moves it.
 */
module KeyTag {
  import opened Bytes

  /** A zone key; signing itself is not part of the model. */
  datatype Key = Key(zone: Octets, flags: u16, protocol: byte, algorithm: byte, pub: Octets)

  function Rdata(k: Key): Octets {
    U16(k.flags) + [k.protocol, k.algorithm] + k.pub
  }

  /** Section 2.1 of RFC 4034: flags, protocol, algorithm, then the public key. */
  lemma RdataIs(k: Key)
    ensures var m := Rdata(k);
            && |m| == 4 + |k.pub| && ReadU16(m, 0) == k.flags && m[2] == k.protocol && m[3] == k.algorithm
            && m[4..] == k.pub
  {
  }

  /** RFC 4034 appendix B: the RDATA as big-endian 16-bit words, an odd last octet the high half. */
  function WordSum(s: Octets): nat {
    if s == [] then 0
    else if |s| == 1 then s[0] as nat * 0x100
    else ReadU16(s, 0) as nat + WordSum(s[2..])
  }

  /** The carries out of the low 16 bits are added back once. */
  function FoldCarries(acc: nat): u16 {
    (acc + acc / 0x1_0000 % 0x1_0000) % 0x1_0000
  }

  function TagOf(k: Key): u16 {
    FoldCarries(WordSum(Rdata(k)))
  }

  method Tag(k: Key) returns (tag: u16)
    ensures tag == TagOf(k)
  {
    hide Rdata, WordSum;
    var acc := SumOctets(Rdata(k));
    acc := acc + acc / 0x1_0000 % 0x1_0000;
    tag := acc % 0x1_0000;
  }

  /** The octet loop of `tag`: even positions weigh 256, odd positions 1. */
  method SumOctets(rdata: Octets) returns (acc: nat)
    ensures acc == WordSum(rdata)
  {
    hide OctetSum, WordSum;
    acc := 0;
    OctetSumStarts(rdata);
    for i := 0 to |rdata|
      invariant acc == OctetSum(rdata[..i])
    {
      OctetSumGrows(rdata, i);
      acc := acc + if i % 2 == 0 then rdata[i] as nat * 0x100 else rdata[i];
    }
    assert rdata[..|rdata|] == rdata;
    OctetSumIsWordSum(rdata);
  }

  lemma OctetSumStarts(s: Octets)
    ensures OctetSum(s[..0]) == 0
  {
  }

  lemma OctetSumGrows(s: Octets, i: nat)
    requires i < |s|
    ensures OctetSum(s[..i + 1]) == OctetSum(s[..i]) + if i % 2 == 0 then s[i] as nat * 0x100 else s[i]
  {
    assert s[..i + 1][..i] == s[..i];
  }

  /** The sum octet by octet, from the front. */
  ghost function OctetSum(s: Octets): nat {
    if s == [] then 0
    else
      var n := |s| - 1;
      OctetSum(s[..n]) + if n % 2 == 0 then s[n] as nat * 0x100 else s[n]
  }

  lemma {:induction false} OctetSumIsWordSum(s: Octets)
    ensures OctetSum(s) == WordSum(s)
  {
    if |s| >= 2 {
      OctetSumFront(s);
      OctetSumIsWordSum(s[2..]);
    } else if |s| == 1 {
      assert s[..0] == [];
    }
  }

  lemma {:induction false} OctetSumFront(s: Octets)
    requires |s| >= 2
    ensures OctetSum(s) == ReadU16(s, 0) as nat + OctetSum(s[2..])
  {
    var n := |s| - 1;
    if |s| == 2 {
      assert s[..1][..0] == [] && s[2..] == [];
      assert OctetSum(s[..1]) == s[0] as nat * 0x100;
    } else {
      OctetSumFront(s[..n]);
      assert s[..n][2..] == s[2..][..n - 2];
      assert s[2..][n - 2] == s[n] && n % 2 == (n - 2) % 2;
    }
  }

  // ---------------------------------------------------------- what the tag is a checksum of

  lemma {:induction false} WordSumBound(s: Octets)
    ensures WordSum(s) <= (|s| + 1) / 2 * 0xFFFF
  {
    if |s| >= 2 { WordSumBound(s[2..]); }
  }

  /**
   The tag is the sum of the RDATA's words modulo 65535, as a one's complement
   sum is, exactly when adding the carries back carries no more; where it
   does, the tag falls one short of it.
   */
  lemma TagIsSumModulo(k: Key)
    requires |Rdata(k)| < 0x1_0000
    ensures var sum := WordSum(Rdata(k));
            var again := sum / 0x1_0000 + sum % 0x1_0000 >= 0x1_0000;
            && (TagOf(k) % 0xFFFF == sum % 0xFFFF <==> !again)
            && (again ==> (TagOf(k) + 1) % 0xFFFF == sum % 0xFFFF)
  {
    hide Rdata, WordSum;
    WordSumBound(Rdata(k));
    FoldIsModulo(WordSum(Rdata(k)));
  }

  lemma WholeTurns(n: nat, turns: nat)
    ensures (n + turns * 0xFFFF) % 0xFFFF == n % 0xFFFF
  {
  }

  lemma NextDiffers(n: nat)
    ensures n % 0xFFFF != (n + 1) % 0xFFFF
  {
  }

  lemma FoldIs(high: nat, low: nat)
    requires high < 0x1_0000 && low < 0x1_0000
    ensures FoldCarries(high * 0x1_0000 + low) == if high + low < 0x1_0000 then high + low else high + low - 0x1_0000
  {
    var sum := high * 0x1_0000 + low;
    assert sum / 0x1_0000 == high && high % 0x1_0000 == high;
  }

  lemma FoldIsModulo(sum: nat)
    requires sum <= 0x8000 * 0xFFFF
    ensures var again := sum / 0x1_0000 + sum % 0x1_0000 >= 0x1_0000;
            && (FoldCarries(sum) % 0xFFFF == sum % 0xFFFF <==> !again)
            && (again ==> (FoldCarries(sum) + 1) % 0xFFFF == sum % 0xFFFF)
  {
    hide FoldCarries;
    var high, low := sum / 0x1_0000, sum % 0x1_0000;
    FoldIs(high, low);
    assert sum == (high + low) + high * 0xFFFF;
    WholeTurns(high + low, high);
    if high + low >= 0x1_0000 {
      var folded: nat := high + low - 0x1_0000;
      WholeTurns(folded + 1, 1);
      NextDiffers(folded);
    }
  }

  // ---------------------------------------------------------- the REVOKE flag

  const REVOKE: nat := 0x80

  function Revoked(k: Key): Key {
    var flags := BitOr(k.flags, REVOKE);
    assert flags < 0x1_0000 by { RevokeStaysShort(k.flags); }
    k.(flags := flags)
  }

  lemma RevokeStaysShort(flags: u16)
    ensures BitOr(flags, REVOKE) < 0x1_0000
  {
    assert Pow2(16) == 0x1_0000 by { PowersOfTwo(); }
    BitOrBound(flags, REVOKE, 16);
  }

  lemma PowersOfTwo()
    ensures Pow2(7) == 0x80 && Pow2(8) == 0x100 && Pow2(16) == 0x1_0000
  {
  }

  lemma {:induction false} OrClearBit(a: nat, k: nat)
    requires !Bit(a, k)
    ensures BitOr(a, Pow2(k)) == a + Pow2(k)
  {
    if a != 0 && k > 0 {
      assert Pow2(k) / 2 == Pow2(k - 1) && Pow2(k) % 2 == 0;
      OrClearBit(a / 2, k - 1);
    }
  }

  /**
   Revoking a key that was not revoked moves its tag by 128, or by 129 when
   the addition carries out of the low 16 bits of the sum; so the tag changes.
   */
  lemma RevokingMovesTheTag(k: Key)
    requires !Bit(k.flags, 7)
    ensures Revoked(k).flags == k.flags + REVOKE
    ensures var carry := if WordSum(Rdata(k)) % 0x1_0000 >= 0x1_0000 - REVOKE then 1 else 0;
            TagOf(Revoked(k)) == (TagOf(k) + REVOKE + carry) % 0x1_0000
    ensures TagOf(Revoked(k)) != TagOf(k)
  {
    hide Rdata, WordSum, FoldCarries, BitOr, Bit;
    PowersOfTwo();
    OrClearBit(k.flags, 7);
    SumOfRdata(k);
    SumOfRdata(Revoked(k));
    assert WordSum(Rdata(Revoked(k))) == WordSum(Rdata(k)) + REVOKE;
    FoldAfterAdding(WordSum(Rdata(k)));
    AddingMoves(TagOf(k), REVOKE + if WordSum(Rdata(k)) % 0x1_0000 >= 0x1_0000 - REVOKE then 1 else 0);
  }

  /** The flags are the first word of the sum. */
  lemma SumOfRdata(k: Key)
    ensures WordSum(Rdata(k)) == k.flags + WordSum([k.protocol, k.algorithm] + k.pub)
  {
    var r := Rdata(k);
    assert r[2..] == [k.protocol, k.algorithm] + k.pub;
    assert ReadU16(r, 0) == k.flags;
  }

  lemma AddingMoves(tag: u16, d: nat)
    requires 0 < d < 0x1_0000
    ensures (tag + d) % 0x1_0000 != tag
  {
  }

  lemma FoldAfterAdding(sum: nat)
    ensures var carry := if sum % 0x1_0000 >= 0x1_0000 - REVOKE then 1 else 0;
            FoldCarries(sum + REVOKE) == (FoldCarries(sum) + REVOKE + carry) % 0x1_0000
  {
    var high, low := sum / 0x1_0000, sum % 0x1_0000;
    var carry := if low >= 0x1_0000 - REVOKE then 1 else 0;
    assert (sum + REVOKE) / 0x1_0000 == high + carry;
    AddMod(sum, high);
    AddMod(sum + REVOKE, high + carry);
    AddMod(REVOKE + carry, sum + high);
  }

  lemma AddMod(a: nat, b: nat)
    ensures (a + b % 0x1_0000) % 0x1_0000 == (a + b) % 0x1_0000
  {
    assert a + b == a + b % 0x1_0000 + b / 0x1_0000 * 0x1_0000;
  }
}
