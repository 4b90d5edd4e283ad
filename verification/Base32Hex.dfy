/**
 The base 32 encoding of section 7 of RFC 4648, taken through the bits of its
 input five at a time, with a decoder and the order the encoding keeps.
 */
module Base32Hex {
  import opened Bytes

  /** A bit as the integer it contributes. */
  type bit = b: int | 0 <= b < 2
  type Bits = seq<bit>

  // ---------------------------------------------------------- fixed-width digits and their bits

  /** `v` in `w` bits, most significant first. */
  function BitsOf(v: nat, w: nat): (r: Bits)
    requires v < Pow2(w)
    ensures |r| == w
  {
    if w == 0 then [] else BitsOf(v / 2, w - 1) + [v % 2]
  }

  /** `int(bits, 2)` */
  function ValueOf(bits: Bits): (v: nat)
    ensures v < Pow2(|bits|)
  {
    if bits == [] then 0
    else
      var n := |bits| - 1;
      2 * ValueOf(bits[..n]) + bits[n]
  }

  predicate Digits(s: seq<int>, w: nat) {
    forall i :: 0 <= i < |s| ==> 0 <= s[i] < Pow2(w)
  }

  /** `k` times `w`, by repeated addition. */
  function Times(k: nat, w: nat): nat {
    if k == 0 then 0 else w + Times(k - 1, w)
  }

  lemma {:induction false} TimesFiveAndEight(k: nat)
    ensures Times(k, 5) == 5 * k && Times(k, 8) == 8 * k
  {
    if k > 0 { TimesFiveAndEight(k - 1); }
  }

  /** The bits of all digits of width `w`, joined. */
  function Spread(s: seq<int>, w: nat): (r: Bits)
    requires Digits(s, w)
    ensures |r| == Times(|s|, w)
  {
    if s == [] then [] else
      assert Digits(s[1..], w);
      BitsOf(s[0], w) + Spread(s[1..], w)
  }

  /** The digits read from the bits, `w` at a time. */
  function Group(bits: Bits, w: nat): (r: seq<int>)
    requires w > 0
    ensures Digits(r, w)
  {
    if |bits| < w then [] else [ValueOf(bits[..w])] + Group(bits[w..], w)
  }

  lemma {:induction false} ValueOfBits(v: nat, w: nat)
    requires v < Pow2(w)
    ensures ValueOf(BitsOf(v, w)) == v
  {
    if w > 0 {
      assert BitsOf(v, w)[..w - 1] == BitsOf(v / 2, w - 1);
      ValueOfBits(v / 2, w - 1);
    }
  }

  lemma {:induction false} BitsOfValue(bits: Bits)
    ensures BitsOf(ValueOf(bits), |bits|) == bits
  {
    if bits != [] {
      var n := |bits| - 1;
      BitsOfValue(bits[..n]);
      assert ValueOf(bits) / 2 == ValueOf(bits[..n]) && ValueOf(bits) % 2 == bits[n];
      assert bits == bits[..n] + [bits[n]];
    }
  }

  lemma SpreadCons(d: int, rest: seq<int>, w: nat)
    requires 0 <= d < Pow2(w) && Digits(rest, w) && Digits([d] + rest, w)
    ensures Spread([d] + rest, w) == BitsOf(d, w) + Spread(rest, w)
  {
    assert ([d] + rest)[1..] == rest;
  }

  lemma GroupCons(head: Bits, rest: Bits, w: nat)
    requires w > 0 && |head| == w
    ensures Group(head + rest, w) == [ValueOf(head)] + Group(rest, w)
  {
    assert (head + rest)[..w] == head && (head + rest)[w..] == rest;
  }

  lemma {:induction false} GroupSpread(s: seq<int>, w: nat)
    requires w > 0 && Digits(s, w)
    ensures Group(Spread(s, w), w) == s
  {
    if s == [] {
      assert Spread(s, w) == [];
    } else {
      hide Spread, Group, BitsOf, ValueOf, Pow2;
      var d, rest := s[0], s[1..];
      assert s == [d] + rest && Digits(rest, w);
      SpreadCons(d, rest, w);
      GroupCons(BitsOf(d, w), Spread(rest, w), w);
      ValueOfBits(d, w);
      GroupSpread(rest, w);
    }
  }

  /** Bits that come in whole groups are all read. */
  lemma {:induction false} SpreadGroup(bits: Bits, w: nat, k: nat)
    requires w > 0 && |bits| == Times(k, w)
    ensures |Group(bits, w)| == k && Spread(Group(bits, w), w) == bits
    decreases k
  {
    if k == 0 {
      assert Group(bits, w) == [];
    } else {
      hide Spread, Group, BitsOf, ValueOf, Pow2;
      var head, rest := bits[..w], bits[w..];
      assert bits == head + rest;
      SpreadGroup(rest, w, k - 1);
      GroupCons(head, rest, w);
      SpreadCons(ValueOf(head), Group(rest, w), w);
      BitsOfValue(head);
    }
  }

  // ---------------------------------------------------------- order

  lemma BitsDiffer(u: nat, v: nat, w: nat)
    requires u < Pow2(w) && v < Pow2(w) && u != v
    ensures BitsOf(u, w) != BitsOf(v, w)
  {
    ValueOfBits(u, w);
    ValueOfBits(v, w);
  }

  lemma {:induction false} BitsOrder(u: nat, v: nat, w: nat)
    requires u < Pow2(w) && v < Pow2(w)
    ensures u < v <==> Less(BitsOf(u, w), BitsOf(v, w))
  {
    if w > 0 {
      var p, q := BitsOf(u / 2, w - 1), BitsOf(v / 2, w - 1);
      BitsOrder(u / 2, v / 2, w - 1);
      if u / 2 == v / 2 {
        LessPrefix(p, [u % 2], [v % 2]);
      } else {
        BitsDiffer(u / 2, v / 2, w - 1);
        LessBlock(p, q, [u % 2], [v % 2]);
      }
    }
  }

  /** Digit sequences of one length compare as their bits do. */
  lemma {:induction false} SpreadOrder(a: seq<int>, b: seq<int>, w: nat)
    requires |a| == |b| && Digits(a, w) && Digits(b, w)
    ensures Less(a, b) <==> Less(Spread(a, w), Spread(b, w))
  {
    if a != [] {
      assert Digits(a[1..], w) && Digits(b[1..], w);
      var p, q := BitsOf(a[0], w), BitsOf(b[0], w);
      BitsOrder(a[0], b[0], w);
      SpreadOrder(a[1..], b[1..], w);
      if a[0] == b[0] {
        LessPrefix(p, Spread(a[1..], w), Spread(b[1..], w));
      } else {
        BitsDiffer(a[0], b[0], w);
        LessBlock(p, q, Spread(a[1..], w), Spread(b[1..], w));
      }
    }
  }

  // ---------------------------------------------------------- base32hex

  /** The character of a 5-bit digit: `0` to `9`, then `a` to `v`. */
  function Char(d: int): (c: byte)
    requires 0 <= d < 32
  {
    if d < 10 then 48 + d else 97 + d - 10
  }

  function DigitOf(c: byte): (d: int)
    requires IsChar(c)
    ensures 0 <= d < 32
  {
    if c < 58 then c - 48 else c - 97 + 10
  }

  predicate IsChar(c: byte) {
    48 <= c <= 57 || 97 <= c <= 118
  }

  function Chars(digits: seq<int>): (r: Octets)
    requires Digits(digits, 5)
    ensures |r| == |digits|
  {
    Widths();
    seq(|digits|, i requires 0 <= i < |digits| => assert 0 <= digits[i] < Pow2(5); Char(digits[i]))
  }

  lemma Widths()
    ensures Pow2(5) == 32 && Pow2(8) == 0x100
  {
    assert Pow2(4) == 16;
  }

  lemma OctetDigits(raw: Octets)
    ensures Digits(raw, 8)
  {
    Widths();
  }

  /** The bits of whole blocks of five octets are whole groups of five. */
  lemma BlockBits(octets: nat)
    requires octets % 5 == 0
    ensures Times(octets, 8) == Times(octets / 5 * 8, 5)
  {
    TimesFiveAndEight(octets);
    TimesFiveAndEight(octets / 5 * 8);
  }

  /** `base32hex`; its assertion is that the bits come in blocks of 40. */
  function Encode(raw: Octets): (r: Octets)
    requires |raw| % 5 == 0
    ensures |r| == |raw| / 5 * 8
  {
    OctetDigits(raw);
    BlockBits(|raw|);
    SpreadGroup(Spread(raw, 8), 5, |raw| / 5 * 8);
    Chars(Group(Spread(raw, 8), 5))
  }

  predicate IsEncoded(text: Octets) {
    |text| % 8 == 0 && forall i :: 0 <= i < |text| ==> IsChar(text[i])
  }

  function DigitsOf(text: Octets): (r: seq<int>)
    requires IsEncoded(text)
    ensures |r| == |text| && Digits(r, 5)
  {
    Widths();
    seq(|text|, i requires 0 <= i < |text| => DigitOf(text[i]))
  }

  /** A decoder of base 32 text in whole blocks. */
  function Decode(text: Octets): (raw: Octets)
    requires IsEncoded(text)
  {
    var digits := Group(Spread(DigitsOf(text), 5), 8);
    Widths();
    seq(|digits|, i requires 0 <= i < |digits| => assert 0 <= digits[i] < Pow2(8); digits[i])
  }

  lemma CharDigit(digits: seq<int>)
    requires Digits(digits, 5) && |digits| % 8 == 0
    ensures IsEncoded(Chars(digits)) && DigitsOf(Chars(digits)) == digits
  {
  }

  lemma EncodeIs(raw: Octets)
    requires |raw| % 5 == 0
    ensures Digits(raw, 8) && |Group(Spread(raw, 8), 5)| == |raw| / 5 * 8
    ensures Encode(raw) == Chars(Group(Spread(raw, 8), 5))
    ensures Spread(Group(Spread(raw, 8), 5), 5) == Spread(raw, 8)
  {
    hide Spread, Group, Chars, Pow2, Times;
    OctetDigits(raw);
    BlockBits(|raw|);
    SpreadGroup(Spread(raw, 8), 5, |raw| / 5 * 8);
  }

  lemma DecodeIs(text: Octets)
    requires IsEncoded(text)
    ensures Decode(text) == Group(Spread(DigitsOf(text), 5), 8)
  {
    hide Spread, Group, DigitsOf;
    Widths();
  }

  /** Every octet string in blocks of five is decoded from its encoding. */
  lemma DecodeEncode(raw: Octets)
    requires |raw| % 5 == 0
    ensures IsEncoded(Encode(raw)) && Decode(Encode(raw)) == raw
  {
    hide Spread, Group, Chars, DigitsOf, Digits, Encode, Decode, IsEncoded, Pow2;
    EncodeIs(raw);
    CharDigit(Group(Spread(raw, 8), 5));
    DecodeIs(Encode(raw));
    GroupSpread(raw, 8);
  }

  lemma CharsOfDigits(text: Octets)
    requires IsEncoded(text)
    ensures Chars(DigitsOf(text)) == text
  {
    Widths();
  }

  lemma TextBits(chars: nat)
    requires chars % 8 == 0
    ensures Times(chars, 5) == Times(chars / 8 * 5, 8)
  {
    TimesFiveAndEight(chars);
    TimesFiveAndEight(chars / 8 * 5);
  }

  /** And every encoded text is the encoding of what it decodes to. */
  lemma EncodeDecode(text: Octets)
    requires IsEncoded(text)
    ensures |Decode(text)| % 5 == 0 && Encode(Decode(text)) == text
  {
    hide Spread, Group, Chars, DigitsOf, Digits, Encode, Decode, Pow2, Times;
    var digits := DigitsOf(text);
    var bits := Spread(digits, 5);
    DecodeIs(text);
    TextBits(|text|);
    SpreadGroup(bits, 8, |text| / 8 * 5);
    EncodeIs(Decode(text));
    GroupSpread(digits, 5);
    CharsOfDigits(text);
  }

  lemma {:induction false} CharsOrder(a: seq<int>, b: seq<int>)
    requires Digits(a, 5) && Digits(b, 5)
    ensures Less(a, b) <==> Less(Chars(a), Chars(b))
    decreases |a|
  {
    Widths();
    if a != [] && b != [] {
      assert 0 <= a[0] < Pow2(5) && 0 <= b[0] < Pow2(5);
      assert Digits(a[1..], 5) && Digits(b[1..], 5);
      assert Chars(a)[1..] == Chars(a[1..]) && Chars(b)[1..] == Chars(b[1..]);
      CharsOrder(a[1..], b[1..]);
    }
  }

  /** On inputs of one length the text sorts as the octets do. */
  lemma EncodePreservesOrder(a: Octets, b: Octets)
    requires |a| == |b| && |a| % 5 == 0
    ensures Less(a, b) <==> Less(Encode(a), Encode(b))
  {
    hide Spread, Group, Chars, Digits, Encode, Pow2, Less;
    EncodeIs(a);
    EncodeIs(b);
    var p, q := Group(Spread(a, 8), 5), Group(Spread(b, 8), 5);
    SpreadOrder(a, b, 8);
    SpreadOrder(p, q, 5);
    CharsOrder(p, q);
  }

  // ---------------------------------------------------------- the text as a number

  /** Digits of a base read as one number, most significant first. */
  function Number(s: seq<int>, base: nat): int {
    if s == [] then 0 else Number(s[..|s| - 1], base) * base + s[|s| - 1]
  }

  lemma {:induction false} SpreadSnoc(s: seq<int>, d: int, w: nat)
    requires Digits(s, w) && 0 <= d < Pow2(w) && Digits(s + [d], w)
    ensures Spread(s + [d], w) == Spread(s, w) + BitsOf(d, w)
  {
    hide BitsOf, Pow2;
    if s == [] {
      SpreadCons(d, [], w);
      assert [] + [d] == [d] + [] && BitsOf(d, w) + [] == [] + BitsOf(d, w);
    } else {
      var first, rest := s[0], s[1..];
      assert s == [first] + rest && s + [d] == [first] + (rest + [d]) && Digits(rest, w);
      assert Digits(rest + [d], w) by {
        assert forall i :: 0 <= i < |rest + [d]| ==> (rest + [d])[i] == (s + [d])[i + 1];
      }
      SpreadSnoc(rest, d, w);
      SpreadCons(first, rest, w);
      SpreadCons(first, rest + [d], w);
    }
  }

  lemma ValueOfSnoc(bits: Bits, b: bit)
    ensures ValueOf(bits + [b]) == 2 * ValueOf(bits) + b
  {
    assert (bits + [b])[..|bits|] == bits;
  }

  lemma {:induction false} ValueOfAppended(bits: Bits, d: nat, w: nat)
    requires d < Pow2(w)
    ensures ValueOf(bits + BitsOf(d, w)) == ValueOf(bits) * Pow2(w) + d
  {
    if w == 0 {
      assert bits + [] == bits;
    } else {
      var front := BitsOf(d / 2, w - 1);
      assert BitsOf(d, w) == front + [d % 2] && Pow2(w) == 2 * Pow2(w - 1);
      hide ValueOf, BitsOf, Pow2;
      assert bits + (front + [d % 2]) == bits + front + [d % 2];
      ValueOfSnoc(bits + front, d % 2);
      ValueOfAppended(bits, d / 2, w - 1);
      Doubled(ValueOf(bits), Pow2(w - 1));
    }
  }

  lemma Doubled(v: nat, p: nat)
    ensures v * (2 * p) == 2 * (v * p)
  {
  }

  lemma {:induction false} SpreadValue(s: seq<int>, w: nat)
    requires Digits(s, w)
    ensures ValueOf(Spread(s, w)) == Number(s, Pow2(w))
    decreases |s|
  {
    if s == [] {
      assert Spread(s, w) == [];
    } else {
      hide Spread, BitsOf, ValueOf, Pow2;
      var front, d := s[..|s| - 1], s[|s| - 1];
      assert s == front + [d];
      SpreadValue(front, w);
      SpreadSnoc(front, d, w);
      ValueOfAppended(Spread(front, w), d, w);
    }
  }

  lemma CharIs(d: int)
    requires 0 <= d < 32
    ensures Char(d) == "0123456789abcdefghijklmnopqrstuv"[d] as int
    ensures DigitOf(Char(d)) == d
  {
  }

  /** The octets and the text are one number, in base 256 and in base 32 with the RFC's alphabet. */
  lemma SameNumber(raw: Octets)
    requires |raw| % 5 == 0
    ensures IsEncoded(Encode(raw)) && Number(raw, 256) == Number(DigitsOf(Encode(raw)), 32)
  {
    hide Spread, Group, Chars, DigitsOf, IsEncoded, Encode, Pow2, Number, Digits, BitsOf, ValueOf, Times;
    Widths();
    EncodeIs(raw);
    var digits := Group(Spread(raw, 8), 5);
    CharDigit(digits);
    SpreadValue(raw, 8);
    SpreadValue(digits, 5);
  }
}
