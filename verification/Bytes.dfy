/**
 Octets, the big-endian integers DNS packs them into, the order Python and
 RFC 4034 sort octet strings by, and the bitwise `or` of naturals.
 */
module Bytes {
  import opened Arithmetic

  type byte = x: int | 0 <= x < 0x100
  type u16 = x: int | 0 <= x < 0x1_0000
  type u32 = x: int | 0 <= x < 0x1_0000_0000
  type Octets = seq<byte>

  // ---------------------------------------------------------- big-endian integers

  function U16(n: u16): (r: Octets)
    ensures |r| == 2
  {
    [n / 0x100, n % 0x100]
  }

  function U32(n: u32): (r: Octets)
    ensures |r| == 4
  {
    U16(n / 0x1_0000) + U16(n % 0x1_0000)
  }

  /** Network order: the first octet weighs most. */
  lemma NetworkOrder(n: u16, l: u32)
    ensures U16(n)[0] as int * 0x100 + U16(n)[1] == n
    ensures ((U32(l)[0] as int * 0x100 + U32(l)[1]) * 0x100 + U32(l)[2]) * 0x100 + U32(l)[3] == l
  {
  }

  function ReadU16(m: Octets, off: nat): u16
    requires off + 2 <= |m|
  {
    (m[off] as int) * 0x100 + m[off + 1]
  }

  function ReadU32(m: Octets, off: nat): u32
    requires off + 4 <= |m|
  {
    (ReadU16(m, off) as int) * 0x1_0000 + ReadU16(m, off + 2)
  }

  // ---------------------------------------------------------- a piece at an offset

  /** `m` holds `piece` from `off` on. */
  predicate At(m: Octets, off: nat, piece: Octets) {
    off + |piece| <= |m| && m[off..off + |piece|] == piece
  }

  lemma AtSplit(m: Octets, off: nat, a: Octets, b: Octets)
    ensures At(m, off, a + b) <==> At(m, off, a) && At(m, off + |a|, b)
  {
    if off + |a| + |b| <= |m| {
      assert m[off..off + |a + b|] == m[off..off + |a|] + m[off + |a|..off + |a| + |b|];
      if At(m, off, a + b) {
        assert m[off..off + |a|] == (a + b)[..|a|];
        assert m[off + |a|..off + |a| + |b|] == (a + b)[|a|..];
      }
    }
  }

  lemma AtWhole(m: Octets)
    ensures At(m, 0, m)
  {
  }

  lemma Inside(m: Octets, from: nat, end: nat, off: nat, length: nat)
    requires from <= off && off + length <= end <= |m|
    ensures m[from..end][off - from..off - from + length] == m[off..off + length]
  {
    var inner, outer := m[from..end][off - from..off - from + length], m[off..off + length];
    forall k | 0 <= k < length ensures inner[k] == outer[k] {
      assert inner[k] == m[from..end][off - from + k] == m[off + k];
    }
  }

  /** A piece inside a stretch two octet strings share is in both. */
  lemma AtShared(m: Octets, n: Octets, from: nat, end: nat, off: nat, piece: Octets)
    requires from <= off && off + |piece| <= end <= |m| && end <= |n| && m[from..end] == n[from..end]
    ensures At(m, off, piece) <==> At(n, off, piece)
  {
    Inside(m, from, end, off, |piece|);
    Inside(n, from, end, off, |piece|);
  }

  /** Between a head and a tail. */
  lemma AtMiddle(head: Octets, middle: Octets, tail: Octets)
    ensures var m := head + middle + tail;
            && At(m, 0, head) && At(m, |head|, middle) && At(m, |head| + |middle|, tail)
            && m[|head|..|head| + |middle|] == middle
  {
    var m := head + middle + tail;
    AtWhole(m);
    AtSplit(m, 0, head + middle, tail);
    AtSplit(m, 0, head, middle);
  }

  lemma AtU16(m: Octets, off: nat, n: u16)
    requires At(m, off, U16(n))
    ensures off + 2 <= |m| && ReadU16(m, off) == n
  {
    assert m[off] == m[off..off + 2][0] && m[off + 1] == m[off..off + 2][1];
  }

  lemma AtU32(m: Octets, off: nat, n: u32)
    requires At(m, off, U32(n))
    ensures off + 4 <= |m| && ReadU32(m, off) == n
  {
  }

  // ---------------------------------------------------------- lexicographic order

  /** Octet strings as Python compares them: by the first difference, a prefix first. */
  predicate Less(a: seq<int>, b: seq<int>) {
    b != [] && (a == [] || a[0] < b[0] || (a[0] == b[0] && Less(a[1..], b[1..])))
  }

  lemma {:induction false} LessIrreflexive(a: seq<int>)
    ensures !Less(a, a)
  {
    if a != [] { LessIrreflexive(a[1..]); }
  }

  lemma {:induction false} LessTransitive(a: seq<int>, b: seq<int>, c: seq<int>)
    requires Less(a, b) && Less(b, c)
    ensures Less(a, c)
  {
    if a != [] && a[0] == b[0] == c[0] { LessTransitive(a[1..], b[1..], c[1..]); }
  }

  lemma {:induction false} LessTotal(a: seq<int>, b: seq<int>)
    ensures Less(a, b) || a == b || Less(b, a)
  {
    if a != [] && b != [] && a[0] == b[0] {
      LessTotal(a[1..], b[1..]);
      assert a[1..] == b[1..] ==> a == [a[0]] + a[1..] == b;
    }
  }

  lemma LessAsymmetric(a: seq<int>, b: seq<int>)
    requires Less(a, b)
    ensures !Less(b, a) && a != b
  {
    if Less(b, a) { LessTransitive(a, b, a); }
    LessIrreflexive(a);
  }

  /** A common prefix does not change the order. */
  lemma {:induction false} LessPrefix(p: seq<int>, a: seq<int>, b: seq<int>)
    ensures Less(p + a, p + b) <==> Less(a, b)
  {
    if p == [] {
      assert p + a == a && p + b == b;
    } else {
      assert (p + a)[1..] == p[1..] + a && (p + b)[1..] == p[1..] + b;
      LessPrefix(p[1..], a, b);
    }
  }

  /** Blocks of one length that differ decide the order, whatever follows them. */
  lemma {:induction false} LessBlock(p: seq<int>, q: seq<int>, a: seq<int>, b: seq<int>)
    requires |p| == |q| && p != q
    ensures Less(p + a, q + b) <==> Less(p, q)
  {
    assert (p + a)[1..] == p[1..] + a && (q + b)[1..] == q[1..] + b;
    if p[0] == q[0] {
      assert p == [p[0]] + p[1..] && q == [q[0]] + q[1..];
      LessBlock(p[1..], q[1..], a, b);
    }
  }

  /** Equal up to place `k`, and there `a` ends or is smaller. */
  predicate LessFrom(a: seq<int>, b: seq<int>, k: nat) {
    k <= |a| && k < |b| && a[..k] == b[..k] && (k == |a| || a[k] < b[k])
  }

  lemma {:induction false} LessFound(a: seq<int>, b: seq<int>) returns (k: nat)
    requires Less(a, b)
    ensures LessFrom(a, b, k)
  {
    if a != [] && a[0] == b[0] {
      k := LessFound(a[1..], b[1..]);
      assert a[..k + 1] == [a[0]] + a[1..][..k] && b[..k + 1] == [b[0]] + b[1..][..k];
      k := k + 1;
    } else {
      k := 0;
    }
  }

  lemma {:induction false} FoundLess(a: seq<int>, b: seq<int>, k: nat)
    requires LessFrom(a, b, k)
    ensures Less(a, b)
  {
    if k > 0 {
      assert a[0] == a[..k][0] == b[..k][0] == b[0];
      assert a[1..][..k - 1] == a[..k][1..] == b[..k][1..] == b[1..][..k - 1];
      FoundLess(a[1..], b[1..], k - 1);
    }
  }

  /** The order in one piece. */
  lemma LessIff(a: seq<int>, b: seq<int>)
    ensures Less(a, b) <==> exists k :: LessFrom(a, b, k)
  {
    hide Less, LessFrom;
    if Less(a, b) { var k := LessFound(a, b); }
    if k :| LessFrom(a, b, k) { FoundLess(a, b, k); }
  }

  // ---------------------------------------------------------- sorting without duplicates

  ghost predicate Ascending(s: seq<Octets>) {
    forall i, j :: 0 <= i < j < |s| ==> Less(s[i], s[j])
  }

  function Elements(s: seq<Octets>): set<Octets> {
    set x | x in s
  }

  function Insert(x: Octets, s: seq<Octets>): seq<Octets> {
    if s == [] then [x]
    else if x == s[0] then s
    else if Less(x, s[0]) then [x] + s
    else [s[0]] + Insert(x, s[1..])
  }

  /** `sorted(set(xs))`. */
  function SortedUnique(xs: seq<Octets>): seq<Octets> {
    if xs == [] then [] else Insert(xs[0], SortedUnique(xs[1..]))
  }

  lemma {:induction false} InsertElements(x: Octets, s: seq<Octets>)
    ensures forall y :: y in Insert(x, s) <==> y == x || y in s
  {
    hide Less;
    if s != [] && x != s[0] && !Less(x, s[0]) {
      InsertElements(x, s[1..]);
      assert s == [s[0]] + s[1..];
    }
  }

  lemma {:induction false} InsertAscending(x: Octets, s: seq<Octets>)
    requires Ascending(s)
    ensures Ascending(Insert(x, s))
  {
    hide Less;
    if s == [] || x == s[0] {
    } else if Less(x, s[0]) {
      forall j | 0 < j < |s| ensures Less(x, s[j]) { LessTransitive(x, s[0], s[j]); }
    } else {
      LessTotal(x, s[0]);
      InsertAscending(x, s[1..]);
      InsertElements(x, s[1..]);
      var r := Insert(x, s[1..]);
      forall j | 0 <= j < |r| ensures Less(s[0], r[j]) {
        assert r[j] == x || r[j] in s[1..];
      }
    }
  }

  lemma {:induction false} SortedUniqueSorts(xs: seq<Octets>)
    ensures Ascending(SortedUnique(xs)) && Elements(SortedUnique(xs)) == Elements(xs)
  {
    if xs != [] {
      SortedUniqueSorts(xs[1..]);
      var sorted := SortedUnique(xs[1..]);
      InsertAscending(xs[0], sorted);
      InsertElements(xs[0], sorted);
      assert forall y :: y in sorted <==> y in Elements(sorted);
      assert forall y :: y in xs[1..] <==> y in Elements(xs[1..]);
      assert xs == [xs[0]] + xs[1..];
    }
  }

  /** An ascending sequence is determined by its elements. */
  lemma {:induction false} AscendingUnique(a: seq<Octets>, b: seq<Octets>)
    requires Ascending(a) && Ascending(b) && Elements(a) == Elements(b)
    ensures a == b
  {
    assert forall k :: 0 <= k < |a| ==> a[k] in Elements(a);
    assert forall k :: 0 <= k < |b| ==> b[k] in Elements(b);
    if a != [] && b != [] {
      assert a[0] in Elements(b) && b[0] in Elements(a);
      var i :| 0 <= i < |b| && b[i] == a[0];
      var j :| 0 <= j < |a| && a[j] == b[0];
      if i > 0 && j > 0 { LessAsymmetric(b[0], b[i]); }
      assert a[0] == b[0];
      TailElements(a);
      TailElements(b);
      AscendingUnique(a[1..], b[1..]);
      assert a == [a[0]] + a[1..] && b == [b[0]] + b[1..];
    }
  }

  lemma TailElements(a: seq<Octets>)
    requires Ascending(a) && a != []
    ensures Ascending(a[1..]) && Elements(a[1..]) == Elements(a) - {a[0]}
  {
    forall k | 0 < k < |a| ensures a[k] != a[0] { LessAsymmetric(a[0], a[k]); }
    assert forall x :: x in a <==> x == a[0] || x in a[1..];
  }

  /** The order and the repetitions of the input do not show in the sorted result. */
  lemma SortedUniqueOfSet(xs: seq<Octets>, ys: seq<Octets>)
    ensures SortedUnique(xs) == SortedUnique(ys) <==> Elements(xs) == Elements(ys)
  {
    SortedUniqueSorts(xs);
    SortedUniqueSorts(ys);
    if Elements(xs) == Elements(ys) { AscendingUnique(SortedUnique(xs), SortedUnique(ys)); }
  }

  // ---------------------------------------------------------- bits

  /** Bit `k` of `n`, bit 0 the least significant. */
  predicate Bit(n: nat, k: nat) {
    if k == 0 then n % 2 == 1 else Bit(n / 2, k - 1)
  }

  function BitOr(a: nat, b: nat): nat {
    if a == 0 then b
    else if b == 0 then a
    else 2 * BitOr(a / 2, b / 2) + (if a % 2 == 1 || b % 2 == 1 then 1 else 0)
  }

  function Pow2(k: nat): (r: nat)
    ensures r > 0
  {
    if k == 0 then 1 else 2 * Pow2(k - 1)
  }

  /** A bit is a binary digit. */
  lemma {:induction false} BitIs(n: nat, k: nat)
    ensures Bit(n, k) <==> n / Pow2(k) % 2 == 1
  {
    if k > 0 {
      BitIs(n / 2, k - 1);
      DivTwice(n, Pow2(k - 1));
    }
  }

  /** Cutting a number to its low `w` bits keeps those bits. */
  lemma {:induction false} LowBits(n: nat, w: nat, k: nat)
    requires k < w
    ensures Bit(n % Pow2(w), k) <==> Bit(n, k)
  {
    CutHalves(n, Pow2(w - 1));
    if k > 0 { LowBits(n / 2, w - 1, k - 1); }
  }

  lemma {:induction false} ZeroBit(k: nat)
    ensures !Bit(0, k)
  {
    if k > 0 { ZeroBit(k - 1); }
  }

  lemma {:induction false} BitOfOr(a: nat, b: nat, k: nat)
    ensures Bit(BitOr(a, b), k) <==> Bit(a, k) || Bit(b, k)
  {
    ZeroBit(k);
    if a != 0 && b != 0 && k > 0 {
      assert BitOr(a, b) / 2 == BitOr(a / 2, b / 2);
      BitOfOr(a / 2, b / 2, k - 1);
    }
  }

  lemma {:induction false} BitOrBound(a: nat, b: nat, w: nat)
    requires a < Pow2(w) && b < Pow2(w)
    ensures BitOr(a, b) < Pow2(w)
  {
    if a != 0 && b != 0 { BitOrBound(a / 2, b / 2, w - 1); }
  }

  lemma {:induction false} BitOfPow2(j: nat, k: nat)
    ensures Bit(Pow2(j), k) <==> j == k
  {
    if j > 0 && k > 0 {
      assert Pow2(j) / 2 == Pow2(j - 1);
      BitOfPow2(j - 1, k - 1);
    } else if k > 0 {
      ZeroBit(k - 1);
    }
  }

  /** Naturals of `w` bits with the same bits are the same. */
  lemma {:induction false} SameBits(a: nat, b: nat, w: nat)
    requires a < Pow2(w) && b < Pow2(w)
    requires forall k :: 0 <= k < w ==> (Bit(a, k) <==> Bit(b, k))
    ensures a == b
  {
    if w > 0 {
      forall k | 0 <= k < w - 1 ensures Bit(a / 2, k) <==> Bit(b / 2, k) {
        assert Bit(a, k + 1) <==> Bit(b, k + 1);
      }
      SameBits(a / 2, b / 2, w - 1);
      assert Bit(a, 0) <==> Bit(b, 0);
    }
  }

  /** Setting bits a multiple of 2^w does not have is adding them. */
  lemma {:induction false} OrLowBits(a: nat, r: nat, w: nat)
    requires r < Pow2(w)
    ensures BitOr(a * Pow2(w), r) == a * Pow2(w) + r
  {
    if w > 0 && a != 0 && r != 0 {
      var half := a * Pow2(w - 1);
      assert a * Pow2(w) == 2 * half;
      OrLowBits(a, r / 2, w - 1);
      assert BitOr(2 * half, r) == 2 * BitOr(half, r / 2) + r % 2;
    }
  }
}
