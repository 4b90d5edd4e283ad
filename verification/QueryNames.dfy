/**
 The query names the generators ask, and why no two of them are the same:
 the DoH workers of one client share a counter, the load generator's workers
 count for themselves.
 */
module QueryNames {
  // ---------------------------------------------------------- decimal rendering

  /** `%d` of a natural. */
  function Decimal(n: nat): (r: string)
    ensures r != [] && AllDigits(r)
  {
    if n < 10 then [Digit(n)] else Decimal(n / 10) + [Digit(n % 10)]
  }

  function Digit(d: nat): char
    requires d < 10
  {
    '0' + d as char
  }

  predicate AllDigits(s: string) {
    forall k :: 0 <= k < |s| ==> '0' <= s[k] <= '9'
  }

  function Value(s: string): nat
    requires AllDigits(s)
  {
    if s == [] then 0
    else
      var n := |s| - 1;
      Value(s[..n]) * 10 + (s[n] as int - '0' as int)
  }

  lemma {:induction false} DecimalValue(n: nat)
    ensures Value(Decimal(n)) == n
  {
    if n >= 10 {
      DecimalValue(n / 10);
      assert Decimal(n)[..|Decimal(n)| - 1] == Decimal(n / 10);
    } else {
      assert Decimal(n)[..0] == [];
    }
  }

  lemma DecimalIsInjective(m: nat, n: nat)
    requires Decimal(m) == Decimal(n)
    ensures m == n
  {
    DecimalValue(m);
    DecimalValue(n);
  }

  /** What precedes the first separator is determined, and so is what follows. */
  lemma SameAroundSeparator(a: string, x: string, b: string, y: string, c: char)
    requires AllDigits(a) && AllDigits(b) && !('0' <= c <= '9')
    requires a + [c] + x == b + [c] + y
    ensures a == b && x == y
  {
    var s := a + [c] + x;
    assert s[|a|] == c && s[|b|] == c;
    assert forall k :: 0 <= k < |a| ==> s[k] == a[k];
    assert forall k :: 0 <= k < |b| ==> s[k] == b[k];
    assert |a| == |b|;
    assert a == s[..|a|] && b == s[..|b|];
    assert x == s[|a| + 1..] && y == s[|b| + 1..];
  }

  lemma SameField(m: nat, x: string, n: nat, y: string, c: char)
    requires !('0' <= c <= '9') && Decimal(m) + [c] + x == Decimal(n) + [c] + y
    ensures m == n && x == y
  {
    SameAroundSeparator(Decimal(m), x, Decimal(n), y, c);
    DecimalIsInjective(m, n);
  }

  // ---------------------------------------------------------- the names

  /** `clientSpec.name` */
  function ClientName(fixed: bool, idx: nat, seqNo: nat, tag: string): string {
    if fixed then "cached." + tag + ".rrl.test"
    else "q" + (Decimal(idx) + "-" + (Decimal(seqNo) + "." + (tag + ".rrl.test")))
  }

  /** The unique names of the load generator. */
  function LoadName(nonce: nat, id: nat, slot: nat, counter: nat): string {
    var last := Decimal(slot) + "-" + (Decimal(counter) + "." + "bench.test");
    "q-" + (Decimal(nonce) + "-" + (Decimal(id) + "-" + last))
  }

  /** A unique name says which worker asked, and its number. */
  lemma ClientNameIsInjective(i: nat, m: nat, j: nat, n: nat, tag: string)
    requires ClientName(false, i, m, tag) == ClientName(false, j, n, tag)
    ensures i == j && m == n
  {
    hide Decimal;
    var x, y := Decimal(m) + "." + (tag + ".rrl.test"), Decimal(n) + "." + (tag + ".rrl.test");
    assert Decimal(i) + "-" + x == ClientName(false, i, m, tag)[1..] == Decimal(j) + "-" + y;
    SameField(i, x, j, y, '-');
    SameField(m, tag + ".rrl.test", n, tag + ".rrl.test", '.');
  }

  lemma LoadNameIsInjective(nonce: nat, i: nat, s: nat, m: nat, j: nat, t: nat, n: nat)
    requires LoadName(nonce, i, s, m) == LoadName(nonce, j, t, n)
    ensures i == j && s == t && m == n
  {
    hide Decimal;
    var x3, y3 := Decimal(m) + "." + "bench.test", Decimal(n) + "." + "bench.test";
    var x2, y2 := Decimal(s) + "-" + x3, Decimal(t) + "-" + y3;
    var x1, y1 := Decimal(i) + "-" + x2, Decimal(j) + "-" + y2;
    assert Decimal(nonce) + "-" + x1 == LoadName(nonce, i, s, m)[2..] == Decimal(nonce) + "-" + y1;
    SameField(nonce, x1, nonce, y1, '-');
    SameField(i, x2, j, y2, '-');
    SameField(s, x3, t, y3, '-');
    SameField(m, "bench.test", n, "bench.test", '.');
  }

  lemma DecimalAppends(n: nat, d: nat)
    requires 0 < n && d < 10
    ensures Decimal(10 * n + d) == Decimal(n) + [Digit(d)]
  {
  }

  lemma Numerals()
    ensures Decimal(12) == "12" && Decimal(345) == "345" && Decimal(80) == "80" && Decimal(10) == "10"
    ensures Decimal(7) == "7" && Decimal(9) == "9"
  {
    hide Decimal;
    assert forall d: nat :: d < 10 ==> Decimal(d) == [Digit(d)] by { OneDigit(); }
    DecimalAppends(1, 2);
    DecimalAppends(3, 4);
    DecimalAppends(34, 5);
    DecimalAppends(8, 0);
    DecimalAppends(1, 0);
  }

  lemma OneDigit()
    ensures forall d: nat :: d < 10 ==> Decimal(d) == [Digit(d)]
  {
  }

  /** What the names look like: the worker, then the number. */
  lemma ClientNameSpelled()
    ensures ClientName(false, 12, 345, "loss") == "q12-345.loss.rrl.test"
    ensures ClientName(true, 12, 345, "loss") == "cached.loss.rrl.test"
  {
    hide Decimal;
    Numerals();
  }

  /** Run, client, slot, count. */
  lemma LoadNameSpelled()
    ensures LoadName(7, 80, 9, 10) == "q-7-80-9-10.bench.test"
  {
    hide Decimal;
    Numerals();
  }
}
