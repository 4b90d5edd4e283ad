/**
 Domain names: presentation text, labels, and the length-prefixed wire form.

 Text is a sequence of octets; the Python and the Go side share every notion
 here. A name of the protocol is a sequence of labels of 1 to 63 octets.
 */
module Names {
  import opened Bytes

  type Labels = seq<Octets>

  const DOT: byte := 46
  const STAR: byte := 42

  predicate ValidLabel(l: Octets) {
    1 <= |l| <= 63
  }

  predicate ValidLabels(ls: Labels) {
    forall i :: 0 <= i < |ls| ==> ValidLabel(ls[i])
  }

  predicate DotFree(l: Octets) {
    forall k :: 0 <= k < |l| ==> l[k] != DOT
  }

  predicate AllDotFree(ls: Labels) {
    forall i :: 0 <= i < |ls| ==> DotFree(ls[i])
  }

  // ---------------------------------------------------------- the wire form

  /** Each label after its length octet; the length is truncated as Go's `byte` truncates it. */
  function EncodeLabels(ls: Labels): Octets {
    if ls == [] then [] else [|ls[0]| % 0x100] + ls[0] + EncodeLabels(ls[1..])
  }

  function EncodeName(ls: Labels): Octets {
    EncodeLabels(ls) + [0]
  }

  lemma {:induction false} EncodeAppend(a: Labels, b: Labels)
    ensures EncodeLabels(a + b) == EncodeLabels(a) + EncodeLabels(b)
  {
    if a == [] {
      assert a + b == b;
    } else {
      assert (a + b)[1..] == a[1..] + b;
      EncodeAppend(a[1..], b);
    }
  }

  lemma EncodeOneMore(labels: Labels, i: nat)
    requires i < |labels|
    ensures EncodeLabels(labels[..i + 1]) == EncodeLabels(labels[..i]) + [|labels[i]| % 0x100] + labels[i]
  {
    assert labels[..i + 1] == labels[..i] + [labels[i]];
    EncodeAppend(labels[..i], [labels[i]]);
    assert EncodeLabels([labels[i]]) == [|labels[i]| % 0x100] + labels[i] + EncodeLabels([]);
  }

  // ---------------------------------------------------------- text and labels

  /** `t.split(".")`: one more piece than there are dots. */
  function Split(t: Octets): (r: Labels)
    ensures |r| >= 1
  {
    if t == [] then [[]]
    else if t[0] == DOT then [[]] + Split(t[1..])
    else var r := Split(t[1..]); [[t[0]] + r[0]] + r[1..]
  }

  /** `".".join(ls)`. */
  function Join(ls: Labels): Octets {
    if ls == [] then []
    else if |ls| == 1 then ls[0]
    else ls[0] + [DOT] + Join(ls[1..])
  }

  /** `t.rstrip(".")`. */
  function StripDots(t: Octets): Octets {
    if t != [] && t[|t| - 1] == DOT then StripDots(t[..|t| - 1]) else t
  }

  function NonEmpty(ls: Labels): Labels {
    if ls == [] then []
    else if ls[0] == [] then NonEmpty(ls[1..])
    else [ls[0]] + NonEmpty(ls[1..])
  }

  /** What `labels_of` splits a text into: the pieces that are not empty. */
  function LabelsOf(t: Octets): Labels {
    NonEmpty(Split(StripDots(t)))
  }

  predicate IsRoot(t: Octets) {
    t == [] || t == [DOT]
  }

  /** What `wire_name` asserts: no label longer than 63 octets. */
  predicate Encodable(t: Octets) {
    forall i :: 0 <= i < |Split(StripDots(t))| ==> |Split(StripDots(t))[i]| <= 63
  }

  /** A name with no empty label inside; `wire_name` does not refuse one. */
  predicate WellFormed(t: Octets) {
    IsRoot(t) || ValidLabels(Split(StripDots(t)))
  }

  function WireName(t: Octets): Octets {
    if IsRoot(t) then [0] else EncodeName(Split(StripDots(t)))
  }

  method EncodeWireName(t: Octets) returns (out: Octets)
    requires Encodable(t)
    ensures out == WireName(t)
    ensures WellFormed(t) ==> out == EncodeName(LabelsOf(t))
  {
    if WellFormed(t) { WireNameOfLabels(t); }
    if t == [DOT] || t == [] {
      return [0];
    }
    hide EncodeLabels, LabelsOf, WellFormed;
    out := PackLabels(Split(StripDots(t)));
    out := out + [0];
  }

  /** The label loop of `wire_name`. */
  method PackLabels(labels: Labels) returns (out: Octets)
    requires forall i :: 0 <= i < |labels| ==> |labels[i]| <= 63
    ensures out == EncodeLabels(labels)
  {
    out := [];
    assert EncodeLabels(labels[..0]) == [];
    hide EncodeLabels;
    for i := 0 to |labels|
      invariant out == EncodeLabels(labels[..i])
    {
      EncodeOneMore(labels, i);
      out := out + [|labels[i]|] + labels[i];
    }
    assert labels[..|labels|] == labels;
  }

  // ---------------------------------------------------------- how the text forms relate

  lemma {:induction false} NonEmptyOfValid(ls: Labels)
    requires ValidLabels(ls)
    ensures NonEmpty(ls) == ls
  {
    if ls != [] {
      assert ValidLabel(ls[0]);
      assert forall i :: 0 <= i < |ls[1..]| ==> ls[1..][i] == ls[i + 1];
      NonEmptyOfValid(ls[1..]);
    }
  }

  lemma {:induction false} SplitDotFree(t: Octets)
    ensures AllDotFree(Split(t))
  {
    if t != [] { SplitDotFree(t[1..]); }
  }

  /** On names without an empty label, `wire_name` encodes exactly `labels_of`. */
  lemma WireNameOfLabels(t: Octets)
    requires WellFormed(t)
    ensures WireName(t) == EncodeName(LabelsOf(t))
    ensures ValidLabels(LabelsOf(t)) && AllDotFree(LabelsOf(t))
    ensures Encodable(t)
  {
    SplitDotFree(StripDots(t));
    if IsRoot(t) {
      assert StripDots([]) == [] && StripDots([DOT]) == [];
      assert Split([]) == [[]] && NonEmpty([[]]) == [];
      assert WireName(t) == [0];
    } else {
      NonEmptyOfValid(Split(StripDots(t)));
    }
  }

  lemma {:induction false} SplitLabel(l: Octets, t: Octets)
    requires DotFree(l)
    ensures Split(l + [DOT] + t) == [l] + Split(t)
    ensures Split(l) == [l]
  {
    if l == [] {
      assert l + [DOT] + t == [DOT] + t;
    } else {
      assert (l + [DOT] + t)[1..] == l[1..] + [DOT] + t;
      assert (l + [DOT] + t)[0] == l[0] != DOT;
      SplitLabel(l[1..], t);
      assert [l[0]] + l[1..] == l;
    }
  }

  lemma {:induction false} SplitJoin(ls: Labels)
    requires ls != [] && AllDotFree(ls)
    ensures Split(Join(ls)) == ls
  {
    assert DotFree(ls[0]);
    if |ls| == 1 {
      SplitLabel(ls[0], []);
    } else {
      assert forall i :: 0 <= i < |ls[1..]| ==> ls[1..][i] == ls[i + 1];
      SplitLabel(ls[0], Join(ls[1..]));
      SplitJoin(ls[1..]);
    }
  }

  lemma {:induction false} JoinEndsInLabel(ls: Labels)
    requires ls != [] && AllDotFree(ls) && ls[|ls| - 1] != []
    ensures Join(ls) != [] && Join(ls)[|Join(ls)| - 1] != DOT
  {
    if |ls| == 1 {
      assert DotFree(ls[0]);
    } else {
      assert ls[1..][|ls| - 2] == ls[|ls| - 1];
      assert forall i :: 0 <= i < |ls[1..]| ==> ls[1..][i] == ls[i + 1];
      JoinEndsInLabel(ls[1..]);
    }
  }

  lemma StripOneDot(t: Octets)
    ensures StripDots(t + [DOT]) == StripDots(t)
  {
    assert (t + [DOT])[..|t|] == t;
  }

  /** Labels joined by dots, with or without the final one, are read back. */
  lemma LabelsOfJoin(ls: Labels)
    requires ls != [] && ValidLabels(ls) && AllDotFree(ls)
    ensures LabelsOf(Join(ls)) == ls && WellFormed(Join(ls))
    ensures LabelsOf(Join(ls) + [DOT]) == ls && WellFormed(Join(ls) + [DOT])
  {
    assert ValidLabel(ls[|ls| - 1]);
    JoinEndsInLabel(ls);
    SplitJoin(ls);
    NonEmptyOfValid(ls);
    StripOneDot(Join(ls));
    assert StripDots(Join(ls)) == Join(ls);
  }

  // ---------------------------------------------------------- lowercasing

  function LowerByte(b: byte): byte {
    if 65 <= b <= 90 then b + 32 else b
  }

  /** `t.lower()`, for ASCII letters. */
  function Lower(t: Octets): (r: Octets)
    ensures |r| == |t|
  {
    seq(|t|, i requires 0 <= i < |t| => LowerByte(t[i]))
  }

  function LowerAll(ls: Labels): (r: Labels)
    ensures |r| == |ls|
  {
    seq(|ls|, i requires 0 <= i < |ls| => Lower(ls[i]))
  }

  /** No octet of the result is upper case, every upper-case one moved down by 32, and no other changed. */
  lemma LowerIs(t: Octets)
    ensures forall i :: 0 <= i < |t| ==>
              && !(65 <= Lower(t)[i] <= 90)
              && (65 <= t[i] <= 90 <==> Lower(t)[i] != t[i])
              && (Lower(t)[i] != t[i] ==> Lower(t)[i] == t[i] + 32)
  {
  }

  lemma LowerCons(b: byte, t: Octets)
    ensures Lower([b] + t) == [LowerByte(b)] + Lower(t)
  {
  }

  lemma LowerAllCons(l: Octets, ls: Labels)
    ensures LowerAll([l] + ls) == [Lower(l)] + LowerAll(ls)
  {
  }

  lemma SplitCons(b: byte, t: Octets)
    ensures Split([b] + t) == if b == DOT then [[]] + Split(t) else [[b] + Split(t)[0]] + Split(t)[1..]
  {
    assert ([b] + t)[1..] == t;
  }

  lemma {:induction false} SplitLower(t: Octets)
    ensures Split(Lower(t)) == LowerAll(Split(t))
  {
    if t == [] {
      assert Lower(t) == t;
    } else {
      hide Split, Lower, LowerAll;
      var b, rest := t[0], t[1..];
      assert t == [b] + rest;
      SplitLower(rest);
      LowerCons(b, rest);
      SplitCons(b, rest);
      SplitCons(LowerByte(b), Lower(rest));
      SplitLowerStep(b, Split(rest));
    }
  }

  lemma SplitLowerStep(b: byte, r: Labels)
    requires r != []
    ensures LowerAll([[]] + r) == [[]] + LowerAll(r)
    ensures LowerAll([[b] + r[0]] + r[1..]) == [[LowerByte(b)] + LowerAll(r)[0]] + LowerAll(r)[1..]
    ensures b == DOT <==> LowerByte(b) == DOT
  {
    LowerAllCons([], r);
    LowerAllCons([b] + r[0], r[1..]);
    LowerCons(b, r[0]);
  }

  lemma {:induction false} StripLower(t: Octets)
    ensures StripDots(Lower(t)) == Lower(StripDots(t))
  {
    if t != [] && t[|t| - 1] == DOT {
      assert Lower(t)[..|t| - 1] == Lower(t[..|t| - 1]);
      StripLower(t[..|t| - 1]);
    }
  }

  lemma {:induction false} NonEmptyLower(ls: Labels)
    ensures NonEmpty(LowerAll(ls)) == LowerAll(NonEmpty(ls))
  {
    if ls != [] {
      assert LowerAll(ls)[1..] == LowerAll(ls[1..]);
      NonEmptyLower(ls[1..]);
      assert LowerAll([ls[0]] + NonEmpty(ls[1..])) == [Lower(ls[0])] + LowerAll(NonEmpty(ls[1..]));
    }
  }

  /** The labels of the lowercased text are the lowercased labels. */
  lemma LabelsOfLower(t: Octets)
    ensures LabelsOf(Lower(t)) == LowerAll(LabelsOf(t))
    ensures WellFormed(Lower(t)) <==> WellFormed(t)
    ensures Encodable(Lower(t)) <==> Encodable(t)
  {
    StripLower(t);
    SplitLower(StripDots(t));
    NonEmptyLower(Split(StripDots(t)));
    var ls := Split(StripDots(t));
    assert forall i :: 0 <= i < |ls| ==> |LowerAll(ls)[i]| == |ls[i]|;
    assert ValidLabels(LowerAll(ls)) <==> ValidLabels(ls);
    assert IsRoot(Lower(t)) <==> IsRoot(t);
  }

  /** `canonical_name`: the wire form of the lowercased text. */
  function CanonicalName(t: Octets): Octets {
    WireName(Lower(t))
  }

  lemma CanonicalOfLabels(t: Octets)
    requires WellFormed(t)
    ensures CanonicalName(t) == EncodeName(LowerAll(LabelsOf(t)))
    ensures ValidLabels(LowerAll(LabelsOf(t)))
  {
    LabelsOfLower(t);
    WireNameOfLabels(Lower(t));
  }
}
