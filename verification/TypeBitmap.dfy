/** Sets of RR types as blocks of bits, 256 types to a block (RFC 4034, section 4.1.2). */
module TypeBitmap {
  import opened Bytes

  type Types = set<u16>

  function Flag(b: bool): nat {
    if b then 1 else 0
  }

  // ---------------------------------------------------------- what the encoding of a set is

  /** The first `k` bits, most significant first, of the octet for types `base` to `base + 7`. */
  function LeadingBits(s: Types, base: nat, k: nat): (r: nat)
    requires base + k <= 0x1_0000
    ensures r < Pow2(k)
  {
    if k == 0 then 0
    else 2 * LeadingBits(s, base, k - 1) + Flag(base + k - 1 in s)
  }

  function OctetOf(s: Types, base: nat): byte
    requires base + 8 <= 0x1_0000
  {
    assert Pow2(8) == 0x100 by { Pow2Of8(); }
    LeadingBits(s, base, 8)
  }

  lemma Pow2Of8()
    ensures Pow2(8) == 0x100
  {
    assert Pow2(4) == 16;
  }

  function WindowOctets(s: Types, window: byte): (r: Octets)
    ensures |r| == 32
  {
    seq(32, i requires 0 <= i < 32 => OctetOf(s, window as int * 0x100 + i * 8))
  }

  /** One past the last octet that is not zero. */
  function UsedLength(bitmap: Octets): (r: nat)
    ensures r <= |bitmap|
    ensures r > 0 ==> bitmap[r - 1] != 0
    ensures forall i :: r <= i < |bitmap| ==> bitmap[i] == 0
  {
    if bitmap == [] then 0
    else if bitmap[|bitmap| - 1] != 0 then |bitmap|
    else UsedLength(bitmap[..|bitmap| - 1])
  }

  /** A window's octets up to the last that is not zero. */
  function Used(s: Types, window: byte): (r: Octets)
    ensures |r| <= 32 && (r != [] ==> r[|r| - 1] != 0)
  {
    var bitmap := WindowOctets(s, window);
    bitmap[..UsedLength(bitmap)]
  }

  /** Nothing for an empty window, else its number, its length and its octets. */
  function Block(s: Types, window: byte): Octets {
    var used := Used(s, window);
    if used == [] then [] else [window, |used|] + used
  }

  /** The blocks of all windows, ascending. */
  function Blocks(s: Types): (r: seq<Octets>)
    ensures |r| == 0x100
  {
    seq(0x100, window requires 0 <= window < 0x100 => Block(s, window))
  }

  function Flatten(blocks: seq<Octets>): Octets {
    if blocks == [] then [] else blocks[0] + Flatten(blocks[1..])
  }

  function Encoding(s: Types): Octets {
    Flatten(Blocks(s))
  }

  lemma {:induction false} FlattenAppend(blocks: seq<Octets>, block: Octets)
    ensures Flatten(blocks + [block]) == Flatten(blocks) + block
  {
    if blocks == [] {
      assert Flatten([block]) == block + Flatten([]);
    } else {
      assert (blocks + [block])[1..] == blocks[1..] + [block];
      FlattenAppend(blocks[1..], block);
    }
  }

  /** What the windows from `window` on contribute. */
  function BlocksFrom(s: Types, window: nat): Octets
    requires window <= 0x100
  {
    Flatten(Blocks(s)[window..])
  }

  lemma BlocksFromStep(s: Types, window: nat)
    requires window < 0x100
    ensures BlocksFrom(s, window) == Block(s, window) + BlocksFrom(s, window + 1)
  {
    assert Blocks(s)[window..][1..] == Blocks(s)[window + 1..];
  }

  // ---------------------------------------------------------- decoding

  /** Bit `k` of an octet counted from the most significant. */
  predicate HasBit(octet: byte, k: nat)
    requires k < 8
  {
    Bit(octet, 7 - k)
  }

  lemma HasBitIs(octet: byte, k: nat)
    requires k < 8
    ensures HasBit(octet, k) <==> octet / Pow2(7 - k) % 2 == 1
  {
    BitIs(octet, 7 - k);
  }

  predicate Listed(bitmap: Octets, low: nat)
    requires low < 0x100
  {
    low / 8 < |bitmap| && HasBit(bitmap[low / 8], low % 8)
  }

  function TypesIn(window: byte, bitmap: Octets): Types {
    set low | 0 <= low < 0x100 && Listed(bitmap, low) :: (window as int * 0x100 + low) as u16
  }

  /** A reader of type bit maps, window by window. */
  function Decode(m: Octets): Types {
    if |m| < 2 then {}
    else if 2 + m[1] > |m| then {}
    else TypesIn(m[0], m[2..2 + m[1]]) + Decode(m[2 + m[1]..])
  }

  lemma {:induction false} LeadingBitsAre(s: Types, base: nat, k: nat, j: nat)
    requires base + k <= 0x1_0000 && j < k
    ensures Bit(LeadingBits(s, base, k), k - 1 - j) <==> base + j in s
  {
    if j < k - 1 {
      assert LeadingBits(s, base, k) / 2 == LeadingBits(s, base, k - 1);
      LeadingBitsAre(s, base, k - 1, j);
    }
  }

  lemma OctetBits(s: Types, base: nat, k: nat)
    requires base + 8 <= 0x1_0000 && k < 8
    ensures HasBit(OctetOf(s, base), k) <==> base + k in s
  {
    LeadingBitsAre(s, base, 8, k);
  }

  /** The window's octets, cut where only zeros follow, list exactly its types. */
  lemma WindowLists(s: Types, window: byte, low: nat)
    requires low < 0x100
    ensures Listed(Used(s, window), low) <==> window as int * 0x100 + low in s
  {
    var bitmap := WindowOctets(s, window);
    OctetBits(s, window as int * 0x100 + low / 8 * 8, low % 8);
    if low / 8 >= UsedLength(bitmap) {
      assert bitmap[low / 8] == 0;
      ZeroBit(7 - low % 8);
    }
  }

  function TypesFrom(s: Types, window: nat): Types {
    set t | t in s && t / 0x100 >= window
  }

  lemma DecodeOne(window: byte, used: Octets, rest: Octets)
    requires |used| <= 32
    ensures Decode([window, |used|] + used + rest) == TypesIn(window, used) + Decode(rest)
  {
    var m := [window, |used|] + used + rest;
    assert m[2..2 + |used|] == used && m[2 + |used|..] == rest;
  }

  /** A block is decoded to the types of its window, an absent one to none. */
  lemma DecodeBlock(s: Types, window: byte, rest: Octets)
    ensures Decode(Block(s, window) + rest) == TypesIn(window, Used(s, window)) + Decode(rest)
  {
    hide Decode, Used;
    if Used(s, window) == [] {
      assert Block(s, window) + rest == rest;
      NothingListed(window);
    } else {
      DecodeOne(window, Used(s, window), rest);
    }
  }

  lemma NothingListed(window: byte)
    ensures TypesIn(window, []) == {}
  {
  }

  lemma {:induction false} DecodeBlocks(s: Types, window: nat)
    requires window <= 0x100
    ensures Decode(BlocksFrom(s, window)) == TypesFrom(s, window)
    decreases 0x100 - window
  {
    if window == 0x100 {
      assert BlocksFrom(s, window) == [];
    } else {
      hide Decode, TypesIn, Listed, Block, BlocksFrom, TypesFrom, Used;
      DecodeBlocks(s, window + 1);
      BlocksFromStep(s, window);
      DecodeBlock(s, window, BlocksFrom(s, window + 1));
      forall low | 0 <= low < 0x100 ensures Listed(Used(s, window), low) <==> window * 0x100 + low in s {
        WindowLists(s, window, low);
      }
      OneMoreWindow(s, window, Used(s, window));
    }
  }

  lemma OneMoreWindow(s: Types, window: byte, used: Octets)
    requires forall low :: 0 <= low < 0x100 ==> (Listed(used, low) <==> window as int * 0x100 + low in s)
    ensures TypesFrom(s, window) == TypesIn(window, used) + TypesFrom(s, window as int + 1)
  {
    forall t | t in TypesFrom(s, window) && t / 0x100 == window ensures t in TypesIn(window, used) {
      assert t == window as int * 0x100 + t % 0x100;
      assert Listed(used, t % 0x100);
    }
  }

  /** Decoding the encoding of a set of types gives exactly that set. */
  lemma DecodesToItsTypes(s: Types)
    ensures Decode(Encoding(s)) == s
  {
    DecodeBlocks(s, 0);
    assert Blocks(s)[0..] == Blocks(s);
    assert TypesFrom(s, 0) == s;
  }

  // ---------------------------------------------------------- the shape of the encoding

  /** Section 4.1.2: windows ascend, lengths are 1 to 32, no bit map ends in a zero octet. */
  predicate WellShaped(m: Octets, from: nat) {
    m == [] ||
    (|m| >= 2 && m[0] >= from && 1 <= m[1] <= 32 && 2 + m[1] <= |m| && m[1 + m[1]] != 0
     && WellShaped(m[2 + m[1]..], m[0] as int + 1))
  }

  lemma {:induction false} WellShapedFromLower(m: Octets, from: nat, lower: nat)
    requires WellShaped(m, from) && lower <= from
    ensures WellShaped(m, lower)
  {
  }

  lemma WellShapedBlock(window: byte, used: Octets, rest: Octets)
    requires 1 <= |used| <= 32 && used[|used| - 1] != 0 && WellShaped(rest, window as int + 1)
    ensures WellShaped([window, |used|] + used + rest, window)
  {
  }

  lemma BlockThenRest(s: Types, window: byte, rest: Octets)
    requires WellShaped(rest, window as int + 1)
    ensures WellShaped(Block(s, window) + rest, window)
  {
    hide WellShaped, Used;
    var used := Used(s, window);
    if used == [] {
      assert Block(s, window) + rest == rest;
      WellShapedFromLower(rest, window as int + 1, window);
    } else {
      WellShapedBlock(window, used, rest);
    }
  }

  lemma {:induction false} BlocksAreWellShaped(s: Types, window: nat)
    requires window <= 0x100
    ensures WellShaped(BlocksFrom(s, window), window)
    decreases 0x100 - window
  {
    hide WellShaped, Block;
    if window < 0x100 {
      BlocksAreWellShaped(s, window + 1);
      BlocksFromStep(s, window);
      BlockThenRest(s, window, BlocksFrom(s, window + 1));
    } else {
      assert Blocks(s)[window..] == [];
      NothingIsWellShaped(window);
    }
  }

  lemma NothingIsWellShaped(from: nat)
    ensures WellShaped([], from)
  {
  }

  lemma EncodingIsWellShaped(s: Types)
    ensures WellShaped(Encoding(s), 0)
  {
    BlocksAreWellShaped(s, 0);
    assert Blocks(s)[0..] == Blocks(s);
  }

  // ---------------------------------------------------------- the loops of type_bitmap

  function SetOf(types: seq<u16>): Types {
    set t | t in types
  }

  ghost predicate TypeAt(s: Types, window: nat, i: nat, k: nat) {
    window * 0x100 + i * 8 + k in s
  }

  /** `buffer` holds the bits of the types in `s` that fall in `window`. */
  ghost predicate Holds(buffer: array<byte>, window: nat, s: Types)
    reads buffer
  {
    buffer.Length == 32
    && forall i, k :: 0 <= i < 32 && 0 <= k < 8 ==>
        (HasBit(buffer[i], k) <==> TypeAt(s, window, i, k))
  }

  ghost predicate AnyIn(window: nat, s: Types) {
    exists t :: t in s && t / 0x100 == window
  }

  /** The dictionary of window buffers stands for `s`: one buffer a window, no two shared. */
  ghost predicate Represents(windows: map<nat, array<byte>>, s: Types)
    reads windows.Values
  {
    && (forall w :: w in windows ==> w < 0x100 && AnyIn(w, s) && Holds(windows[w], w, s))
    && (forall t :: t in s ==> t / 0x100 in windows)
    && (forall v, w :: v in windows && w in windows && v != w ==> windows[v] != windows[w])
  }

  /** Or-ing one bit into its octet, counted from the most significant. */
  method SetBit(buffer: array<byte>, bit: nat)
    requires buffer.Length == 32 && bit < 0x100
    modifies buffer
    ensures forall i, k :: 0 <= i < 32 && 0 <= k < 8 ==>
              (HasBit(buffer[i], k) <==> i * 8 + k == bit || old(HasBit(buffer[i], k)))
  {
    hide Bit, BitOr, Pow2;
    var octet, mask := buffer[bit / 8], Pow2(7 - bit % 8);
    Pow2Of8();
    Pow2Grows(7 - bit % 8, 8);
    BitOrBound(octet, mask, 8);
    var merged: byte := BitOr(octet, mask);
    forall k | 0 <= k < 8 ensures HasBit(merged, k) <==> k == bit % 8 || HasBit(octet, k) {
      BitOfOr(octet, mask, 7 - k);
      BitOfPow2(7 - bit % 8, 7 - k);
    }
    buffer[bit / 8] := merged;
  }

  lemma {:induction false} Pow2Grows(j: nat, k: nat)
    requires j < k
    ensures Pow2(j) < Pow2(k)
  {
    if j + 1 < k { Pow2Grows(j, k - 1); }
  }

  /** The buffer that holds a window's bits is that window's octets. */
  lemma HeldOctets(buffer: array<byte>, window: byte, s: Types)
    requires Holds(buffer, window, s)
    ensures buffer[..] == WindowOctets(s, window)
  {
    forall i | 0 <= i < 32 ensures buffer[i] == WindowOctets(s, window)[i] {
      var base := window as int * 0x100 + i * 8;
      Pow2Of8();
      forall k | 0 <= k < 8 ensures Bit(buffer[i], k) <==> Bit(OctetOf(s, base), k) {
        OctetBits(s, base, 7 - k);
        assert HasBit(buffer[i], 7 - k) <==> base + (7 - k) in s;
      }
      SameBits(buffer[i], OctetOf(s, base), 8);
    }
  }

  lemma UsedAt(s: Types, window: byte, i: nat)
    requires i < |Used(s, window)|
    ensures Used(s, window)[i] == OctetOf(s, window as int * 0x100 + i * 8)
  {
  }

  lemma NoneIsZero(s: Types, window: byte, i: nat)
    requires !AnyIn(window, s) && i < 32
    ensures OctetOf(s, window as int * 0x100 + i * 8) == 0
  {
    var base := window as int * 0x100 + i * 8;
    forall k | 0 <= k < 8 ensures Bit(OctetOf(s, base), k) <==> Bit(0, k) {
      OctetBits(s, base, 7 - k);
      assert (base + (7 - k)) / 0x100 == window;
      ZeroBit(k);
    }
    Pow2Of8();
    SameBits(OctetOf(s, base), 0, 8);
  }

  lemma UsedIffAny(s: Types, window: byte)
    ensures Block(s, window) == [] <==> !AnyIn(window, s)
  {
    hide Used, OctetOf;
    var used := Used(s, window);
    if AnyIn(window, s) {
      var t :| t in s && t / 0x100 == window;
      WindowLists(s, window, t % 0x100);
    } else if used != [] {
      UsedAt(s, window, |used| - 1);
      NoneIsZero(s, window, |used| - 1);
    }
  }

  /** `type_bitmap`: the result is a function of the set of types alone. */
  method BuildBitmap(types: seq<u16>) returns (out: Octets)
    ensures out == Encoding(SetOf(types))
  {
    var windows := FillWindows(types);
    out := WriteWindows(windows, SetOf(types));
  }

  lemma OneTypeMore(s: Types, rtype: u16, window: nat, i: nat, k: nat)
    requires i < 32 && k < 8
    ensures TypeAt(s + {rtype}, window, i, k) <==>
            TypeAt(s, window, i, k) || (window == rtype / 0x100 && i * 8 + k == rtype % 0x100)
  {
  }

  /** A zero buffer for a window met for the first time. */
  method EnsureWindow(windows: map<nat, array<byte>>, window: nat) returns (more: map<nat, array<byte>>)
    ensures more.Keys == windows.Keys + {window}
    ensures forall w :: w in windows ==> more[w] == windows[w]
    ensures window !in windows ==> fresh(more[window]) && more[window].Length == 32
    ensures window !in windows ==> forall i :: 0 <= i < 32 ==> more[window][i] == 0
  {
    more := windows;
    if window !in windows {
      var buffer := new byte[32](_ => 0);
      more := windows[window := buffer];
    }
  }

  lemma ZeroHolds(buffer: array<byte>, window: nat, s: Types)
    requires buffer.Length == 32 && forall i :: 0 <= i < 32 ==> buffer[i] == 0
    requires !AnyIn(window, s)
    ensures Holds(buffer, window, s)
  {
    forall i, k | 0 <= i < 32 && 0 <= k < 8 ensures !HasBit(buffer[i], k) && !TypeAt(s, window, i, k) {
      ZeroBit(7 - k);
      assert (window * 0x100 + i * 8 + k) / 0x100 == window;
    }
  }

  /** The bit of a type, set in its window's buffer, adds that type there and nothing elsewhere. */
  method SetType(windows: map<nat, array<byte>>, rtype: u16, ghost s: Types)
    requires forall w :: w in windows ==> Holds(windows[w], w, s)
    requires forall v, w :: v in windows && w in windows && v != w ==> windows[v] != windows[w]
    requires rtype / 0x100 in windows
    modifies windows[rtype / 0x100]
    ensures forall w :: w in windows ==> Holds(windows[w], w, s + {rtype})
  {
    var buffer := windows[rtype / 0x100];
    SetBit(buffer, rtype % 0x100);
    forall w | w in windows ensures Holds(windows[w], w, s + {rtype}) {
      assert old(Holds(windows[w], w, s));
      forall i, k | 0 <= i < 32 && 0 <= k < 8
        ensures HasBit(windows[w][i], k) <==> TypeAt(s + {rtype}, w, i, k)
      {
        OneTypeMore(s, rtype, w, i, k);
        if w != rtype / 0x100 { assert windows[w] != buffer; }
      }
    }
  }

  /** One turn of the filling loop. */
  method AddType(windows: map<nat, array<byte>>, rtype: u16, ghost s: Types) returns (more: map<nat, array<byte>>)
    requires Represents(windows, s)
    modifies windows.Values
    ensures Represents(more, s + {rtype})
    ensures fresh(more.Values - windows.Values)
  {
    hide Holds;
    more := EnsureWindow(windows, rtype / 0x100);
    if rtype / 0x100 !in windows { ZeroHolds(more[rtype / 0x100], rtype / 0x100, s); }
    SetType(more, rtype, s);
    forall w | w in more ensures AnyIn(w, s + {rtype}) {
      if w in windows {
        var t :| t in s && t / 0x100 == w;
        assert t in s + {rtype};
      } else {
        assert rtype in s + {rtype};
      }
    }
  }

  method FillWindows(types: seq<u16>) returns (windows: map<nat, array<byte>>)
    ensures Represents(windows, SetOf(types)) && fresh(windows.Values)
  {
    windows := map[];
    for i := 0 to |types|
      invariant Represents(windows, SetOf(types[..i])) && fresh(windows.Values)
    {
      assert SetOf(types[..i + 1]) == SetOf(types[..i]) + {types[i]};
      windows := AddType(windows, types[i], SetOf(types[..i]));
    }
    assert types[..|types|] == types;
  }

  lemma OneMoreBlock(s: Types, window: byte)
    ensures Flatten(Blocks(s)[..window as int + 1]) == Flatten(Blocks(s)[..window]) + Block(s, window)
  {
    hide Flatten, Block;
    assert Blocks(s)[..window as int + 1] == Blocks(s)[..window] + [Block(s, window)];
    FlattenAppend(Blocks(s)[..window], Block(s, window));
  }

  /** A window with a buffer is written as its number, its length and its octets. */
  lemma HeldBlock(buffer: array<byte>, window: byte, s: Types)
    requires Holds(buffer, window, s) && AnyIn(window, s)
    ensures UsedLength(buffer[..]) > 0
    ensures Block(s, window) == [window, UsedLength(buffer[..])] + buffer[..][..UsedLength(buffer[..])]
  {
    hide WindowOctets, UsedLength, Holds;
    HeldOctets(buffer, window, s);
    UsedIffAny(s, window);
  }

  method WriteWindows(windows: map<nat, array<byte>>, ghost s: Types) returns (out: Octets)
    requires Represents(windows, s)
    ensures out == Encoding(s)
  {
    hide Flatten, Block, Blocks, UsedLength, Holds;
    out := [];
    EmptyFlattens(s);
    for window := 0 to 0x100
      invariant out == Flatten(Blocks(s)[..window])
    {
      OneMoreBlock(s, window);
      UsedIffAny(s, window);
      if window in windows {
        HeldBlock(windows[window], window, s);
        var bitmap := windows[window][..];
        var length := UsedLength(bitmap);
        out := out + ([window, length] + bitmap[..length]);
      }
    }
    assert Blocks(s)[..0x100] == Blocks(s);
  }

  lemma EmptyFlattens(s: Types)
    ensures Flatten(Blocks(s)[..0]) == []
  {
  }
}
