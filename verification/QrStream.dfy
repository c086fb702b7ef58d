// The data bit stream: byte mode indicator, character count, data, terminator
// and padding (ISO/IEC 18004:2015, section 7.4), and its reader.
module QrStream {
  import opened Arithmetic
  import opened GaloisField
  import opened QrTables
  import opened Wrappers

  type Bits = seq<bool>

  // ---- numbers as bits, most significant first ----

  // val >>> i
  function ShiftRight(val: nat, i: nat): nat {
    if i == 0 then val else ShiftRight(val, i - 1) / 2
  }

  function ToBits(val: nat, len: nat): (b: Bits)
    ensures |b| == len
  {
    if len == 0 then [] else ToBits(val / 2, len - 1) + [val % 2 == 1]
  }

  function FromBits(b: Bits): nat {
    if b == [] then 0 else 2 * FromBits(b[..|b| - 1]) + if b[|b| - 1] then 1 else 0
  }

  function Pow2(n: nat): nat {
    if n == 0 then 1 else 2 * Pow2(n - 1)
  }

  lemma {:induction false} BitsRoundTrip(val: nat, len: nat)
    requires val < Pow2(len)
    ensures FromBits(ToBits(val, len)) == val
  {
    if len > 0 {
      BitsRoundTrip(val / 2, len - 1);
      var b := ToBits(val, len);
      assert b[..len - 1] == ToBits(val / 2, len - 1);
    }
  }

  lemma {:induction false} ZeroBits(len: nat)
    ensures ToBits(0, len) == Falses(len)
  {
    if len > 0 {
      ZeroBits(len - 1);
    }
  }

  // push(val, len): appends the low len bits of val.
  method Push(bits: Bits, val: nat, len: nat) returns (r: Bits)
    ensures r == bits + ToBits(val, len)
  {
    r := bits;
    for i := len downto 0
      invariant r == bits + ToBits(ShiftRight(val, i), len - i)
    {
      r := r + [ShiftRight(val, i) % 2 == 1];
    }
  }

  // ---- codewords and their bits ----

  function Flatten(codewords: seq<Byte>): (b: Bits)
    ensures |b| == 8 * |codewords|
  {
    if codewords == [] then [] else Flatten(codewords[..|codewords| - 1]) + codewords[|codewords| - 1]
  }

  lemma {:induction false} FlattenAt(codewords: seq<Byte>, k: nat)
    requires k < |codewords|
    ensures Flatten(codewords)[8 * k..8 * k + 8] == codewords[k]
  {
    if k < |codewords| - 1 {
      FlattenAt(codewords[..|codewords| - 1], k);
    }
  }

  lemma {:induction false} FlattenInjective(a: seq<Byte>, b: seq<Byte>)
    requires Flatten(a) == Flatten(b)
    ensures a == b
  {
    assert |a| == |b|;
    forall k | 0 <= k < |a| ensures a[k] == b[k] {
      FlattenAt(a, k);
      FlattenAt(b, k);
    }
  }

  lemma {:induction false} FlattenConcat(a: seq<Byte>, b: seq<Byte>)
    ensures Flatten(a + b) == Flatten(a) + Flatten(b)
  {
    if b == [] {
      assert a + b == a;
    } else {
      FlattenConcat(a, b[..|b| - 1]);
      assert (a + b)[..|a + b| - 1] == a + b[..|b| - 1];
    }
  }

  function Group(bits: Bits, n: nat): (c: seq<Byte>)
    requires 8 * n <= |bits|
    ensures |c| == n
  {
    seq(n, k requires 0 <= k < n => bits[8 * k..8 * k + 8])
  }

  lemma {:induction false} GroupFlatten(bits: Bits, n: nat)
    requires 8 * n <= |bits|
    ensures Flatten(Group(bits, n)) == bits[..8 * n]
  {
    if n > 0 {
      GroupFlatten(bits, n - 1);
      var c := Group(bits, n);
      assert c[..n - 1] == Group(bits, n - 1);
      assert bits[..8 * n] == bits[..8 * (n - 1)] + bits[8 * (n - 1)..8 * n];
    }
  }

  // ---- the stream of the standard ----

  const MODE_BYTE: Bits := [false, true, false, false]
  const PAD0: Byte := [true, true, true, false, true, true, false, false]   // 0xEC
  const PAD1: Byte := [false, false, false, true, false, false, false, true] // 0x11

  // n pad codewords, alternating and starting with `first`.
  function PadCodewords(first: Byte, n: nat): (p: seq<Byte>)
    ensures |p| == n
  {
    seq(n, i => if i % 2 == 0 then first else if first == PAD0 then PAD1 else PAD0)
  }

  function Segment(data: seq<Byte>, ver: nat): Bits {
    MODE_BYTE + ToBits(|data|, CountBits(ver)) + Flatten(data)
  }

  function Falses(n: nat): (b: Bits)
    ensures |b| == n
  {
    seq(n, i => false)
  }

  // The segment, up to four terminator bits, zero bits to the next codeword
  // boundary, then pad codewords.
  ghost predicate StreamWith(codewords: seq<Byte>, data: seq<Byte>, ver: nat, zeros: nat, pads: nat) {
    var s := Segment(data, ver);
    var terminator := Min(4, 8 * |codewords| - |s|);
    && terminator <= zeros < terminator + 8
    && (|s| + zeros) % 8 == 0
    && Flatten(codewords) == s + Falses(zeros) + Flatten(PadCodewords(PAD0, pads))
  }

  ghost predicate IsDataStream(codewords: seq<Byte>, data: seq<Byte>, ver: nat) {
    exists zeros: nat, pads: nat :: StreamWith(codewords, data, ver, zeros, pads)
  }

  // The reader: mode, count, then that many bytes.
  function ReadStream(codewords: seq<Byte>, ver: nat): Option<seq<Byte>> {
    var bits := Flatten(codewords);
    var head := 4 + CountBits(ver);
    if |bits| < head || bits[..4] != MODE_BYTE then None
    else
      var n := FromBits(bits[4..head]);
      if |bits| < head + 8 * n then None else Some(Group(bits[head..], n))
  }

  lemma Slices(a: Bits, b: Bits, c: Bits, d: Bits)
    ensures var s := a + b + c + d;
      && s[..|a|] == a && s[|a|..|a| + |b|] == b && s[|a| + |b|..][..|c|] == c
  {}

  lemma ReadSegment(data: seq<Byte>, ver: nat, codewords: seq<Byte>, rest: Bits)
    requires |data| < Pow2(CountBits(ver))
    requires Flatten(codewords) == Segment(data, ver) + rest
    ensures ReadStream(codewords, ver) == Some(data)
  {
    hide Flatten, ToBits, FromBits;
    var bits := Flatten(codewords);
    var head := 4 + CountBits(ver);
    BitsRoundTrip(|data|, CountBits(ver));
    Slices(MODE_BYTE, ToBits(|data|, CountBits(ver)), Flatten(data), rest);
    GroupFlatten(bits[head..], |data|);
    FlattenInjective(Group(bits[head..], |data|), data);
  }

  lemma ReadDataStream(data: seq<Byte>, ver: nat, codewords: seq<Byte>)
    requires |data| < Pow2(CountBits(ver))
    requires IsDataStream(codewords, data, ver)
    ensures ReadStream(codewords, ver) == Some(data)
  {
    hide Segment, ReadStream, Flatten, PadCodewords, ToBits;
    var s := Segment(data, ver);
    var zeros: nat, pads: nat :| StreamWith(codewords, data, ver, zeros, pads);
    var tail := Flatten(PadCodewords(PAD0, pads));
    assert s + Falses(zeros) + tail == s + (Falses(zeros) + tail);
    ReadSegment(data, ver, codewords, Falses(zeros) + tail);
  }

  // ---- choosing a version and packing ----

  function NeededBits(n: nat, ver: nat): nat {
    4 + CountBits(ver) + 8 * n
  }

  ghost predicate Fits(n: nat, ver: nat, ecl: Level) {
    IsVersion(ver) && NeededBits(n, ver) <= NumDataCodewords(ver, ecl) * 8
  }

  // The smallest version that holds n bytes.
  method ChooseVersion(n: nat, ecl: Level) returns (version: Option<nat>)
    ensures version.Some? ==> Fits(n, version.value, ecl) && forall v: nat | v < version.value :: !Fits(n, v, ecl)
    ensures version.None? ==> forall v: nat :: !Fits(n, v, ecl)
  {
    var ver := 1;
    while ver <= MAX_VERSION
      invariant 1 <= ver <= MAX_VERSION + 1
      invariant forall v: nat | v < ver :: !Fits(n, v, ecl)
    {
      var cap := NumDataCodewords(ver, ecl) * 8;
      if NeededBits(n, ver) <= cap {
        return Some(ver);
      }
      ver := ver + 1;
    }
    return None;
  }

  lemma CountFits(n: nat, ver: nat, ecl: Level)
    requires Fits(n, ver, ecl)
    ensures n < Pow2(CountBits(ver))
  {
    CapacityFacts(ver, ecl);
    assert Pow2(4) == 16 && Pow2(8) == 256;
    assert Pow2(12) == 4096 && Pow2(16) == 65536;
  }

  method PackData(data: seq<Byte>, ver: nat, ecl: Level) returns (codewords: seq<Byte>)
    requires Fits(|data|, ver, ecl)
    ensures |codewords| == NumDataCodewords(ver, ecl)
    ensures IsDataStream(codewords, data, ver)
    ensures ReadStream(codewords, ver) == Some(data)
  {
    hide ToBits, Flatten, ReadStream, NumDataCodewords;
    var bits := PushSegment(data, ver);
    var capBits := NumDataCodewords(ver, ecl) * 8;
    ghost var terminator := Min(4, capBits - |bits|);
    ghost var zeros, pads;
    bits, zeros, pads := PushPadding(bits, capBits);
    codewords := [];
    for i := 0 to |bits| / 8
      invariant codewords == Group(bits, i)
    {
      codewords := codewords + [bits[8 * i..8 * i + 8]];
    }
    GroupFlatten(bits, |codewords|);
    assert bits[..8 * |codewords|] == bits;
    assert StreamWith(codewords, data, ver, zeros, pads);
    CountFits(|data|, ver, ecl);
    ReadDataStream(data, ver, codewords);
  }

  method PushSegment(data: seq<Byte>, ver: nat) returns (bits: Bits)
    ensures bits == Segment(data, ver)
  {
    bits := Push([], 4, 4);
    ModeBits();
    bits := Push(bits, |data|, CountBits(ver));
    for k := 0 to |data|
      invariant bits == MODE_BYTE + ToBits(|data|, CountBits(ver)) + Flatten(data[..k])
    {
      assert data[..k + 1][..k] == data[..k];
      bits := bits + data[k];
    }
    assert data[..|data|] == data;
  }

  method PushPadding(segment: Bits, capBits: nat) returns (bits: Bits, ghost zeros: nat, ghost pads: nat)
    requires |segment| <= capBits && capBits % 8 == 0
    ensures |bits| == capBits
    ensures Min(4, capBits - |segment|) <= zeros < Min(4, capBits - |segment|) + 8
    ensures (|segment| + zeros) % 8 == 0
    ensures bits == segment + Falses(zeros) + Flatten(PadCodewords(PAD0, pads))
  {
    hide ToBits;
    var terminator := Min(4, capBits - |segment|);
    bits := Push(segment, 0, terminator);
    var align := (8 - |bits| % 8) % 8;
    bits := Push(bits, 0, align);
    zeros := terminator + align;
    ZeroBits(terminator);
    ZeroBits(align);
    ghost var aligned := bits;
    assert aligned == segment + Falses(zeros);
    bits, pads := PushPads(bits, capBits);
  }

  method PushPads(aligned: Bits, capBits: nat) returns (bits: Bits, ghost pads: nat)
    requires |aligned| <= capBits && capBits % 8 == 0 && |aligned| % 8 == 0
    ensures |bits| == capBits
    ensures bits == aligned + Flatten(PadCodewords(PAD0, pads))
  {
    hide Flatten, PadCodewords, Xor;
    bits := aligned;
    pads := 0;
    var pad := PAD0;
    NoPads();
    while |bits| < capBits
      invariant |bits| % 8 == 0 && |bits| <= capBits
      invariant pad == if pads % 2 == 0 then PAD0 else PAD1
      invariant bits == aligned + Flatten(PadCodewords(PAD0, pads))
      decreases capBits - |bits|
    {
      OneMorePad(pads);
      bits := bits + pad;
      pads := pads + 1;
      TogglePad();
      pad := Xor(pad, Xor(PAD0, PAD1));
    }
  }

  lemma NoPads()
    ensures Flatten(PadCodewords(PAD0, 0)) == []
  {}

  lemma OneMorePad(n: nat)
    ensures Flatten(PadCodewords(PAD0, n + 1)) == Flatten(PadCodewords(PAD0, n)) + (if n % 2 == 0 then PAD0 else PAD1)
  {
    assert PadCodewords(PAD0, n + 1)[..n] == PadCodewords(PAD0, n);
  }

  lemma ModeBits()
    ensures ToBits(4, 4) == MODE_BYTE
  {
    assert ToBits(1, 2) == [false, true];
  }

  lemma TogglePad()
    ensures Xor(PAD0, Xor(PAD0, PAD1)) == PAD1
    ensures Xor(PAD1, Xor(PAD0, PAD1)) == PAD0
  {}
}
