// Transcoding of report files: UTF-16 with a byte order mark to UTF-8.
module Utf16 {
  import opened Texts

  type Byte = x: int | 0 <= x < 0x100
  type Unit = x: int | 0 <= x < 0x10000
  type Scalar = c: int | 0 <= c < 0xD800 || 0xE000 <= c < 0x110000

  const BYTE_ORDER_MARK: Scalar := 0xFEFF
  const REPLACEMENT: Scalar := 0xFFFD

  // ---- UTF-8, section 3 of RFC 3629 ----

  function Utf8Of(c: Scalar): (s: seq<Byte>)
    ensures 1 <= |s| <= 4
  {
    if c < 0x80 then [c]
    else if c < 0x800 then [0xC0 + c / 0x40, 0x80 + c % 0x40]
    else if c < 0x10000 then [0xE0 + c / 0x1000, 0x80 + c / 0x40 % 0x40, 0x80 + c % 0x40]
    else [0xF0 + c / 0x40000, 0x80 + c / 0x1000 % 0x40, 0x80 + c / 0x40 % 0x40, 0x80 + c % 0x40]
  }

  function Utf8(text: seq<Scalar>): seq<Byte> {
    if text == [] then [] else Utf8Of(text[0]) + Utf8(text[1..])
  }

  // ---- UTF-16, section 2.1 of RFC 2781 ----

  function UnitsOf(c: Scalar): seq<Unit> {
    if c < 0x10000 then [c]
    else [0xD800 + (c - 0x10000) / 0x400, 0xDC00 + (c - 0x10000) % 0x400]
  }

  function Utf16(text: seq<Scalar>): seq<Unit> {
    if text == [] then [] else UnitsOf(text[0]) + Utf16(text[1..])
  }

  function BytesOf(u: Unit, little: bool): seq<Byte> {
    if little then [u % 0x100, u / 0x100] else [u / 0x100, u % 0x100]
  }

  function Serialized(units: seq<Unit>, little: bool): seq<Byte> {
    if units == [] then [] else BytesOf(units[0], little) + Serialized(units[1..], little)
  }

  // A report file: the byte order mark, then the text.
  function File(text: seq<Scalar>, little: bool): seq<Byte> {
    BytesOf(BYTE_ORDER_MARK, little) + Serialized(Utf16(text), little)
  }

  // ---- decoding ----

  function UnitAt(b0: Byte, b1: Byte, little: bool): Unit {
    if little then b0 + 0x100 * b1 else 0x100 * b0 + b1
  }

  // Byte pairs; an odd last byte is dropped.
  function Units(b: seq<Byte>, little: bool): seq<Unit> {
    if |b| < 2 then [] else [UnitAt(b[0], b[1], little)] + Units(b[2..], little)
  }

  predicate IsHigh(u: Unit) {
    0xD800 <= u < 0xDC00
  }

  predicate IsLow(u: Unit) {
    0xDC00 <= u < 0xE000
  }

  function Combined(high: int, low: int): int {
    0x10000 + (high - 0xD800) * 0x400 + (low - 0xDC00)
  }

  // The first scalar of some units, and how many units it takes (utf16.Decode).
  function FirstScalar(u: seq<Unit>): (r: (Scalar, int))
    requires u != []
    ensures 1 <= r.1 <= |u|
  {
    if !IsHigh(u[0]) && !IsLow(u[0]) then (u[0], 1)
    else if IsHigh(u[0]) && 1 < |u| && IsLow(u[1]) then
      (Combined(u[0], u[1]), 2)
    else (REPLACEMENT, 1)
  }

  function Scalars(u: seq<Unit>): seq<Scalar> {
    if u == [] then [] else [FirstScalar(u).0] + Scalars(u[FirstScalar(u).1..])
  }

  // What DecodeUTF16 answers.
  function Decoded(b: seq<Byte>): seq<Byte> {
    if HasPrefix(b, [0xFF, 0xFE]) then Utf8(Scalars(Units(b[2..], true)))
    else if HasPrefix(b, [0xFE, 0xFF]) then Utf8(Scalars(Units(b[2..], false)))
    else if HasPrefix(b, [0xEF, 0xBB, 0xBF]) then b[3..]
    else b
  }

  method ReadUnits(b: seq<Byte>, little: bool) returns (u: seq<Unit>)
    ensures u == Units(b, little)
  {
    u := [];
    var i := 0;
    while i + 1 < |b|
      invariant 0 <= i <= |b|
      invariant u + Units(b[i..], little) == Units(b, little)
    {
      ghost var before := u;
      u := u + [UnitAt(b[i], b[i + 1], little)];
      assert b[i..][2..] == b[i + 2..];
      assert before + ([UnitAt(b[i], b[i + 1], little)] + Units(b[i + 2..], little)) == u + Units(b[i + 2..], little);
      i := i + 2;
    }
  }

  method ReadScalars(u: seq<Unit>) returns (text: seq<Scalar>)
    ensures text == Scalars(u)
  {
    text := [];
    var i := 0;
    while i < |u|
      invariant 0 <= i <= |u|
      invariant text + Scalars(u[i..]) == Scalars(u)
    {
      var (c, n) := FirstScalar(u[i..]);
      assert u[i..][n..] == u[i + n..];
      assert text + ([c] + Scalars(u[i + n..])) == (text + [c]) + Scalars(u[i + n..]);
      text := text + [c];
      i := i + n;
    }
  }

  method WriteUtf8(text: seq<Scalar>) returns (out: seq<Byte>)
    ensures out == Utf8(text)
  {
    out := [];
    for i := 0 to |text|
      invariant out + Utf8(text[i..]) == Utf8(text)
    {
      assert text[i..][1..] == text[i + 1..];
      assert out + (Utf8Of(text[i]) + Utf8(text[i + 1..])) == (out + Utf8Of(text[i])) + Utf8(text[i + 1..]);
      out := out + Utf8Of(text[i]);
    }
  }

  method DecodeUTF16(b: seq<Byte>) returns (out: seq<Byte>)
    ensures out == Decoded(b)
  {
    if 2 <= |b| {
      var le := b[0] == 0xFF && b[1] == 0xFE;
      var be := b[0] == 0xFE && b[1] == 0xFF;
      if le || be {
        var u := ReadUnits(b[2..], le);
        var text := ReadScalars(u);
        out := WriteUtf8(text);
        return;
      }
    }
    if 3 <= |b| && b[..3] == [0xEF, 0xBB, 0xBF] {
      return b[3..];
    }
    return b;
  }

  // ---- a text survives UTF-16 ----

  lemma UnitBytes(u: Unit, little: bool, rest: seq<Byte>)
    ensures Units(BytesOf(u, little) + rest, little) == [u] + Units(rest, little)
  {
    var b := BytesOf(u, little) + rest;
    assert b[2..] == rest;
  }

  lemma {:induction false} UnitsRead(units: seq<Unit>, little: bool, tail: seq<Byte>)
    requires |tail| < 2
    ensures Units(Serialized(units, little) + tail, little) == units
  {
    if units == [] {
      assert [] + tail == tail;
    } else {
      var rest := Serialized(units[1..], little);
      assert BytesOf(units[0], little) + rest + tail == BytesOf(units[0], little) + (rest + tail);
      UnitBytes(units[0], little, rest + tail);
      UnitsRead(units[1..], little, tail);
    }
  }

  lemma FirstOf(c: Scalar, rest: seq<Unit>)
    ensures FirstScalar(UnitsOf(c) + rest) == (c, |UnitsOf(c)|)
  {
    if 0x10000 <= c {
      var n := c - 0x10000;
      assert 0 <= n / 0x400 < 0x400 && n == n / 0x400 * 0x400 + n % 0x400;
    }
  }

  lemma {:induction false} ScalarsRead(text: seq<Scalar>)
    ensures Scalars(Utf16(text)) == text
  {
    if text != [] {
      var u, rest := UnitsOf(text[0]), Utf16(text[1..]);
      FirstOf(text[0], rest);
      assert (u + rest)[|u|..] == rest;
      ScalarsRead(text[1..]);
      assert Scalars(u + rest) == [text[0]] + text[1..];
    }
  }

  // A file decodes to the UTF-8 of its text, in either byte order, with or without a stray
  // last byte.
  lemma DecodeFile(text: seq<Scalar>, little: bool, tail: seq<Byte>)
    requires |tail| < 2
    ensures Decoded(File(text, little) + tail) == Utf8(text)
  {
    hide Units, Scalars, Serialized, Utf16, Utf8;
    var mark, body := BytesOf(BYTE_ORDER_MARK, little), Serialized(Utf16(text), little);
    var b := mark + body + tail;
    assert mark == if little then [0xFF, 0xFE] else [0xFE, 0xFF];
    assert b[..2] == mark && b[2..] == body + tail;
    UnitsRead(Utf16(text), little, tail);
    ScalarsRead(text);
  }

  // Two surrogates stand for the number their low ten bits spell, from U+10000 on.
  predicate StandFor(high: int, low: int, c: int) {
    0xD800 <= high <= 0xDBFF && 0xDC00 <= low <= 0xDFFF && c == 0x10000 + high % 0x400 * 0x400 + low % 0x400
  }

  predicate AreHalves(low: int, high: int, u: int) {
    u == low + 0x100 * high
  }

  // A unit that is no surrogate stands for itself, a high one followed by a low one for their
  // character, and any other surrogate for U+FFFD.
  lemma FirstExactly(u: seq<Unit>)
    requires u != []
    ensures var (c, n) := FirstScalar(u);
      if u[0] < 0xD800 || 0xDFFF < u[0] then c == u[0] && n == 1
      else if u[0] <= 0xDBFF && 1 < |u| && 0xDC00 <= u[1] <= 0xDFFF then StandFor(u[0], u[1], c) && n == 2
      else c == 0xFFFD && n == 1
  {}

  // Characters beyond U+FFFF are written as two surrogates, others as one unit, and a unit as
  // two bytes in the order of the mark.
  lemma UnitsExactly(c: Scalar, little: bool)
    ensures var u := UnitsOf(c); if c <= 0xFFFF then u == [c] else |u| == 2 && StandFor(u[0], u[1], c)
    ensures forall u: Unit :: |BytesOf(u, little)| == 2
    ensures forall u: Unit :: if little then AreHalves(BytesOf(u, little)[0], BytesOf(u, little)[1], u)
      else AreHalves(BytesOf(u, little)[1], BytesOf(u, little)[0], u)
  {
    if 0x10000 <= c {
      var n := c - 0x10000;
      assert n == n / 0x400 * 0x400 + n % 0x400 && 0 <= n / 0x400 < 0x400;
    }
  }

  // A file without a mark is passed on as it is.
  lemma NoMarkStays(b: seq<Byte>)
    requires !(2 <= |b| && ((b[0] == 0xFF && b[1] == 0xFE) || (b[0] == 0xFE && b[1] == 0xFF)))
    requires !(3 <= |b| && b[0] == 0xEF && b[1] == 0xBB && b[2] == 0xBF)
    ensures Decoded(b) == b
  {
    assert 2 <= |b| ==> b[..2] == [b[0], b[1]];
    assert 3 <= |b| ==> b[..3] == [b[0], b[1], b[2]];
  }

  // ---- surrogates without a partner ----

  // Every high unit is followed by a low one, and every low one follows a high one.
  predicate IsPaired(u: seq<Unit>) {
    if u == [] then true
    else if IsHigh(u[0]) then 1 < |u| && IsLow(u[1]) && IsPaired(u[2..])
    else !IsLow(u[0]) && IsPaired(u[1..])
  }

  lemma UnitsOfFirst(u: seq<Unit>)
    requires u != [] && (IsHigh(u[0]) ==> 1 < |u| && IsLow(u[1])) && !IsLow(u[0])
    ensures u == UnitsOf(FirstScalar(u).0) + u[FirstScalar(u).1..]
  {
    if IsHigh(u[0]) {
      var hi: int, lo: int := u[0], u[1];
      var n := (hi - 0xD800) * 0x400 + (lo - 0xDC00);
      assert n / 0x400 == u[0] - 0xD800 && n % 0x400 == u[1] - 0xDC00;
      assert UnitsOf(FirstScalar(u).0) == [u[0], u[1]];
    }
  }

  lemma {:induction false} Utf16IsPaired(text: seq<Scalar>)
    ensures IsPaired(Utf16(text))
  {
    if text != [] {
      Utf16IsPaired(text[1..]);
      var u, rest := UnitsOf(text[0]), Utf16(text[1..]);
      assert (u + rest)[|u|..] == rest;
    }
  }

  lemma {:induction false} PairedIsUtf16(u: seq<Unit>)
    requires IsPaired(u)
    ensures Utf16(Scalars(u)) == u
  {
    if u != [] {
      UnitsOfFirst(u);
      PairedIsUtf16(u[FirstScalar(u).1..]);
      assert Scalars(u)[1..] == Scalars(u[FirstScalar(u).1..]);
    }
  }

  // Decoding loses nothing exactly when every surrogate has its partner.
  lemma LosslessWhenPaired(u: seq<Unit>)
    ensures Utf16(Scalars(u)) == u <==> IsPaired(u)
  {
    Utf16IsPaired(Scalars(u));
    if IsPaired(u) {
      PairedIsUtf16(u);
    }
  }

  // ---- UTF-8 tells texts apart ----

  lemma SameFirst(c: Scalar, d: Scalar, s: seq<Byte>, t: seq<Byte>)
    requires Utf8Of(c) + s == Utf8Of(d) + t
    ensures c == d && s == t
  {
    var x, y := Utf8Of(c) + s, Utf8Of(d) + t;
    LeadByte(c);
    LeadByte(d);
    assert x[0] == Utf8Of(c)[0] && y[0] == Utf8Of(d)[0];
    assert |Utf8Of(c)| == |Utf8Of(d)|;
    assert Utf8Of(c) == x[..|Utf8Of(c)|] == y[..|Utf8Of(d)|] == Utf8Of(d);
    SameBytes(c, d);
    assert s == x[|Utf8Of(c)|..] && t == y[|Utf8Of(d)|..];
  }

  // The first byte tells the length, and is never a byte of the UTF-16 mark.
  lemma LeadByte(c: Scalar)
    ensures |Utf8Of(c)| == 1 <==> Utf8Of(c)[0] < 0x80
    ensures |Utf8Of(c)| == 2 <==> 0xC0 <= Utf8Of(c)[0] < 0xE0
    ensures |Utf8Of(c)| == 3 <==> 0xE0 <= Utf8Of(c)[0] < 0xF0
    ensures |Utf8Of(c)| == 4 <==> 0xF0 <= Utf8Of(c)[0] < 0xF8
  {}

  lemma SameBytes(c: Scalar, d: Scalar)
    requires Utf8Of(c) == Utf8Of(d)
    ensures c == d
  {
    Rebuilt(c);
    Rebuilt(d);
  }

  // The number the bytes spell.
  function Spelled(s: seq<int>): int
    requires 1 <= |s| <= 4
  {
    if |s| == 1 then s[0]
    else if |s| == 2 then (s[0] - 0xC0) * 0x40 + (s[1] - 0x80)
    else if |s| == 3 then (s[0] - 0xE0) * 0x1000 + (s[1] - 0x80) * 0x40 + (s[2] - 0x80)
    else (s[0] - 0xF0) * 0x40000 + (s[1] - 0x80) * 0x1000 + (s[2] - 0x80) * 0x40 + (s[3] - 0x80)
  }

  lemma Rebuilt(c: Scalar)
    ensures Spelled(Utf8Of(c)) == c
  {
    assert c == c / 0x40 * 0x40 + c % 0x40;
    assert c / 0x40 == c / 0x40 / 0x40 * 0x40 + c / 0x40 % 0x40;
    assert c / 0x40 / 0x40 == c / 0x1000;
    assert c / 0x1000 == c / 0x1000 / 0x40 * 0x40 + c / 0x1000 % 0x40;
    assert c / 0x1000 / 0x40 == c / 0x40000;
  }

  // The bytes of a character: as few as can hold it, the first telling how many there are,
  // and the bits of the number in the rest of them, six in each byte after the first.
  predicate IsEncoding(c: int, s: seq<int>) {
    && |s| == (if c <= 0x7F then 1 else if c <= 0x7FF then 2 else if c <= 0xFFFF then 3 else 4)
    && (forall i :: 0 < i < |s| ==> 0x80 <= s[i] <= 0xBF)
    && (|s| == 1 ==> s[0] == c)
    && (|s| == 2 ==> 0xC0 <= s[0] <= 0xDF && c == s[0] % 0x20 * 0x40 + s[1] % 0x40)
    && (|s| == 3 ==> 0xE0 <= s[0] <= 0xEF && c == (s[0] % 0x10 * 0x40 + s[1] % 0x40) * 0x40 + s[2] % 0x40)
    && (|s| == 4 ==>
          0xF0 <= s[0] <= 0xF7 && c == ((s[0] % 8 * 0x40 + s[1] % 0x40) * 0x40 + s[2] % 0x40) * 0x40 + s[3] % 0x40)
  }

  lemma Utf8Exactly(c: Scalar)
    ensures IsEncoding(c, Utf8Of(c))
  {
    Rebuilt(c);
    LeadByte(c);
    LowBits(c, Utf8Of(c));
  }

  // Within their ranges the remainders are the differences.
  lemma LowBits(c: Scalar, s: seq<int>)
    requires s == Utf8Of(c)
    ensures |s| == 2 ==> s[0] % 0x20 == s[0] - 0xC0
    ensures |s| == 3 ==> s[0] % 0x10 == s[0] - 0xE0
    ensures |s| == 4 ==> s[0] % 8 == s[0] - 0xF0
    ensures forall i :: 0 < i < |s| ==> s[i] % 0x40 == s[i] - 0x80
  {}

  lemma {:induction false} Utf8Injective(a: seq<Scalar>, b: seq<Scalar>)
    requires Utf8(a) == Utf8(b)
    ensures a == b
  {
    if a != [] && b != [] {
      SameFirst(a[0], b[0], Utf8(a[1..]), Utf8(b[1..]));
      Utf8Injective(a[1..], b[1..]);
    }
  }

  // ---- decoding twice ----

  predicate StartsWithMark(text: seq<Scalar>) {
    text != [] && text[0] == BYTE_ORDER_MARK
  }

  function WithoutMark(text: seq<Scalar>): seq<Scalar> {
    if StartsWithMark(text) then text[1..] else text
  }

  // Decoding UTF-8 takes one leading U+FEFF away and nothing else.
  lemma DecodeUtf8(text: seq<Scalar>)
    ensures Decoded(Utf8(text)) == Utf8(WithoutMark(text))
    ensures Decoded(Utf8(text)) == Utf8(text) <==> !StartsWithMark(text)
  {
    if text != [] {
      var c, rest := text[0], Utf8(text[1..]);
      var b := Utf8(text);
      LeadByte(c);
      assert b == Utf8Of(c) + rest && b[0] == Utf8Of(c)[0];
      assert Utf8Of(BYTE_ORDER_MARK) == [0xEF, 0xBB, 0xBF];
      if HasPrefix(b, [0xEF, 0xBB, 0xBF]) {
        assert b[0] == 0xEF;
        assert b == Utf8Of(BYTE_ORDER_MARK) + b[3..];
        SameFirst(c, BYTE_ORDER_MARK, rest, b[3..]);
      }
      if StartsWithMark(text) {
        assert b[..3] == [0xEF, 0xBB, 0xBF] && b[3..] == rest;
      }
    }
  }

  // A report is decoded at download and again when its CSV is read: its text arrives intact
  // unless it begins with U+FEFF itself, which is dropped.
  lemma DecodeTwice(text: seq<Scalar>, little: bool)
    ensures Decoded(Decoded(File(text, little))) == Utf8(WithoutMark(text))
    ensures Decoded(Decoded(File(text, little))) == Utf8(text) <==> !StartsWithMark(text)
  {
    DecodeFile(text, little, []);
    assert File(text, little) + [] == File(text, little);
    DecodeUtf8(text);
  }

  // The letter A after a U+FEFF of its own arrives alone.
  lemma LeadingMarkIsLost(little: bool)
    ensures Decoded(Decoded(File([BYTE_ORDER_MARK, 0x41], little))) == [0x41] != Utf8([BYTE_ORDER_MARK, 0x41])
  {
    DecodeTwice([BYTE_ORDER_MARK, 0x41], little);
    assert [BYTE_ORDER_MARK, 0x41][1..] == [0x41];
    assert Utf8([0x41]) == Utf8Of(0x41) + Utf8([]);
  }
}
