// The reader's figures and tables against what the encoder computes.
module QrAgreement {
  import opened Arithmetic
  import opened QrFormat
  import opened QrStream
  import opened QrSymbol
  import opened QrTables
  import R = QrReader

  // ---- words ----

  lemma ShiftAt(rem: Bits, poly: Bits, k: nat)
    requires k < |rem| == |poly|
    ensures Shift(rem, poly)[k] == ((k + 1 < |rem| && rem[k + 1]) != (rem[0] && poly[k]))
  {}

  // A register of ten bits, shifted with the generator of the format information.
  datatype Ten = Ten(a: bool, b: bool, c: bool, d: bool, e: bool, f: bool, g: bool, h: bool, i: bool, j: bool) {
    predicate Is(s: Bits) {
      && |s| == 10
      && s[0] == a && s[1] == b && s[2] == c && s[3] == d && s[4] == e
      && s[5] == f && s[6] == g && s[7] == h && s[8] == i && s[9] == j
    }

    function At(k: nat): bool {
      match k
      case 0 => a case 1 => b case 2 => c case 3 => d case 4 => e
      case 5 => f case 6 => g case 7 => h case 8 => i case _ => j
    }

    function Next(): Ten {
      Ten(b, c != a, d, e, f != a, g != a, h, i != a, j != a, a)
    }

    function After(n: nat): Ten
      decreases n
    {
      if n == 0 then this else Next().After(n - 1)
    }

    lemma {:induction false} AfterNext(n: nat)
      ensures After(n + 1) == After(n).Next()
      decreases n
    {
      hide Next;
      if n > 0 {
        Next().AfterNext(n - 1);
      }
    }

    lemma NextIs(s: Bits)
      requires Is(s)
      ensures Next().Is(Shift(s, FORMAT_POLY))
    {
      hide Shift;
      forall k | 0 <= k < 10
        ensures Shift(s, FORMAT_POLY)[k] == ((k < 9 && s[k + 1]) != (s[0] && FORMAT_POLY[k]))
      {
        ShiftAt(s, FORMAT_POLY, k);
      }
    }

    lemma {:induction false} AfterIs(s: Bits, n: nat)
      requires |s| == 10 && Is(s)
      ensures After(n).Is(ShiftTimes(s, FORMAT_POLY, n))
    {
      hide Is, Next;
      if n > 0 {
        AfterIs(s, n - 1);
        AfterNext(n - 1);
        After(n - 1).NextIs(ShiftTimes(s, FORMAT_POLY, n - 1));
      }
    }
  }

  // A register of twelve bits, shifted with the generator of the version information.
  datatype Twelve = Twelve(a: bool, b: bool, c: bool, d: bool, e: bool, f: bool,
                           g: bool, h: bool, i: bool, j: bool, k: bool, l: bool) {
    predicate Is(s: Bits) {
      && |s| == 12
      && s[0] == a && s[1] == b && s[2] == c && s[3] == d && s[4] == e && s[5] == f
      && s[6] == g && s[7] == h && s[8] == i && s[9] == j && s[10] == k && s[11] == l
    }

    function At(n: nat): bool {
      match n
      case 0 => a case 1 => b case 2 => c case 3 => d case 4 => e case 5 => f
      case 6 => g case 7 => h case 8 => i case 9 => j case 10 => k case _ => l
    }

    function Next(): Twelve {
      Twelve(b != a, c != a, d != a, e != a, f, g, h != a, i, j, k != a, l, a)
    }

    function After(n: nat): Twelve
      decreases n
    {
      if n == 0 then this else Next().After(n - 1)
    }

    lemma {:induction false} AfterNext(n: nat)
      ensures After(n + 1) == After(n).Next()
      decreases n
    {
      hide Next;
      if n > 0 {
        Next().AfterNext(n - 1);
      }
    }

    lemma NextIs(s: Bits)
      requires Is(s)
      ensures Next().Is(Shift(s, VERSION_POLY))
    {
      hide Shift;
      forall k | 0 <= k < 12
        ensures Shift(s, VERSION_POLY)[k] == ((k < 11 && s[k + 1]) != (s[0] && VERSION_POLY[k]))
      {
        ShiftAt(s, VERSION_POLY, k);
      }
    }

    lemma {:induction false} AfterIs(s: Bits, n: nat)
      requires |s| == 12 && Is(s)
      ensures After(n).Is(ShiftTimes(s, VERSION_POLY, n))
    {
      hide Is, Next;
      if n > 0 {
        AfterIs(s, n - 1);
        AfterNext(n - 1);
        After(n - 1).NextIs(ShiftTimes(s, VERSION_POLY, n - 1));
      }
    }
  }

  lemma LastBits(val: nat, len: nat)
    requires 0 < len
    ensures ToBits(val, len)[len - 1] == (val % 2 == 1)
    ensures forall k :: 0 <= k < len - 1 ==> ToBits(val, len)[k] == ToBits(val / 2, len - 1)[k]
  {}

  // The register that holds five data bits.
  function Start(n: nat): Ten {
    Ten(false, false, false, false, false,
        n / 16 % 2 == 1, n / 8 % 2 == 1, n / 4 % 2 == 1, n / 2 % 2 == 1, n % 2 == 1)
  }

  lemma FiveBits(n: nat)
    ensures var (d, b) := (Start(n), ToBits(n, 5));
      b[0] == d.f && b[1] == d.g && b[2] == d.h && b[3] == d.i && b[4] == d.j
  {
    hide ToBits;
    LastBits(n, 5);
    LastBits(n / 2, 4);
    LastBits(n / 4, 3);
    LastBits(n / 8, 2);
    LastBits(n / 16, 1);
  }

  lemma StartIs(n: nat)
    ensures Start(n).Is(Falses(5) + ToBits(n, 5))
  {
    hide ToBits;
    FiveBits(n);
  }

  // The registers of data and remainder in a format word.
  function DataIn(w: Bits): Ten
    requires |w| == 15
  {
    Ten(false, false, false, false, false, !w[0], w[1], !w[2], w[3], !w[4])
  }

  function RestIn(w: Bits): Ten
    requires |w| == 15
  {
    Ten(w[5], w[6], w[7], w[8], w[9], !w[10], w[11], w[12], !w[13], w[14])
  }

  predicate IsFormat(w: Bits, n: nat) {
    |w| == 15 && DataIn(w) == Start(n) && RestIn(w) == Start(n).After(10)
  }

  lemma FormatUnique(v: Bits, w: Bits, n: nat)
    requires IsFormat(v, n) && IsFormat(w, n)
    ensures v == w
  {
    hide Start, Ten.After;
    SameWord(v, w);
  }

  lemma RestAt(v: Bits, k: nat)
    requires |v| == 15 && 5 <= k < 15
    ensures v[k] == (RestIn(v).At(k - 5) != (k == 10 || k == 13))
  {}

  lemma SameWord(v: Bits, w: Bits)
    requires |v| == |w| == 15 && DataIn(v) == DataIn(w) && RestIn(v) == RestIn(w)
    ensures v == w
  {
    hide RestIn;
    forall k | 0 <= k < 15 ensures v[k] == w[k] {
      if 5 <= k {
        RestAt(v, k);
        RestAt(w, k);
      }
    }
  }

  lemma MaskedAt(dat: Bits, rem: Bits, k: nat)
    requires |dat| == 5 && |rem| == 10 && k < 15
    ensures XorBits(dat + rem, FORMAT_MASK)[k] == ((if k < 5 then dat[k] else rem[k - 5]) != FORMAT_MASK[k])
  {}

  lemma MaskedIs(dat: Bits, rem: Bits, d: Ten, r: Ten)
    requires |dat| == 5 && r.Is(rem)
    requires d == Ten(false, false, false, false, false, dat[0], dat[1], dat[2], dat[3], dat[4])
    ensures DataIn(XorBits(dat + rem, FORMAT_MASK)) == d && RestIn(XorBits(dat + rem, FORMAT_MASK)) == r
  {
    hide XorBits;
    forall k | 0 <= k < 15
      ensures XorBits(dat + rem, FORMAT_MASK)[k] == ((if k < 5 then dat[k] else rem[k - 5]) != FORMAT_MASK[k])
    {
      MaskedAt(dat, rem, k);
    }
  }

  lemma FormatIs(ecl: Level, mask: nat)
    requires mask < 8
    ensures IsFormat(FormatWord(ecl, mask), LevelNumber(ecl) * 8 + mask)
  {
    hide ToBits, ShiftTimes, XorBits, Ten.Is, Ten.After, DataIn, RestIn;
    var n := LevelNumber(ecl) * 8 + mask;
    FiveBits(n);
    StartIs(n);
    Start(n).AfterIs(Falses(5) + ToBits(n, 5), 10);
    MaskedIs(ToBits(n, 5), ShiftTimes(Falses(5) + ToBits(n, 5), FORMAT_POLY, 10), Start(n), Start(n).After(10));
  }

  // A word of a table as bits.
  function Word(word: string): (w: Bits)
    ensures |w| == |word|
    ensures forall i :: 0 <= i < |word| ==> w[i] == (word[i] == '1')
  {
    seq(|word|, i requires 0 <= i < |word| => word[i] == '1')
  }

  function FormatOf(ecl: Level, mask: nat): string
    requires mask < 8
  {
    if ecl.L? then R.FORMATS_L[mask] else R.FORMATS_M[mask]
  }

  lemma FormatsL0()
    ensures IsFormat(Word("111011111000100"), 8)
    ensures IsFormat(Word("111001011110011"), 9)
  {}

  lemma FormatsL2()
    ensures IsFormat(Word("111110110101010"), 10)
    ensures IsFormat(Word("111100010011101"), 11)
  {}

  lemma FormatsL4()
    ensures IsFormat(Word("110011000101111"), 12)
    ensures IsFormat(Word("110001100011000"), 13)
  {}

  lemma FormatsL6()
    ensures IsFormat(Word("110110001000001"), 14)
    ensures IsFormat(Word("110100101110110"), 15)
  {}

  lemma FormatsM0()
    ensures IsFormat(Word("101010000010010"), 0)
    ensures IsFormat(Word("101000100100101"), 1)
  {}

  lemma FormatsM2()
    ensures IsFormat(Word("101111001111100"), 2)
    ensures IsFormat(Word("101101101001011"), 3)
  {}

  lemma FormatsM4()
    ensures IsFormat(Word("100010111111001"), 4)
    ensures IsFormat(Word("100000011001110"), 5)
  {}

  lemma FormatsM6()
    ensures IsFormat(Word("100111110010111"), 6)
    ensures IsFormat(Word("100101010100000"), 7)
  {}

  lemma FormatTable(ecl: Level, mask: nat)
    requires mask < 8
    ensures IsFormat(Word(FormatOf(ecl, mask)), LevelNumber(ecl) * 8 + mask)
  {
    hide IsFormat, Word;
    FormatsL0();
    FormatsL2();
    FormatsL4();
    FormatsL6();
    FormatsM0();
    FormatsM2();
    FormatsM4();
    FormatsM6();
  }

  lemma FormatShows(ecl: Level, mask: nat)
    requires mask < 8
    ensures Word(FormatOf(ecl, mask)) == FormatWord(ecl, mask)
  {
    hide FormatWord, FormatOf, IsFormat, Word;
    FormatIs(ecl, mask);
    FormatTable(ecl, mask);
    FormatUnique(Word(FormatOf(ecl, mask)), FormatWord(ecl, mask), LevelNumber(ecl) * 8 + mask);
  }

  function Start6(n: nat): Twelve {
    Twelve(false, false, false, false, false, false,
           n / 32 % 2 == 1, n / 16 % 2 == 1, n / 8 % 2 == 1, n / 4 % 2 == 1, n / 2 % 2 == 1, n % 2 == 1)
  }

  lemma SixBits(n: nat)
    ensures Start6(n).Is(Falses(6) + ToBits(n, 6))
  {
    hide ToBits;
    LastBits(n, 6);
    LastBits(n / 2, 5);
    LastBits(n / 4, 4);
    LastBits(n / 8, 3);
    LastBits(n / 16, 2);
    LastBits(n / 32, 1);
  }

  // The registers of data and remainder in a version word.
  function VersionIn(w: Bits): Twelve
    requires |w| == 18
  {
    Twelve(false, false, false, false, false, false, w[0], w[1], w[2], w[3], w[4], w[5])
  }

  function CheckIn(w: Bits): Twelve
    requires |w| == 18
  {
    Twelve(w[6], w[7], w[8], w[9], w[10], w[11], w[12], w[13], w[14], w[15], w[16], w[17])
  }

  predicate IsVersionWord(w: Bits, n: nat) {
    |w| == 18 && VersionIn(w) == Start6(n) && CheckIn(w) == Start6(n).After(12)
  }

  lemma VersionAt(v: Bits, k: nat)
    requires |v| == 18 && k < 18
    ensures v[k] == if k < 6 then VersionIn(v).At(k + 6) else CheckIn(v).At(k - 6)
  {}

  lemma VersionUnique(v: Bits, w: Bits, n: nat)
    requires IsVersionWord(v, n) && IsVersionWord(w, n)
    ensures v == w
  {
    hide Start6, VersionIn, CheckIn, Twelve.After;
    forall k | 0 <= k < 18 ensures v[k] == w[k] {
      VersionAt(v, k);
      VersionAt(w, k);
    }
  }

  lemma JoinedIs(dat: Bits, rem: Bits, d: Twelve, r: Twelve)
    requires |dat| == 6 && d.Is(Falses(6) + dat) && r.Is(rem)
    ensures VersionIn(dat + rem) == d && CheckIn(dat + rem) == r
  {}

  lemma VersionIs(ver: nat)
    ensures IsVersionWord(VersionWord(ver), ver)
  {
    hide ToBits, ShiftTimes, Twelve.Is, Twelve.After, VersionIn, CheckIn, Start6;
    SixBits(ver);
    Start6(ver).AfterIs(Falses(6) + ToBits(ver, 6), 12);
    JoinedIs(ToBits(ver, 6), ShiftTimes(Falses(6) + ToBits(ver, 6), VERSION_POLY, 12), Start6(ver),
      Start6(ver).After(12));
  }

  lemma Versions7()
    ensures IsVersionWord(Word("000111110010010100"), 7)
    ensures IsVersionWord(Word("001000010110111100"), 8)
  {}

  lemma Versions9()
    ensures IsVersionWord(Word("001001101010011001"), 9)
    ensures IsVersionWord(Word("001010010011010011"), 10)
  {}

  lemma Versions11()
    ensures IsVersionWord(Word("001011101111110110"), 11)
    ensures IsVersionWord(Word("001100011101100010"), 12)
  {}

  lemma Versions13()
    ensures IsVersionWord(Word("001101100001000111"), 13)
    ensures IsVersionWord(Word("001110011000001101"), 14)
  {}

  lemma Versions15()
    ensures IsVersionWord(Word("001111100100101000"), 15)
  {}

  lemma VersionShows(ver: nat)
    requires 7 <= ver <= 15
    ensures Word(R.VERSIONS[ver - 7]) == VersionWord(ver)
  {
    hide VersionWord, IsVersionWord, Word;
    VersionIs(ver);
    Versions7();
    Versions9();
    Versions11();
    Versions13();
    Versions15();
    VersionUnique(Word(R.VERSIONS[ver - 7]), VersionWord(ver), ver);
  }

  // ---- masks ----

  lemma ProductSix(x: nat, y: nat)
    ensures (x * y) % 6 == (x % 6 * (y % 6)) % 6
  {
    var p, q, a, b := x / 6, y / 6, x % 6, y % 6;
    var r := a * b;
    assert x == 6 * p + a && y == 6 * q + b;
    assert x * y == 6 * (p * y + a * q) + r by {
      assert x * y == 6 * p * y + a * y;
      assert a * y == 6 * (a * q) + r;
    }
    DivModUnique((p * y + a * q) + r / 6, r % 6, 6);
  }

  lemma SixParts(n: nat)
    ensures n % 2 == n % 6 % 2 && n % 3 == n % 6 % 3
  {
    var q, r := n / 6, n % 6;
    DivModUnique(3 * q + r / 2, r % 2, 2);
    DivModUnique(2 * q + r / 3, r % 3, 3);
  }

  lemma ProductParts(x: nat, y: nat)
    ensures (x * y) % 2 == (x % 6 * (y % 6)) % 2
    ensures (x * y) % 3 == (x % 6 * (y % 6)) % 3
  {
    ProductSix(x, y);
    SixParts(x * y);
    SixParts(x % 6 * (y % 6));
  }

  lemma MaskZero(x: nat, y: nat)
    ensures R.MaskDark(0, x, y) == MaskBit(0, x, y)
  {}

  lemma MaskThree(x: nat, y: nat)
    ensures R.MaskDark(3, x, y) == MaskBit(3, x, y)
  {}

  lemma MaskLines(x: nat, y: nat)
    ensures R.MaskDark(1, x, y) == MaskBit(1, x, y)
    ensures R.MaskDark(2, x, y) == MaskBit(2, x, y)
  {}

  lemma MaskFour(x: nat, y: nat)
    ensures R.MaskDark(4, x, y) == MaskBit(4, x, y)
  {
    assert (x / 3) % 2 == x % 6 / 3 && (y / 2) % 2 == y % 4 / 2;
  }

  // One tile, row by row.
  lemma TileFive(a: nat, b: nat)
    requires a < 6 && b < 6
    ensures R.MaskDark(5, a, b) == ((a * b) % 2 + (a * b) % 3 == 0)
  {
    match b
    case 0 => case 1 => case 2 => case 3 => case 4 => case 5 =>
  }

  lemma TileSix(a: nat, b: nat)
    requires a < 6 && b < 6
    ensures R.MaskDark(6, a, b) == (((a * b) % 2 + (a * b) % 3) % 2 == 0)
  {
    match b
    case 0 => case 1 => case 2 => case 3 => case 4 => case 5 =>
  }

  lemma TileSeven(a: nat, b: nat)
    requires a < 6 && b < 6
    ensures R.MaskDark(7, a, b) == (((a + b) % 2 + (a * b) % 3) % 2 == 0)
  {
    match b
    case 0 => case 1 => case 2 => case 3 => case 4 => case 5 =>
  }

  lemma TileRepeats(mask: nat, x: nat, y: nat)
    requires 5 <= mask < 8
    ensures R.MaskDark(mask, x, y) == R.MaskDark(mask, x % 6, y % 6)
  {}

  lemma MaskFive(x: nat, y: nat)
    ensures R.MaskDark(5, x, y) == MaskBit(5, x, y)
  {
    hide R.MaskDark;
    TileRepeats(5, x, y);
    TileFive(x % 6, y % 6);
    ProductParts(x, y);
  }

  lemma MaskSix(x: nat, y: nat)
    ensures R.MaskDark(6, x, y) == MaskBit(6, x, y)
  {
    hide R.MaskDark;
    TileRepeats(6, x, y);
    TileSix(x % 6, y % 6);
    ProductParts(x, y);
  }

  lemma MaskSeven(x: nat, y: nat)
    ensures R.MaskDark(7, x, y) == MaskBit(7, x, y)
  {
    hide R.MaskDark;
    TileRepeats(7, x, y);
    TileSeven(x % 6, y % 6);
    ProductParts(x, y);
    SumParity(x, y);
  }

  lemma SumParity(x: nat, y: nat)
    ensures (x + y) % 2 == (x % 6 + y % 6) % 2
  {
    DivModUnique(3 * (x / 6) + 3 * (y / 6) + (x % 6 + y % 6) / 2, (x % 6 + y % 6) % 2, 2);
  }

  // Table 10 and figure 21 agree.
  lemma MaskAgrees(mask: nat, x: nat, y: nat)
    requires mask < 8
    ensures R.MaskDark(mask, x, y) == MaskBit(mask, x, y)
  {
    hide R.MaskDark, MaskBit;
    match mask
    case 0 => MaskZero(x, y);
    case 1 => MaskLines(x, y);
    case 2 => MaskLines(x, y);
    case 3 => MaskThree(x, y);
    case 4 => MaskFour(x, y);
    case 5 => MaskFive(x, y);
    case 6 => MaskSix(x, y);
    case _ => MaskSeven(x, y);
  }
}
