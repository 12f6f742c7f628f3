/** Counting bits seven words at a time, with 32-bit words as numbers. */
module PopCount {
  import opened Decimal
  import opened Binary
  import opened ScanWords

  /** The number of bits that are set. */
  function Ones(x: nat): nat {
    if x == 0 then 0 else x % 2 + Ones(x / 2)
  }

  function Total(f: Byte -> nat, s: Bytes): nat {
    if s == [] then 0 else f(s[0]) + Total(f, s[1..])
  }

  function OnesOfByte(): Byte -> nat {
    (b: Byte) => Ones(b)
  }

  /** The number of bits that are set in a string. */
  function Count(s: Bytes): nat {
    Total(OnesOfByte(), s)
  }

  // ----- the table ------------------------------------------------------------------------------

  /** Sixteen entries of bitsinbyte, from 16 * h on. */
  function Row(h: nat): (r: seq<nat>)
    ensures |r| == 16
  {
    match h
    case 0 => [0, 1, 1, 2, 1, 2, 2, 3, 1, 2, 2, 3, 2, 3, 3, 4]
    case 1 => [1, 2, 2, 3, 2, 3, 3, 4, 2, 3, 3, 4, 3, 4, 4, 5]
    case 2 => [1, 2, 2, 3, 2, 3, 3, 4, 2, 3, 3, 4, 3, 4, 4, 5]
    case 3 => [2, 3, 3, 4, 3, 4, 4, 5, 3, 4, 4, 5, 4, 5, 5, 6]
    case 4 => [1, 2, 2, 3, 2, 3, 3, 4, 2, 3, 3, 4, 3, 4, 4, 5]
    case 5 => [2, 3, 3, 4, 3, 4, 4, 5, 3, 4, 4, 5, 4, 5, 5, 6]
    case 6 => [2, 3, 3, 4, 3, 4, 4, 5, 3, 4, 4, 5, 4, 5, 5, 6]
    case 7 => [3, 4, 4, 5, 4, 5, 5, 6, 4, 5, 5, 6, 5, 6, 6, 7]
    case 8 => [1, 2, 2, 3, 2, 3, 3, 4, 2, 3, 3, 4, 3, 4, 4, 5]
    case 9 => [2, 3, 3, 4, 3, 4, 4, 5, 3, 4, 4, 5, 4, 5, 5, 6]
    case 10 => [2, 3, 3, 4, 3, 4, 4, 5, 3, 4, 4, 5, 4, 5, 5, 6]
    case 11 => [3, 4, 4, 5, 4, 5, 5, 6, 4, 5, 5, 6, 5, 6, 6, 7]
    case 12 => [2, 3, 3, 4, 3, 4, 4, 5, 3, 4, 4, 5, 4, 5, 5, 6]
    case 13 => [3, 4, 4, 5, 4, 5, 5, 6, 4, 5, 5, 6, 5, 6, 6, 7]
    case 14 => [3, 4, 4, 5, 4, 5, 5, 6, 4, 5, 5, 6, 5, 6, 6, 7]
    case _ => [4, 5, 5, 6, 5, 6, 6, 7, 5, 6, 6, 7, 6, 7, 7, 8]
  }

  function BitsInByte(b: Byte): nat {
    Row(b / 16)[b % 16]
  }

  /** The bits of a number below sixteen. */
  lemma NibbleOnes(i: nat)
    requires i < 16
    ensures Row(0)[i] == Ones(i)
  {
    assert Ones(0) == 0 && Ones(1) == 1;
    assert Ones(2) == 1 && Ones(3) == 2;
    assert Ones(4) == 1 && Ones(5) == 2 && Ones(6) == 2 && Ones(7) == 3;
    assert Ones(8) == 1 && Ones(9) == 2 && Ones(10) == 2 && Ones(11) == 3;
    assert Ones(12) == 2 && Ones(13) == 3 && Ones(14) == 3 && Ones(15) == 4;
  }

  lemma OnesStep(x: nat, q: nat, r: nat)
    requires x == 2 * q + r && r < 2
    ensures Ones(x) == r + Ones(q)
  {}

  /** Four bits below a number. */
  lemma OnesOfFour(x: nat, x1: nat, x2: nat, x3: nat, h: nat, r3: nat, r2: nat, r1: nat, r0: nat)
    requires r0 < 2 && r1 < 2 && r2 < 2 && r3 < 2
    requires x == 2 * x1 + r0 && x1 == 2 * x2 + r1 && x2 == 2 * x3 + r2 && x3 == 2 * h + r3
    ensures Ones(x) == Ones(h) + r3 + r2 + r1 + r0
  {
    OnesStep(x, x1, r0);
    OnesStep(x1, x2, r1);
    OnesStep(x2, x3, r2);
    OnesStep(x3, h, r3);
  }

  lemma FourBits(i: nat) returns (r3: nat, r2: nat, r1: nat, r0: nat)
    requires i < 16
    ensures r0 < 2 && r1 < 2 && r2 < 2 && r3 < 2 && i == 8 * r3 + 4 * r2 + 2 * r1 + r0
  {
    var x1 := i / 2;
    var x2 := x1 / 2;
    r3, r2, r1, r0 := x2 / 2, x2 % 2, x1 % 2, i % 2;
  }

  lemma OnesOfHalves(b: nat, h: nat, i: nat)
    requires i < 16 && b == 16 * h + i
    ensures Ones(b) == Ones(h) + Ones(i)
  {
    var r3, r2, r1, r0 := FourBits(i);
    OnesOfFour(b, 8 * h + 4 * r3 + 2 * r2 + r1, 4 * h + 2 * r3 + r2, 2 * h + r3, h, r3, r2, r1, r0);
    OnesOfFour(i, 4 * r3 + 2 * r2 + r1, 2 * r3 + r2, r3, 0, r3, r2, r1, r0);
  }

  lemma LowerRows(h: nat, i: nat)
    requires h < 8 && i < 16
    ensures Row(h)[i] == Row(0)[h] + Row(0)[i]
  {}

  lemma UpperRows(h: nat, i: nat)
    requires 8 <= h < 16 && i < 16
    ensures Row(h)[i] == Row(0)[h] + Row(0)[i]
  {}

  lemma RowOfNibble(h: nat, i: nat)
    requires h < 16 && i < 16
    ensures Row(h)[i] == Row(0)[h] + Row(0)[i]
  {
    if h < 8 {
      LowerRows(h, i);
    } else {
      UpperRows(h, i);
    }
  }

  lemma TableIsOnes(b: Byte)
    ensures BitsInByte(b) == Ones(b)
  {
    RowOfNibble(b / 16, b % 16);
    NibbleOnes(b / 16);
    NibbleOnes(b % 16);
    OnesOfHalves(b, b / 16, b % 16);
  }

  // ----- one word ----------------------------------------------------------------------------------

  /** Four bytes as a 32-bit word. */
  function Word4(l0: nat, l1: nat, l2: nat, l3: nat): nat {
    l0 + 256 * (l1 + 256 * (l2 + 256 * l3))
  }

  /** The eight low bits apart. */
  lemma {:induction false} AndSplit(k: nat, n: nat, m: nat, a: nat, b: nat, x: nat, y: nat, c: nat, d: nat)
    requires n == m + k && a == Up(k, x) + c && b == Up(k, y) + d && c < Pow2(k) && d < Pow2(k)
    ensures And(n, a, b) == Up(k, And(m, x, y)) + And(k, c, d)
  {
    if k > 0 {
      AndSplit(k - 1, n - 1, m, a / 2, b / 2, x, y, c / 2, d / 2);
      assert a / 2 == Up(k - 1, x) + c / 2 && b / 2 == Up(k - 1, y) + d / 2;
    }
  }

  lemma UpEight(x: nat, k: nat)
    requires k == 8
    ensures Up(k, x) == 256 * x && Pow2(k) == 256
  {
    UpIsProduct(k, x);
    assert Pow2(4) == 16;
    UpPow2(4, 4, 8);
    UpIsProduct(4, 16);
  }

  lemma AndByte(n: nat, m: nat, a: nat, b: nat, x: nat, y: nat, c: nat, d: nat)
    requires n == m + 8 && a == 256 * x + c && b == 256 * y + d && c < 256 && d < 256
    ensures And(n, a, b) == 256 * And(m, x, y) + And(8, c, d)
  {
    UpEight(x, 8);
    UpEight(y, 8);
    UpEight(And(m, x, y), 8);
    AndSplit(8, n, m, a, b, x, y, c, d);
  }

  lemma AndThree(l1: nat, l2: nat, l3: nat, m: nat, w1: nat, w2: nat, m1: nat, m2: nat)
    requires l1 < 256 && l2 < 256 && l3 < 256 && m < 256
    requires w1 == 256 * w2 + l1 && w2 == 256 * l3 + l2 && m1 == 256 * m2 + m && m2 == 256 * m + m
    ensures And(24, w1, m1) == And(8, l1, m) + 256 * (And(8, l2, m) + 256 * And(8, l3, m))
  {
    AndByte(24, 16, w1, m1, w2, m2, l1, m);
    AndByte(16, 8, w2, m2, l3, m, l2, m);
  }

  /** `&` with a mask that repeats in every byte works byte by byte. */
  lemma AndWord(l0: nat, l1: nat, l2: nat, l3: nat, m: nat, w: nat, mask: nat)
    requires l0 < 256 && l1 < 256 && l2 < 256 && l3 < 256 && m < 256 && w == Word4(l0, l1, l2, l3) &&
             mask == Word4(m, m, m, m)
    ensures And(32, w, mask) == Word4(And(8, l0, m), And(8, l1, m), And(8, l2, m), And(8, l3, m))
  {
    var w2, m2 := 256 * l3 + l2, 256 * m + m;
    var w1, m1 := 256 * w2 + l1, 256 * m2 + m;
    AndThree(l1, l2, l3, m, w1, w2, m1, m2);
    AndByte(32, 24, w, mask, w1, m1, l0, m);
  }

  // ----- one byte of a word --------------------------------------------------------------------

  lemma UpTwo(x: nat, k: nat)
    requires k == 2
    ensures Up(k, x) == 4 * x && Pow2(k) == 4
  {
    assert Up(1, x) == 2 * Up(0, x);
    assert Pow2(1) == 2 * Pow2(0);
  }

  lemma AndDigit(n: nat, m: nat, a: nat, b: nat, x: nat, y: nat, d: nat, e: nat)
    requires n == m + 2 && a == 4 * x + d && b == 4 * y + e && d < 4 && e < 4
    ensures And(n, a, b) == 4 * And(m, x, y) + And(2, d, e)
  {
    UpTwo(x, 2);
    UpTwo(y, 2);
    UpTwo(And(m, x, y), 2);
    AndSplit(2, n, m, a, b, x, y, d, e);
  }

  /** `&` in base four. */
  lemma AndDigits(a: nat, a1: nat, a2: nat, d0: nat, d1: nat, d2: nat, d3: nat,
                  b: nat, b1: nat, b2: nat, e0: nat, e1: nat, e2: nat, e3: nat)
    requires d0 < 4 && d1 < 4 && d2 < 4 && d3 < 4 && e0 < 4 && e1 < 4 && e2 < 4 && e3 < 4
    requires a == 4 * a1 + d0 && a1 == 4 * a2 + d1 && a2 == 4 * d3 + d2
    requires b == 4 * b1 + e0 && b1 == 4 * b2 + e1 && b2 == 4 * e3 + e2
    ensures And(8, a, b) == 4 * (4 * (4 * And(2, d3, e3) + And(2, d2, e2)) + And(2, d1, e1)) + And(2, d0, e0)
  {
    AndDigit(8, 6, a, b, a1, b1, d0, e0);
    AndDigit(6, 4, a1, b1, a2, b2, d1, e1);
    AndDigit(4, 2, a2, b2, d3, e3, d2, e2);
  }

  lemma DigitMasks(d: nat, n: nat)
    requires d < 4 && n == 2
    ensures And(n, d, 3) == d && And(n, d, 1) == d % 2 && And(n, d, 0) == 0
  {
    assert Pow2(1) == 2 && Pow2(2) == 4;
    AndMask(2, 2, d);
    AndMask(2, 1, d);
    LowIsMod(1, d);
    OpsWithZero(2, d);
    LowBound(2, d);
  }

  /** The bits of a byte. */
  datatype Lane = Lane(b0: nat, b1: nat, b2: nat, b3: nat, b4: nat, b5: nat, b6: nat, b7: nat) {
    predicate Ok() {
      b0 < 2 && b1 < 2 && b2 < 2 && b3 < 2 && b4 < 2 && b5 < 2 && b6 < 2 && b7 < 2
    }

    function Value(): nat {
      b0 + 2 * b1 + 4 * b2 + 8 * b3 + 16 * b4 + 32 * b5 + 64 * b6 + 128 * b7
    }

    /** The sums of neighbouring bits, in fields of two bits. */
    function Pairs(): nat {
      (b0 + b1) + 4 * (b2 + b3) + 16 * (b4 + b5) + 64 * (b6 + b7)
    }

    /** The sums of four bits, in fields of four bits. */
    function Nibbles(): nat {
      (b0 + b1 + b2 + b3) + 16 * (b4 + b5 + b6 + b7)
    }

    function Sum(): nat {
      b0 + b1 + b2 + b3 + b4 + b5 + b6 + b7
    }
  }

  lemma LaneOfByte(l: nat) returns (r: Lane)
    requires l < 256
    ensures r.Ok() && r.Value() == l
  {
    var x1 := l / 2;
    var x2 := x1 / 2;
    var x3 := x2 / 2;
    var x4 := x3 / 2;
    var x5 := x4 / 2;
    var x6 := x5 / 2;
    r := Lane(l % 2, x1 % 2, x2 % 2, x3 % 2, x4 % 2, x5 % 2, x6 % 2, x6 / 2);
    assert x4 == r.b4 + 2 * r.b5 + 4 * r.b6 + 8 * r.b7;
  }

  lemma SumIsOnes(l: Lane)
    requires l.Ok()
    ensures Ones(l.Value()) == l.Sum()
  {
    var x4 := l.b4 + 2 * l.b5 + 4 * l.b6 + 8 * l.b7;
    OnesOfFour(l.Value(), l.b1 + 2 * l.b2 + 4 * l.b3 + 8 * x4, l.b2 + 2 * l.b3 + 4 * x4, l.b3 + 2 * x4, x4,
               l.b3, l.b2, l.b1, l.b0);
    OnesOfFour(x4, l.b5 + 2 * l.b6 + 4 * l.b7, l.b6 + 2 * l.b7, l.b7, 0, l.b7, l.b6, l.b5, l.b4);
  }

  lemma HalfOfLane(l: Lane, half: nat)
    requires l.Ok() && half == l.b1 + 2 * l.b2 + 4 * l.b3 + 8 * l.b4 + 16 * l.b5 + 32 * l.b6 + 64 * l.b7
    ensures l.Value() / 2 == half
  {
    assert l.Value() == 2 * half + l.b0;
  }

  /** The first step in a byte, where `c` is the bit shifted in from the next byte. */
  lemma PairsOfLane(l: Lane, c: nat, y: nat, m: nat)
    requires l.Ok() && c < 2 && y == l.Value() / 2 + 128 * c && m == 0x55
    ensures l.Value() - And(8, y, m) == l.Pairs()
  {
    HalfOfLane(l, l.b1 + 2 * l.b2 + 4 * l.b3 + 8 * l.b4 + 16 * l.b5 + 32 * l.b6 + 64 * l.b7);
    OddBits(l.b1, l.b2, l.b3, l.b4, l.b5, l.b6, l.b7, c, y, m);
  }

  lemma Parity(p: nat, q: nat, d: nat)
    requires p < 2 && d == p + 2 * q
    ensures d % 2 == p
  {}

  lemma OddBits(p0: nat, q0: nat, p1: nat, q1: nat, p2: nat, q2: nat, p3: nat, q3: nat, y: nat, m: nat)
    requires p0 < 2 && q0 < 2 && p1 < 2 && q1 < 2 && p2 < 2 && q2 < 2 && p3 < 2 && q3 < 2 && m == 0x55
    requires y == p0 + 2 * q0 + 4 * (p1 + 2 * q1 + 4 * (p2 + 2 * q2 + 4 * (p3 + 2 * q3)))
    ensures And(8, y, m) == p0 + 4 * (p1 + 4 * (p2 + 4 * p3))
  {
    var d0, d1, d2, d3 := p0 + 2 * q0, p1 + 2 * q1, p2 + 2 * q2, p3 + 2 * q3;
    AndDigits(y, d1 + 4 * (d2 + 4 * d3), d2 + 4 * d3, d0, d1, d2, d3, m, 21, 5, 1, 1, 1, 1);
    DigitMasks(d0, 2);
    DigitMasks(d1, 2);
    DigitMasks(d2, 2);
    DigitMasks(d3, 2);
    Parity(p0, q0, d0);
    Parity(p1, q1, d1);
    Parity(p2, q2, d2);
    Parity(p3, q3, d3);
  }

  /** The second step, where `c` is what is shifted in from the next byte. */
  lemma NibblesOfLane(l: Lane, c: nat, p: nat, y: nat, m: nat)
    requires l.Ok() && c < 4 && p == l.Pairs() && y == p / 4 + 64 * c && m == 0x33
    ensures And(8, p, m) + And(8, y, m) == l.Nibbles()
  {
    var v0, v1, v2, v3 := l.b0 + l.b1, l.b2 + l.b3, l.b4 + l.b5, l.b6 + l.b7;
    AndDigits(p, v1 + 4 * (v2 + 4 * v3), v2 + 4 * v3, v0, v1, v2, v3, m, 12, 3, 3, 0, 3, 0);
    AndDigits(y, v2 + 4 * (v3 + 4 * c), v3 + 4 * c, v1, v2, v3, c, m, 12, 3, 3, 0, 3, 0);
    DigitMasks(v0, 2);
    DigitMasks(v1, 2);
    DigitMasks(v2, 2);
    DigitMasks(v3, 2);
    DigitMasks(c, 2);
  }

  lemma MaskedLow(w: nat, n: nat, y: nat, m: nat, p: nat)
    requires n <= w && p == Pow2(n) && m == p - 1
    ensures p > 0 && And(w, y, m) == y % p
  {
    AndMask(w, n, y);
    LowIsMod(n, y);
  }

  lemma LowNibble(y: nat, m: nat)
    requires m == 0x0f
    ensures And(8, y, m) == y % 16
  {
    assert Pow2(4) == 16;
    MaskedLow(8, 4, y, m, 16);
  }

  lemma Remainder(y: nat, q: nat, r: nat)
    requires y == 16 * q + r && r < 16
    ensures y % 16 == r
  {}

  /** The third step, where `c` is what is shifted in from the next byte: nothing is carried. */
  lemma SumOfLane(l: Lane, c: nat, n: nat, y: nat, m: nat)
    requires l.Ok() && c <= 4 && n == l.Nibbles() && y == n + n / 16 + 16 * c && m == 0x0f
    ensures y < 256 && And(8, y, m) == l.Sum()
  {
    var lo, hi := l.b0 + l.b1 + l.b2 + l.b3, l.b4 + l.b5 + l.b6 + l.b7;
    assert n / 16 == hi;
    LowNibble(y, m);
    Remainder(y, hi + c, lo + hi);
  }

  // ----- the expressions of redisPopcount, on 32-bit words ---------------------------------------

  const WRAP: nat := 0x1_0000_0000

  function PairSums(aux: nat): nat {
    (aux - And(32, aux / 2, 0x5555_5555)) % WRAP
  }

  function NibbleSums(aux: nat): nat {
    (And(32, aux, 0x3333_3333) + And(32, aux / 4, 0x3333_3333)) % WRAP
  }

  function ByteSums(aux: nat): nat {
    And(32, (aux + aux / 16) % WRAP, 0x0f0f_0f0f)
  }

  lemma SmallWord(w: nat, a0: nat, a1: nat, a2: nat, a3: nat)
    requires a0 < 256 && a1 < 256 && a2 < 256 && a3 < 256 && w == Word4(a0, a1, a2, a3)
    ensures w < WRAP && w % WRAP == w
  {}

  lemma HalfOfWord(w: nat, h0: nat, h1: nat, h2: nat, h3: nat, c0: nat, c1: nat, c2: nat, c3: nat)
    requires c0 < 2 && w == Word4(2 * h0 + c0, 2 * h1 + c1, 2 * h2 + c2, 2 * h3 + c3)
    ensures w / 2 == Word4(h0 + 128 * c1, h1 + 128 * c2, h2 + 128 * c3, h3)
  {
    assert w == 2 * Word4(h0 + 128 * c1, h1 + 128 * c2, h2 + 128 * c3, h3) + c0;
  }

  lemma QuarterOfWord(w: nat, h0: nat, h1: nat, h2: nat, h3: nat, c0: nat, c1: nat, c2: nat, c3: nat)
    requires c0 < 4 && w == Word4(4 * h0 + c0, 4 * h1 + c1, 4 * h2 + c2, 4 * h3 + c3)
    ensures w / 4 == Word4(h0 + 64 * c1, h1 + 64 * c2, h2 + 64 * c3, h3)
  {
    assert w == 4 * Word4(h0 + 64 * c1, h1 + 64 * c2, h2 + 64 * c3, h3) + c0;
  }

  lemma SixteenthOfWord(w: nat, h0: nat, h1: nat, h2: nat, h3: nat, c0: nat, c1: nat, c2: nat, c3: nat)
    requires c0 < 16 && w == Word4(16 * h0 + c0, 16 * h1 + c1, 16 * h2 + c2, 16 * h3 + c3)
    ensures w / 16 == Word4(h0 + 16 * c1, h1 + 16 * c2, h2 + 16 * c3, h3)
  {
    assert w == 16 * Word4(h0 + 16 * c1, h1 + 16 * c2, h2 + 16 * c3, h3) + c0;
  }

  /** Half of a byte: its upper seven bits. */
  function Half(l: Lane): nat {
    l.b1 + 2 * l.b2 + 4 * l.b3 + 8 * l.b4 + 16 * l.b5 + 32 * l.b6 + 64 * l.b7
  }

  lemma OddOfLane(l: Lane, c: nat, y: nat, m: nat)
    requires l.Ok() && c < 2 && y == Half(l) + 128 * c && m == 0x55
    ensures y < 256 && And(8, y, m) + l.Pairs() == l.Value()
  {
    HalfOfLane(l, Half(l));
    PairsOfLane(l, c, y, m);
  }

  lemma Subtract(w: nat, u: nat, v0: nat, v1: nat, v2: nat, v3: nat, a0: nat, a1: nat, a2: nat, a3: nat,
                 p0: nat, p1: nat, p2: nat, p3: nat)
    requires w == Word4(v0, v1, v2, v3) && u == Word4(a0, a1, a2, a3)
    requires a0 + p0 == v0 && a1 + p1 == v1 && a2 + p2 == v2 && a3 + p3 == v3
    requires p0 < 256 && p1 < 256 && p2 < 256 && p3 < 256
    ensures (w - u) % WRAP == Word4(p0, p1, p2, p3)
  {
    SmallWord(Word4(p0, p1, p2, p3), p0, p1, p2, p3);
  }

  lemma PairSumsOfNumbers(w: nat, v0: nat, v1: nat, v2: nat, v3: nat, h0: nat, h1: nat, h2: nat, h3: nat,
                          c0: nat, c1: nat, c2: nat, c3: nat, y0: nat, y1: nat, y2: nat, y3: nat,
                          p0: nat, p1: nat, p2: nat, p3: nat, m: nat)
    requires w == Word4(v0, v1, v2, v3) && c0 < 2 && m == 0x55
    requires v0 == 2 * h0 + c0 && v1 == 2 * h1 + c1 && v2 == 2 * h2 + c2 && v3 == 2 * h3 + c3
    requires y0 == h0 + 128 * c1 && y1 == h1 + 128 * c2 && y2 == h2 + 128 * c3 && y3 == h3
    requires y0 < 256 && y1 < 256 && y2 < 256 && y3 < 256 && p0 < 256 && p1 < 256 && p2 < 256 && p3 < 256
    requires And(8, y0, m) + p0 == v0 && And(8, y1, m) + p1 == v1 && And(8, y2, m) + p2 == v2 &&
             And(8, y3, m) + p3 == v3
    ensures PairSums(w) == Word4(p0, p1, p2, p3)
  {
    HalfOfWord(w, h0, h1, h2, h3, c0, c1, c2, c3);
    AndWord(y0, y1, y2, y3, m, w / 2, 0x5555_5555);
    Subtract(w, And(32, w / 2, 0x5555_5555), v0, v1, v2, v3,
             And(8, y0, m), And(8, y1, m), And(8, y2, m), And(8, y3, m), p0, p1, p2, p3);
  }

  lemma LaneHalves(l: Lane, c: nat, m: nat, v: nat, h: nat, p: nat, y: nat)
    requires l.Ok() && c < 2 && m == 0x55 && v == l.Value() && h == Half(l) && p == l.Pairs() && y == h + 128 * c
    ensures v == 2 * h + l.b0 && y < 256 && p < 256 && And(8, y, m) + p == v
  {
    OddOfLane(l, c, y, m);
  }

  lemma PairSumsOfWord(w: nat, l0: Lane, l1: Lane, l2: Lane, l3: Lane, m: nat,
                       v0: nat, v1: nat, v2: nat, v3: nat, p0: nat, p1: nat, p2: nat, p3: nat)
    requires l0.Ok() && l1.Ok() && l2.Ok() && l3.Ok() && w == Word4(v0, v1, v2, v3) && m == 0x55
    requires v0 == l0.Value() && v1 == l1.Value() && v2 == l2.Value() && v3 == l3.Value()
    requires p0 == l0.Pairs() && p1 == l1.Pairs() && p2 == l2.Pairs() && p3 == l3.Pairs()
    ensures PairSums(w) == Word4(p0, p1, p2, p3)
  {
    var h0, h1, h2, h3 := Half(l0), Half(l1), Half(l2), Half(l3);
    var y0, y1, y2 := h0 + 128 * l1.b0, h1 + 128 * l2.b0, h2 + 128 * l3.b0;
    LaneHalves(l0, l1.b0, m, v0, h0, p0, y0);
    LaneHalves(l1, l2.b0, m, v1, h1, p1, y1);
    LaneHalves(l2, l3.b0, m, v2, h2, p2, y2);
    LaneHalves(l3, 0, m, v3, h3, p3, h3);
    PairSumsOfNumbers(w, v0, v1, v2, v3, h0, h1, h2, h3, l0.b0, l1.b0, l2.b0, l3.b0, y0, y1, y2, h3, p0, p1, p2, p3, m);
  }

  lemma Add(u: nat, v: nat, a0: nat, a1: nat, a2: nat, a3: nat, b0: nat, b1: nat, b2: nat, b3: nat,
            n0: nat, n1: nat, n2: nat, n3: nat)
    requires u == Word4(a0, a1, a2, a3) && v == Word4(b0, b1, b2, b3)
    requires a0 + b0 == n0 && a1 + b1 == n1 && a2 + b2 == n2 && a3 + b3 == n3
    requires n0 < 256 && n1 < 256 && n2 < 256 && n3 < 256
    ensures (u + v) % WRAP == Word4(n0, n1, n2, n3)
  {
    SmallWord(Word4(n0, n1, n2, n3), n0, n1, n2, n3);
  }

  lemma MaskedQuarter(w: nat, h0: nat, h1: nat, h2: nat, h3: nat, c0: nat, c1: nat, c2: nat, c3: nat,
                      b0: nat, b1: nat, b2: nat, b3: nat, m: nat)
    requires c0 < 4 && w == Word4(4 * h0 + c0, 4 * h1 + c1, 4 * h2 + c2, 4 * h3 + c3) && m == 0x33
    requires h0 + 64 * c1 < 256 && h1 + 64 * c2 < 256 && h2 + 64 * c3 < 256 && h3 < 256
    requires b0 == And(8, h0 + 64 * c1, m) && b1 == And(8, h1 + 64 * c2, m) && b2 == And(8, h2 + 64 * c3, m) &&
             b3 == And(8, h3, m)
    ensures And(32, w / 4, 0x3333_3333) == Word4(b0, b1, b2, b3)
  {
    QuarterOfWord(w, h0, h1, h2, h3, c0, c1, c2, c3);
    AndWord(h0 + 64 * c1, h1 + 64 * c2, h2 + 64 * c3, h3, m, w / 4, 0x3333_3333);
  }

  lemma NibbleSumsOfNumbers(w: nat, p0: nat, p1: nat, p2: nat, p3: nat, h0: nat, h1: nat, h2: nat, h3: nat,
                            c0: nat, c1: nat, c2: nat, c3: nat, a0: nat, a1: nat, a2: nat, a3: nat,
                            b0: nat, b1: nat, b2: nat, b3: nat, m: nat)
    requires w == Word4(p0, p1, p2, p3) && c0 < 4 && m == 0x33
    requires p0 == 4 * h0 + c0 && p1 == 4 * h1 + c1 && p2 == 4 * h2 + c2 && p3 == 4 * h3 + c3
    requires p0 < 256 && p1 < 256 && p2 < 256 && p3 < 256
    requires h0 + 64 * c1 < 256 && h1 + 64 * c2 < 256 && h2 + 64 * c3 < 256 && h3 < 256
    requires a0 == And(8, p0, m) && a1 == And(8, p1, m) && a2 == And(8, p2, m) && a3 == And(8, p3, m)
    requires b0 == And(8, h0 + 64 * c1, m) && b1 == And(8, h1 + 64 * c2, m) && b2 == And(8, h2 + 64 * c3, m) &&
             b3 == And(8, h3, m)
    ensures And(32, w, 0x3333_3333) == Word4(a0, a1, a2, a3) && And(32, w / 4, 0x3333_3333) == Word4(b0, b1, b2, b3)
  {
    AndWord(p0, p1, p2, p3, m, w, 0x3333_3333);
    MaskedQuarter(w, h0, h1, h2, h3, c0, c1, c2, c3, b0, b1, b2, b3, m);
  }

  /** A quarter of the pair sums of a byte, and what is below it. */
  function Quarter(l: Lane): nat {
    (l.b2 + l.b3) + 4 * (l.b4 + l.b5) + 16 * (l.b6 + l.b7)
  }

  lemma LaneQuarters(l: Lane, c: nat, m: nat, p: nat, h: nat, n: nat, y: nat)
    requires l.Ok() && c < 4 && m == 0x33 && p == l.Pairs() && h == Quarter(l) && n == l.Nibbles() && y == h + 64 * c
    ensures p == 4 * h + (l.b0 + l.b1) && y < 256 && p < 256 && n < 256 && And(8, p, m) + And(8, y, m) == n
  {
    assert p / 4 == h;
    NibblesOfLane(l, c, p, y, m);
  }

  lemma NibbleSumsOfWord(w: nat, l0: Lane, l1: Lane, l2: Lane, l3: Lane, m: nat,
                         p0: nat, p1: nat, p2: nat, p3: nat, n0: nat, n1: nat, n2: nat, n3: nat)
    requires l0.Ok() && l1.Ok() && l2.Ok() && l3.Ok() && w == Word4(p0, p1, p2, p3) && m == 0x33
    requires p0 == l0.Pairs() && p1 == l1.Pairs() && p2 == l2.Pairs() && p3 == l3.Pairs()
    requires n0 == l0.Nibbles() && n1 == l1.Nibbles() && n2 == l2.Nibbles() && n3 == l3.Nibbles()
    ensures NibbleSums(w) == Word4(n0, n1, n2, n3)
  {
    var h0, h1, h2, h3 := Quarter(l0), Quarter(l1), Quarter(l2), Quarter(l3);
    var c0, c1, c2, c3 := l0.b0 + l0.b1, l1.b0 + l1.b1, l2.b0 + l2.b1, l3.b0 + l3.b1;
    var a0, a1, a2, a3 := And(8, p0, m), And(8, p1, m), And(8, p2, m), And(8, p3, m);
    var b0, b1 := And(8, h0 + 64 * c1, m), And(8, h1 + 64 * c2, m);
    var b2, b3 := And(8, h2 + 64 * c3, m), And(8, h3, m);
    LaneQuarters(l0, c1, m, p0, h0, n0, h0 + 64 * c1);
    LaneQuarters(l1, c2, m, p1, h1, n1, h1 + 64 * c2);
    LaneQuarters(l2, c3, m, p2, h2, n2, h2 + 64 * c3);
    LaneQuarters(l3, 0, m, p3, h3, n3, h3);
    NibbleSumsOfNumbers(w, p0, p1, p2, p3, h0, h1, h2, h3, c0, c1, c2, c3, a0, a1, a2, a3, b0, b1, b2, b3, m);
    NibbleSumsAre(w, And(32, w, 0x3333_3333), And(32, w / 4, 0x3333_3333), a0, a1, a2, a3,
                  b0, b1, b2, b3, n0, n1, n2, n3);
  }

  lemma NibbleSumsAre(w: nat, u: nat, v: nat, a0: nat, a1: nat, a2: nat, a3: nat, b0: nat, b1: nat, b2: nat, b3: nat,
                      n0: nat, n1: nat, n2: nat, n3: nat)
    requires u == And(32, w, 0x3333_3333) && v == And(32, w / 4, 0x3333_3333)
    requires u == Word4(a0, a1, a2, a3) && v == Word4(b0, b1, b2, b3)
    requires n0 < 256 && n1 < 256 && n2 < 256 && n3 < 256
    requires a0 + b0 == n0 && a1 + b1 == n1 && a2 + b2 == n2 && a3 + b3 == n3
    ensures NibbleSums(w) == Word4(n0, n1, n2, n3)
  {
    Add(u, v, a0, a1, a2, a3, b0, b1, b2, b3, n0, n1, n2, n3);
    NibbleSumsDefinition(w, u, v);
  }

  lemma NibbleSumsDefinition(w: nat, u: nat, v: nat)
    requires u == And(32, w, 0x3333_3333) && v == And(32, w / 4, 0x3333_3333)
    ensures NibbleSums(w) == (u + v) % WRAP
  {}

  lemma WithSixteenth(w: nat, n0: nat, n1: nat, n2: nat, n3: nat, h0: nat, h1: nat, h2: nat, h3: nat,
                      c0: nat, c1: nat, c2: nat, c3: nat, y0: nat, y1: nat, y2: nat, y3: nat)
    requires w == Word4(n0, n1, n2, n3) && c0 < 16
    requires n0 == 16 * h0 + c0 && n1 == 16 * h1 + c1 && n2 == 16 * h2 + c2 && n3 == 16 * h3 + c3
    requires y0 == n0 + (h0 + 16 * c1) && y1 == n1 + (h1 + 16 * c2) && y2 == n2 + (h2 + 16 * c3) && y3 == n3 + h3
    requires y0 < 256 && y1 < 256 && y2 < 256 && y3 < 256
    ensures (w + w / 16) % WRAP == Word4(y0, y1, y2, y3)
  {
    SixteenthOfWord(w, h0, h1, h2, h3, c0, c1, c2, c3);
    Add(w, w / 16, n0, n1, n2, n3, h0 + 16 * c1, h1 + 16 * c2, h2 + 16 * c3, h3, y0, y1, y2, y3);
  }

  lemma ByteSumsDefinition(w: nat, u: nat, y0: nat, y1: nat, y2: nat, y3: nat, m: nat)
    requires u == (w + w / 16) % WRAP && u == Word4(y0, y1, y2, y3) && m == 0x0f
    requires y0 < 256 && y1 < 256 && y2 < 256 && y3 < 256
    ensures ByteSums(w) == Word4(And(8, y0, m), And(8, y1, m), And(8, y2, m), And(8, y3, m))
  {
    AndWord(y0, y1, y2, y3, m, u, 0x0f0f_0f0f);
  }

  lemma LaneSixteenths(l: Lane, c: nat, m: nat, n: nat, h: nat, y: nat)
    requires l.Ok() && c <= 4 && m == 0x0f && n == l.Nibbles() && h == l.b4 + l.b5 + l.b6 + l.b7 &&
             y == n + (h + 16 * c)
    ensures n == 16 * h + (l.b0 + l.b1 + l.b2 + l.b3) && y < 256 && And(8, y, m) == l.Sum()
  {
    assert n / 16 == h;
    SumOfLane(l, c, n, y, m);
  }

  lemma ByteSumsOfWord(w: nat, l0: Lane, l1: Lane, l2: Lane, l3: Lane, m: nat, n0: nat, n1: nat, n2: nat, n3: nat)
    requires l0.Ok() && l1.Ok() && l2.Ok() && l3.Ok() && w == Word4(n0, n1, n2, n3) && m == 0x0f
    requires n0 == l0.Nibbles() && n1 == l1.Nibbles() && n2 == l2.Nibbles() && n3 == l3.Nibbles()
    ensures ByteSums(w) == Word4(l0.Sum(), l1.Sum(), l2.Sum(), l3.Sum())
  {
    var h0, h1 := l0.b4 + l0.b5 + l0.b6 + l0.b7, l1.b4 + l1.b5 + l1.b6 + l1.b7;
    var h2, h3 := l2.b4 + l2.b5 + l2.b6 + l2.b7, l3.b4 + l3.b5 + l3.b6 + l3.b7;
    var c0, c1 := l0.b0 + l0.b1 + l0.b2 + l0.b3, l1.b0 + l1.b1 + l1.b2 + l1.b3;
    var c2, c3 := l2.b0 + l2.b1 + l2.b2 + l2.b3, l3.b0 + l3.b1 + l3.b2 + l3.b3;
    LaneSixteenths(l0, c1, m, n0, h0, n0 + (h0 + 16 * c1));
    LaneSixteenths(l1, c2, m, n1, h1, n1 + (h1 + 16 * c2));
    LaneSixteenths(l2, c3, m, n2, h2, n2 + (h2 + 16 * c3));
    LaneSixteenths(l3, 0, m, n3, h3, n3 + h3);
    var y0, y1, y2, y3 := n0 + (h0 + 16 * c1), n1 + (h1 + 16 * c2), n2 + (h2 + 16 * c3), n3 + h3;
    WithSixteenth(w, n0, n1, n2, n3, h0, h1, h2, h3, c0, c1, c2, c3, y0, y1, y2, y3);
    ByteSumsDefinition(w, Word4(y0, y1, y2, y3), y0, y1, y2, y3, m);
  }

  /** The three steps leave the number of bits of every byte in that byte. */
  lemma SumsOfWord(w: nat, b0: Byte, b1: Byte, b2: Byte, b3: Byte)
    requires w == Word4(b0, b1, b2, b3)
    ensures ByteSums(NibbleSums(PairSums(w))) == Word4(Ones(b0), Ones(b1), Ones(b2), Ones(b3))
  {
    var l0 := LaneOfByte(b0);
    var l1 := LaneOfByte(b1);
    var l2 := LaneOfByte(b2);
    var l3 := LaneOfByte(b3);
    PairSumsOfWord(w, l0, l1, l2, l3, 0x55, b0, b1, b2, b3, l0.Pairs(), l1.Pairs(), l2.Pairs(), l3.Pairs());
    NibbleSumsOfWord(PairSums(w), l0, l1, l2, l3, 0x33, l0.Pairs(), l1.Pairs(), l2.Pairs(), l3.Pairs(),
                     l0.Nibbles(), l1.Nibbles(), l2.Nibbles(), l3.Nibbles());
    ByteSumsOfWord(NibbleSums(PairSums(w)), l0, l1, l2, l3, 0x0f,
                   l0.Nibbles(), l1.Nibbles(), l2.Nibbles(), l3.Nibbles());
    SumIsOnes(l0);
    SumIsOnes(l1);
    SumIsOnes(l2);
    SumIsOnes(l3);
  }

  // ----- seven words --------------------------------------------------------------------------------

  lemma OnesBound(b: Byte)
    ensures Ones(b) <= 8
  {
    var l := LaneOfByte(b);
    SumIsOnes(l);
  }

  /** Multiplying by 0x01010101 gathers the sum of the four bytes in the highest one: seven words
      give at most 56 a byte, at most 224 in all, and nothing overflows. */
  lemma Gather(s0: nat, s1: nat, s2: nat, s3: nat, w: nat)
    requires s0 <= 56 && s1 <= 56 && s2 <= 56 && s3 <= 56 && w == Word4(s0, s1, s2, s3)
    ensures (w * 0x0101_0101) % WRAP / 0x100_0000 == s0 + s1 + s2 + s3 <= 224
  {
    var low := s0 * 0x1_0101 + s1 * 0x1_0100 + s2 * 0x1_0000;
    var sum := s0 + s1 + s2 + s3;
    var above := s1 + s2 * 0x101 + s3 * 0x1_0101;
    GatherSplit(s0, s1, s2, s3, w, low, sum, above);
    DivModUnique(above, WRAP, sum * 0x100_0000 + low);
    DivModUnique(sum, 0x100_0000, low);
  }

  lemma GatherSplit(s0: nat, s1: nat, s2: nat, s3: nat, w: nat, low: nat, sum: nat, above: nat)
    requires w == Word4(s0, s1, s2, s3) && low == s0 * 0x1_0101 + s1 * 0x1_0100 + s2 * 0x1_0000
    requires sum == s0 + s1 + s2 + s3 && above == s1 + s2 * 0x101 + s3 * 0x1_0101
    ensures w * 0x0101_0101 == above * WRAP + (sum * 0x100_0000 + low)
  {}

  /** A word as it is loaded from memory, lowest byte first. */
  function LoadWord(s: Bytes, i: nat): nat
    requires i + 4 <= |s|
  {
    Word4(s[i], s[i + 1], s[i + 2], s[i + 3])
  }

  /** The lines of the loop for one word. */
  function Sums(aux: nat): nat {
    ByteSums(NibbleSums(PairSums(aux)))
  }

  /** The bits of four bytes, byte by byte. */
  datatype Four = Four(n0: nat, n1: nat, n2: nat, n3: nat) {
    function Word(): nat {
      Word4(n0, n1, n2, n3)
    }

    function Sum(): nat {
      n0 + n1 + n2 + n3
    }

    predicate Below(k: nat) {
      n0 <= k && n1 <= k && n2 <= k && n3 <= k
    }

    function Plus(f: Four): Four {
      Four(n0 + f.n0, n1 + f.n1, n2 + f.n2, n3 + f.n3)
    }
  }

  lemma PlusOk(f: Four, g: Four, a: nat, b: nat, c: nat)
    requires f.Below(a) && g.Below(b) && c == a + b
    ensures f.Plus(g).Below(c) && f.Plus(g).Word() == f.Word() + g.Word() && f.Plus(g).Sum() == f.Sum() + g.Sum()
  {}

  lemma WordIsSums(b0: Byte, b1: Byte, b2: Byte, b3: Byte, f: Four, w: nat)
    requires w == Word4(b0, b1, b2, b3) && f == Four(Ones(b0), Ones(b1), Ones(b2), Ones(b3))
    ensures Sums(w) == f.Word() && f.Below(8)
  {
    SumsOfWord(w, b0, b1, b2, b3);
    OnesBound(b0);
    OnesBound(b1);
    OnesBound(b2);
    OnesBound(b3);
  }

  lemma TotalOfFour(f: Byte -> nat, b0: Byte, b1: Byte, b2: Byte, b3: Byte, s: Bytes)
    requires s == [b0, b1, b2, b3]
    ensures Total(f, s) == f(b0) + f(b1) + f(b2) + f(b3)
  {
    assert [b3][1..] == [] && [b2, b3][1..] == [b3] && [b1, b2, b3][1..] == [b2, b3] && s[1..] == [b1, b2, b3];
    assert Total(f, [b3]) == f(b3);
    assert Total(f, [b2, b3]) == f(b2) + f(b3);
    assert Total(f, [b1, b2, b3]) == f(b1) + (f(b2) + f(b3));
  }

  lemma WordSums(s: Bytes, i: nat) returns (f: Four)
    requires i + 4 <= |s|
    ensures Sums(LoadWord(s, i)) == f.Word() && f.Below(8) && f.Sum() == Count(s[i..i + 4])
  {
    f := FourOf(s[i], s[i + 1], s[i + 2], s[i + 3], LoadWord(s, i), s[i..i + 4]);
  }

  lemma FourOf(b0: Byte, b1: Byte, b2: Byte, b3: Byte, w: nat, s: Bytes) returns (f: Four)
    requires w == Word4(b0, b1, b2, b3) && s == [b0, b1, b2, b3]
    ensures Sums(w) == f.Word() && f.Below(8) && f.Sum() == Count(s)
  {
    f := Four(Ones(b0), Ones(b1), Ones(b2), Ones(b3));
    WordIsSums(b0, b1, b2, b3, f, w);
    TotalOfFour(OnesOfByte(), b0, b1, b2, b3, s);
  }

  lemma {:induction false} TotalAppend(f: Byte -> nat, a: Bytes, b: Bytes)
    ensures Total(f, a + b) == Total(f, a) + Total(f, b)
  {
    if a == [] {
      assert a + b == b;
    } else {
      assert (a + b)[1..] == a[1..] + b;
      TotalAppend(f, a[1..], b);
    }
  }

  lemma CountSlice(s: Bytes, i: nat, j: nat, k: nat)
    requires i <= j <= k <= |s|
    ensures Count(s[i..k]) == Count(s[i..j]) + Count(s[j..k])
  {
    assert s[i..k] == s[i..j] + s[j..k];
    TotalAppend(OnesOfByte(), s[i..j], s[j..k]);
  }

  /** The statement that adds seven words to the count. */
  function SevenSums(a1: nat, a2: nat, a3: nat, a4: nat, a5: nat, a6: nat, a7: nat): nat {
    ((a1 + a2 + a3 + a4 + a5 + a6 + a7) % WRAP * 0x0101_0101) % WRAP / 0x100_0000
  }

  lemma AddFours(f1: Four, f2: Four, f3: Four, f4: Four, f5: Four, f6: Four, f7: Four) returns (g: Four)
    requires f1.Below(8) && f2.Below(8) && f3.Below(8) && f4.Below(8) && f5.Below(8) && f6.Below(8) && f7.Below(8)
    ensures g.Below(56)
    ensures g.Word() == f1.Word() + f2.Word() + f3.Word() + f4.Word() + f5.Word() + f6.Word() + f7.Word()
    ensures g.Sum() == f1.Sum() + f2.Sum() + f3.Sum() + f4.Sum() + f5.Sum() + f6.Sum() + f7.Sum()
  {
    g := f1.Plus(f2);
    PlusOk(f1, f2, 8, 8, 16);
    PlusOk(g, f3, 16, 8, 24);
    g := g.Plus(f3);
    PlusOk(g, f4, 24, 8, 32);
    g := g.Plus(f4);
    PlusOk(g, f5, 32, 8, 40);
    g := g.Plus(f5);
    PlusOk(g, f6, 40, 8, 48);
    g := g.Plus(f6);
    PlusOk(g, f7, 48, 8, 56);
    g := g.Plus(f7);
  }

  lemma SevenNumbers(a1: nat, a2: nat, a3: nat, a4: nat, a5: nat, a6: nat, a7: nat, w: nat, g: Four)
    requires a1 + a2 + a3 + a4 + a5 + a6 + a7 == w && w == g.Word() && g.Below(56)
    ensures SevenSums(a1, a2, a3, a4, a5, a6, a7) == g.Sum()
  {
    GatherFour(g, w);
  }

  lemma GatherFour(g: Four, w: nat)
    requires g.Below(56) && w == g.Word()
    ensures (w % WRAP * 0x0101_0101) % WRAP / 0x100_0000 == g.Sum()
  {
    SmallWord(w, g.n0, g.n1, g.n2, g.n3);
    Gather(g.n0, g.n1, g.n2, g.n3, w);
  }

  /** The body of the loop over seven words. */
  method CountSevenWords(s: Bytes, p: nat) returns (bits: nat)
    requires p + 28 <= |s|
    ensures bits == Count(s[p..p + 28])
  {
    ghost var f1 := WordSums(s, p);
    ghost var f2 := WordSums(s, p + 4);
    ghost var f3 := WordSums(s, p + 8);
    ghost var f4 := WordSums(s, p + 12);
    ghost var f5 := WordSums(s, p + 16);
    ghost var f6 := WordSums(s, p + 20);
    ghost var f7 := WordSums(s, p + 24);
    ghost var g := AddFours(f1, f2, f3, f4, f5, f6, f7);
    SevenNumbers(Sums(LoadWord(s, p)), Sums(LoadWord(s, p + 4)), Sums(LoadWord(s, p + 8)), Sums(LoadWord(s, p + 12)),
                 Sums(LoadWord(s, p + 16)), Sums(LoadWord(s, p + 20)), Sums(LoadWord(s, p + 24)), g.Word(), g);
    CountSlice(s, p, p + 4, p + 28);
    CountSlice(s, p + 4, p + 8, p + 28);
    CountSlice(s, p + 8, p + 12, p + 28);
    CountSlice(s, p + 12, p + 16, p + 28);
    CountSlice(s, p + 16, p + 20, p + 28);
    CountSlice(s, p + 20, p + 24, p + 28);
    bits := SevenSums(Sums(LoadWord(s, p)), Sums(LoadWord(s, p + 4)), Sums(LoadWord(s, p + 8)),
                      Sums(LoadWord(s, p + 12)), Sums(LoadWord(s, p + 16)), Sums(LoadWord(s, p + 20)),
                      Sums(LoadWord(s, p + 24)));
  }

  lemma CountNext(s: Bytes, p: nat)
    requires p < |s|
    ensures Count(s[..p + 1]) == Count(s[..p]) + BitsInByte(s[p])
  {
    assert s[..p + 1] == s[..p] + [s[p]];
    TotalAppend(OnesOfByte(), s[..p], [s[p]]);
    assert [s[p]][1..] == [];
    TableIsOnes(s[p]);
  }

  /** redisPopcount, for a string that starts at the given address: byte by byte to a multiple
      of four, then seven words at a time, then byte by byte. */
  method RedisPopcount(s: Bytes, address: nat) returns (bits: nat)
    ensures bits == Count(s)
  {
    bits := 0;
    var p: nat, count: nat := 0, |s|;
    while (address + p) % 4 != 0 && count > 0
      invariant p + count == |s| && bits == Count(s[..p])
      decreases count
    {
      CountNext(s, p);
      bits := bits + BitsInByte(s[p]);
      p, count := p + 1, count - 1;
    }
    while count >= 28
      invariant p + count == |s| && bits == Count(s[..p])
      decreases count
    {
      assert s[0..p] == s[..p] && s[0..p + 28] == s[..p + 28];
      CountSlice(s, 0, p, p + 28);
      var more := CountSevenWords(s, p);
      bits := bits + more;
      p, count := p + 28, count - 28;
    }
    while count > 0
      invariant p + count == |s| && bits == Count(s[..p])
      decreases count
    {
      CountNext(s, p);
      bits := bits + BitsInByte(s[p]);
      p, count := p + 1, count - 1;
    }
    assert s[..p] == s;
  }
}
