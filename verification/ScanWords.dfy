/** The word arithmetic of dictScan: bitwise operators on W-bit numbers, the masks of
    power-of-two tables, and the bit-reversing loop. */
module ScanWords {
  import opened Binary
  import opened DictScan

  // ----- bitwise operators on n-bit numbers ----------------------------------------------

  function And(n: nat, a: nat, b: nat): nat {
    if n == 0 then 0 else 2 * And(n - 1, a / 2, b / 2) + if a % 2 == 1 && b % 2 == 1 then 1 else 0
  }

  function Or(n: nat, a: nat, b: nat): nat {
    if n == 0 then 0 else 2 * Or(n - 1, a / 2, b / 2) + if a % 2 == 1 || b % 2 == 1 then 1 else 0
  }

  function Xor(n: nat, a: nat, b: nat): nat {
    if n == 0 then 0 else 2 * Xor(n - 1, a / 2, b / 2) + if a % 2 != b % 2 then 1 else 0
  }

  function Not(n: nat, a: nat): nat {
    if n == 0 then 0 else 2 * Not(n - 1, a / 2) + 1 - a % 2
  }

  /** The sizemask of a table of `Pow2(n)` buckets. */
  function Mask(n: nat): nat {
    Pow2(n) - 1
  }

  lemma MaskHalf(n: nat)
    requires n > 0
    ensures Mask(n) % 2 == 1 && Mask(n) / 2 == Mask(n - 1)
  {}

  lemma {:induction false} OpsWithZero(n: nat, a: nat)
    ensures And(n, a, 0) == 0 && Or(n, a, 0) == Low(n, a) && Not(n, 0) == Mask(n)
    ensures And(n, a, Mask(n)) == Low(n, a) && Or(n, a, Mask(n)) == Mask(n)
    ensures Xor(n, 0, a) == Low(n, a)
  {
    if n > 0 {
      OpsWithZero(n - 1, a / 2);
      MaskHalf(n);
    }
  }

  /** `v & m` is the remainder modulo the table size. */
  lemma {:induction false} AndMask(w: nat, n: nat, v: nat)
    requires n <= w
    ensures And(w, v, Mask(n)) == Low(n, v)
  {
    if n == 0 {
      OpsWithZero(w, v);
    } else {
      MaskHalf(n);
      AndMask(w - 1, n - 1, v / 2);
    }
  }

  /** `v | ~m` sets all the bits above the mask. */
  lemma {:induction false} OrNotMask(w: nat, n: nat, v: nat)
    requires n <= w
    ensures Or(w, v, Not(w, Mask(n))) == Pow2(w) - Pow2(n) + Low(n, v)
  {
    if n == 0 {
      OpsWithZero(w, v);
    } else {
      MaskHalf(n);
      assert Not(w, Mask(n)) % 2 == 0 && Not(w, Mask(n)) / 2 == Not(w - 1, Mask(n - 1));
      OrNotMask(w - 1, n - 1, v / 2);
    }
  }

  /** `v | m` sets all the bits of the mask. */
  lemma {:induction false} OrMask(w: nat, n: nat, v: nat)
    requires n <= w
    ensures Or(w, v, Mask(n)) == Up(n, Low(w - n, High(n, v))) + Mask(n)
  {
    if n == 0 {
      OpsWithZero(w, v);
    } else {
      MaskHalf(n);
      OrMask(w - 1, n - 1, v / 2);
    }
  }

  /** `v & ~m` clears the bits of the mask. */
  lemma {:induction false} AndNotMask(w: nat, n: nat, v: nat)
    requires n <= w
    ensures And(w, v, Not(w, Mask(n))) == Up(n, Low(w - n, High(n, v)))
  {
    if n == 0 {
      OpsWithZero(w, v);
    } else {
      MaskHalf(n);
      assert Not(w, Mask(n)) % 2 == 0 && Not(w, Mask(n)) / 2 == Not(w - 1, Mask(n - 1));
      AndNotMask(w - 1, n - 1, v / 2);
    }
  }

  /** Words without common bits: `|` is addition. */
  lemma {:induction false} OrDisjoint(w: nat, n: nat, x: nat, r: nat)
    requires n <= w && r < Pow2(n) && x < Pow2(w - n)
    ensures Or(w, Up(n, x), r) == Up(n, x) + r
  {
    if n == 0 {
      OpsWithZero(w, x);
      LowBound(w, x);
    } else {
      OrDisjoint(w - 1, n - 1, x, r / 2);
    }
  }

  /** `v & (m0 ^ m1)` picks the bits between the masks. */
  lemma {:induction false} AndXorMask(w: nat, n0: nat, n1: nat, v: nat)
    requires n0 <= n1 <= w
    ensures And(w, v, Xor(w, Mask(n0), Mask(n1))) == Up(n0, Mid(n0, n1, v))
  {
    if n0 == 0 {
      OpsWithZero(w, Mask(n1));
      Pow2Monotone(n1, w);
      LowBound(w, Mask(n1));
      AndMask(w, n1, v);
    } else {
      MaskHalf(n0);
      MaskHalf(n1);
      assert Xor(w, Mask(n0), Mask(n1)) % 2 == 0;
      assert Xor(w, Mask(n0), Mask(n1)) / 2 == Xor(w - 1, Mask(n0 - 1), Mask(n1 - 1));
      AndXorMask(w - 1, n0 - 1, n1 - 1, v / 2);
    }
  }

  // ----- the expressions of dictScan ------------------------------------------------------

  /** `(((v | m0) + 1) & ~m0) | (v & m0)` in W-bit arithmetic. */
  function BumpWord(v: nat, m0: nat): nat {
    Or(W, And(W, Low(W, Or(W, v, m0) + 1), Not(W, m0)), And(W, v, m0))
  }

  lemma BumpWordIs(n0: nat, v: nat)
    requires n0 <= W
    ensures BumpWord(v, Mask(n0)) == Bump(n0, v)
  {
    var x := Low(W - n0, High(n0, v));
    var next := x + 1;
    var y := Low(W - n0, next);
    AndMask(W, n0, v);
    MaskedPlusOne(n0, v, x, next);
    ClearedLow(n0, next, y);
    LowBound(W - n0, next);
    LowBound(n0, v);
    OrDisjoint(W, n0, y, Low(n0, v));
    BumpIsHigh(n0, v, x, next, y);
  }

  lemma MaskedPlusOne(n0: nat, v: nat, x: nat, next: nat)
    requires n0 <= W && x == Low(W - n0, High(n0, v)) && next == x + 1
    ensures Or(W, v, Mask(n0)) + 1 == Up(n0, next)
  {
    OrMask(W, n0, v);
    UpNext(n0, x, next);
  }

  lemma ClearedLow(n0: nat, next: nat, y: nat)
    requires n0 <= W && y == Low(W - n0, next)
    ensures And(W, Low(W, Up(n0, next)), Not(W, Mask(n0))) == Up(n0, y)
  {
    AndNotMask(W, n0, Low(W, Up(n0, next)));
    HighOfLow(n0, W, Up(n0, next));
    Compose(n0, next, 0, Up(n0, next));
    LowLow(W - n0, W - n0, next);
  }

  lemma BumpIsHigh(n0: nat, v: nat, x: nat, next: nat, y: nat)
    requires n0 <= W && x == Low(W - n0, High(n0, v)) && next == x + 1 && y == Low(W - n0, next)
    ensures Bump(n0, v) == Up(n0, y) + Low(n0, v)
  {
    var high := High(n0, v) + 1;
    BumpParts(n0, v, high);
    LowSucc(W - n0, High(n0, v), high);
    LowSucc(W - n0, x, next);
    LowLow(W - n0, W - n0, High(n0, v));
    LowHigh(n0, Bump(n0, v));
  }

  // ----- bit reversal ---------------------------------------------------------------------

  /** Reversal of `n`-bit numbers puts bit `n - 1 - i` at bit `i`. */
  lemma {:induction false} RevBits(n: nat, v: nat, i: nat)
    requires i < n
    ensures High(i, Rev(n, v)) % 2 == High(n - 1 - i, v) % 2
  {
    RevBound(n - 1, v / 2);
    var r := Rev(n - 1, v / 2);
    if i == n - 1 {
      Compose(n - 1, v % 2, r, Rev(n, v));
    } else {
      RevBits(n - 1, v / 2, i);
      HighBelow(i, n - 1, v % 2, r, Rev(n, v));
    }
  }

  lemma {:induction false} HighBelow(i: nat, n: nat, b: nat, r: nat, v: nat)
    requires i < n && v == Up(n, b) + r
    ensures High(i, v) % 2 == High(i, r) % 2
  {
    assert v / 2 == Up(n - 1, b) + r / 2;
    if i > 0 {
      HighBelow(i - 1, n - 1, b, r / 2, v / 2);
    }
  }

  predicate BitAt(v: nat, i: nat) {
    High(i, v) % 2 == 1
  }

  lemma {:induction false} HighHigh(a: nat, b: nat, v: nat)
    ensures High(a, High(b, v)) == High(a + b, v)
  {
    if b > 0 {
      HighHigh(a, b - 1, v / 2);
    }
  }

  lemma {:induction false} BitOps(n: nat, a: nat, b: nat, i: nat)
    requires i < n
    ensures BitAt(And(n, a, b), i) <==> BitAt(a, i) && BitAt(b, i)
    ensures BitAt(Or(n, a, b), i) <==> BitAt(a, i) || BitAt(b, i)
    ensures BitAt(Xor(n, a, b), i) <==> BitAt(a, i) != BitAt(b, i)
    ensures BitAt(Not(n, a), i) <==> !BitAt(a, i)
  {
    if i > 0 {
      BitOps(n - 1, a / 2, b / 2, i - 1);
    }
  }

  lemma {:induction false} BitOfLow(n: nat, v: nat, i: nat)
    ensures BitAt(Low(n, v), i) <==> i < n && BitAt(v, i)
  {
    if n == 0 {
      HighOfZero(i);
    } else if i > 0 {
      BitOfLow(n - 1, v / 2, i - 1);
    }
  }

  lemma {:induction false} HighOfZero(i: nat)
    ensures High(i, 0) == 0
  {
    if i > 0 {
      HighOfZero(i - 1);
    }
  }

  /** Numbers with the same low bits are the same word. */
  lemma {:induction false} SameBits(n: nat, a: nat, b: nat)
    requires forall i :: 0 <= i < n ==> BitAt(a, i) == BitAt(b, i)
    ensures Low(n, a) == Low(n, b)
  {
    if n > 0 {
      assert BitAt(a, 0) == BitAt(b, 0);
      forall i | 0 <= i < n - 1 ensures BitAt(a / 2, i) == BitAt(b / 2, i) {
        assert BitAt(a, i + 1) == BitAt(b, i + 1);
      }
      SameBits(n - 1, a / 2, b / 2);
    }
  }

  /** `v >> s` and `v << s` on W-bit words. */
  function Shr(v: nat, s: nat): nat {
    High(s, v)
  }

  function Shl(v: nat, s: nat): nat {
    Low(W, Up(s, v))
  }

  lemma ShiftBits(v: nat, s: nat, i: nat)
    requires i < W
    ensures BitAt(Shr(v, s), i) == BitAt(v, i + s)
    ensures BitAt(Shl(v, s), i) == (i >= s && BitAt(v, i - s))
  {
    HighHigh(i, s, v);
    BitOfLow(W, Up(s, v), i);
    Compose(s, v, 0, Up(s, v));
    if i >= s {
      HighHigh(i - s, s, Up(s, v));
    } else {
      BitOfLow(s, Up(s, v), i);
      HighOfZero(i);
    }
  }

  /** The mask selects every other block of `Pow2(j)` bits. */
  ghost predicate BlockMask(mask: nat, j: nat) {
    forall i :: 0 <= i < W ==> BitAt(mask, i) == (High(j, i) % 2 == 0)
  }

  /** The bit of `v` that is at position `i` once its blocks of `Pow2(j)` bits are in
      reverse order. */
  function From(i: nat, j: nat): int {
    W - Pow2(j) - i + 2 * Low(j, i)
  }

  ghost predicate BlocksReversed(v: nat, r: nat, j: nat) {
    forall i :: 0 <= i < W ==> 0 <= From(i, j) < W && BitAt(r, i) == BitAt(v, From(i, j))
  }

  lemma {:induction false} LowSplit(j: nat, i: nat)
    ensures Low(j + 1, i) == Low(j, i) + Up(j, High(j, i) % 2) && High(j + 1, i) == High(j, i) / 2
  {
    HighHigh(1, j, i);
    if j > 0 {
      LowSplit(j - 1, i / 2);
    }
  }

  /** Moving one block up. */
  lemma NextBlock(i: nat, j: nat)
    ensures High(j, i + Pow2(j)) == High(j, i) + 1 && Low(j, i + Pow2(j)) == Low(j, i)
  {
    var next := High(j, i) + 1;
    LowHigh(j, i);
    UpNext(j, High(j, i), next);
    Compose(j, next, Low(j, i), i + Pow2(j));
  }

  lemma EvenSplit(i: nat, j: nat, k: nat, up: nat)
    requires i < W && j < 6 && k == j + 1 && up == i + Pow2(j) && High(j, i) % 2 == 0
    ensures up < W && From(up, k) == From(i, j)
  {
    LowSplit(j, i);
    UpPow2(j, 0, j);
    NextBlock(i, j);
    LowSplit(j, up);
    EvenBlock(i, j);
  }

  lemma OddSplit(i: nat, j: nat, k: nat)
    requires i < W && j < 6 && k == j + 1 && High(j, i) % 2 != 0
    ensures i >= Pow2(j) && From(i - Pow2(j), k) == From(i, j)
  {
    OddBlock(i, j);
    var down := i - Pow2(j);
    LowSplit(j, i);
    UpPow2(j, 0, j);
    NextBlock(down, j);
    LowSplit(j, down);
  }

  /** Splitting blocks of `Pow2(j + 1)` bits: where bit `i` comes from. */
  lemma SplitBlock(i: nat, j: nat)
    requires i < W && j < 6
    ensures High(j, i) % 2 == 0 ==> i + Pow2(j) < W && From(i + Pow2(j), j + 1) == From(i, j)
    ensures High(j, i) % 2 != 0 ==> i >= Pow2(j) && From(i - Pow2(j), j + 1) == From(i, j)
  {
    if High(j, i) % 2 == 0 {
      EvenSplit(i, j, j + 1, i + Pow2(j));
    } else {
      OddSplit(i, j, j + 1);
    }
  }

  lemma OddBlock(i: nat, j: nat)
    requires High(j, i) % 2 != 0
    ensures i >= Pow2(j)
  {
    if i < Pow2(j) {
      HighSmall(j, i);
    }
  }

  /** The word is a whole number of double blocks. */
  lemma EvenBlock(i: nat, j: nat)
    requires i < W && j < 6 && High(j, i) % 2 == 0
    ensures i + Pow2(j) < W
  {
    NextBlock(i, j);
    BelowWord(i, j);
    var next := High(j, i) + 1;
    assert Pow2(6 - j) == 2 * Pow2(5 - j);
    LowHigh(j, i + Pow2(j));
    UpOrder(j, next, Pow2(6 - j), Low(j, i), 0);
    WordInBlocks(j);
  }

  lemma WordInBlocks(j: nat)
    requires j <= 6
    ensures Up(j, Pow2(6 - j)) == W
  {
    UpPow2(j, 6 - j, 6);
    SixtyFour();
  }

  lemma SixtyFour()
    ensures Pow2(6) == 64
  {}

  lemma BelowWord(i: nat, j: nat)
    requires i < W && j <= 6
    ensures High(j, i) < Pow2(6 - j)
  {
    WordInBlocks(j);
    LowHigh(j, i);
    if High(j, i) >= Pow2(6 - j) {
      UpOrder(j, Pow2(6 - j), High(j, i), 0, Low(j, i));
    }
  }

  lemma FromBound(i: nat, j: nat)
    requires i < W && j <= 6
    ensures 0 <= From(i, j) < W
  {
    var next := High(j, i) + 1;
    WordInBlocks(j);
    BelowWord(i, j);
    LowHigh(j, i);
    UpNext(j, High(j, i), next);
    UpOrder(j, next, Pow2(6 - j), 0, 0);
  }

  /** Every other block of `Pow2(j)` bits is where every other block of twice the size
      differs from itself moved up by one block. */
  lemma BlockParity(j: nat, i: nat)
    ensures (High(j, i) % 2 == 0) ==
            ((High(j + 1, i) % 2 == 0) != (i >= Pow2(j) && High(j + 1, i - Pow2(j)) % 2 == 0))
  {
    LowSplit(j, i);
    if i >= Pow2(j) {
      NextBlock(i - Pow2(j), j);
      LowSplit(j, i - Pow2(j));
    } else {
      HighSmall(j, i);
    }
  }

  lemma MaskStep(mask: nat, j: nat)
    requires j < 6 && BlockMask(mask, j + 1)
    ensures BlockMask(Xor(W, mask, Shl(mask, Pow2(j))), j)
  {
    forall i | 0 <= i < W ensures BitAt(Xor(W, mask, Shl(mask, Pow2(j))), i) == (High(j, i) % 2 == 0) {
      BitOps(W, mask, Shl(mask, Pow2(j)), i);
      ShiftBits(mask, Pow2(j), i);
      BlockParity(j, i);
    }
  }

  /** `((v >> s) & mask) | ((v << s) & ~mask)`. */
  function Exchange(r: nat, h: nat, mask: nat): nat {
    Or(W, And(W, Shr(r, h), mask), And(W, Shl(r, h), Not(W, mask)))
  }

  lemma ExchangeBit(r: nat, h: nat, mask: nat, i: nat)
    requires i < W
    ensures BitAt(Exchange(r, h, mask), i) ==
            if BitAt(mask, i) then BitAt(r, i + h) else i >= h && BitAt(r, i - h)
  {
    BitOps(W, And(W, Shr(r, h), mask), And(W, Shl(r, h), Not(W, mask)), i);
    BitOps(W, Shr(r, h), mask, i);
    BitOps(W, Shl(r, h), Not(W, mask), i);
    BitOps(W, mask, mask, i);
    ShiftBits(r, h, i);
  }

  lemma ExchangeStep(v: nat, r: nat, j: nat, mask: nat)
    requires j < 6 && BlockMask(mask, j) && BlocksReversed(v, r, j + 1)
    ensures BlocksReversed(v, Exchange(r, Pow2(j), mask), j)
  {
    forall i | 0 <= i < W
      ensures 0 <= From(i, j) < W && BitAt(Exchange(r, Pow2(j), mask), i) == BitAt(v, From(i, j))
    {
      ExchangeBit(r, Pow2(j), mask, i);
      SplitBlock(i, j);
      FromBound(i, j);
    }
  }

  lemma NothingExchanged(v: nat, mask: nat)
    requires mask == Not(W, 0)
    ensures BlockMask(mask, 6) && BlocksReversed(v, v, 6)
  {
    SixtyFour();
    forall i | 0 <= i < W
      ensures BitAt(mask, i) && High(6, i) == 0 && From(i, 6) == i
    {
      BitOps(W, 0, 0, i);
      HighOfZero(i);
      HighSmall(6, i);
    }
  }

  /** What the loop of rev keeps: blocks of `s == Pow2(j)` bits are in reverse order. */
  ghost predicate Reversing(v: nat, r: nat, mask: nat, s: nat, j: nat) {
    j <= 6 && s == Pow2(j) && r < Pow2(W) && BlockMask(mask, j) && BlocksReversed(v, r, j)
  }

  lemma ReversingStep(v: nat, r: nat, mask: nat, s: nat, j: nat, mask': nat, r': nat, half: nat, i: int)
    requires Reversing(v, r, mask, s, j) && half == s / 2 && half > 0 && i == j - 1
    requires mask' == Xor(W, mask, Shl(mask, half)) && r' == Exchange(r, half, mask')
    ensures i >= 0 && Reversing(v, r', mask', half, i)
  {
    assert j > 0 && half == Pow2(i);
    MaskStep(mask, i);
    ExchangeStep(v, r, i, mask');
    OrBound(W, And(W, Shr(r, half), mask'), And(W, Shl(r, half), Not(W, mask')));
  }

  lemma ReversingEnds(v: nat, r: nat, mask: nat, s: nat, j: nat)
    requires Reversing(v, r, mask, s, j) && s / 2 == 0
    ensures r == Rev(W, v)
  {
    ReversedIsRev(v, r, j);
    LowBound(W, r);
  }

  lemma ReversingStarts(v: nat)
    requires v < Pow2(W)
    ensures Reversing(v, v, Not(W, 0), W, 6)
  {
    SixtyFour();
    NothingExchanged(v, Not(W, 0));
  }

  /** rev: the loop exchanges ever smaller blocks until single bits are in reverse order. */
  method ReverseBits(v: nat) returns (r: nat)
    requires v < Pow2(W)
    ensures r == Rev(W, v)
  {
    var s: nat := W;
    var mask: nat := Not(W, 0);
    r := v;
    ghost var j: nat := 6;
    ReversingStarts(v);
    while s / 2 > 0
      invariant Reversing(v, r, mask, s, j)
      decreases s
    {
      var half := s / 2;
      var mask' := Xor(W, mask, Shl(mask, half));
      var r' := Exchange(r, half, mask');
      ghost var i := j - 1;
      ReversingStep(v, r, mask, s, j, mask', r', half, i);
      r, mask, s, j := r', mask', half, i;
    }
    ReversingEnds(v, r, mask, s, j);
  }

  lemma ReversedIsRev(v: nat, r: nat, j: nat)
    requires BlocksReversed(v, r, j) && j == 0
    ensures Low(W, r) == Rev(W, v)
  {
    forall i | 0 <= i < W ensures BitAt(r, i) == BitAt(Rev(W, v), i) {
      RevBits(W, v, i);
      assert From(i, j) == W - 1 - i;
    }
    SameBits(W, r, Rev(W, v));
    RevBound(W, v);
    LowBound(W, Rev(W, v));
  }

  lemma {:induction false} OrBound(n: nat, a: nat, b: nat)
    ensures Or(n, a, b) < Pow2(n)
  {
    if n > 0 {
      OrBound(n - 1, a / 2, b / 2);
    }
  }
}
