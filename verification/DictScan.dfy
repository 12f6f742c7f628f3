/** The stateless scan: cursors, the buckets one call visits, and what a full pass visits.

    A cursor is a 64-bit word that counts upward when its bits are read backwards. For a
    table of `Pow2(n)` buckets, `v & mask` is `Low(n, v)`. */
module DictScan {
  import opened Binary

  /** Bits of an unsigned long. (A type with one value keeps the verifier from computing
      with the number itself.) */
  type Width = w: nat | w == 64 witness 64
  const W: Width

  /** The place of a word in the order in which cursors advance. */
  function Place(v: nat): nat {
    Rev(W, v)
  }

  /** `v |= ~m0` for a table of `Pow2(n)` buckets. */
  function SetHigh(n: nat, v: nat): nat
    requires n <= W
  {
    Pow2Monotone(n, W);
    Pow2(W) - Pow2(n) + Low(n, v)
  }

  /** Setting the unmasked bits and incrementing the reversed cursor. */
  function Advance(n: nat, v: nat): nat
    requires n <= W
  {
    Rev(W, Low(W, Rev(W, SetHigh(n, v)) + 1))
  }

  /** Where the stretch of places that a call must cover ends. */
  function End(v: nat): nat {
    if v == 0 then Pow2(W) else Place(v)
  }

  lemma {:induction false} RevOfOnes(n: nat)
    ensures Rev(n, Pow2(n) - 1) == Pow2(n) - 1
  {
    if n > 0 {
      assert (Pow2(n) - 1) / 2 == Pow2(n - 1) - 1;
      RevOfOnes(n - 1);
      UpPow2(n - 1, 0, n - 1);
    }
  }

  lemma SetHighShape(n: nat, m: nat, ones: nat, v: nat)
    requires n + m == W && ones == Pow2(m) - 1
    ensures SetHigh(n, v) == Up(n, ones) + Low(n, v)
  {
    UpNext(n, ones, Pow2(m));
    UpPow2(n, m, W);
  }

  lemma RevOnesAbove(n: nat, m: nat, ones: nat, u: nat, v: nat, x: nat)
    requires n + m == W && ones == Pow2(m) - 1 && u == Up(n, ones) + Low(n, v) && x == Rev(n, v) + 1
    ensures Rev(W, u) + 1 == Up(m, x)
  {
    LowBound(n, v);
    Compose(n, ones, Low(n, v), u);
    RevSplit(n, m, W, u);
    RevLow(n, u);
    RevLow(n, v);
    RevOfOnes(m);
    UpNext(m, Rev(n, v), x);
  }

  /** The cursor after a call: the stretch it closes ends one bucket of `Pow2(n)` later. */
  lemma AdvanceEnd(n: nat, m: nat, v: nat, x: nat)
    requires n + m == W && x == Rev(n, v) + 1
    ensures End(Advance(n, v)) == Up(m, x) && Advance(n, v) < Pow2(W)
  {
    var ones := Pow2(m) - 1;
    SetHighShape(n, m, ones, v);
    RevOnesAbove(n, m, ones, SetHigh(n, v), v, x);
    RevBound(W, SetHigh(n, v));
    AdvanceWrap(Up(m, x), Advance(n, v));
  }

  lemma AdvanceWrap(u: nat, c: nat)
    requires 0 < u <= Pow2(W) && c == Rev(W, Low(W, u))
    ensures End(c) == u && c < Pow2(W)
  {
    RevBound(W, Low(W, u));
    if u == Pow2(W) {
      LowOfWrap(W, u);
      RevOfZero(W);
    } else {
      LowBound(W, u);
      RevRev(W, u);
      EndIs(c, u);
    }
  }

  lemma LowOfWrap(n: nat, u: nat)
    requires u == Pow2(n)
    ensures Low(n, u) == 0
  {
    UpPow2(n, 0, n);
    Compose(n, 1, 0, u);
  }

  lemma EndIs(c: nat, u: nat)
    requires u > 0 && Rev(W, c) == u
    ensures End(c) == u
  {
    RevOfZero(W);
  }

  lemma {:induction false} RevOfZero(n: nat)
    ensures Rev(n, 0) == 0
  {
    if n > 0 {
      RevOfZero(n - 1);
      UpPow2(n - 1, 0, n - 1);
    }
  }

  lemma PlaceSplit(n: nat, m: nat, v: nat)
    requires n + m == W
    ensures Place(v) == Up(m, Rev(n, v)) + Rev(m, High(n, v))
    ensures Rev(m, High(n, v)) < Pow2(m)
  {
    RevSplit(n, m, W, v);
    RevBound(m, High(n, v));
  }

  /** The cursor moves strictly forward. */
  lemma AdvanceForward(n: nat, v: nat)
    requires n <= W
    ensures Place(v) < End(Advance(n, v))
  {
    var m, x := W - n, Rev(n, v) + 1;
    AdvanceEnd(n, m, v, x);
    PlaceSplit(n, m, v);
    UpOrder(m, Rev(n, v), x, Rev(m, High(n, v)), 0);
  }

  /** Every word whose place lies in the stretch of a call shares its low bits with the
      cursor, so it is hashed to the bucket at the cursor. */
  lemma StretchIsBucket(n: nat, v: nat, h: nat)
    requires n <= W && Place(v) <= Place(h) < End(Advance(n, v))
    ensures Low(n, h) == Low(n, v)
  {
    var m, x := W - n, Rev(n, v) + 1;
    AdvanceEnd(n, m, v, x);
    PlaceSplit(n, m, v);
    PlaceSplit(n, m, h);
    SameAbove(m, Rev(n, v), x, Rev(n, h), Rev(m, High(n, v)), Rev(m, High(n, h)));
    RevInjective(n, h, v);
  }

  lemma SameAbove(n: nat, a: nat, next: nat, b: nat, r: nat, s: nat)
    requires r < Pow2(n) && s < Pow2(n) && next == a + 1
    requires Up(n, a) + r <= Up(n, b) + s < Up(n, next)
    ensures a == b
  {
    UpOrder(n, b, a, s, r);
    UpOrder(n, next, b, 0, s);
  }

  // ----- expansions into the larger table -----------------------------------------------

  /** The bits of the cursor that only the larger mask covers, `v & (m0 ^ m1)`. */
  function Mid(n0: nat, n1: nat, v: nat): nat
    requires n0 <= n1
  {
    Low(n1 - n0, High(n0, v))
  }

  /** `(((v | m0) + 1) & ~m0) | (v & m0)`: the bits above the smaller mask, plus one. */
  function Bump(n0: nat, v: nat): nat {
    Low(W, Up(n0, High(n0, v) + 1) + Low(n0, v))
  }

  lemma {:induction false} LowSucc(n: nat, x: nat, y: nat)
    requires y == x + 1
    ensures Low(n, y) == if Low(n, x) + 1 == Pow2(n) then 0 else Low(n, x) + 1
  {
    if n > 0 {
      LowBound(n - 1, x / 2);
      if x % 2 == 0 {
        assert y / 2 == x / 2;
      } else {
        LowSucc(n - 1, x / 2, y / 2);
      }
    }
  }

  lemma {:induction false} HighOfLow(a: nat, n: nat, v: nat)
    requires a <= n
    ensures High(a, Low(n, v)) == Low(n - a, High(a, v))
  {
    if a > 0 {
      assert Low(n, v) / 2 == Low(n - 1, v / 2);
      HighOfLow(a - 1, n - 1, v / 2);
    }
  }

  lemma BumpParts(n0: nat, v: nat, next: nat)
    requires n0 <= W && next == High(n0, v) + 1
    ensures Low(n0, Bump(n0, v)) == Low(n0, v)
    ensures High(n0, Bump(n0, v)) == Low(W - n0, next)
  {
    LowBound(n0, v);
    PartsOfWord(n0, next, Low(n0, v), Up(n0, next) + Low(n0, v), Bump(n0, v));
  }

  lemma PartsOfWord(n0: nat, x: nat, r: nat, u: nat, w: nat)
    requires n0 <= W && r < Pow2(n0) && u == Up(n0, x) + r && w == Low(W, u)
    ensures Low(n0, w) == r && High(n0, w) == Low(W - n0, x)
  {
    Compose(n0, x, r, u);
    LowLow(n0, W, u);
    HighOfLow(n0, W, u);
  }

  lemma BumpMid(n0: nat, n1: nat, v: nat)
    requires n0 <= n1 <= W
    ensures Low(n0, Bump(n0, v)) == Low(n0, v)
    ensures var m := Mid(n0, n1, v);
      m < Pow2(n1 - n0) && Mid(n0, n1, Bump(n0, v)) == if m + 1 == Pow2(n1 - n0) then 0 else m + 1
  {
    var next := High(n0, v) + 1;
    BumpParts(n0, v, next);
    LowLow(n1 - n0, W - n0, next);
    LowSucc(n1 - n0, High(n0, v), next);
    LowBound(n1 - n0, High(n0, v));
  }

  /** The buckets of the larger table that the do-while loop visits. */
  function Expansions(n0: nat, n1: nat, v: nat): seq<nat>
    requires n0 <= n1 <= W
    decreases Pow2(n1 - n0) - Mid(n0, n1, v)
  {
    BumpMid(n0, n1, v);
    [Low(n1, v)] + if Mid(n0, n1, Bump(n0, v)) == 0 then [] else Expansions(n0, n1, Bump(n0, v))
  }

  lemma {:induction false} SplitLow(n0: nat, n1: nat, v: nat)
    requires n0 <= n1
    ensures Low(n1, v) == Up(n0, Mid(n0, n1, v)) + Low(n0, v)
    ensures Low(n1, v) < Pow2(n1)
  {
    LowHigh(n0, Low(n1, v));
    HighOfLow(n0, n1, v);
    LowLow(n0, n1, v);
    LowBound(n1, v);
  }

  /** The loop visits the bucket of `h` exactly when `h` agrees with the cursor below the
      smaller mask and is not smaller than it in the bits between the masks. */
  lemma {:induction false} ExpansionsAre(n0: nat, n1: nat, v: nat, h: nat)
    requires n0 <= n1 <= W
    ensures Low(n1, h) in Expansions(n0, n1, v) <==>
            Low(n0, h) == Low(n0, v) && Mid(n0, n1, h) >= Mid(n0, n1, v)
    decreases Pow2(n1 - n0) - Mid(n0, n1, v)
  {
    BumpMid(n0, n1, v);
    BumpMid(n0, n1, h);
    SameBucket(n0, n1, h, v);
    if Mid(n0, n1, Bump(n0, v)) != 0 {
      ExpansionsAre(n0, n1, Bump(n0, v), h);
    }
  }

  lemma SameBucket(n0: nat, n1: nat, h: nat, v: nat)
    requires n0 <= n1
    ensures Low(n1, h) == Low(n1, v) <==> Low(n0, h) == Low(n0, v) && Mid(n0, n1, h) == Mid(n0, n1, v)
  {
    SplitLow(n0, n1, h);
    SplitLow(n0, n1, v);
    if Low(n1, h) == Low(n1, v) {
      LowLow(n0, n1, h);
      LowLow(n0, n1, v);
      HighOfLow(n0, n1, h);
      HighOfLow(n0, n1, v);
    }
  }
}
