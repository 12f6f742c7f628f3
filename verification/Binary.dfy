/** Powers of two and bit reversal on natural numbers.

    A mask of a power-of-two table keeps the remainder modulo the table size, so the
    bit expressions of the hash table are stated here with `/` and `%`. */
module Binary {

  function Pow2(n: nat): (p: nat)
    ensures p >= 1
  {
    if n == 0 then 1 else 2 * Pow2(n - 1)
  }

  ghost predicate IsPow2(x: nat) {
    exists n: nat :: x == Pow2(n)
  }

  /** `x` moved up by `n` bits, `x << n`. */
  function Up(n: nat, x: int): (y: int)
    ensures x >= 0 ==> y >= x
  {
    if n == 0 then x else 2 * Up(n - 1, x)
  }

  lemma {:induction false} UpIsProduct(n: nat, x: int)
    ensures Up(n, x) == x * Pow2(n)
  {
    if n > 0 {
      UpIsProduct(n - 1, x);
      assert 2 * (x * Pow2(n - 1)) == x * Pow2(n);
    }
  }

  lemma {:induction false} UpPlus(n: nat, x: int, y: int, z: int)
    requires z == x + y
    ensures Up(n, z) == Up(n, x) + Up(n, y)
  {
    if n > 0 {
      UpPlus(n - 1, x, y, z);
    }
  }

  lemma UpNext(n: nat, x: int, y: int)
    requires y == x + 1
    ensures Up(n, y) == Up(n, x) + Pow2(n)
  {
    UpPlus(n, x, 1, y);
    UpPow2(n, 0, n);
  }

  lemma {:induction false} UpUp(a: nat, b: nat, n: nat, x: int)
    requires n == a + b
    ensures Up(a, Up(b, x)) == Up(n, x)
  {
    if a > 0 {
      UpUp(a - 1, b, n - 1, x);
    }
  }

  lemma {:induction false} UpPow2(a: nat, b: nat, n: nat)
    requires n == a + b
    ensures Up(a, Pow2(b)) == Pow2(n) && Up(a, 1) == Pow2(a) && Up(a, 0) == 0
  {
    if a > 0 {
      UpPow2(a - 1, b, n - 1);
    }
  }

  /** Numbers with `n` low bits compare first by what is above those bits. */
  lemma {:induction false} UpOrder(n: nat, a: int, b: int, r: nat, s: nat)
    requires r < Pow2(n) && s < Pow2(n)
    ensures a < b ==> Up(n, a) + r < Up(n, b) + s
    ensures a == b ==> (r <= s <==> Up(n, a) + r <= Up(n, b) + s)
  {
    if n > 0 {
      UpOrder(n - 1, a, b, r / 2, s / 2);
    }
  }

  lemma {:induction false} Pow2Monotone(a: nat, b: nat)
    requires a <= b
    ensures Pow2(a) <= Pow2(b)
  {
    if a < b {
      Pow2Monotone(a, b - 1);
    }
  }

  /** Halving a power of two that is not 1. */
  lemma HalfOfPow2(x: nat)
    requires IsPow2(x) && x != 1
    ensures x % 2 == 0 && IsPow2(x / 2)
  {
    var n: nat :| x == Pow2(n);
    assert n > 0;
    assert x / 2 == Pow2(n - 1);
  }

  lemma DoubleOfPow2(x: nat)
    requires IsPow2(x)
    ensures IsPow2(x * 2)
  {
    var n: nat :| x == Pow2(n);
    assert x * 2 == Pow2(n + 1);
  }

  lemma OddPow2(c: nat)
    requires c % 2 == 1
    ensures IsPow2(c / 2 + 1) ==> IsPow2(c + 1)
  {
    if IsPow2(c / 2 + 1) {
      var n: nat :| c / 2 + 1 == Pow2(n);
      assert c + 1 == Pow2(n + 1);
    }
  }

  lemma MulAtLeast(x: nat, d: nat)
    requires x >= 1
    ensures x * d >= d
  {}

  lemma Distribute(x: int, y: int, d: int)
    ensures (x - y) * d == x * d - y * d
    ensures (x + y) * d == x * d + y * d
  {}

  /** The quotient and remainder of `a * d + r`. */
  lemma DivModUnique(a: nat, d: nat, r: nat)
    requires r < d
    ensures (a * d + r) / d == a && (a * d + r) % d == r
  {
    var n := a * d + r;
    var q, m := n / d, n % d;
    assert n == q * d + m;
    Distribute(q, a, d);
    Distribute(a, q, d);
    if q > a {
      MulAtLeast(q - a, d);
    } else if q < a {
      MulAtLeast(a - q, d);
    }
  }

  /** The low `n` bits of `v`. */
  function Low(n: nat, v: nat): nat {
    if n == 0 then 0 else 2 * Low(n - 1, v / 2) + v % 2
  }

  /** `v` without its low `n` bits. */
  function High(n: nat, v: nat): nat {
    if n == 0 then v else High(n - 1, v / 2)
  }

  lemma {:induction false} LowHigh(n: nat, v: nat)
    ensures v == Up(n, High(n, v)) + Low(n, v) && Low(n, v) < Pow2(n)
  {
    if n > 0 {
      LowHigh(n - 1, v / 2);
    }
  }

  /** Low and high bits are remainder and quotient by a power of two. */
  lemma LowIsMod(n: nat, v: nat)
    ensures Low(n, v) == v % Pow2(n) && High(n, v) == v / Pow2(n)
  {
    LowHigh(n, v);
    UpIsProduct(n, High(n, v));
    DivModUnique(High(n, v), Pow2(n), Low(n, v));
  }

  lemma {:induction false} LowBound(n: nat, v: nat)
    ensures Low(n, v) < Pow2(n)
    ensures v < Pow2(n) ==> Low(n, v) == v
  {
    if n > 0 {
      LowBound(n - 1, v / 2);
    }
  }

  lemma HighSmall(n: nat, v: nat)
    requires v < Pow2(n)
    ensures High(n, v) == 0 && Low(n, v) == v
  {
    UpPow2(n, 0, n);
    Compose(n, 0, v, v);
  }

  lemma {:induction false} LowLow(a: nat, n: nat, v: nat)
    requires a <= n
    ensures Low(a, Low(n, v)) == Low(a, v)
  {
    if a > 0 {
      assert Low(n, v) / 2 == Low(n - 1, v / 2) && Low(n, v) % 2 == v % 2;
      LowLow(a - 1, n - 1, v / 2);
    }
  }

  /** Writing `x` above the `n` low bits `r`. */
  lemma {:induction false} Compose(n: nat, x: nat, r: nat, v: nat)
    requires r < Pow2(n) && v == Up(n, x) + r
    ensures Low(n, v) == r && High(n, v) == x
  {
    if n > 0 {
      assert v / 2 == Up(n - 1, x) + r / 2;
      Compose(n - 1, x, r / 2, v / 2);
    }
  }

  /** `v` as an `n`-bit word read backwards. */
  function Rev(n: nat, v: nat): nat {
    if n == 0 then 0 else Up(n - 1, v % 2) + Rev(n - 1, v / 2)
  }

  lemma {:induction false} RevBound(n: nat, v: nat)
    ensures Rev(n, v) < Pow2(n)
  {
    if n > 0 {
      RevBound(n - 1, v / 2);
      UpPow2(n - 1, 0, n - 1);
    }
  }

  /** Reversal of `n == a + b` bits: the low `a` bits become the high ones. */
  lemma {:induction false} RevSplit(a: nat, b: nat, n: nat, v: nat)
    requires n == a + b
    ensures Rev(n, v) == Up(b, Rev(a, v)) + Rev(b, High(a, v))
  {
    if a == 0 {
      UpPow2(b, 0, b);
    } else {
      RevSplit(a - 1, b, n - 1, v / 2);
      UpPlus(b, Up(a - 1, v % 2), Rev(a - 1, v / 2), Rev(a, v));
      UpUp(b, a - 1, n - 1, v % 2);
    }
  }

  lemma {:induction false} RevLow(n: nat, v: nat)
    ensures Rev(n, Low(n, v)) == Rev(n, v)
  {
    if n > 0 {
      assert Low(n, v) / 2 == Low(n - 1, v / 2) && Low(n, v) % 2 == v % 2;
      RevLow(n - 1, v / 2);
    }
  }

  lemma RevOne(b: nat)
    requires b < 2
    ensures Rev(1, b) == b && forall x: nat :: Up(1, x) == 2 * x
  {
    assert Rev(1, b) == Up(0, b % 2) + Rev(0, b / 2);
  }

  /** Reversing twice gives the low `n` bits back. */
  lemma {:induction false} RevRev(n: nat, v: nat)
    ensures Rev(n, Rev(n, v)) == Low(n, v)
  {
    if n > 0 {
      var r := Rev(n - 1, v / 2);
      RevBound(n - 1, v / 2);
      RevSplit(n - 1, 1, n, Rev(n, v));
      Compose(n - 1, v % 2, r, Rev(n, v));
      RevRev(n - 1, v / 2);
      RevLow(n - 1, Rev(n, v));
      RevOne(v % 2);
    }
  }

  lemma RevInjective(n: nat, u: nat, v: nat)
    requires Rev(n, u) == Rev(n, v)
    ensures Low(n, u) == Low(n, v)
  {
    RevRev(n, u);
    RevRev(n, v);
  }

  /** Below `c` no word comes later than `c` in reversed order, when `c` is a run of
      low ones. */
  lemma {:induction false} LowOnesOrder(n: nat, c: nat, x: nat)
    requires c < Pow2(n) && x < Pow2(n) && IsPow2(c + 1)
    requires Rev(n, x) > Rev(n, c)
    ensures x > c
  {
    if n > 0 && c > 0 {
      HalfOfPow2(c + 1);
      assert c % 2 == 1 && c / 2 + 1 == (c + 1) / 2;
      RevBound(n - 1, x / 2);
      UpPow2(n - 1, 0, n - 1);
      assert x % 2 == 1;
      LowOnesOrder(n - 1, c / 2, x / 2);
    }
  }

  /** Any other `c` has a smaller word that comes later in reversed order. */
  lemma {:induction false} LaterSmaller(n: nat, c: nat) returns (x: nat)
    requires c < Pow2(n) && !IsPow2(c + 1)
    ensures x < c && Rev(n, x) > Rev(n, c)
  {
    assert Pow2(0) == 1;
    if c % 2 == 0 {
      x := c - 1;
      RevBound(n - 1, c / 2);
      UpPow2(n - 1, 0, n - 1);
      assert x % 2 == 1 && Rev(n, x) >= Pow2(n - 1);
    } else {
      OddPow2(c);
      var y := LaterSmaller(n - 1, c / 2);
      x := 2 * y + 1;
      assert x / 2 == y && x % 2 == 1;
    }
  }
}
