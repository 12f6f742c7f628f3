/** When the table of a dictionary grows or shrinks, and to which size. */
module DictSizing {
  import opened Binary
  import opened Dict

  /** When a key is about to be added, a table in use starts to grow exactly when it has an entry
      per bucket and resizing is on, or more than five; the new one has room for twice the
      entries, and not for four times as many unless it has the least size. */
  lemma Growth(d: State, canResize: bool)
    requires Valid(d) && !Rehashing(d) && |d.t0| > 0
    ensures var d1 := ExpandIfNeeded(d, canResize).0;
      && (Rehashing(d1) <==> d.used0 >= |d.t0| && (canResize || d.used0 / |d.t0| > 5))
      && (Rehashing(d1) ==> d1.rehashidx == 0 && d1.t0 == d.t0 && 2 * d.used0 <= |d1.t1| &&
                             (|d1.t1| < 4 * d.used0 || |d1.t1| == 4))
  {}

  /** The first table has four buckets. */
  lemma FirstTable(d: State, canResize: bool)
    requires Valid(d) && |d.t0| == 0
    ensures var d1 := ExpandIfNeeded(d, canResize).0;
      !Rehashing(d1) && |d1.t0| == 4 && forall i :: 0 <= i < 4 ==> d1.t0[i] == []
  {
    assert NextPower(4) == 4;
  }

  /** dictResize leads to the least power of two that holds the entries, at least four. */
  lemma Shrink(d: State, canResize: bool)
    requires Valid(d) && Resize(d, canResize).1
    ensures var t := Target(Resize(d, canResize).0);
      && IsPow2(|t|) && |t| >= d.used0 && |t| >= 4
      && forall n: nat :: IsPow2(n) && n >= d.used0 && n >= 4 ==> |t| <= n
  {
    var size := if d.used0 < INITIAL_SIZE then INITIAL_SIZE else d.used0;
    assert Pow2(2) == INITIAL_SIZE;
    forall n: nat | IsPow2(n) && n >= d.used0 && n >= INITIAL_SIZE ensures NextPower(size) <= n {
      LeastPower(INITIAL_SIZE, size, n);
    }
  }

  /** It is refused exactly when resizing is off, a rehash is under way, or the table has that size
      already. */
  lemma ShrinkWhen(d: State, canResize: bool)
    requires Valid(d)
    ensures Resize(d, canResize).1 <==>
            canResize && !Rehashing(d) &&
            !(|d.t0| >= d.used0 && |d.t0| >= 4 && (|d.t0| == 4 || |d.t0| / 2 < d.used0))
  {
    var size := if d.used0 < INITIAL_SIZE then INITIAL_SIZE else d.used0;
    assert Pow2(2) == INITIAL_SIZE;
    if |d.t0| >= size {
      LeastPower(INITIAL_SIZE, size, |d.t0|);
      if NextPower(size) < |d.t0| {
        NextOfPow2(NextPower(size), |d.t0|);
      }
    }
  }

  lemma {:induction false} LeastPower(i: nat, size: nat, n: nat)
    requires i > 0 && IsPow2(i) && IsPow2(n) && n >= size && n >= i
    ensures NextPowerFrom(i, size) <= n
    decreases size - i
  {
    if i < size {
      NextOfPow2(i, n);
      DoubleOfPow2(i);
      LeastPower(i * 2, size, n);
    }
  }

  lemma NextOfPow2(i: nat, n: nat)
    requires IsPow2(i) && IsPow2(n) && i < n
    ensures i * 2 <= n
  {
    var a: nat :| i == Pow2(a);
    var b: nat :| n == Pow2(b);
    if b <= a {
      Pow2Monotone(b, a);
    } else {
      Pow2Monotone(a + 1, b);
    }
  }
}
