/** Which passes of dictScan reach every hash: exactly those all of whose calls find a good cursor,
    unless a table shrinks after a call that does not. */
module DictPassExact {
  import opened Binary
  import opened Options
  import opened Dict
  import opened DictScan
  import opened DictScanPass

  ghost function SmallBits(d: State): nat {
    Bits(|Smaller(d)|)
  }

  ghost function LargeBits(d: State): nat {
    Bits(|Larger(d)|)
  }

  /** The call visits every bucket in which a key with this hash may be. */
  ghost predicate Reaches(d: State, v: nat, h: nat)
    requires Fits(d)
  {
    && Low(SmallBits(d), h) == Low(SmallBits(d), v)
    && (Rehashing(d) ==>
          SmallBits(d) <= LargeBits(d) && Low(LargeBits(d), h) in Expansions(SmallBits(d), LargeBits(d), v))
  }

  /** The dictionary is never empty, and the pass has not come back to the start before its end. */
  ghost predicate OnePass(p: Pass) {
    && IsPass(p)
    && forall i :: 0 <= i < |p.dicts| ==> p.dicts[i].used0 + p.dicts[i].used1 > 0 && (i > 0 ==> p.cursors[i] != 0)
  }

  ghost predicate Reached(p: Pass, i: nat, h: nat)
    requires IsPass(p) && i < |p.dicts|
  {
    Reaches(p.dicts[i], p.cursors[i], h)
  }

  lemma CallReaches(d: State, v: nat, h: nat)
    requires Valid(d) && Fits(d) && d.used0 + d.used1 > 0 && GoodCursor(d, v)
    requires Place(v) <= Place(h) < End(Scan(d, v).0)
    ensures Reaches(d, v, h)
  {
    StretchIsBucket(SmallBits(d), v, h);
    if Rehashing(d) {
      BitsMonotone(|Smaller(d)|, |Larger(d)|);
      CoveredWhenGood(SmallBits(d), LargeBits(d), v, h);
    }
  }

  lemma ScanAdvances(d: State, v: nat)
    requires Valid(d) && Fits(d) && d.used0 + d.used1 > 0
    ensures SmallBits(d) <= W && Scan(d, v).0 == Advance(SmallBits(d), v)
  {}

  /** Later calls start after the end of this one. */
  lemma {:induction false} PlacesGrow(p: Pass, i: nat, j: nat)
    requires OnePass(p) && i < j < |p.dicts|
    ensures End(p.cursors[i + 1]) <= Place(p.cursors[j])
    decreases j
  {
    if i + 1 < j {
      PlacesGrow(p, i, j - 1);
      ScanAdvances(p.dicts[j - 1], p.cursors[j - 1]);
      AdvanceForward(SmallBits(p.dicts[j - 1]), p.cursors[j - 1]);
    }
  }

  /** Once the cursor is past the bucket of a hash, it does not come to a part of that bucket. */
  lemma LaterElsewhere(n: nat, m: nat, c: nat, v: nat, h: nat)
    requires n <= m <= W && Low(n, h) == Low(n, c) && End(Advance(n, c)) <= Place(v)
    ensures Low(m, h) != Low(m, v)
  {
    if Low(m, h) == Low(m, v) {
      LowLow(n, m, h);
      LowLow(n, m, v);
      BucketBeforeEnd(n, c, v);
    }
  }

  /** No call but the one at `j` comes to the bucket of the hash in the smaller table, and that one
      skips its bucket in the larger table. */
  ghost predicate MissedBy(p: Pass, j: nat, h: nat)
    requires IsPass(p) && j < |p.dicts|
  {
    var d, v := p.dicts[j], p.cursors[j];
    && Rehashing(d) && SmallBits(d) <= LargeBits(d) <= W && h < Pow2(LargeBits(d))
    && Low(LargeBits(d), h) !in Expansions(SmallBits(d), LargeBits(d), v)
    && forall i :: 0 <= i < |p.dicts| && i != j ==> Elsewhere(p, i, h)
  }

  ghost predicate Elsewhere(p: Pass, i: nat, h: nat)
    requires IsPass(p) && i < |p.dicts|
  {
    Low(SmallBits(p.dicts[i]), h) != Low(SmallBits(p.dicts[i]), p.cursors[i])
  }

  /** A call with a bad cursor, after which no table is smaller, loses a hash for the whole pass. */
  lemma BadCallMisses(p: Pass, j: nat) returns (h: nat)
    requires OnePass(p) && j < |p.dicts| && !GoodCursor(p.dicts[j], p.cursors[j])
    requires forall i :: j < i < |p.dicts| ==> SmallBits(p.dicts[i]) >= SmallBits(p.dicts[j])
    ensures h < Pow2(W) && MissedBy(p, j, h)
  {
    var d, v := p.dicts[j], p.cursors[j];
    BitsMonotone(|Smaller(d)|, |Larger(d)|);
    h := MissedWord(SmallBits(d), LargeBits(d), v);
    ScanAdvances(d, v);
    forall i | 0 <= i < |p.dicts| && i != j ensures Elsewhere(p, i, h) {
      ScanAdvances(p.dicts[i], p.cursors[i]);
      if i < j {
        PlacesGrow(p, i, j);
        if !Elsewhere(p, i, h) {
          BucketBeforeEnd(SmallBits(p.dicts[i]), p.cursors[i], h);
        }
      } else {
        PlacesGrow(p, j, i);
        LaterElsewhere(SmallBits(d), SmallBits(p.dicts[i]), v, p.cursors[i], h);
      }
    }
  }

  /** What a call emits of a key comes from a bucket that shares the low bits of the cursor. */
  lemma EmittedHere(d: State, v: nat, k: Key)
    requires Valid(d) && Fits(d) && Lookup(d, k).Some? && Lookup(d, k).value in Scan(d, v).1
    ensures Low(SmallBits(d), HASH_FUNCTION(k)) == Low(SmallBits(d), v)
  {
    var e, h := Lookup(d, k).value, HASH_FUNCTION(k);
    Positive(d, k);
    CountZero(d.t0);
    LookupKey(d, k);
    var s := v % |Smaller(d)|;
    if e in Smaller(d)[s] {
      EntryInBucket(Smaller(d), s, e, d.log);
      BucketByBits(Smaller(d), h);
      BucketByBits(Smaller(d), v);
    } else if Low(SmallBits(d), h) != Low(SmallBits(d), v) {
      BitsMonotone(|Smaller(d)|, |Larger(d)|);
      ExpansionsAre(SmallBits(d), LargeBits(d), v, h);
      NotAmongExpansions(SmallBits(d), Larger(d), v, e, d.log);
    }
  }

  /** A key with the missed hash that is in the larger table at the bad call is never emitted. */
  lemma MissedKey(p: Pass, j: nat, h: nat, k: Key)
    requires IsPass(p) && j < |p.dicts| && MissedBy(p, j, h)
    requires HASH_FUNCTION(k) == h && TableFind(Larger(p.dicts[j]), k).Some?
    ensures !Emitted(p, k)
  {
    forall i | 0 <= i < |p.dicts| && Lookup(p.dicts[i], k).Some?
      ensures Lookup(p.dicts[i], k).value !in Scan(p.dicts[i], p.cursors[i]).1
    {
      if i == j {
        SkippedNotEmitted(p.dicts[j], p.cursors[j], k);
      } else {
        assert Elsewhere(p, i, h);
        if Lookup(p.dicts[i], k).value in Scan(p.dicts[i], p.cursors[i]).1 {
          EmittedHere(p.dicts[i], p.cursors[i], k);
        }
      }
    }
  }

  ghost predicate GoodAt(p: Pass, i: nat)
    requires i < |p.dicts| && i < |p.cursors|
  {
    GoodCursor(p.dicts[i], p.cursors[i])
  }

  ghost predicate AllGood(p: Pass)
    requires IsPass(p)
  {
    forall i :: 0 <= i < |p.dicts| ==> GoodAt(p, i)
  }

  /** Some call visits every bucket in which a key with this hash may be. */
  ghost predicate ReachedInPass(p: Pass, h: nat)
    requires IsPass(p)
  {
    exists i :: 0 <= i < |p.dicts| && Reached(p, i, h)
  }

  ghost predicate AllReached(p: Pass)
    requires IsPass(p)
  {
    forall h: nat :: Low(W, h) == h ==> ReachedInPass(p, h)
  }

  lemma {:induction false} ReachedFrom(p: Pass, h: nat, i: nat)
    requires Finished(p) && OnePass(p) && AllGood(p) && i < |p.dicts| && Place(p.cursors[i]) <= Place(h)
    ensures ReachedInPass(p, h)
    decreases |p.dicts| - i
  {
    RevBound(W, h);
    assert GoodAt(p, i);
    if Place(h) < End(p.cursors[i + 1]) {
      CallReaches(p.dicts[i], p.cursors[i], h);
      assert Reached(p, i, h);
    } else {
      ReachedFrom(p, h, i + 1);
    }
  }

  lemma MissedNotReached(p: Pass, j: nat, h: nat)
    requires IsPass(p) && j < |p.dicts| && MissedBy(p, j, h)
    ensures !ReachedInPass(p, h)
  {
    forall i | 0 <= i < |p.dicts| ensures !Reached(p, i, h) {
      assert i == j || Elsewhere(p, i, h);
    }
  }

  /** A finished pass in which no table is smaller than at an earlier call with a bad cursor
      reaches every word if and only if it has no such call. */
  lemma PassExact(p: Pass)
    requires Finished(p) && OnePass(p)
    requires forall i, j :: 0 <= j < i < |p.dicts| && !GoodAt(p, j) ==> SmallBits(p.dicts[i]) >= SmallBits(p.dicts[j])
    ensures AllReached(p) <==> AllGood(p)
  {
    if AllGood(p) {
      RevOfZero(W);
      forall h: nat | Low(W, h) == h ensures ReachedInPass(p, h) {
        ReachedFrom(p, h, 0);
      }
    } else {
      var j :| 0 <= j < |p.dicts| && !GoodAt(p, j);
      var h := BadCallMisses(p, j);
      LowBound(W, h);
      MissedNotReached(p, j, h);
    }
  }

  // ----- tables that grow ----------------------------------------------------------------------------

  /** No call finds a smaller table than the call before it. */
  ghost predicate Growing(p: Pass) {
    forall i :: 0 < i < |p.dicts| ==> SmallBits(p.dicts[i - 1]) <= SmallBits(p.dicts[i])
  }

  lemma {:induction false} LowOfZero(n: nat)
    ensures Low(n, 0) == 0
  {
    if n > 0 {
      LowOfZero(n - 1);
    }
  }

  /** A cursor without bits above the smaller mask is good. */
  lemma SmallCursorGood(d: State, v: nat)
    requires Valid(d) && Fits(d) && v < Pow2(SmallBits(d))
    ensures GoodCursor(d, v)
  {
    BitsMonotone(|Smaller(d)|, |Larger(d)|);
    if SmallBits(d) <= LargeBits(d) {
      HighSmall(SmallBits(d), v);
      LowOfZero(LargeBits(d) - SmallBits(d));
      assert Pow2(0) == 1;
    }
  }

  lemma AdvanceBelow(n: nat, v: nat, next: nat)
    requires n <= W && next == Rev(n, v) + 1
    ensures Advance(n, v) < Pow2(n)
  {
    AdvanceIs(n, v);
    RevBound(n, next);
    Pow2Monotone(0, n);
  }

  lemma CursorBelow(d: State, v: nat)
    requires Valid(d) && Fits(d)
    ensures Scan(d, v).0 < Pow2(SmallBits(d))
  {
    if d.used0 + d.used1 > 0 {
      ScanAdvances(d, v);
      AdvanceBelow(SmallBits(d), v, Rev(SmallBits(d), v) + 1);
    } else {
      Pow2Monotone(0, SmallBits(d));
    }
  }

  /** While the tables do not shrink, every cursor is good. */
  lemma GrowingGood(p: Pass)
    requires IsPass(p) && Growing(p)
    ensures AllGood(p)
  {
    forall i | 0 <= i < |p.dicts| ensures GoodAt(p, i) {
      if i > 0 {
        CursorBelow(p.dicts[i - 1], p.cursors[i - 1]);
        Pow2Monotone(SmallBits(p.dicts[i - 1]), SmallBits(p.dicts[i]));
      }
      SmallCursorGood(p.dicts[i], p.cursors[i]);
    }
  }

  /** So a finished pass during which the tables do not shrink emits every key that is present
      throughout, without any condition on the cursors. */
  lemma GrowingEmitsAll(p: Pass, k: Key)
    requires Finished(p) && Growing(p)
    requires forall i :: 0 <= i < |p.dicts| ==> Lookup(p.dicts[i], k).Some?
    ensures Emitted(p, k)
  {
    GrowingGood(p);
    forall i | 0 <= i < |p.dicts| ensures GoodCursor(p.dicts[i], p.cursors[i]) {
      assert GoodAt(p, i);
    }
    PassEmitsAll(p, k);
  }
}
