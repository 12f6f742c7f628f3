/** Which entries one call of dictScan passes to the callback, said of their hashes and addresses:
    each of them once. */
module DictScanOnce {
  import opened Binary
  import opened Options
  import opened Dict
  import opened DictIterator
  import opened DictScan
  import opened DictScanPass

  /** No key, and so no entry, occurs twice. */
  ghost predicate KeysDiffer(c: Chain) {
    forall i, j :: 0 <= i < j < |c| ==> c[i].key != c[j].key
  }

  ghost predicate NoCommonKey(a: Chain, b: Chain) {
    forall e, f :: e in a && f in b ==> e.key != f.key
  }

  lemma KeysDifferJoined(a: Chain, b: Chain)
    requires KeysDiffer(a) && KeysDiffer(b) && NoCommonKey(a, b)
    ensures KeysDiffer(a + b)
  {
    forall i, j | 0 <= i < j < |a + b| ensures (a + b)[i].key != (a + b)[j].key {
      if i < |a| && j >= |a| {
        assert a[i] in a && b[j - |a|] in b;
      }
    }
  }

  lemma BucketKeysDiffer(t: Table, i: nat, log: seq<Key>)
    requires i < |t| && TableOk(t, log)
    ensures KeysDiffer(t[i])
  {
    forall j, l | 0 <= j < l < |t[i]| ensures t[i][j].key != t[i][l].key {
      DistinctKeys(t[i], j, l, i, |t|, log);
    }
  }

  ghost predicate BucketsIn(buckets: seq<nat>, size: nat) {
    forall i :: 0 <= i < |buckets| ==> buckets[i] < size
  }

  ghost predicate BucketsDiffer(buckets: seq<nat>, size: nat) {
    BucketsIn(buckets, size) && forall i, j :: 0 <= i < j < |buckets| ==> buckets[i] != buckets[j]
  }

  lemma {:induction false} EmitOnce(t: Table, buckets: seq<nat>, log: seq<Key>)
    requires |t| > 0 && TableOk(t, log) && BucketsDiffer(buckets, |t|)
    ensures KeysDiffer(Emit(t, buckets))
  {
    if buckets != [] {
      var here, rest := buckets[0], buckets[1..];
      EmitOnce(t, rest, log);
      ModOfSmall(here, |t|);
      BucketKeysDiffer(t, here, log);
      forall e, f | e in t[here] && f in Emit(t, rest) ensures e.key != f.key {
        EntryInBucket(t, here, e, log);
        EmittedFromOther(t, rest, f, here, log);
      }
      KeysDifferJoined(t[here], Emit(t, rest));
    }
  }

  /** The bucket from which an entry is emitted. */
  lemma {:induction false} BucketOf(t: Table, buckets: seq<nat>, e: Entry) returns (b: nat)
    requires |t| > 0 && e in Emit(t, buckets) && BucketsIn(buckets, |t|)
    ensures b in buckets && b < |t| && e in t[b]
  {
    var first, rest := buckets[0], buckets[1..];
    ModOfSmall(first, |t|);
    if e in t[first] {
      b := first;
    } else {
      b := BucketOf(t, rest, e);
    }
  }

  lemma EmittedFromOther(t: Table, buckets: seq<nat>, f: Entry, here: nat, log: seq<Key>)
    requires |t| > 0 && TableOk(t, log) && f in Emit(t, buckets) && here !in buckets
    requires BucketsIn(buckets, |t|)
    ensures HASH_FUNCTION(f.key) % |t| != here
  {
    var b := BucketOf(t, buckets, f);
    EntryInBucket(t, b, f, log);
  }

  lemma ExpansionsIn(n0: nat, n1: nat, v: nat)
    requires n0 <= n1 <= W
    ensures BucketsIn(Expansions(n0, n1, v), Pow2(n1))
  {
    ExpansionsBound(n0, n1, v);
    var buckets := Expansions(n0, n1, v);
    forall i | 0 <= i < |buckets| ensures buckets[i] < Pow2(n1) {
      assert buckets[i] in buckets;
    }
  }

  /** The loop comes to no bucket twice: every turn leaves the bits between the masks greater. */
  lemma {:induction false} ExpansionsOnce(n0: nat, n1: nat, v: nat)
    requires n0 <= n1 <= W
    ensures BucketsDiffer(Expansions(n0, n1, v), Pow2(n1))
    decreases Pow2(n1 - n0) - Mid(n0, n1, v)
  {
    var u, buckets := Bump(n0, v), Expansions(n0, n1, v);
    ExpansionsIn(n0, n1, v);
    BumpMid(n0, n1, v);
    if Mid(n0, n1, u) != 0 {
      ExpansionsOnce(n0, n1, u);
      ExpansionsAre(n0, n1, u, v);
      assert buckets == [Low(n1, v)] + Expansions(n0, n1, u);
    }
  }

  lemma LargerOnce(d: State, v: nat, n0: nat, n1: nat)
    requires Valid(d) && Rehashing(d) && n0 == Bits(|Smaller(d)|) <= n1 == Bits(|Larger(d)|) <= W
    ensures KeysDiffer(Emit(Larger(d), Expansions(n0, n1, v)))
  {
    ExpansionsOnce(n0, n1, v);
    TableBits(Larger(d));
    EmitOnce(Larger(d), Expansions(n0, n1, v), d.log);
  }

  lemma EmittedIsThere(t: Table, buckets: seq<nat>, e: Entry, log: seq<Key>)
    requires |t| > 0 && TableOk(t, log) && e in Emit(t, buckets)
    ensures TableFind(t, e.key) == Some(e)
  {
    EmitHas(t, buckets, e);
    var i :| 0 <= i < |buckets| && e in t[buckets[i] % |t|];
    EntryInBucket(t, buckets[i] % |t|, e, log);
  }

  lemma TablesApart(d: State, v: nat, n0: nat, n1: nat)
    requires Valid(d) && Rehashing(d) && n0 == Bits(|Smaller(d)|) <= n1 == Bits(|Larger(d)|) <= W
    ensures NoCommonKey(Smaller(d)[v % |Smaller(d)|], Emit(Larger(d), Expansions(n0, n1, v)))
  {
    var here, more := Smaller(d)[v % |Smaller(d)|], Emit(Larger(d), Expansions(n0, n1, v));
    forall e, f | e in here && f in more ensures e.key != f.key {
      EntryInBucket(Smaller(d), v % |Smaller(d)|, e, d.log);
      EmittedIsThere(Larger(d), Expansions(n0, n1, v), f, d.log);
    }
  }

  lemma ScanKeysDiffer(d: State, v: nat)
    requires Valid(d) && Fits(d)
    ensures KeysDiffer(Scan(d, v).1)
  {
    if d.used0 + d.used1 > 0 {
      CountZero(d.t0);
      BucketKeysDiffer(Smaller(d), v % |Smaller(d)|, d.log);
      if Rehashing(d) {
        var n0, n1 := Bits(|Smaller(d)|), Bits(|Larger(d)|);
        BitsMonotone(|Smaller(d)|, |Larger(d)|);
        LargerOnce(d, v, n0, n1);
        TablesApart(d, v, n0, n1);
        KeysDifferJoined(Smaller(d)[v % |Smaller(d)|], Emit(Larger(d), Expansions(n0, n1, v)));
      }
    }
  }

  /** One call passes no entry to the callback twice. */
  lemma ScanOnce(d: State, v: nat)
    requires Valid(d) && Fits(d)
    ensures var emitted := Scan(d, v).1;
      forall i, j :: 0 <= i < j < |emitted| ==> emitted[i].addr != emitted[j].addr
  {
    var emitted := Scan(d, v).1;
    ScanKeysDiffer(d, v);
    forall i | 0 <= i < |emitted| ensures emitted[i].addr < |d.log| && d.log[emitted[i].addr] == emitted[i].key {
      ScanEmitsEntries(d, v, emitted[i]);
      LookupKey(d, emitted[i].key);
    }
  }

  // ----- which entries ---------------------------------------------------------------------------

  /** The bits between the masks are quotient and remainder by the sizes of the tables. */
  lemma MidIs(small: Table, large: Table, h: nat)
    requires 0 < |small| && 0 < |large| && TableSize(|small|) && TableSize(|large|) && Bits(|small|) <= Bits(|large|)
    ensures Low(Bits(|small|), h) == h % |small|
    ensures Mid(Bits(|small|), Bits(|large|), h) == h % |large| / |small|
  {
    var n0, n1 := Bits(|small|), Bits(|large|);
    TableBits(small);
    TableBits(large);
    HighOfLow(n0, n1, h);
    LowIsMod(n0, Low(n1, h));
  }

  lemma InOneBucket(t: Table, i: nat, e: Entry, log: seq<Key>)
    requires i < |t| && TableOk(t, log)
    ensures e in t[i] <==> TableFind(t, e.key) == Some(e) && HASH_FUNCTION(e.key) % |t| == i
  {
    if e in t[i] {
      EntryInBucket(t, i, e, log);
    }
    if TableFind(t, e.key) == Some(e) && HASH_FUNCTION(e.key) % |t| == i {
      BucketHasEntry(t, e.key);
    }
  }

  lemma InExpansions(t: Table, n0: nat, v: nat, e: Entry, log: seq<Key>)
    requires |t| > 0 && TableSize(|t|) && TableOk(t, log) && n0 <= Bits(|t|) <= W
    ensures e in Emit(t, Expansions(n0, Bits(|t|), v)) <==>
            TableFind(t, e.key) == Some(e) && Low(Bits(|t|), HASH_FUNCTION(e.key)) in Expansions(n0, Bits(|t|), v)
  {
    var h, buckets := HASH_FUNCTION(e.key), Expansions(n0, Bits(|t|), v);
    BucketByBits(t, h);
    if e in Emit(t, buckets) {
      ExpansionsIn(n0, Bits(|t|), v);
      TableBits(t);
      var b := BucketOf(t, buckets, e);
      EntryInBucket(t, b, e, log);
    }
    if TableFind(t, e.key) == Some(e) && Low(Bits(|t|), h) in buckets {
      AmongExpansions(n0, t, v, e.key);
    }
  }

  /** The entry is passed to the callback by its hash: in the smaller table, or the only one, if the
      hash agrees with the cursor below the mask; in the larger one if besides its bits between the
      masks are not smaller than those of the cursor. */
  ghost predicate Visited(d: State, v: nat, e: Entry)
    requires |d.t0| > 0 && (Rehashing(d) ==> |d.t1| > 0)
  {
    var h, small, large := HASH_FUNCTION(e.key), Smaller(d), Larger(d);
    h % |small| == v % |small| &&
    (Rehashing(d) && TableFind(large, e.key).Some? ==> h % |large| / |small| >= v % |large| / |small|)
  }

  lemma LargerVisited(d: State, v: nat, e: Entry, n0: nat, n1: nat)
    requires Valid(d) && Rehashing(d) && n0 == Bits(|Smaller(d)|) <= n1 == Bits(|Larger(d)|) <= W
    ensures e in Emit(Larger(d), Expansions(n0, n1, v)) <==> TableFind(Larger(d), e.key) == Some(e) && Visited(d, v, e)
  {
    var h := HASH_FUNCTION(e.key);
    InExpansions(Larger(d), n0, v, e, d.log);
    ExpansionsAre(n0, n1, v, h);
    MidIs(Smaller(d), Larger(d), h);
    MidIs(Smaller(d), Larger(d), v);
  }

  /** Exactly the entries that are there and whose hash says so are passed to the callback. */
  lemma ScanExact(d: State, v: nat, e: Entry)
    requires Valid(d) && Fits(d)
    ensures |d.t0| == 0 ==> Scan(d, v).1 == []
    ensures |d.t0| > 0 ==> (e in Scan(d, v).1 <==> Lookup(d, e.key) == Some(e) && Visited(d, v, e))
  {
    CountZero(d.t0);
    if d.used0 + d.used1 == 0 {
      Positive(d, e.key);
    } else {
      InOneBucket(Smaller(d), v % |Smaller(d)|, e, d.log);
      if Rehashing(d) {
        BitsMonotone(|Smaller(d)|, |Larger(d)|);
        LargerVisited(d, v, e, Bits(|Smaller(d)|), Bits(|Larger(d)|));
      }
    }
  }
}
