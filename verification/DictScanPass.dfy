/** What a call of dictScan emits, when it covers its stretch, and what a whole pass emits
    while the tables are resized between its calls. */
module DictScanPass {
  import opened Binary
  import opened Options
  import opened Dict
  import opened DictScan

  /** Number of bits of the mask of a table of `size` buckets. */
  function Bits(size: nat): nat {
    if size <= 1 then 0 else 1 + Bits(size / 2)
  }

  lemma {:induction false} BitsOfPow2(n: nat)
    ensures Bits(Pow2(n)) == n
  {
    if n > 0 {
      BitsOfPow2(n - 1);
    }
  }

  lemma TableBits(t: Table)
    requires |t| > 0 && TableSize(|t|)
    ensures Pow2(Bits(|t|)) == |t|
    ensures forall v: nat :: Low(Bits(|t|), v) == v % |t|
  {
    var n: nat :| |t| == Pow2(n);
    BitsOfPow2(n);
    forall v: nat ensures Low(n, v) == v % |t| {
      LowIsMod(n, v);
    }
  }

  /** No table has more buckets than a word can count. */
  ghost predicate Fits(d: State) {
    Bits(|d.t0|) <= W && Bits(|d.t1|) <= W
  }

  function Smaller(d: State): Table {
    if Rehashing(d) && |d.t0| > |d.t1| then d.t1 else d.t0
  }

  function Larger(d: State): Table {
    if Rehashing(d) && |d.t0| <= |d.t1| then d.t1 else d.t0
  }

  lemma {:induction false} BitsMonotone(a: nat, b: nat)
    requires a <= b
    ensures Bits(a) <= Bits(b)
  {
    if a > 1 {
      BitsMonotone(a / 2, b / 2);
    }
  }

  /** The chains of the listed buckets, one after the other. */
  function Emit(t: Table, buckets: seq<nat>): Chain
    requires |t| > 0
  {
    if buckets == [] then [] else t[buckets[0] % |t|] + Emit(t, buckets[1..])
  }

  /** dictScan: the next cursor and the entries passed to the callback. */
  function Scan(d: State, v: nat): (nat, Chain)
    requires Valid(d) && Fits(d)
  {
    if d.used0 + d.used1 == 0 then (0, [])
    else
      CountZero(d.t0);
      var n0 := Bits(|Smaller(d)|);
      var here := Smaller(d)[v % |Smaller(d)|];
      if !Rehashing(d) then (Advance(n0, v), here)
      else
        BitsMonotone(|Smaller(d)|, |Larger(d)|);
        (Advance(n0, v), here + Emit(Larger(d), Expansions(n0, Bits(|Larger(d)|), v)))
  }

  /** The guard under which a call covers its stretch: with two tables, the bits of the
      cursor between the two masks are a run of low ones (none, all of them, and a single
      mask bit are special cases). */
  ghost predicate GoodCursor(d: State, v: nat) {
    Rehashing(d) && |Smaller(d)| <= |Larger(d)| ==>
      Bits(|Smaller(d)|) <= Bits(|Larger(d)|) &&
      IsPow2(Mid(Bits(|Smaller(d)|), Bits(|Larger(d)|), v) + 1)
  }

  lemma MidOrder(n0: nat, n1: nat, v: nat, h: nat)
    requires n0 <= n1 <= W && Low(n0, h) == Low(n0, v)
    ensures Rev(n1 - n0, Mid(n0, n1, h)) > Rev(n1 - n0, Mid(n0, n1, v)) ==> Place(h) > Place(v)
    ensures Place(h) >= Place(v) ==> Rev(n1 - n0, Mid(n0, n1, h)) >= Rev(n1 - n0, Mid(n0, n1, v))
  {
    var d, m := n1 - n0, W - n1;
    var y := PlaceByMid(n0, d, m, h);
    var x := PlaceByMid(n0, d, m, v);
    RevLow(n0, h);
    RevLow(n0, v);
    UpOrder(m, Rev(d, Mid(n0, n1, v)), Rev(d, Mid(n0, n1, h)), x, y);
    UpOrder(m, Rev(d, Mid(n0, n1, h)), Rev(d, Mid(n0, n1, v)), y, x);
  }

  lemma PlaceByMid(n0: nat, d: nat, m: nat, h: nat) returns (r: nat)
    requires n0 + d + m == W
    ensures r < Pow2(m)
    ensures Place(h) == Up(d + m, Rev(n0, h)) + (Up(m, Rev(d, Mid(n0, n0 + d, h))) + r)
  {
    RevSplit(n0, d + m, W, h);
    RevSplit(d, m, d + m, High(n0, h));
    RevLow(d, High(n0, h));
    r := Rev(m, High(d, High(n0, h)));
    RevBound(m, High(d, High(n0, h)));
  }

  /** Exactly when a two-table call visits, in the larger table, the bucket of every word
      in the stretch that it closes. */
  lemma TwoTableCallExact(n0: nat, n1: nat, v: nat)
    requires n0 <= n1 <= W
    ensures (forall h: nat :: h < Pow2(W) && Place(v) <= Place(h) < End(Advance(n0, v)) ==>
                           Low(n1, h) in Expansions(n0, n1, v))
            <==> IsPow2(Mid(n0, n1, v) + 1)
  {
    LowBound(n1 - n0, High(n0, v));
    if IsPow2(Mid(n0, n1, v) + 1) {
      forall h: nat | h < Pow2(W) && Place(v) <= Place(h) < End(Advance(n0, v))
        ensures Low(n1, h) in Expansions(n0, n1, v)
      {
        CoveredWhenGood(n0, n1, v, h);
      }
    } else {
      var h := MissedWord(n0, n1, v);
    }
  }

  lemma RunOfOnesFirst(d: nat, c: nat, x: nat)
    requires c < Pow2(d) && x < Pow2(d) && IsPow2(c + 1) && Rev(d, x) >= Rev(d, c)
    ensures x >= c
  {
    if Rev(d, x) > Rev(d, c) {
      LowOnesOrder(d, c, x);
    } else {
      RevInjective(d, c, x);
      LowBound(d, c);
      LowBound(d, x);
    }
  }

  lemma MidBound(n0: nat, n1: nat, v: nat)
    requires n0 <= n1
    ensures Mid(n0, n1, v) < Pow2(n1 - n0)
  {
    LowBound(n1 - n0, High(n0, v));
  }

  lemma MidsInOrder(n0: nat, n1: nat, v: nat, h: nat, c: nat, x: nat)
    requires n0 <= n1 <= W && Low(n0, h) == Low(n0, v) && Place(v) <= Place(h)
    requires c == Mid(n0, n1, v) && x == Mid(n0, n1, h)
    ensures c < Pow2(n1 - n0) && x < Pow2(n1 - n0) && Rev(n1 - n0, x) >= Rev(n1 - n0, c)
  {
    MidOrder(n0, n1, v, h);
    MidBound(n0, n1, v);
    MidBound(n0, n1, h);
  }

  lemma MidAtLeast(n0: nat, n1: nat, v: nat, h: nat, c: nat, x: nat)
    requires n0 <= n1 <= W && Low(n0, h) == Low(n0, v) && Place(v) <= Place(h)
    requires c == Mid(n0, n1, v) && x == Mid(n0, n1, h) && IsPow2(c + 1)
    ensures x >= c
  {
    MidsInOrder(n0, n1, v, h, c, x);
    RunOfOnesFirst(n1 - n0, c, x);
  }

  lemma CoveredWhenGood(n0: nat, n1: nat, v: nat, h: nat)
    requires n0 <= n1 <= W && IsPow2(Mid(n0, n1, v) + 1)
    requires Place(v) <= Place(h) < End(Advance(n0, v))
    ensures Low(n0, h) == Low(n0, v) && Low(n1, h) in Expansions(n0, n1, v)
  {
    StretchIsBucket(n0, v, h);
    MidAtLeast(n0, n1, v, h, Mid(n0, n1, v), Mid(n0, n1, h));
    ExpansionsAre(n0, n1, v, h);
  }

  /** A word in the bucket at the cursor is placed before the end of the stretch. */
  lemma BucketBeforeEnd(n: nat, v: nat, h: nat)
    requires n <= W && Low(n, h) == Low(n, v)
    ensures Place(h) < End(Advance(n, v))
  {
    var m, x := W - n, Rev(n, v) + 1;
    AdvanceEnd(n, m, v, x);
    PlaceSplit(n, m, h);
    RevLow(n, h);
    RevLow(n, v);
    UpOrder(m, Rev(n, h), x, Rev(m, High(n, h)), 0);
  }

  /** A word of the stretch whose bucket in the larger table is skipped. */
  lemma MissedWord(n0: nat, n1: nat, v: nat) returns (h: nat)
    requires n0 <= n1 <= W && !IsPow2(Mid(n0, n1, v) + 1)
    ensures h < Pow2(n1) && h < Pow2(W) && Place(v) <= Place(h) < End(Advance(n0, v))
    ensures Low(n0, h) == Low(n0, v) && Low(n1, h) == h && h !in Expansions(n0, n1, v)
  {
    var d := n1 - n0;
    LowBound(d, High(n0, v));
    var x := LaterSmaller(d, Mid(n0, n1, v));
    h := WordWith(n0, n1, x, v);
    MidOrder(n0, n1, v, h);
    ExpansionsAre(n0, n1, v, h);
    BucketBeforeEnd(n0, v, h);
  }

  lemma WordWith(n0: nat, n1: nat, x: nat, v: nat) returns (h: nat)
    requires n0 <= n1 <= W && x < Pow2(n1 - n0)
    ensures Low(n0, h) == Low(n0, v) && Mid(n0, n1, h) == x
    ensures Low(n1, h) == h < Pow2(n1) && h < Pow2(W)
  {
    h := Up(n0, x) + Low(n0, v);
    LowBound(n0, v);
    Compose(n0, x, Low(n0, v), h);
    LowBound(n1 - n0, x);
    SplitLow(n0, n1, h);
    Pow2Monotone(n1, W);
  }

  // ----- what is emitted ----------------------------------------------------------------

  lemma {:induction false} EmitHas(t: Table, buckets: seq<nat>, e: Entry)
    requires |t| > 0
    ensures e in Emit(t, buckets) <==> exists i :: 0 <= i < |buckets| && e in t[buckets[i] % |t|]
  {
    if buckets != [] {
      EmitHas(t, buckets[1..], e);
      if exists i :: 0 <= i < |buckets| && e in t[buckets[i] % |t|] {
        var i :| 0 <= i < |buckets| && e in t[buckets[i] % |t|];
        if i > 0 {
          assert buckets[1..][i - 1] == buckets[i];
        }
      }
      if i :| 0 <= i < |buckets[1..]| && e in t[buckets[1..][i] % |t|] {
        assert buckets[i + 1] == buckets[1..][i];
      }
    }
  }

  lemma EntryInBucket(t: Table, i: nat, e: Entry, log: seq<Key>)
    requires i < |t| && TableOk(t, log) && e in t[i]
    ensures TableFind(t, e.key) == Some(e) && HASH_FUNCTION(e.key) % |t| == i
  {
    MemberFound(t[i], e, i, |t|, log);
    FoundInOk(t[i], e.key, i, |t|, log);
  }

  /** Nothing but entries of the dictionary is emitted. */
  lemma ScanEmitsEntries(d: State, v: nat, e: Entry)
    requires Valid(d) && Fits(d) && e in Scan(d, v).1
    ensures Lookup(d, e.key) == Some(e)
  {
    CountZero(d.t0);
    if e in Smaller(d)[v % |Smaller(d)|] {
      EntryInBucket(Smaller(d), v % |Smaller(d)|, e, d.log);
    } else {
      BitsMonotone(|Smaller(d)|, |Larger(d)|);
      var buckets := Expansions(Bits(|Smaller(d)|), Bits(|Larger(d)|), v);
      EmitHas(Larger(d), buckets, e);
      var j :| 0 <= j < |buckets| && e in Larger(d)[buckets[j] % |Larger(d)|];
      EntryInBucket(Larger(d), buckets[j] % |Larger(d)|, e, d.log);
    }
  }

  lemma BucketHasEntry(t: Table, k: Key)
    requires |t| > 0 && TableFind(t, k).Some?
    ensures TableFind(t, k).value in t[Bucket(k, t)]
  {
    FoundKey(t[Bucket(k, t)], k);
  }

  lemma BucketByBits(t: Table, h: nat)
    requires |t| > 0 && TableSize(|t|)
    ensures Low(Bits(|t|), h) == h % |t|
  {
    TableBits(t);
  }

  lemma AtCursor(t: Table, v: nat, k: Key)
    requires |t| > 0 && TableSize(|t|) && TableFind(t, k).Some?
    requires Low(Bits(|t|), HASH_FUNCTION(k)) == Low(Bits(|t|), v)
    ensures TableFind(t, k).value in t[v % |t|]
  {
    BucketByBits(t, v);
    BucketByBits(t, HASH_FUNCTION(k));
    BucketHasEntry(t, k);
  }

  lemma SmallMod(x: nat, n: nat)
    requires n > 0
    ensures (x % n) % n == x % n
  {}

  lemma AmongExpansions(n0: nat, t: Table, v: nat, k: Key)
    requires |t| > 0 && TableSize(|t|) && TableFind(t, k).Some? && n0 <= Bits(|t|) <= W
    requires Low(Bits(|t|), HASH_FUNCTION(k)) in Expansions(n0, Bits(|t|), v)
    ensures TableFind(t, k).value in Emit(t, Expansions(n0, Bits(|t|), v))
  {
    var buckets := Expansions(n0, Bits(|t|), v);
    BucketByBits(t, HASH_FUNCTION(k));
    BucketHasEntry(t, k);
    EmitHas(t, buckets, TableFind(t, k).value);
    var i :| 0 <= i < |buckets| && buckets[i] == Low(Bits(|t|), HASH_FUNCTION(k));
    SmallMod(HASH_FUNCTION(k), |t|);
  }

  /** The entry of a key is emitted when the place of its hash lies in the stretch that
      the call closes. */
  lemma ScanEmits(d: State, v: nat, k: Key)
    requires Valid(d) && Fits(d) && GoodCursor(d, v) && Lookup(d, k).Some?
    requires Place(v) <= Place(HASH_FUNCTION(k)) < End(Scan(d, v).0)
    ensures Lookup(d, k).value in Scan(d, v).1
  {
    Positive(d, k);
    CountZero(d.t0);
    var h := HASH_FUNCTION(k);
    var n0 := Bits(|Smaller(d)|);
    StretchIsBucket(n0, v, h);
    if !Rehashing(d) || TableFind(Smaller(d), k).Some? {
      AtCursor(Smaller(d), v, k);
    } else {
      BitsMonotone(|Smaller(d)|, |Larger(d)|);
      CoveredWhenGood(n0, Bits(|Larger(d)|), v, h);
      AmongExpansions(n0, Larger(d), v, k);
    }
  }

  // ----- whole passes -------------------------------------------------------------------

  /** The dictionary as each call finds it, and the cursor before and after each call.
      Between two calls anything may happen to the dictionary. */
  datatype Pass = Pass(dicts: seq<State>, cursors: seq<nat>)

  ghost predicate IsPass(p: Pass) {
    && |p.cursors| == |p.dicts| + 1 && p.cursors[0] == 0
    && forall i :: 0 <= i < |p.dicts| ==>
         Valid(p.dicts[i]) && Fits(p.dicts[i]) && p.cursors[i + 1] == Scan(p.dicts[i], p.cursors[i]).0
  }

  ghost predicate Finished(p: Pass) {
    IsPass(p) && |p.dicts| > 0 && p.cursors[|p.dicts|] == 0
  }

  ghost predicate Emitted(p: Pass, k: Key)
    requires IsPass(p)
  {
    exists i :: 0 <= i < |p.dicts| && Lookup(p.dicts[i], k).Some? &&
                Lookup(p.dicts[i], k).value in Scan(p.dicts[i], p.cursors[i]).1
  }

  /** A finished pass emits every key that was present throughout. The tables may have been
      resized to any power of two between calls; calls that find two tables keep the guard. */
  lemma PassEmitsAll(p: Pass, k: Key)
    requires Finished(p)
    requires forall i :: 0 <= i < |p.dicts| ==> Lookup(p.dicts[i], k).Some?
    requires forall i :: 0 <= i < |p.dicts| ==> GoodCursor(p.dicts[i], p.cursors[i])
    ensures Emitted(p, k)
  {
    RevOfZero(W);
    EmittedFrom(p, k, 0);
  }

  lemma {:induction false} EmittedFrom(p: Pass, k: Key, i: nat)
    requires Finished(p) && i < |p.dicts|
    requires forall j :: 0 <= j < |p.dicts| ==> Lookup(p.dicts[j], k).Some?
    requires forall j :: 0 <= j < |p.dicts| ==> GoodCursor(p.dicts[j], p.cursors[j])
    requires Place(p.cursors[i]) <= Place(HASH_FUNCTION(k))
    ensures Emitted(p, k)
    decreases |p.dicts| - i
  {
    RevBound(W, HASH_FUNCTION(k));
    if Place(HASH_FUNCTION(k)) < End(p.cursors[i + 1]) {
      ScanEmits(p.dicts[i], p.cursors[i], k);
    } else {
      EmittedFrom(p, k, i + 1);
    }
  }

  lemma {:induction false} CursorPlace(p: Pass, m: nat, k: nat, i: nat) returns (q: nat)
    requires IsPass(p) && m + k == W && i <= |p.dicts|
    requires forall j :: 0 <= j < |p.dicts| ==> Bits(|Smaller(p.dicts[j])|) <= m
    requires forall j :: 0 < j <= i ==> p.cursors[j] != 0
    ensures q >= i && Place(p.cursors[i]) == Up(k, q)
  {
    if i == 0 {
      RevOfZero(W);
      q := 0;
      UpPow2(k, 0, k);
    } else {
      var r := CursorPlace(p, m, k, i - 1);
      assert p.cursors[i] == Scan(p.dicts[i - 1], p.cursors[i - 1]).0;
      q := StepPlace(Bits(|Smaller(p.dicts[i - 1])|), m, k, p.cursors[i - 1], r);
    }
  }

  lemma StepPlace(n: nat, m: nat, k: nat, v: nat, r: nat) returns (q: nat)
    requires n <= m && m + k == W && Place(v) == Up(k, r) && Advance(n, v) != 0
    ensures q > r && Place(Advance(n, v)) == Up(k, q)
  {
    var d, x := m - n, Rev(n, v) + 1;
    AdvanceEnd(n, d + k, v, x);
    AdvanceForward(n, v);
    q := Up(d, x);
    UpUp(k, d, d + k, x);
    UpOrder(k, q, r, 0, 0);
  }

  /** A pass over tables of which the smaller never has more than `Pow2(m)` buckets ends
      within `Pow2(m)` calls: the places of the cursors strictly increase. */
  lemma PassEnds(p: Pass, m: nat)
    requires IsPass(p) && m <= W
    requires forall i :: 0 <= i < |p.dicts| ==> Bits(|Smaller(p.dicts[i])|) <= m
    requires forall i :: 0 < i <= |p.dicts| ==> p.cursors[i] != 0
    ensures |p.dicts| < Pow2(m)
  {
    var k := W - m;
    var q := CursorPlace(p, m, k, |p.dicts|);
    RevBound(W, p.cursors[|p.dicts|]);
    UpPow2(k, m, W);
    UpOrder(k, Pow2(m), q, 0, 0);
  }

  // ----- a pass that misses an element --------------------------------------------------

  /** The cursor after a call, in the bits of the smaller table alone. */
  lemma AdvanceIs(n: nat, v: nat)
    requires n <= W
    ensures Advance(n, v) == if Rev(n, v) + 1 == Pow2(n) then 0 else Rev(n, Rev(n, v) + 1)
  {
    var m, x := W - n, Rev(n, v) + 1;
    AdvanceEnd(n, m, v, x);
    RevBound(n, v);
    CursorWithEnd(n, m, Advance(n, v), x);
  }

  lemma CursorWithEnd(n: nat, m: nat, a: nat, x: nat)
    requires n + m == W && a < Pow2(W) && 0 < x <= Pow2(n) && End(a) == Up(m, x)
    ensures a == if x == Pow2(n) then 0 else Rev(n, x)
  {
    UpPow2(m, n, W);
    if x == Pow2(n) {
      RevBound(W, a);
    } else {
      UpOrder(m, x, Pow2(n), 0, 0);
      PlaceOfReversed(n, m, x);
      SameWord(a, Rev(n, x));
    }
  }

  lemma PlaceOfReversed(n: nat, m: nat, x: nat)
    requires n + m == W && x < Pow2(n)
    ensures Place(Rev(n, x)) == Up(m, x) && Rev(n, x) < Pow2(W)
  {
    RevBound(n, x);
    HighSmall(n, Rev(n, x));
    PlaceSplit(n, m, Rev(n, x));
    RevOfZero(m);
    RevRev(n, x);
    LowBound(n, x);
    Pow2Monotone(n, W);
  }

  lemma SameWord(a: nat, b: nat)
    requires a < Pow2(W) && b < Pow2(W) && Place(a) == Place(b)
    ensures a == b
  {
    RevInjective(W, a, b);
    LowBound(W, a);
    LowBound(W, b);
  }

  lemma {:induction false} ExpansionsBound(n0: nat, n1: nat, v: nat)
    requires n0 <= n1 <= W
    ensures forall b :: b in Expansions(n0, n1, v) ==> b < Pow2(n1)
    decreases Pow2(n1 - n0) - Mid(n0, n1, v)
  {
    BumpMid(n0, n1, v);
    LowBound(n1, v);
    if Mid(n0, n1, Bump(n0, v)) != 0 {
      ExpansionsBound(n0, n1, Bump(n0, v));
    }
  }

  lemma ModOfSmall(b: nat, n: nat)
    requires b < n
    ensures b % n == b
  {}

  lemma NotAmongExpansions(n0: nat, t: Table, v: nat, e: Entry, log: seq<Key>)
    requires |t| > 0 && TableSize(|t|) && TableOk(t, log) && n0 <= Bits(|t|) <= W
    requires Low(Bits(|t|), HASH_FUNCTION(e.key)) !in Expansions(n0, Bits(|t|), v)
    ensures e !in Emit(t, Expansions(n0, Bits(|t|), v))
  {
    var buckets := Expansions(n0, Bits(|t|), v);
    EmitHas(t, buckets, e);
    TableBits(t);
    ExpansionsBound(n0, Bits(|t|), v);
    forall j | 0 <= j < |buckets| ensures e !in t[buckets[j] % |t|] {
      assert buckets[j] in buckets;
      ModOfSmall(buckets[j], |t|);
      if e in t[buckets[j]] {
        EntryInBucket(t, buckets[j], e, log);
      }
    }
  }

  /** An entry of the larger table is emitted only through its bucket. */
  lemma SkippedNotEmitted(d: State, v: nat, k: Key)
    requires Valid(d) && Fits(d) && Rehashing(d) && TableFind(Larger(d), k).Some?
    requires Bits(|Smaller(d)|) <= Bits(|Larger(d)|)
    requires Low(Bits(|Larger(d)|), HASH_FUNCTION(k)) !in Expansions(Bits(|Smaller(d)|), Bits(|Larger(d)|), v)
    ensures Lookup(d, k).value !in Scan(d, v).1
  {
    var e := TableFind(Larger(d), k).value;
    var i := v % |Smaller(d)|;
    FoundKey(Larger(d)[Bucket(k, Larger(d))], k);
    NotAmongExpansions(Bits(|Smaller(d)|), Larger(d), v, e, d.log);
    if e in Smaller(d)[i] {
      EntryInBucket(Smaller(d), i, e, d.log);
    }
  }

  /** One key with hash 4 in a table of `n` buckets. */
  function OneKey(n: nat, k: Key, v: Val): State
    requires n > 4
  {
    State(Buckets(n)[4 := [Entry(0, k, v)]], [], 1, 0, -1, 0, [k])
  }

  /** The same dictionary after dictResize has asked for `m` buckets. */
  function Shrinking(n: nat, m: nat, k: Key, v: Val): State
    requires n > 4
  {
    OneKey(n, k, v).(t1 := Buckets(m), rehashidx := 0)
  }

  lemma SmallPowers()
    ensures Pow2(4) == 16 && Pow2(2) == 4 && Bits(16) == 4 && Bits(4) == 2 && NextPower(4) == 4
  {}

  lemma OneKeyTable(t: Table, n: nat, k: Key, v: Val)
    requires HASH_FUNCTION(k) == 4 && n > 4 && HASH_FUNCTION(k) % n == 4
    requires t == Buckets(n)[4 := [Entry(0, k, v)]]
    ensures TableOk(t, [k]) && Count(t) == 1 && TableFind(t, k) == Some(Entry(0, k, v))
  {
    CountUpdate(Buckets(n), 4, [Entry(0, k, v)]);
  }

  lemma OneKeyValid(n: nat, k: Key, v: Val)
    requires HASH_FUNCTION(k) == 4 && n == 16
    ensures Valid(OneKey(n, k, v)) && Fits(OneKey(n, k, v)) && Lookup(OneKey(n, k, v), k) == Some(Entry(0, k, v))
  {
    OneKeyTable(OneKey(n, k, v).t0, n, k, v);
    SmallPowers();
  }

  lemma ShrinkingValid(n: nat, m: nat, k: Key, v: Val)
    requires HASH_FUNCTION(k) == 4 && n == 16 && m == 4
    ensures Valid(OneKey(n, k, v)) && Resize(OneKey(n, k, v), true) == (Shrinking(n, m, k, v), true)
    ensures Valid(Shrinking(n, m, k, v)) && Fits(Shrinking(n, m, k, v))
    ensures Lookup(Shrinking(n, m, k, v), k) == Some(Entry(0, k, v))
  {
    OneKeyValid(n, k, v);
    SmallPowers();
  }

  lemma FirstCursor(n: nat)
    requires n == 4
    ensures Advance(n, 0) == 8
  {
    AdvanceIs(n, 0);
    RevOfZero(n);
    ReversedOne(n, n - 1);
    SmallPowers();
  }

  lemma ReversedOne(n: nat, m: nat)
    requires n == m + 1
    ensures Rev(n, 1) == Pow2(m) && Pow2(n) == 2 * Pow2(m)
  {
    RevOfZero(m);
    UpPow2(m, 0, m);
  }

  lemma ScanOneKey(n: nat, k: Key, v: Val)
    requires HASH_FUNCTION(k) == 4 && n == 16
    ensures Misses(OneKey(n, k, v), 0, 8, Entry(0, k, v))
  {
    var d := OneKey(n, k, v);
    OneKeyValid(n, k, v);
    SmallPowers();
    FirstCursor(Bits(n));
    assert d.t0[0] == [];
    assert Scan(d, 0) == (Advance(Bits(n), 0), d.t0[0]);
  }

  /** The cursors of the calls on the shrinking table. */
  function NextCursor(c: nat): nat {
    if c == 8 then 2 else if c == 2 then 1 else if c == 1 then 3 else 0
  }

  lemma TwoBitsReversed(n: nat, c: nat)
    requires n == 2
    ensures Rev(n, c) == 2 * (c % 2) + c / 2 % 2 && Low(n, c) == 2 * (c / 2 % 2) + c % 2 && Pow2(n) == 4
  {
    assert Pow2(0) == 1 && Pow2(1) == 2;
    assert Rev(0, c / 2 / 2) == 0 && Rev(1, c / 2) == c / 2 % 2;
    assert Low(0, c / 2 / 2) == 0 && Low(1, c / 2) == c / 2 % 2;
  }

  lemma NextOfTwoBits(n: nat, c: nat, next: nat)
    requires n == 2 && c in {8, 2, 1, 3}
    requires next == if Rev(n, c) + 1 == Pow2(n) then 0 else Rev(n, Rev(n, c) + 1)
    ensures next == NextCursor(c)
  {
    TwoBitsReversed(n, c);
    TwoBitsReversed(n, Rev(n, c) + 1);
  }

  lemma CursorNext(n: nat, c: nat)
    requires n == 2 && c in {8, 2, 1, 3}
    ensures Advance(n, c) == NextCursor(c)
  {
    AdvanceIs(n, c);
    NextOfTwoBits(n, c, Advance(n, c));
  }

  lemma CursorSkips(n0: nat, n1: nat, c: nat, h: nat)
    requires n0 == 2 && n1 == 4 && c in {8, 2, 1, 3} && h == 4
    ensures Low(n1, h) !in Expansions(n0, n1, c)
  {
    ExpansionsAre(n0, n1, c, h);
    CursorApart(n0, n1, c, h);
  }

  lemma CursorApart(n0: nat, n1: nat, c: nat, h: nat)
    requires n0 == 2 && n1 == 4 && c in {8, 2, 1, 3} && h == 4
    ensures Low(n0, h) != Low(n0, c) || Mid(n0, n1, h) < Mid(n0, n1, c)
  {
    TwoBitsReversed(n0, c);
    TwoBitsReversed(n0, h);
    TwoHigh(n0, c, c / 4);
    TwoHigh(n0, h, h / 4);
    TwoLowBits(n1 - n0, c / 4, h / 4, c == 8);
  }

  lemma TwoHigh(n: nat, c: nat, q: nat)
    requires n == 2 && q == c / 4
    ensures High(n, c) == q
  {
    assert High(0, c / 2 / 2) == q;
    assert High(1, c / 2) == q;
  }

  lemma TwoLowBits(n: nat, c: nat, h: nat, two: bool)
    requires n == 2 && h == 1 && (two ==> c == 2)
    ensures Low(n, h) == 1 && (two ==> Low(n, c) == 2)
  {
    TwoBitsReversed(n, c);
    TwoBitsReversed(n, h);
  }

  lemma ScanShrinking(n: nat, m: nat, k: Key, v: Val, c: nat)
    requires HASH_FUNCTION(k) == 4 && n == 16 && m == 4 && c in {8, 2, 1, 3}
    ensures Misses(Shrinking(n, m, k, v), c, NextCursor(c), Entry(0, k, v))
  {
    ShrinkingValid(n, m, k, v);
    SmallPowers();
    CursorNext(2, c);
    CursorSkips(2, 4, c, 4);
    SkippedNotEmitted(Shrinking(n, m, k, v), c, k);
  }

  lemma ShrinkingNotGood(n: nat, m: nat, k: Key, v: Val)
    requires n == 16 && m == 4
    ensures !GoodCursor(Shrinking(n, m, k, v), 8)
  {
    SmallPowers();
    assert Mid(2, 4, 8) == 2;
    NotPow2(3);
  }

  /** A call that emits no entry `e` and returns cursor `next`. */
  ghost predicate Misses(d: State, v: nat, next: nat, e: Entry) {
    Valid(d) && Fits(d) && Lookup(d, e.key) == Some(e) && Scan(d, v).0 == next && e !in Scan(d, v).1
  }

  lemma PassOfMisses(p: Pass, e: Entry)
    requires |p.dicts| > 0 && |p.cursors| == |p.dicts| + 1
    requires p.cursors[0] == 0 && p.cursors[|p.dicts|] == 0
    requires forall i :: 0 <= i < |p.dicts| ==> Misses(p.dicts[i], p.cursors[i], p.cursors[i + 1], e)
    ensures Finished(p) && !Emitted(p, e.key)
  {
    forall i | 0 <= i < |p.dicts|
      ensures Valid(p.dicts[i]) && Fits(p.dicts[i]) && Lookup(p.dicts[i], e.key) == Some(e)
      ensures Scan(p.dicts[i], p.cursors[i]).0 == p.cursors[i + 1] && e !in Scan(p.dicts[i], p.cursors[i]).1
    {
      assert Misses(p.dicts[i], p.cursors[i], p.cursors[i + 1], e);
    }
  }

  lemma FiveCalls(d: State, s: State, miss: (State, nat, nat) -> bool, p: Pass)
    requires p == Pass([d, s, s, s, s], [0, 8, 2, 1, 3, 0])
    requires miss(d, 0, 8) && miss(s, 8, 2) && miss(s, 2, 1) && miss(s, 1, 3) && miss(s, 3, 0)
    ensures forall i :: 0 <= i < |p.dicts| ==> miss(p.dicts[i], p.cursors[i], p.cursors[i + 1])
  {}

  lemma PassOfFive(d: State, s: State, e: Entry) returns (p: Pass)
    requires Misses(d, 0, 8, e) && Misses(s, 8, 2, e) && Misses(s, 2, 1, e) && Misses(s, 1, 3, e) && Misses(s, 3, 0, e)
    ensures p == Pass([d, s, s, s, s], [0, 8, 2, 1, 3, 0]) && Finished(p) && !Emitted(p, e.key)
  {
    p := Pass([d, s, s, s, s], [0, 8, 2, 1, 3, 0]);
    var miss := (d: State, v: nat, next: nat) => Misses(d, v, next, e);
    FiveCalls(d, s, miss, p);
    forall i | 0 <= i < |p.dicts| ensures Misses(p.dicts[i], p.cursors[i], p.cursors[i + 1], e) {
      assert miss(p.dicts[i], p.cursors[i], p.cursors[i + 1]);
    }
    PassOfMisses(p, e);
  }

  /** The guard is needed. A scan starts on a table of 16 buckets, which dictResize then
      begins to shrink to 4; the key stays present, yet the pass, cursors 0, 8, 2, 1, 3, 0,
      never emits it: the call with cursor 8 visits buckets 8 and 12 and skips bucket 4. */
  lemma ShrinkMissesElement(k: Key, v: Val) returns (p: Pass, d: State, s: State)
    requires HASH_FUNCTION(k) == 4
    ensures p.dicts == [d, s, s, s, s] && Finished(p) && !Emitted(p, k)
    ensures Lookup(d, k) == Some(Entry(0, k, v)) == Lookup(s, k)
    ensures Valid(d) && !Rehashing(d) && Resize(d, true) == (s, true)
    ensures !GoodCursor(s, p.cursors[1])
  {
    var n: nat, m: nat :| n == 16 && m == 4;
    d, s := OneKey(n, k, v), Shrinking(n, m, k, v);
    ScanOneKey(n, k, v);
    ScanShrinking(n, m, k, v, 8);
    ScanShrinking(n, m, k, v, 2);
    ScanShrinking(n, m, k, v, 1);
    ScanShrinking(n, m, k, v, 3);
    p := PassOfFive(d, s, Entry(0, k, v));
    ShrinkingNotGood(n, m, k, v);
    ShrinkingValid(n, m, k, v);
  }

  lemma NotPow2(x: nat)
    requires x % 2 == 1 && x > 1
    ensures !IsPow2(x)
  {
    if IsPow2(x) {
      HalfOfPow2(x);
    }
  }
}
