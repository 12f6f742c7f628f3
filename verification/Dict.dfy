/** The chained hash table with incremental rehashing, as values.

    The state of a dictionary is a pair of bucket tables. This module defines what every
    operation does to that state and proves that all of them act on one finite map. The
    in-place operations of `DictTables` are proved against these functions. */
module Dict {
  import opened Binary
  import opened Options

  type Key(==, 0, !new)
  type Val(==, 0, !new)
  type Hash = h: nat | h < 0x1_0000_0000

  /** The hash function of the dictionary's type. */
  const HASH_FUNCTION: Key -> Hash

  /** One chained entry. Its address is its place in the sequence of all allocations. */
  datatype Entry = Entry(addr: nat, key: Key, val: Val)

  type Chain = seq<Entry>
  type Table = seq<Chain>

  /** `log[a]` is the key of the entry that was allocated at address `a`. */
  datatype State = State(t0: Table, t1: Table, used0: nat, used1: nat,
                         rehashidx: int, iterators: int, log: seq<Key>)

  const INITIAL_SIZE := 4
  const FORCE_RESIZE_RATIO := 5

  const CREATED := State([], [], 0, 0, -1, 0, [])

  predicate Rehashing(d: State) {
    d.rehashidx != -1
  }

  // ----- chains ---------------------------------------------------------------------

  function ChainFind(c: Chain, k: Key): Option<Entry> {
    if c == [] then None else if c[0].key == k then Some(c[0]) else ChainFind(c[1..], k)
  }

  function ChainRemove(c: Chain, k: Key): Chain {
    if c == [] then [] else if c[0].key == k then c[1..] else [c[0]] + ChainRemove(c[1..], k)
  }

  function ChainSet(c: Chain, k: Key, v: Val): Chain {
    if c == [] then []
    else if c[0].key == k then [c[0].(val := v)] + c[1..]
    else [c[0]] + ChainSet(c[1..], k, v)
  }

  /** Every entry of the chain belongs to bucket `i` and no key is chained twice. */
  ghost predicate ChainOk(c: Chain, i: nat, size: nat, log: seq<Key>)
    requires size > 0
  {
    c == [] || (&& HASH_FUNCTION(c[0].key) % size == i
                && c[0].addr < |log| && log[c[0].addr] == c[0].key
                && ChainFind(c[1..], c[0].key).None?
                && ChainOk(c[1..], i, size, log))
  }

  lemma {:induction false} FoundKey(c: Chain, k: Key)
    ensures ChainFind(c, k).Some? ==> ChainFind(c, k).value.key == k && ChainFind(c, k).value in c
  {
    if c != [] {
      FoundKey(c[1..], k);
    }
  }

  lemma {:induction false} FoundInOk(c: Chain, k: Key, i: nat, size: nat, log: seq<Key>)
    requires size > 0 && ChainOk(c, i, size, log) && ChainFind(c, k).Some?
    ensures var e := ChainFind(c, k).value;
      e.key == k && e.addr < |log| && log[e.addr] == k && HASH_FUNCTION(k) % size == i
  {
    if c[0].key != k {
      FoundInOk(c[1..], k, i, size, log);
    }
  }

  lemma {:induction false} MemberFound(c: Chain, e: Entry, i: nat, size: nat, log: seq<Key>)
    requires size > 0 && ChainOk(c, i, size, log) && e in c
    ensures ChainFind(c, e.key) == Some(e)
  {
    if c[0] != e {
      assert e in c[1..];
      MemberFound(c[1..], e, i, size, log);
    }
  }

  lemma {:induction false} RemoveFind(c: Chain, k: Key, j: Key, i: nat, size: nat, log: seq<Key>)
    requires size > 0 && ChainOk(c, i, size, log)
    ensures ChainFind(ChainRemove(c, k), j) == if j == k then None else ChainFind(c, j)
  {
    if c != [] && c[0].key != k {
      RemoveFind(c[1..], k, j, i, size, log);
    }
  }

  lemma {:induction false} RemoveOk(c: Chain, k: Key, i: nat, size: nat, log: seq<Key>)
    requires size > 0 && ChainOk(c, i, size, log)
    ensures ChainOk(ChainRemove(c, k), i, size, log)
    ensures |ChainRemove(c, k)| == |c| - if ChainFind(c, k).Some? then 1 else 0
  {
    if c != [] && c[0].key != k {
      RemoveOk(c[1..], k, i, size, log);
      RemoveFind(c[1..], k, c[0].key, i, size, log);
    }
  }

  lemma {:induction false} SetFind(c: Chain, k: Key, v: Val, j: Key)
    ensures ChainFind(ChainSet(c, k, v), j) ==
            if j == k && ChainFind(c, k).Some? then Some(ChainFind(c, k).value.(val := v)) else ChainFind(c, j)
    ensures |ChainSet(c, k, v)| == |c|
  {
    if c != [] && c[0].key != k {
      SetFind(c[1..], k, v, j);
    }
  }

  lemma {:induction false} SetOk(c: Chain, k: Key, v: Val, i: nat, size: nat, log: seq<Key>)
    requires size > 0 && ChainOk(c, i, size, log)
    ensures ChainOk(ChainSet(c, k, v), i, size, log)
  {
    if c != [] && c[0].key != k {
      SetOk(c[1..], k, v, i, size, log);
      SetFind(c[1..], k, v, c[0].key);
    }
  }

  lemma {:induction false} LongerLog(c: Chain, i: nat, size: nat, log: seq<Key>, log': seq<Key>)
    requires size > 0 && ChainOk(c, i, size, log) && log <= log'
    ensures ChainOk(c, i, size, log')
  {
    if c != [] {
      LongerLog(c[1..], i, size, log, log');
    }
  }

  // ----- tables ---------------------------------------------------------------------

  function Bucket(k: Key, t: Table): (i: nat)
    requires |t| > 0
    ensures i < |t|
  {
    HASH_FUNCTION(k) % |t|
  }

  function TableFind(t: Table, k: Key): Option<Entry> {
    if |t| == 0 then None else ChainFind(t[Bucket(k, t)], k)
  }

  function Push(t: Table, e: Entry): Table
    requires |t| > 0
  {
    var i := Bucket(e.key, t);
    t[i := [e] + t[i]]
  }

  /** Number of entries in a table. */
  function Count(t: Table): nat {
    if t == [] then 0 else |t[0]| + Count(t[1..])
  }

  function Buckets(n: nat): (t: Table)
    ensures |t| == n && Count(t) == 0 && forall i :: 0 <= i < n ==> t[i] == []
  {
    if n == 0 then [] else [[]] + Buckets(n - 1)
  }

  ghost predicate TableOk(t: Table, log: seq<Key>) {
    forall i :: 0 <= i < |t| ==> ChainOk(t[i], i, |t|, log)
  }

  lemma {:induction false} CountUpdate(t: Table, i: nat, c: Chain)
    requires i < |t|
    ensures Count(t[i := c]) == Count(t) - |t[i]| + |c|
    ensures Count(t) >= |t[i]|
  {
    if i > 0 {
      assert t[i := c][1..] == t[1..][i - 1 := c];
      CountUpdate(t[1..], i - 1, c);
    } else {
      assert t[0 := c][1..] == t[1..];
    }
  }

  lemma {:induction false} CountZero(t: Table)
    ensures Count(t) == 0 <==> forall i :: 0 <= i < |t| ==> t[i] == []
  {
    if t != [] {
      CountZero(t[1..]);
      if forall i :: 0 <= i < |t| ==> t[i] == [] {
        forall i | 0 <= i < |t[1..]| ensures t[1..][i] == [] {
          assert t[1..][i] == t[i + 1];
        }
      }
      if forall i :: 0 <= i < |t[1..]| ==> t[1..][i] == [] {
        forall i | 1 <= i < |t| ensures t[i] == [] {
          assert t[i] == t[1..][i - 1];
        }
      }
    }
  }

  lemma TableFound(t: Table, k: Key, log: seq<Key>)
    requires TableOk(t, log) && TableFind(t, k).Some?
    ensures var e := TableFind(t, k).value; e.key == k && e.addr < |log| && log[e.addr] == k
    ensures Count(t) > 0
  {
    var i := Bucket(k, t);
    FoundInOk(t[i], k, i, |t|, log);
    CountUpdate(t, i, []);
  }

  lemma PushOk(t: Table, e: Entry, log: seq<Key>)
    requires |t| > 0 && TableOk(t, log) && e.addr < |log| && log[e.addr] == e.key
    requires TableFind(t, e.key).None?
    ensures TableOk(Push(t, e), log) && |Push(t, e)| == |t| && Count(Push(t, e)) == Count(t) + 1
    ensures forall k :: TableFind(Push(t, e), k) == if k == e.key then Some(e) else TableFind(t, k)
  {
    var i := Bucket(e.key, t);
    CountUpdate(t, i, [e] + t[i]);
    assert ([e] + t[i])[1..] == t[i];
  }

  // ----- rehashing ------------------------------------------------------------------

  /** Moves the entries of chain `c`, head first, to the heads of their new buckets. */
  function MoveChain(c: Chain, t: Table): (r: Table)
    requires |t| > 0
    ensures |r| == |t|
    decreases |c|
  {
    if c == [] then t else MoveChain(c[1..], Push(t, c[0]))
  }

  lemma {:induction false} MoveChainOk(c: Chain, t: Table, i: nat, size: nat, log: seq<Key>)
    requires |t| > 0 && size > 0 && TableOk(t, log) && ChainOk(c, i, size, log)
    requires forall k :: ChainFind(c, k).Some? ==> TableFind(t, k).None?
    ensures TableOk(MoveChain(c, t), log) && Count(MoveChain(c, t)) == Count(t) + |c|
    ensures forall k :: TableFind(MoveChain(c, t), k) ==
                        if ChainFind(c, k).Some? then ChainFind(c, k) else TableFind(t, k)
    decreases |c|
  {
    if c != [] {
      assert ChainFind(c, c[0].key).Some?;
      PushOk(t, c[0], log);
      forall k | ChainFind(c[1..], k).Some? ensures TableFind(Push(t, c[0]), k).None? {
        assert ChainFind(c, k).Some?;
      }
      MoveChainOk(c[1..], Push(t, c[0]), i, size, log);
    }
  }

  /** First non-empty bucket from `i` on, giving up after `visits` empty ones; the second
      result is how many visits are left. */
  function SkipEmpty(t: Table, i: nat, visits: nat): (r: (nat, nat))
    requires visits > 0
    ensures r.0 >= i && r.1 <= visits && (r.1 == 0 ==> r.0 == i + visits)
    ensures r.1 > 0 ==> r.0 == i + (visits - r.1)
    ensures forall j :: i <= j < r.0 && j < |t| ==> t[j] == []
    ensures i < |t| ==> r.0 <= |t|
    ensures r.1 > 0 && r.0 < |t| ==> t[r.0] != []
    decreases |t| - i
  {
    if i >= |t| || t[i] != [] then (i, visits)
    else if visits == 1 then (i + 1, 0)
    else SkipEmpty(t, i + 1, visits - 1)
  }

  function MoveBucket(d: State): State
    requires 0 <= d.rehashidx < |d.t0| && |d.t1| > 0 && |d.t0[d.rehashidx]| <= d.used0
  {
    var c := d.t0[d.rehashidx];
    d.(t0 := d.t0[d.rehashidx := []], t1 := MoveChain(c, d.t1),
       used0 := d.used0 - |c|, used1 := d.used1 + |c|, rehashidx := d.rehashidx + 1)
  }

  // ----- the invariant and the abstract map -------------------------------------------

  ghost predicate TableSize(n: nat) {
    n == 0 || IsPow2(n)
  }

  ghost predicate Core(d: State) {
    && TableSize(|d.t0|) && TableSize(|d.t1|)
    && TableOk(d.t0, d.log) && TableOk(d.t1, d.log)
    && d.used0 == Count(d.t0) && d.used1 == Count(d.t1)
    && forall k :: TableFind(d.t0, k).None? || TableFind(d.t1, k).None?
  }

  ghost predicate Migrating(d: State) {
    && Core(d) && |d.t0| > 0 && |d.t1| > 0 && |d.t0| != |d.t1|
    && 0 <= d.rehashidx <= |d.t0|
    && forall i :: 0 <= i < d.rehashidx ==> d.t0[i] == []
  }

  /** Holds between any two operations. */
  ghost predicate Valid(d: State) {
    && Core(d) && d.iterators >= 0
    && if Rehashing(d) then Migrating(d) && d.rehashidx < |d.t0| else |d.t1| == 0
  }

  /** The entry of a key, in whichever table it is. */
  function Lookup(d: State, k: Key): Option<Entry> {
    if TableFind(d.t0, k).Some? then TableFind(d.t0, k) else TableFind(d.t1, k)
  }

  ghost function TableKeys(t: Table): set<Key> {
    set i, j | 0 <= i < |t| && 0 <= j < |t[i]| :: t[i][j].key
  }

  /** The map that the two tables stand for. */
  ghost function Abs(d: State): map<Key, Val> {
    map k | k in TableKeys(d.t0) + TableKeys(d.t1) && Lookup(d, k).Some? :: Lookup(d, k).value.val
  }

  lemma {:induction false} FoundIsKey(c: Chain, k: Key) returns (j: nat)
    requires ChainFind(c, k).Some?
    ensures j < |c| && c[j].key == k
  {
    if c[0].key == k {
      j := 0;
    } else {
      j := FoundIsKey(c[1..], k);
      j := j + 1;
    }
  }

  lemma TableFoundIsKey(t: Table, k: Key)
    requires TableFind(t, k).Some?
    ensures k in TableKeys(t)
  {
    var j := FoundIsKey(t[Bucket(k, t)], k);
    assert t[Bucket(k, t)][j].key == k;
  }

  /** The abstract map holds exactly what look-ups find. */
  lemma AbsLookup(d: State)
    ensures forall k :: k in Abs(d) <==> Lookup(d, k).Some?
    ensures forall k :: k in Abs(d) ==> Abs(d)[k] == Lookup(d, k).value.val
  {
    forall k | Lookup(d, k).Some? ensures k in Abs(d) {
      if TableFind(d.t0, k).Some? {
        TableFoundIsKey(d.t0, k);
      } else {
        TableFoundIsKey(d.t1, k);
      }
    }
  }

  /** States that find the same entries stand for the same map. */
  lemma SameMap(d: State, e: State)
    requires forall k :: Lookup(d, k) == Lookup(e, k)
    ensures Abs(d) == Abs(e)
  {
    AbsLookup(d);
    AbsLookup(e);
  }

  // ----- incremental rehashing ----------------------------------------------------------

  /** A migration with entries left has not passed the end of the old table. */
  lemma EntriesAhead(d: State)
    requires Migrating(d) && d.used0 > 0
    ensures d.rehashidx < |d.t0|
    ensures forall v: nat :: v > 0 ==> SkipEmpty(d.t0, d.rehashidx, v).0 < |d.t0|
    ensures forall i :: 0 <= i < |d.t0| ==> |d.t0[i]| <= d.used0
  {
    CountZero(d.t0);
    forall i | 0 <= i < |d.t0| ensures |d.t0[i]| <= d.used0 {
      CountUpdate(d.t0, i, []);
    }
  }

  /** The loop of dictRehash: up to `n` buckets moved, up to `visits` empty ones passed.
      The second result tells whether the visits ran out. */
  function RehashLoop(d: State, n: nat, visits: nat): (r: (State, bool))
    requires Migrating(d) && (n > 0 ==> visits > 0)
    ensures Migrating(r.0)
    ensures forall k :: Lookup(r.0, k) == Lookup(d, k)
    ensures r.0 == d.(t0 := r.0.t0, t1 := r.0.t1, used0 := r.0.used0, used1 := r.0.used1,
                      rehashidx := r.0.rehashidx)
    ensures |r.0.t0| == |d.t0| && |r.0.t1| == |d.t1|
    ensures r.0.used0 + r.0.used1 == d.used0 + d.used1
    ensures r.1 ==> r.0.used0 > 0 && r.0.rehashidx >= d.rehashidx + visits
    ensures !r.1 && r.0.used0 > 0 ==> r.0.rehashidx >= d.rehashidx + n
    decreases n
  {
    if n == 0 || d.used0 == 0 then (d, false)
    else
      EntriesAhead(d);
      var (i, left) := SkipEmpty(d.t0, d.rehashidx, visits);
      var d1 := d.(rehashidx := i);
      assert Migrating(d1);
      if left == 0 then (d1, true)
      else
        MoveBucketOk(d1);
        RehashLoop(MoveBucket(d1), n - 1, left)
  }

  /** Emptying bucket `b` hides exactly the entries of its chain. */
  lemma EmptyBucket(t: Table, b: nat, log: seq<Key>)
    requires b < |t| && TableOk(t, log)
    ensures TableOk(t[b := []], log)
    ensures Count(t[b := []]) == Count(t) - |t[b]| && Count(t) >= |t[b]|
    ensures forall k :: TableFind(t[b := []], k) == if ChainFind(t[b], k).Some? then None else TableFind(t, k)
    ensures forall k :: ChainFind(t[b], k).Some? ==> TableFind(t, k) == ChainFind(t[b], k)
  {
    CountUpdate(t, b, []);
    forall k
      ensures TableFind(t[b := []], k) == if ChainFind(t[b], k).Some? then None else TableFind(t, k)
      ensures ChainFind(t[b], k).Some? ==> TableFind(t, k) == ChainFind(t[b], k)
    {
      if ChainFind(t[b], k).Some? {
        FoundInOk(t[b], k, b, |t|, log);
      }
    }
  }

  lemma MoveBucketOk(d: State)
    requires Migrating(d) && d.rehashidx < |d.t0|
    ensures |d.t0[d.rehashidx]| <= d.used0
    ensures Migrating(MoveBucket(d)) && forall k :: Lookup(MoveBucket(d), k) == Lookup(d, k)
  {
    EmptyBucket(d.t0, d.rehashidx, d.log);
    MoveChainOk(d.t0[d.rehashidx], d.t1, d.rehashidx, |d.t0|, d.log);
  }

  /** dictRehash: true when there is more to move. */
  function Rehash(d: State, n: nat): (r: (State, bool))
    requires Valid(d)
    ensures Valid(r.0) && Unchanged(r.0, d)
    ensures r.1 <==> Rehashing(r.0)
    ensures Rehashing(r.0) ==> Rehashing(d) && r.0.rehashidx >= d.rehashidx + n && |r.0.t0| == |d.t0|
    ensures Rehashing(r.0) ==> |r.0.t1| == |d.t1|
    ensures Rehashing(d) && !Rehashing(r.0) ==> |r.0.t0| == |d.t1|
  {
    if !Rehashing(d) then (d, false)
    else
      var (d1, outOfVisits) := RehashLoop(d, n, n * 10);
      if outOfVisits then (EntriesAhead(d1); d1, true)
      else if d1.used0 == 0 then
        CountZero(d1.t0);
        (State(d1.t1, [], d1.used1, 0, -1, d1.iterators, d1.log), false)
      else (EntriesAhead(d1); d1, true)
  }

  /** The same entries, iterator count and allocations, in whatever tables. */
  ghost predicate Unchanged(e: State, d: State) {
    && (forall k :: Lookup(e, k) == Lookup(d, k))
    && e.used0 + e.used1 == d.used0 + d.used1 && e.iterators == d.iterators && e.log == d.log
  }

  /** _dictRehashStep, called only when a rehash is under way. */
  function RehashStep(d: State): (r: State)
    requires Valid(d)
    ensures Valid(r) && Unchanged(r, d)
    ensures |d.t0| > 0 ==> |r.t0| > 0
  {
    if Rehashing(d) && d.iterators == 0 then Rehash(d, 1).0 else d
  }

  /** Unless an iterator is registered it moves on by a bucket at least, or ends the rehash. */
  lemma StepMoves(d: State)
    requires Valid(d)
    ensures var r := RehashStep(d);
      if !Rehashing(d) || d.iterators > 0 then r == d
      else if Rehashing(r) then r.rehashidx > d.rehashidx && |r.t0| == |d.t0| && |r.t1| == |d.t1|
      else |r.t0| == |d.t1|
  {}

  function NextPowerFrom(i: nat, size: nat): (r: nat)
    requires i > 0 && IsPow2(i)
    ensures IsPow2(r) && r >= size && r >= i && (r == i || r / 2 < size)
    decreases size - i
  {
    if i >= size then i else (DoubleOfPow2(i); NextPowerFrom(i * 2, size))
  }

  function NextPower(size: nat): (r: nat)
    ensures IsPow2(r) && r >= size && r >= INITIAL_SIZE && (r == INITIAL_SIZE || r / 2 < size)
  {
    assert Pow2(2) == INITIAL_SIZE;
    NextPowerFrom(INITIAL_SIZE, size)
  }

  /** dictExpand: false when it refuses. */
  function Expand(d: State, size: nat): (r: (State, bool))
    requires Valid(d)
    ensures Valid(r.0) && Unchanged(r.0, d)
    ensures r.1 <==> !Rehashing(d) && d.used0 <= size && NextPower(size) != |d.t0|
    ensures !r.1 ==> r.0 == d
    ensures r.1 ==> |r.0.t0| > 0 && (|d.t0| > 0 ==> Rehashing(r.0) && r.0.t0 == d.t0)
  {
    var realsize := NextPower(size);
    if Rehashing(d) || d.used0 > size || realsize == |d.t0| then (d, false)
    else if |d.t0| == 0 then (d.(t0 := Buckets(realsize), used0 := 0), true)
    else (d.(t1 := Buckets(realsize), used1 := 0, rehashidx := 0), true)
  }

  /** _dictExpandIfNeeded. */
  function ExpandIfNeeded(d: State, canResize: bool): (r: (State, bool))
    requires Valid(d)
    ensures Valid(r.0) && Unchanged(r.0, d) && r.1 && |r.0.t0| > 0
    ensures |d.t0| > 0 ==> r.0.t0 == d.t0
    ensures Rehashing(d) ==> r.0 == d
  {
    if Rehashing(d) then (d, true)
    else if |d.t0| == 0 then (assert Pow2(2) == INITIAL_SIZE; Expand(d, INITIAL_SIZE))
    else if d.used0 >= |d.t0| && (canResize || d.used0 / |d.t0| > FORCE_RESIZE_RATIO) then Expand(d, d.used0 * 2)
    else (d, true)
  }

  /** The table that receives new entries. */
  function Target(d: State): Table {
    if Rehashing(d) then d.t1 else d.t0
  }

  /** dictAdd: false when the key was there already. */
  function Add(d: State, k: Key, v: Val, canResize: bool): (r: (State, bool))
    requires Valid(d)
    ensures Valid(r.0) && |r.0.t0| > 0 && r.0.iterators == d.iterators && d.log <= r.0.log
    ensures r.1 <==> Lookup(d, k).None?
    ensures !r.1 ==> Unchanged(r.0, d)
    ensures r.1 ==> r.0.log == d.log + [k]
    ensures r.1 ==> forall j :: Lookup(r.0, j) == if j == k then Some(Entry(|d.log|, k, v)) else Lookup(d, j)
    ensures r.1 ==> r.0.used0 + r.0.used1 == d.used0 + d.used1 + 1
  {
    var (d1, ok) := ExpandIfNeeded(RehashStep(d), canResize);
    if !ok || Lookup(d1, k).Some? then (d1, false)
    else (InsertOk(d1, k, v); Insert(d1, k, v), true)
  }

  /** The new entry at the head of its bucket. */
  function Insert(d: State, k: Key, v: Val): State
    requires |d.t0| > 0 && (Rehashing(d) ==> |d.t1| > 0)
  {
    var e := Entry(|d.log|, k, v);
    var d1 := d.(log := d.log + [k]);
    if Rehashing(d) then d1.(t1 := Push(d.t1, e), used1 := d.used1 + 1)
    else d1.(t0 := Push(d.t0, e), used0 := d.used0 + 1)
  }

  lemma LongerLogTable(t: Table, log: seq<Key>, log': seq<Key>)
    requires TableOk(t, log) && log <= log'
    ensures TableOk(t, log')
  {
    forall i | 0 <= i < |t| ensures ChainOk(t[i], i, |t|, log') {
      LongerLog(t[i], i, |t|, log, log');
    }
  }

  lemma InsertOk(d: State, k: Key, v: Val)
    requires Valid(d) && |d.t0| > 0 && Lookup(d, k).None?
    ensures Valid(Insert(d, k, v))
    ensures forall j :: Lookup(Insert(d, k, v), j) ==
                        if j == k then Some(Entry(|d.log|, k, v)) else Lookup(d, j)
  {
    var log := d.log + [k];
    LongerLogTable(d.t0, d.log, log);
    LongerLogTable(d.t1, d.log, log);
    PushOk(Target(d), Entry(|d.log|, k, v), log);
  }

  /** dictFind. */
  function Find(d: State, k: Key): (r: (State, Option<Entry>))
    requires Valid(d)
    ensures Valid(r.0) && Unchanged(r.0, d) && r.1 == Lookup(d, k)
  {
    if |d.t0| == 0 then (d, None) else (RehashStep(d), Lookup(RehashStep(d), k))
  }

  /** The value of an existing key replaced in its entry. */
  function SetVal(d: State, k: Key, v: Val): State {
    if TableFind(d.t0, k).Some? then
      var i := Bucket(k, d.t0); d.(t0 := d.t0[i := ChainSet(d.t0[i], k, v)])
    else if TableFind(d.t1, k).Some? then
      var i := Bucket(k, d.t1); d.(t1 := d.t1[i := ChainSet(d.t1[i], k, v)])
    else d
  }

  lemma TableSetOk(t: Table, k: Key, v: Val, log: seq<Key>)
    requires TableOk(t, log) && TableFind(t, k).Some?
    ensures var i := Bucket(k, t); var t' := t[i := ChainSet(t[i], k, v)];
      && TableOk(t', log) && Count(t') == Count(t)
      && forall j :: TableFind(t', j) == if j == k then Some(TableFind(t, k).value.(val := v)) else TableFind(t, j)
  {
    var i := Bucket(k, t);
    var t' := t[i := ChainSet(t[i], k, v)];
    SetOk(t[i], k, v, i, |t|, log);
    CountUpdate(t, i, ChainSet(t[i], k, v));
    forall j ensures TableFind(t', j) == if j == k then Some(TableFind(t, k).value.(val := v)) else TableFind(t, j) {
      SetFind(t[i], k, v, j);
    }
    SetFind(t[i], k, v, k);
  }

  lemma SetValOk(d: State, k: Key, v: Val)
    requires Valid(d) && Lookup(d, k).Some?
    ensures Valid(SetVal(d, k, v))
    ensures forall j :: Lookup(SetVal(d, k, v), j) ==
              if j == k then Some(Lookup(d, k).value.(val := v)) else Lookup(d, j)
  {
    if TableFind(d.t0, k).Some? {
      TableSetOk(d.t0, k, v, d.log);
      if Rehashing(d) {
        assert Bucket(k, d.t0) >= d.rehashidx;
      }
    } else {
      TableSetOk(d.t1, k, v, d.log);
    }
  }

  /** dictReplace: true when the key was added from scratch. */
  function Replace(d: State, k: Key, v: Val, canResize: bool): (r: (State, bool))
    requires Valid(d)
    ensures Valid(r.0)
    ensures r.1 <==> Lookup(d, k).None?
    ensures forall j :: j != k ==> Lookup(r.0, j) == Lookup(d, j)
    ensures Lookup(r.0, k) == Some(Entry(if r.1 then |d.log| else Lookup(d, k).value.addr, k, v))
    ensures r.0.used0 + r.0.used1 == d.used0 + d.used1 + if r.1 then 1 else 0
  {
    var (d1, added) := Add(d, k, v, canResize);
    if added then (d1, true)
    else
      var (d2, e) := Find(d1, k);
      SetValOk(d2, k, v);
      LookupKey(d2, k);
      (SetVal(d2, k, v), false)
  }

  lemma LookupKey(d: State, k: Key)
    requires Valid(d) && Lookup(d, k).Some?
    ensures Lookup(d, k).value.key == k && Lookup(d, k).value.addr < |d.log|
    ensures d.log[Lookup(d, k).value.addr] == k
  {
    TableFound(if TableFind(d.t0, k).Some? then d.t0 else d.t1, k, d.log);
  }

  /** The entry of key `k` unlinked from its chain. */
  function Unlink(d: State, k: Key): State
    requires TableFind(d.t0, k).Some? ==> d.used0 > 0
    requires TableFind(d.t1, k).Some? ==> d.used1 > 0
  {
    if TableFind(d.t0, k).Some? then
      var i := Bucket(k, d.t0); d.(t0 := d.t0[i := ChainRemove(d.t0[i], k)], used0 := d.used0 - 1)
    else if TableFind(d.t1, k).Some? then
      var i := Bucket(k, d.t1); d.(t1 := d.t1[i := ChainRemove(d.t1[i], k)], used1 := d.used1 - 1)
    else d
  }

  lemma TableRemoveOk(t: Table, k: Key, log: seq<Key>)
    requires TableOk(t, log) && TableFind(t, k).Some?
    ensures var i := Bucket(k, t); var t' := t[i := ChainRemove(t[i], k)];
      && TableOk(t', log) && Count(t') == Count(t) - 1
      && forall j :: TableFind(t', j) == if j == k then None else TableFind(t, j)
  {
    var i := Bucket(k, t);
    var t' := t[i := ChainRemove(t[i], k)];
    RemoveOk(t[i], k, i, |t|, log);
    CountUpdate(t, i, ChainRemove(t[i], k));
    forall j ensures TableFind(t', j) == if j == k then None else TableFind(t, j) {
      RemoveFind(t[i], k, j, i, |t|, log);
    }
    RemoveFind(t[i], k, k, i, |t|, log);
  }

  lemma Positive(d: State, k: Key)
    requires Valid(d)
    ensures TableFind(d.t0, k).Some? ==> d.used0 > 0
    ensures TableFind(d.t1, k).Some? ==> d.used1 > 0
  {
    if TableFind(d.t0, k).Some? { TableFound(d.t0, k, d.log); }
    if TableFind(d.t1, k).Some? { TableFound(d.t1, k, d.log); }
  }

  lemma UnlinkOk(d: State, k: Key)
    requires Valid(d) && Lookup(d, k).Some?
    ensures (TableFind(d.t0, k).Some? ==> d.used0 > 0) && (TableFind(d.t1, k).Some? ==> d.used1 > 0)
    ensures Valid(Unlink(d, k))
    ensures Unlink(d, k).used0 + Unlink(d, k).used1 == d.used0 + d.used1 - 1
    ensures forall j :: Lookup(Unlink(d, k), j) == if j == k then None else Lookup(d, j)
  {
    Positive(d, k);
    if TableFind(d.t0, k).Some? {
      TableRemoveOk(d.t0, k, d.log);
      if Rehashing(d) {
        assert Bucket(k, d.t0) >= d.rehashidx;
      }
    } else {
      TableRemoveOk(d.t1, k, d.log);
    }
  }

  /** dictDelete: false when the key is not there. */
  function Delete(d: State, k: Key): (r: (State, bool))
    requires Valid(d)
    ensures Valid(r.0) && r.0.log == d.log && r.0.iterators == d.iterators
    ensures r.1 <==> Lookup(d, k).Some?
    ensures forall j :: Lookup(r.0, j) == if j == k then None else Lookup(d, j)
    ensures r.0.used0 + r.0.used1 == d.used0 + d.used1 - if r.1 then 1 else 0
  {
    if |d.t0| == 0 then (d, false)
    else
      var d1 := RehashStep(d);
      if Lookup(d1, k).None? then (d1, false) else (UnlinkOk(d1, k); Unlink(d1, k), true)
  }

  /** dictResize: shrinks the table to the smallest power of two that holds its entries. */
  function Resize(d: State, canResize: bool): (r: (State, bool))
    requires Valid(d)
    ensures Valid(r.0) && Unchanged(r.0, d)
    ensures r.1 ==> canResize && !Rehashing(d)
  {
    if !canResize || Rehashing(d) then (d, false)
    else Expand(d, if d.used0 < INITIAL_SIZE then INITIAL_SIZE else d.used0)
  }
}
