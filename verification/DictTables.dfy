/** The dictionary in place: two bucket arrays that its operations update. Every method is
    proved to change the state exactly as the function of the same name in `Dict` says. */
module DictTables {
  import opened Binary
  import opened Options
  import opened Dict
  import opened DictScan
  import opened DictScanPass
  import opened ScanWords

  /** Position of a key in a chain, or -1. */
  method SearchChain(c: Chain, k: Key) returns (j: int)
    ensures -1 <= j < |c|
    ensures j == -1 ==> ChainFind(c, k) == None
    ensures j >= 0 ==> ChainFind(c, k) == Some(c[j]) && ChainRemove(c, k) == c[..j] + c[j + 1..]
    ensures j >= 0 ==> forall v :: ChainSet(c, k, v) == c[j := c[j].(val := v)]
  {
    j := 0;
    while j < |c|
      invariant 0 <= j <= |c|
      invariant forall i :: 0 <= i < j ==> c[i].key != k
    {
      if c[j].key == k {
        FirstMatch(c, j, k);
        forall v ensures ChainSet(c, k, v) == c[j := c[j].(val := v)] {
          FirstMatchSet(c, j, k, v);
        }
        return;
      }
      j := j + 1;
    }
    NoMatch(c, k);
    j := -1;
  }

  lemma {:induction false} NoMatch(c: Chain, k: Key)
    requires forall i :: 0 <= i < |c| ==> c[i].key != k
    ensures ChainFind(c, k) == None
  {
    if c != [] {
      NoMatch(c[1..], k);
    }
  }

  lemma {:induction false} FirstMatch(c: Chain, j: nat, k: Key)
    requires j < |c| && c[j].key == k && forall i :: 0 <= i < j ==> c[i].key != k
    ensures ChainFind(c, k) == Some(c[j]) && ChainRemove(c, k) == c[..j] + c[j + 1..]
  {
    if j > 0 {
      FirstMatch(c[1..], j - 1, k);
      assert c[..j] + c[j + 1..] == [c[0]] + (c[1..][..j - 1] + c[1..][j..]);
    } else {
      assert c[..0] + c[1..] == c[1..];
    }
  }

  lemma {:induction false} FirstMatchSet(c: Chain, j: nat, k: Key, v: Val)
    requires j < |c| && c[j].key == k && forall i :: 0 <= i < j ==> c[i].key != k
    ensures ChainSet(c, k, v) == c[j := c[j].(val := v)]
  {
    if j > 0 {
      FirstMatchSet(c[1..], j - 1, k, v);
    }
  }

  class DictTables {
    var t0: array<Chain>
    var t1: array<Chain>
    var used0: nat
    var used1: nat
    var rehashidx: int
    var iterators: int
    var allocations: nat
    ghost var log: seq<Key>

    ghost function State(): State
      reads this, t0, t1
    {
      Dict.State(t0[..], t1[..], used0, used1, rehashidx, iterators, log)
    }

    ghost predicate Ok()
      reads this, t0, t1
    {
      t0 != t1 && |log| == allocations && Valid(State())
    }

    /** dictCreate. */
    constructor ()
      ensures Ok() && fresh(t0) && fresh(t1) && State() == CREATED
    {
      t0 := new Chain[0];
      t1 := new Chain[0];
      used0, used1, rehashidx, iterators, allocations, log := 0, 0, -1, 0, 0, [];
    }

    /** dictRehash: `more` is true when there are still entries to move. */
    method Rehash(n: nat) returns (more: bool)
      requires Ok()
      modifies this, t0, t1
      ensures Ok() && fresh({t0, t1} - {old(t0), old(t1)})
      ensures (State(), more) == Dict.Rehash(old(State()), n)
    {
      ghost var spec := Dict.Rehash(State(), n);
      if rehashidx == -1 {
        return false;
      }
      var outOfVisits := RehashBuckets(n);
      if outOfVisits {
        assert State() == spec.0;
        return true;
      }
      if used0 == 0 {
        ReplaceTable();
        assert State() == spec.0;
        return false;
      }
      assert State() == spec.0;
      return true;
    }

    /** The loop of dictRehash over buckets; true when the visits to empty ones ran out. */
    method RehashBuckets(n: nat) returns (outOfVisits: bool)
      requires t0 != t1 && Migrating(State())
      modifies `rehashidx, `used0, `used1, t0, t1
      ensures (State(), outOfVisits) == RehashLoop(old(State()), n, n * 10)
    {
      var emptyVisits := n * 10;
      var i := n;
      ghost var spec := RehashLoop(State(), n, n * 10);
      while i != 0 && used0 != 0
        invariant 0 <= i <= n && 0 <= emptyVisits && (i > 0 ==> emptyVisits > 0)
        invariant Migrating(State()) && RehashLoop(State(), i, emptyVisits) == spec
        decreases i
      {
        var rest := i - 1;
        emptyVisits := RehashOneBucket(i, rest, emptyVisits);
        if emptyVisits == 0 {
          return true;
        }
        i := rest;
      }
      return false;
    }

    /** One turn of the loop: empty buckets passed and the next chain moved, unless the
        visits run out (then 0). */
    method RehashOneBucket(ghost n: nat, ghost rest: nat, visits: nat) returns (left: nat)
      requires t0 != t1 && Migrating(State()) && used0 > 0 && n == rest + 1 && visits > 0
      modifies `rehashidx, `used0, `used1, t0, t1
      ensures Migrating(State())
      ensures left == 0 ==> RehashLoop(old(State()), n, visits) == (State(), true)
      ensures left > 0 ==> RehashLoop(old(State()), n, visits) == RehashLoop(State(), rest, left)
    {
      ghost var d := State();
      RehashLoopStep(d, n, rest, visits);
      left := SkipEmptyBuckets(visits);
      assert State() == d.(rehashidx := rehashidx);
      if left > 0 {
        MoveCurrentBucket();
      }
    }

    /** The new table takes the place of the old one, which is empty. */
    method ReplaceTable()
      modifies this
      ensures t0 == old(t1) && fresh(t1) && t1.Length == 0 && log == old(log) && allocations == old(allocations)
      ensures State() == Dict.State(old(t1[..]), [], old(used1), 0, -1, old(iterators), old(log))
    {
      t0 := t1;
      t1 := new Chain[0];
      used0, used1, rehashidx := used1, 0, -1;
    }

    /** The loop of dictRehash over empty buckets; 0 when the visits have run out. */
    method SkipEmptyBuckets(visits: nat) returns (left: nat)
      requires Migrating(State()) && used0 > 0 && visits > 0
      modifies `rehashidx
      ensures (rehashidx, left) == SkipEmpty(t0[..], old(rehashidx), visits)
    {
      EntriesAhead(State());
      left := visits;
      while t0[rehashidx] == []
        invariant 0 <= rehashidx < t0.Length && left > 0
        invariant SkipEmpty(t0[..], rehashidx, left) == SkipEmpty(t0[..], old(rehashidx), visits)
        decreases t0.Length - rehashidx
      {
        rehashidx := rehashidx + 1;
        left := left - 1;
        if left == 0 {
          return;
        }
      }
    }

    method MoveCurrentBucket()
      requires t0 != t1 && 0 <= rehashidx < t0.Length && t1.Length > 0 && |t0[rehashidx]| <= used0
      modifies `used0, `used1, `rehashidx, t0, t1
      ensures State() == MoveBucket(old(State()))
    {
      MoveEntries(t0[rehashidx]);
      t0[rehashidx] := [];
      rehashidx := rehashidx + 1;
    }

    /** The inner loop of dictRehash: the entries of a chain move to the new table. */
    method MoveEntries(chain: Chain)
      requires t0 != t1 && t1.Length > 0 && |chain| <= used0
      modifies `used0, `used1, t1
      ensures t1[..] == MoveChain(chain, old(t1[..]))
      ensures used0 == old(used0) - |chain| && used1 == old(used1) + |chain|
    {
      var de := chain;
      while de != []
        invariant |de| <= |chain| && used0 == old(used0) - |chain| + |de| && used1 == old(used1) + |chain| - |de|
        invariant MoveChain(de, t1[..]) == MoveChain(chain, old(t1[..]))
        decreases |de|
      {
        var h := Bucket(de[0].key, t1[..]);
        assert Push(t1[..], de[0]) == t1[..][h := [de[0]] + t1[h]];
        t1[h] := [de[0]] + t1[h];
        used0, used1 := used0 - 1, used1 + 1;
        de := de[1..];
      }
    }

    /** _dictRehashStep, where the caller has found a rehash under way. */
    method RehashStep()
      requires Ok()
      modifies this, t0, t1
      ensures Ok() && fresh({t0, t1} - {old(t0), old(t1)})
      ensures State() == Dict.RehashStep(old(State()))
      ensures old(rehashidx == -1 || iterators > 0) ==> State() == old(State())
      ensures old(rehashidx != -1 && iterators == 0) ==> rehashidx == -1 || rehashidx > old(rehashidx)
    {
      StepMoves(State());
      if rehashidx != -1 && iterators == 0 {
        var _ := Rehash(1);
      }
    }

    /** dictExpand. */
    method Expand(size: nat) returns (ok: bool)
      requires Ok()
      modifies this
      ensures Ok() && fresh({t0, t1} - {old(t0), old(t1)})
      ensures (State(), ok) == Dict.Expand(old(State()), size)
    {
      ghost var d := State();
      var realsize := RealSize(size);
      if rehashidx != -1 || used0 > size || realsize == t0.Length {
        return false;
      }
      var n := new Chain[realsize](_ => []);
      assert n[..] == Buckets(realsize);
      if t0.Length == 0 {
        t0, used0 := n, 0;
      } else {
        t1, used1, rehashidx := n, 0, 0;
      }
      assert State() == Dict.Expand(d, size).0;
      return true;
    }

    /** _dictNextPower. */
    static method RealSize(size: nat) returns (i: nat)
      ensures i == NextPower(size)
    {
      i := INITIAL_SIZE;
      assert Pow2(2) == INITIAL_SIZE;
      while i < size
        invariant i > 0 && IsPow2(i) && NextPowerFrom(i, size) == NextPower(size)
        decreases size - i
      {
        DoubleOfPow2(i);
        i := i * 2;
      }
    }

    /** _dictExpandIfNeeded. */
    method ExpandIfNeeded(canResize: bool) returns (ok: bool)
      requires Ok()
      modifies this
      ensures Ok() && fresh({t0, t1} - {old(t0), old(t1)})
      ensures (State(), ok) == Dict.ExpandIfNeeded(old(State()), canResize)
    {
      assert Pow2(2) == INITIAL_SIZE;
      if rehashidx != -1 {
        return true;
      }
      if t0.Length == 0 {
        ok := Expand(INITIAL_SIZE);
      } else if used0 >= t0.Length && (canResize || used0 / t0.Length > FORCE_RESIZE_RATIO) {
        ok := Expand(used0 * 2);
      } else {
        ok := true;
      }
    }

    /** The key is at position `j` of its bucket in table 0, or in table 1 and not in table 0. */
    ghost predicate Located(table: int, j: int, k: Key)
      reads this, t0, t1
    {
      if table == 0 then
        t0.Length > 0 && var c := t0[Bucket(k, t0[..])];
        0 <= j < |c| && TableFind(t0[..], k) == Some(c[j]) == Lookup(State(), k) &&
        ChainRemove(c, k) == c[..j] + c[j + 1..] && forall v :: ChainSet(c, k, v) == c[j := c[j].(val := v)]
      else
        t1.Length > 0 && var c := t1[Bucket(k, t1[..])];
        0 <= j < |c| && TableFind(t0[..], k) == None && TableFind(t1[..], k) == Some(c[j]) == Lookup(State(), k) &&
        ChainRemove(c, k) == c[..j] + c[j + 1..] && forall v :: ChainSet(c, k, v) == c[j := c[j].(val := v)]
    }

    /** The searching loop of _dictKeyIndex, dictFind and dictGenericDelete: table 0, then
        table 1 while rehashing. The table is -1 when the key is in neither. */
    method Locate(k: Key) returns (table: int, j: int)
      requires Ok() && t0.Length > 0
      ensures -1 <= table <= 1
      ensures if table == -1 then Lookup(State(), k) == None else Located(table, j, k)
    {
      var h := HASH_FUNCTION(k);
      j := SearchChain(t0[h % t0.Length], k);
      if j != -1 {
        return 0, j;
      }
      if rehashidx == -1 {
        return -1, -1;
      }
      j := SearchChain(t1[h % t1.Length], k);
      return if j != -1 then 1 else -1, j;
    }

    /** dictAdd: dictAddRaw and the value stored in the new entry. */
    method Add(k: Key, v: Val, canResize: bool) returns (ok: bool)
      requires Ok()
      modifies this, t0, t1
      ensures Ok() && fresh({t0, t1} - {old(t0), old(t1)})
      ensures (State(), ok) == Dict.Add(old(State()), k, v, canResize)
    {
      RehashStep();
      ok := ExpandIfNeeded(canResize);
      ghost var d := State();
      var table, j := Locate(k);
      if table != -1 {
        return false;
      }
      InsertOk(d, k, v);
      Link(k, v);
      return true;
    }

    /** The new entry at the head of its bucket, in the table that receives new entries. */
    method Link(k: Key, v: Val)
      requires t0 != t1 && t0.Length > 0 && (rehashidx != -1 ==> t1.Length > 0) && |log| == allocations
      modifies this, t0, t1
      ensures t0 == old(t0) && t1 == old(t1) && |log| == allocations
      ensures State() == Insert(old(State()), k, v)
    {
      var entry := Entry(allocations, k, v);
      allocations, log := allocations + 1, log + [k];
      if rehashidx != -1 {
        var index := Bucket(k, t1[..]);
        t1[index] := [entry] + t1[index];
        used1 := used1 + 1;
        assert t1[..] == Push(old(t1[..]), entry);
      } else {
        var index := Bucket(k, t0[..]);
        t0[index] := [entry] + t0[index];
        used0 := used0 + 1;
        assert t0[..] == Push(old(t0[..]), entry);
      }
    }

    /** dictFind. */
    method Find(k: Key) returns (e: Option<Entry>)
      requires Ok()
      modifies this, t0, t1
      ensures Ok() && fresh({t0, t1} - {old(t0), old(t1)})
      ensures (State(), e) == Dict.Find(old(State()), k)
    {
      if t0.Length == 0 {
        return None;
      }
      RehashStep();
      var table, j := Locate(k);
      if table == 0 {
        e := Some(t0[Bucket(k, t0[..])][j]);
      } else if table == 1 {
        e := Some(t1[Bucket(k, t1[..])][j]);
      } else {
        e := None;
      }
    }

    /** dictReplace. */
    method Replace(k: Key, v: Val, canResize: bool) returns (added: bool)
      requires Ok()
      modifies this, t0, t1
      ensures Ok() && fresh({t0, t1} - {old(t0), old(t1)})
      ensures (State(), added) == Dict.Replace(old(State()), k, v, canResize)
    {
      added := Add(k, v, canResize);
      if added {
        return;
      }
      RehashStep();
      ghost var d := State();
      SetValOk(d, k, v);
      var table, j := Locate(k);
      SetValAt(k, v, table, j);
    }

    /** The value of the entry at position `j` of its bucket is replaced. */
    method SetValAt(k: Key, v: Val, table: int, j: nat)
      requires t0 != t1 && (table == 0 || table == 1) && Located(table, j, k)
      modifies t0, t1
      ensures State() == SetVal(old(State()), k, v)
    {
      ghost var d := State();
      if table == 0 {
        var i := Bucket(k, t0[..]);
        t0[i] := t0[i][j := t0[i][j].(val := v)];
        assert State().t0 == d.t0[i := ChainSet(d.t0[i], k, v)];
      } else {
        var i := Bucket(k, t1[..]);
        t1[i] := t1[i][j := t1[i][j].(val := v)];
        assert State().t1 == d.t1[i := ChainSet(d.t1[i], k, v)];
      }
    }

    /** dictGenericDelete. */
    method Delete(k: Key) returns (ok: bool)
      requires Ok()
      modifies this, t0, t1
      ensures Ok() && fresh({t0, t1} - {old(t0), old(t1)})
      ensures (State(), ok) == Dict.Delete(old(State()), k)
    {
      if t0.Length == 0 {
        return false;
      }
      RehashStep();
      ghost var d := State();
      var table, j := Locate(k);
      if table == -1 {
        return false;
      }
      UnlinkOk(d, k);
      UnlinkAt(k, table, j);
      return true;
    }

    /** The entry at position `j` of its bucket is unlinked. */
    method UnlinkAt(k: Key, table: int, j: nat)
      requires t0 != t1 && (table == 0 || table == 1) && Located(table, j, k)
      requires (TableFind(t0[..], k).Some? ==> used0 > 0) && (TableFind(t1[..], k).Some? ==> used1 > 0)
      modifies `used0, `used1, t0, t1
      ensures State() == Unlink(old(State()), k)
    {
      ghost var d := State();
      if table == 0 {
        var i := Bucket(k, t0[..]);
        t0[i] := t0[i][..j] + t0[i][j + 1..];
        used0 := used0 - 1;
        assert State().t0 == d.t0[i := ChainRemove(d.t0[i], k)];
      } else {
        var i := Bucket(k, t1[..]);
        t1[i] := t1[i][..j] + t1[i][j + 1..];
        used1 := used1 - 1;
        assert State().t1 == d.t1[i := ChainRemove(d.t1[i], k)];
      }
    }

    /** dictResize. */
    method Resize(canResize: bool) returns (ok: bool)
      requires Ok()
      modifies this
      ensures Ok() && fresh({t0, t1} - {old(t0), old(t1)})
      ensures (State(), ok) == Dict.Resize(old(State()), canResize)
    {
      if !canResize || rehashidx != -1 {
        return false;
      }
      var minimal := used0;
      if minimal < INITIAL_SIZE {
        minimal := INITIAL_SIZE;
      }
      ok := Expand(minimal);
    }

    /** The two-table half of dictScan: the bucket of the smaller table, then its
        expansions in the larger one. */
    method ScanTwoTables(v: nat) returns (next: nat, emitted: Chain)
      requires Ok() && Fits(State()) && rehashidx != -1 && used0 + used1 != 0
      ensures (next, emitted) == DictScanPass.Scan(State(), v)
    {
      ghost var d := State();
      ghost var n0 := Bits(|Smaller(d)|);
      BitsMonotone(|Smaller(d)|, |Larger(d)|);
      MaskOfTable(Smaller(d), v);
      var small, large := t0, t1;
      if small.Length > large.Length {
        small, large := t1, t0;
      }
      var m0 := small.Length - 1;
      var cursor;
      cursor, emitted := EmitExpansions(large, v, m0, n0);
      emitted := small[And(W, v, m0)] + emitted;
      next := AdvanceCursor(cursor, m0, n0);
      SameAdvance(n0, cursor, v);
    }

    method ScanOneTable(v: nat) returns (next: nat, emitted: Chain)
      requires Ok() && Fits(State()) && rehashidx == -1 && used0 + used1 != 0
      ensures (next, emitted) == DictScanPass.Scan(State(), v)
    {
      ghost var t := t0[..];
      OneTableScan(State(), v, t);
      MaskOfTable(t, v);
      var m0 := t0.Length - 1;
      var bucket := And(W, v, m0);
      emitted := t0[bucket];
      next := AdvanceCursor(v, m0, Bits(|t|));
    }

    /** dictScan on W-bit words, with the entries passed to the callback in `emitted`. */
    method Scan(v: nat) returns (next: nat, emitted: Chain)
      requires Ok() && Fits(State()) && v < Pow2(W)
      ensures (next, emitted) == DictScanPass.Scan(State(), v)
    {
      if used0 + used1 == 0 {
        return 0, [];
      }
      if rehashidx == -1 {
        next, emitted := ScanOneTable(v);
      } else {
        next, emitted := ScanTwoTables(v);
      }
    }
  }

  lemma OneTableScan(d: State, v: nat, t: Table)
    requires Valid(d) && Fits(d) && !Rehashing(d) && d.used0 + d.used1 != 0 && t == d.t0
    ensures |t| > 0 && TableSize(|t|) && Bits(|t|) <= W
    ensures DictScanPass.Scan(d, v) == (Advance(Bits(|t|), v), t[v % |t|])
  {
    CountZero(t);
  }

  /** The do-while loop of dictScan over the expansions of the cursor in the larger table. */
  method EmitExpansions(large: array<Chain>, v: nat, m0: nat, ghost n0: nat) returns (cursor: nat, emitted: Chain)
    requires large.Length > 0 && TableSize(large.Length) && n0 <= Bits(large.Length) <= W && m0 == Mask(n0)
    ensures emitted == Emit(large[..], Expansions(n0, Bits(large.Length), v))
    ensures Low(n0, cursor) == Low(n0, v)
  {
    var m1 := large.Length - 1;
    ghost var t, n1 := large[..], Bits(large.Length);
    cursor, emitted := v, [];
    var looping := true;
    ghost var all, left := Emit(t, Expansions(n0, n1, v)), Pow2(n1 - n0) - Mid(n0, n1, v);
    while looping
      invariant Low(n0, cursor) == Low(n0, v)
      invariant looping ==> StillToEmit(t, n0, n1, cursor, all, emitted, left)
      invariant !looping ==> all == emitted
      decreases looping, left
    {
      var next := BumpWord(cursor, m0);
      var bucket := And(W, cursor, m1);
      var between := And(W, next, Xor(W, m0, m1));
      left := EmitTurn(t, n0, n1, cursor, m0, m1, next, bucket, between, all, emitted, left);
      emitted := emitted + large[bucket];
      cursor := next;
      looping := between != 0;
    }
  }

  /** `emitted` followed by what the loop emits from the cursor on is `all`. */
  ghost predicate StillToEmit(t: Table, n0: nat, n1: nat, cursor: nat, all: Chain, emitted: Chain, left: int) {
    && |t| > 0 && n0 <= n1 <= W && left == Pow2(n1 - n0) - Mid(n0, n1, cursor)
    && all == emitted + Emit(t, Expansions(n0, n1, cursor))
  }

  /** One turn of the loop: the bucket at the cursor, and where the cursor goes. */
  lemma EmitTurn(t: Table, n0: nat, n1: nat, v: nat, m0: nat, m1: nat, u: nat, bucket: nat, between: nat,
                 all: Chain, emitted: Chain, left: int) returns (left': int)
    requires |t| > 0 && TableSize(|t|) && n1 == Bits(|t|) && n0 <= n1 <= W && m0 == Mask(n0) && m1 == |t| - 1
    requires u == BumpWord(v, m0) && bucket == And(W, v, m1) && between == And(W, u, Xor(W, m0, m1))
    requires StillToEmit(t, n0, n1, v, all, emitted, left)
    ensures bucket < |t| && Low(n0, u) == Low(n0, v)
    ensures between != 0 ==> StillToEmit(t, n0, n1, u, all, emitted + t[bucket], left') && 0 <= left' < left
    ensures between == 0 ==> all == emitted + t[bucket]
  {
    left' := Pow2(n1 - n0) - Mid(n0, n1, u);
    TurnWords(t, n0, n1, v, m0, m1, u, bucket, between);
    EmitStep(t, n0, v, u);
    if between != 0 {
      assert emitted + (t[bucket] + Emit(t, Expansions(n0, n1, u))) ==
             emitted + t[bucket] + Emit(t, Expansions(n0, n1, u));
    }
  }

  lemma TurnWords(t: Table, n0: nat, n1: nat, v: nat, m0: nat, m1: nat, u: nat, bucket: nat, between: nat)
    requires |t| > 0 && TableSize(|t|) && n1 == Bits(|t|) && n0 <= n1 <= W && m0 == Mask(n0) && m1 == |t| - 1
    requires u == BumpWord(v, m0) && bucket == And(W, v, m1) && between == And(W, u, Xor(W, m0, m1))
    ensures bucket < |t| && bucket == v % |t| && u == Bump(n0, v) && Low(n0, u) == Low(n0, v)
    ensures between != 0 <==> Mid(n0, n1, u) != 0
    ensures between != 0 ==> Mid(n0, n1, v) < Mid(n0, n1, u) < Pow2(n1 - n0)
  {
    MaskOfTable(t, v);
    NextExpansion(n0, n1, v, m0, m1, u);
  }

  lemma SameAdvance(n: nat, u: nat, v: nat)
    requires n <= W && Low(n, u) == Low(n, v)
    ensures Advance(n, u) == Advance(n, v)
  {
    assert SetHigh(n, u) == SetHigh(n, v);
  }

  /** One turn of the loop, on the words. */
  lemma NextExpansion(n0: nat, n1: nat, v: nat, m0: nat, m1: nat, u: nat)
    requires n0 <= n1 <= W && m0 == Mask(n0) && m1 == Mask(n1) && u == BumpWord(v, m0)
    ensures u == Bump(n0, v) && Low(n0, u) == Low(n0, v)
    ensures And(W, u, Xor(W, m0, m1)) != 0 <==> Mid(n0, n1, u) != 0
    ensures Mid(n0, n1, u) != 0 ==> Mid(n0, n1, v) < Mid(n0, n1, u) < Pow2(n1 - n0)
  {
    BumpWordIs(n0, v);
    BumpMid(n0, n1, v);
    BumpMid(n0, n1, u);
    AndXorMask(W, n0, n1, u);
    UpPow2(n0, 0, n0);
  }

  /** One turn of the loop, on the emitted entries. */
  lemma EmitStep(t: Table, n0: nat, v: nat, u: nat)
    requires |t| > 0 && TableSize(|t|) && n0 <= Bits(|t|) <= W && u == Bump(n0, v)
    ensures Emit(t, Expansions(n0, Bits(|t|), v)) == t[v % |t|] +
      if Mid(n0, Bits(|t|), u) != 0 then Emit(t, Expansions(n0, Bits(|t|), u)) else []
  {
    MaskOfTable(t, v);
    var all := Expansions(n0, Bits(|t|), v);
    assert all[0] % |t| == v % |t|;
    assert all[1..] == if Mid(n0, Bits(|t|), u) == 0 then [] else Expansions(n0, Bits(|t|), u);
    EmitFirst(t, all);
  }

  lemma EmitFirst(t: Table, buckets: seq<nat>)
    requires |t| > 0 && buckets != []
    ensures Emit(t, buckets) == t[buckets[0] % |t|] + Emit(t, buckets[1..])
  {}

  /** The end of dictScan: the reversed cursor is incremented in the bits of the mask. */
  method AdvanceCursor(v: nat, m0: nat, ghost n0: nat) returns (next: nat)
    requires n0 <= W && m0 == Mask(n0)
    ensures next == Advance(n0, v)
  {
    next := Or(W, v, Not(W, m0));
    OrNotMask(W, n0, v);
    OrBound(W, v, Not(W, m0));
    assert next == SetHigh(n0, v);
    next := ReverseBits(next);
    next := next + 1;
    LowBound(W, next);
    next := Low(W, next);
    next := ReverseBits(next);
  }

  /** One turn of the loop of dictRehash. */
  lemma RehashLoopStep(d: State, n: nat, rest: nat, visits: nat)
    requires Migrating(d) && n == rest + 1 && visits > 0 && d.used0 > 0
    ensures var (i, left) := SkipEmpty(d.t0, d.rehashidx, visits); var d1 := d.(rehashidx := i);
      && i < |d.t0| && Migrating(d1)
      && (left == 0 ==> RehashLoop(d, n, visits) == (d1, true))
      && (left > 0 ==> |d1.t0[i]| <= d1.used0 && Migrating(MoveBucket(d1)) &&
                       RehashLoop(d, n, visits) == RehashLoop(MoveBucket(d1), rest, left))
  {
    EntriesAhead(d);
    var (i, left) := SkipEmpty(d.t0, d.rehashidx, visits);
    if left > 0 {
      BucketStep(d, d.(rehashidx := i), n, rest, visits, i, left);
    }
  }

  lemma BucketStep(d: State, d1: State, n: nat, rest: nat, visits: nat, i: nat, left: nat)
    requires Migrating(d) && n == rest + 1 && visits > 0 && d.used0 > 0
    requires SkipEmpty(d.t0, d.rehashidx, visits) == (i, left) && left > 0 && d1 == d.(rehashidx := i)
    requires i < |d.t0| && Migrating(d1)
    ensures |d1.t0[i]| <= d1.used0 && Migrating(MoveBucket(d1))
    ensures RehashLoop(d, n, visits) == RehashLoop(MoveBucket(d1), rest, left)
  {
    MoveBucketOk(d1);
    LoopUnfolds(d, d1, MoveBucket(d1), n, rest, visits, i, left, RehashLoop(MoveBucket(d1), rest, left));
  }

  lemma LoopUnfolds(d: State, d1: State, d2: State, n: nat, rest: nat, visits: nat, i: nat, left: nat,
                    r: (State, bool))
    requires Migrating(d) && n == rest + 1 && visits > 0 && d.used0 > 0
    requires SkipEmpty(d.t0, d.rehashidx, visits) == (i, left) && left > 0 && d1 == d.(rehashidx := i)
    requires i < |d.t0| && |d1.t1| > 0 && |d1.t0[i]| <= d1.used0 && d2 == MoveBucket(d1) && Migrating(d2)
    requires r == RehashLoop(d2, rest, left)
    ensures RehashLoop(d, n, visits) == r
  {
    var skipped := SkipEmpty(d.t0, d.rehashidx, visits);
    assert skipped.0 == i && skipped.1 == left;
    assert n - 1 == rest;
  }

  lemma MaskOfTable(t: Table, v: nat)
    requires |t| > 0 && TableSize(|t|) && Bits(|t|) <= W
    ensures |t| - 1 == Mask(Bits(|t|))
    ensures And(W, v, |t| - 1) == Low(Bits(|t|), v) == v % |t| == Low(Bits(|t|), v) % |t| < |t|
  {
    TableBits(t);
    AndMask(W, Bits(|t|), v);
    LowBound(Bits(|t|), v);
    ModOfSmall(Low(Bits(|t|), v), |t|);
  }
}
