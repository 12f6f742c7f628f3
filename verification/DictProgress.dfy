/** How far the calls on a dictionary take a rehash that is under way, and no further. */
module DictProgress {
  import opened Dict
  import opened DictRefinement
  import opened DictTables
  import opened Options

  // ----- what one run of dictRehash moves ----------------------------------------------------------

  /** How many buckets from `i` to, but not including, `j` hold entries. */
  function Filled(t: Table, i: nat, j: nat): nat
    requires i <= j <= |t|
    decreases j - i
  {
    if i == j then 0 else (if t[i] == [] then 0 else 1) + Filled(t, i + 1, j)
  }

  lemma {:induction false} FilledSplit(t: Table, i: nat, j: nat, k: nat)
    requires i <= j <= k <= |t|
    ensures Filled(t, i, k) == Filled(t, i, j) + Filled(t, j, k)
    decreases j - i
  {
    if i < j {
      FilledSplit(t, i + 1, j, k);
    }
  }

  lemma {:induction false} FilledZero(t: Table, i: nat, j: nat)
    requires i <= j <= |t| && forall m :: i <= m < j ==> t[m] == []
    ensures Filled(t, i, j) == 0
    decreases j - i
  {
    if i < j {
      FilledZero(t, i + 1, j);
    }
  }

  lemma {:induction false} FilledSame(t: Table, u: Table, i: nat, j: nat)
    requires i <= j <= |t| && j <= |u| && forall m :: i <= m < j ==> t[m] == u[m]
    ensures Filled(t, i, j) == Filled(u, i, j)
    decreases j - i
  {
    if i < j {
      FilledSame(t, u, i + 1, j);
    }
  }

  /** From `d` to `e` the buckets from one rehash index to the other have been passed: at most `n` of
      them held entries, at most `visits` did not, and later buckets are as they were. */
  ghost predicate Passed(d: State, e: State, n: nat, visits: nat) {
    && 0 <= d.rehashidx <= e.rehashidx <= |d.t0| == |e.t0|
    && (forall m :: e.rehashidx <= m < |d.t0| ==> e.t0[m] == d.t0[m])
    && var filled := Filled(d.t0, d.rehashidx, e.rehashidx);
       filled <= n && e.rehashidx - d.rehashidx <= filled + visits
  }

  lemma PassedOne(d: State, i: nat)
    requires Migrating(d) && d.rehashidx <= i < |d.t0| && d.t0[i] != []
    requires forall m :: d.rehashidx <= m < i ==> d.t0[m] == []
    ensures Filled(d.t0, d.rehashidx, i + 1) == 1
  {
    FilledZero(d.t0, d.rehashidx, i);
    FilledSplit(d.t0, d.rehashidx, i, i + 1);
    assert Filled(d.t0, i + 1, i + 1) == 0;
  }

  lemma {:induction false} LoopPasses(d: State, n: nat, visits: nat)
    requires Migrating(d) && (n > 0 ==> visits > 0)
    ensures Passed(d, RehashLoop(d, n, visits).0, n, visits)
    decreases n
  {
    if n > 0 && d.used0 > 0 {
      var rest := n - 1;
      RehashLoopStep(d, n, rest, visits);
      var (i, left) := SkipEmpty(d.t0, d.rehashidx, visits);
      if left > 0 {
        var d2 := MoveBucket(d.(rehashidx := i));
        LoopPasses(d2, rest, left);
        PassedOne(d, i);
        PassedThen(d, d2, RehashLoop(d2, rest, left).0, n, rest, visits, left, i);
      } else {
        FilledZero(d.t0, d.rehashidx, i);
      }
    } else {
      assert RehashLoop(d, n, visits).0 == d && Filled(d.t0, d.rehashidx, d.rehashidx) == 0;
    }
  }

  lemma PassedThen(d: State, d2: State, e: State, n: nat, rest: nat, visits: nat, left: nat, i: nat)
    requires Passed(d2, e, rest, left) && n == rest + 1 && left <= visits && d2.rehashidx == i + 1
    requires 0 <= d.rehashidx <= i && i - d.rehashidx == visits - left && |d2.t0| == |d.t0| && i < |d.t0|
    requires Filled(d.t0, d.rehashidx, i + 1) == 1 && forall m :: i < m < |d.t0| ==> d2.t0[m] == d.t0[m]
    ensures Passed(d, e, n, visits)
  {
    FilledSplit(d.t0, d.rehashidx, i + 1, e.rehashidx);
    FilledSame(d.t0, d2.t0, i + 1, e.rehashidx);
  }

  /** A run of dictRehash moves at most `n` chains and passes at most ten times as many empty buckets;
      if it ends the rehash, no more chains were left than that. */
  lemma RehashIsIncremental(d: State, n: nat)
    requires Valid(d) && Rehashing(d)
    ensures var e := Rehash(d, n).0;
      if Rehashing(e) then Passed(d, e, n, n * 10) else Filled(d.t0, d.rehashidx, |d.t0|) <= n
  {
    LoopPasses(d, n, n * 10);
    var d1 := RehashLoop(d, n, n * 10).0;
    if d1.used0 == 0 {
      CountZero(d1.t0);
      FilledSplit(d.t0, d.rehashidx, d1.rehashidx, |d.t0|);
      FilledSame(d.t0, d1.t0, d1.rehashidx, |d.t0|);
      FilledZero(d1.t0, d1.rehashidx, |d.t0|);
    }
  }

  // ----- what one call does to a rehash --------------------------------------------------------------

  /** A call that looks a key up or updates it. */
  predicate Keyed(op: Op) {
    op.OpAdd? || op.OpReplace? || op.OpFind? || op.OpDelete?
  }

  /** The rehash that was under way in `d` is still under way, between the same tables, at a later
      bucket. */
  predicate Further(d: State, e: State) {
    Rehashing(e) && e.rehashidx > d.rehashidx && |e.t0| == |d.t0| && |e.t1| == |d.t1|
  }

  /** It is over: no rehash is under way, or another one, out of the table that was new in `d`. (Adding
      a key may start one at once.) */
  predicate Over(d: State, e: State) {
    !Rehashing(e) || |e.t0| == |d.t1|
  }

  /** It stands where it stood: no bucket of the old table has changed, but perhaps that of the
      key, and no bucket of the new one. */
  ghost predicate Stands(d: State, e: State, k: Key)
    requires |d.t0| > 0 && |d.t1| > 0
  {
    && e.rehashidx == d.rehashidx && |e.t0| == |d.t0| && |e.t1| == |d.t1|
    && (forall i :: 0 <= i < |d.t0| && i != Bucket(k, d.t0) ==> e.t0[i] == d.t0[i])
    && (forall i :: 0 <= i < |d.t1| && i != Bucket(k, d.t1) ==> e.t1[i] == d.t1[i])
  }

  lemma AddGoesOn(d: State, k: Key, v: Val, canResize: bool)
    requires Valid(d) && Rehashing(d)
    ensures var e := Add(d, k, v, canResize).0;
      if d.iterators == 0 then Further(d, e) || Over(d, e)
      else Stands(d, e, k) && (Lookup(d, k).Some? ==> e == d)
  {
    StepMoves(d);
  }

  lemma FindGoesOn(d: State, k: Key)
    requires Valid(d) && Rehashing(d)
    ensures var e := Find(d, k).0;
      if d.iterators == 0 then Further(d, e) || (!Rehashing(e) && |e.t0| == |d.t1|) else e == d
  {
    StepMoves(d);
  }

  lemma DeleteGoesOn(d: State, k: Key)
    requires Valid(d) && Rehashing(d)
    ensures var e := Delete(d, k).0;
      if d.iterators == 0 then Further(d, e) || (!Rehashing(e) && |e.t0| == |d.t1|) else Stands(d, e, k)
  {
    StepMoves(d);
  }

  lemma ReplaceGoesOn(d: State, k: Key, v: Val, canResize: bool)
    requires Valid(d) && Rehashing(d)
    ensures var e := Replace(d, k, v, canResize).0;
      if d.iterators == 0 then Further(d, e) || Over(d, e) else Stands(d, e, k)
  {
    AddGoesOn(d, k, v, canResize);
    var (d1, added) := Add(d, k, v, canResize);
    if !added {
      FoundGoesOn(d, d1, k, v);
    }
  }

  /** The second half of a Replace that finds the key. */
  lemma FoundGoesOn(d: State, d1: State, k: Key, v: Val)
    requires Valid(d) && Rehashing(d) && Valid(d1) && d1.iterators == d.iterators
    requires if d.iterators == 0 then Further(d, d1) || Over(d, d1) else d1 == d
    ensures var e := SetVal(Find(d1, k).0, k, v);
      if d.iterators == 0 then Further(d, e) || Over(d, e) else Stands(d, e, k)
  {
    if Rehashing(d1) {
      FindGoesOn(d1, k);
    }
    ValKeepsShape(Find(d1, k).0, k, v);
  }

  lemma ValKeepsShape(d: State, k: Key, v: Val)
    ensures var e := SetVal(d, k, v);
      && e.rehashidx == d.rehashidx && |e.t0| == |d.t0| && |e.t1| == |d.t1|
      && (|d.t0| > 0 && |d.t1| > 0 ==> Stands(d, e, k))
  {}

  /** Every look-up and update takes a rehash on by a bucket at least, or ends it, unless an iterator
      is registered; then nothing is moved. */
  lemma CallGoesOn(d: State, op: Op)
    requires Valid(d) && Rehashing(d) && Keyed(op)
    ensures var e := Exec(d, op).0;
      if d.iterators == 0 then Further(d, e) || Over(d, e) else Stands(d, e, op.k)
  {
    match op
    case OpAdd(k, v, can) => AddGoesOn(d, k, v, can);
    case OpReplace(k, v, can) => ReplaceGoesOn(d, k, v, can);
    case OpFind(k) => FindGoesOn(d, k);
    case OpDelete(k) => DeleteGoesOn(d, k);
  }

  /** At most `n` chains were moved from `d` to `e`, and at most ten times as many empty buckets passed. */
  ghost predicate FewMoved(d: State, e: State, n: nat) {
    0 <= d.rehashidx <= |d.t0| &&
    if Further(d, e)
    then e.rehashidx <= |d.t0| && var filled := Filled(d.t0, d.rehashidx, e.rehashidx);
         filled <= n && e.rehashidx - d.rehashidx <= filled + n * 10
    else Filled(d.t0, d.rehashidx, |d.t0|) <= n
  }

  lemma StepIsSmall(d: State)
    requires Valid(d) && Rehashing(d) && d.iterators == 0
    ensures var r := RehashStep(d);
      && FewMoved(d, r, 1) && (Further(d, r) || (!Rehashing(r) && |r.t0| == |d.t1|))
      && (Rehashing(r) ==> forall m :: r.rehashidx <= m < |d.t0| ==> r.t0[m] == d.t0[m])
  {
    StepMoves(d);
    RehashIsIncremental(d, 1);
  }

  /** Another state with the same rehash. */
  lemma SameMoved(d: State, r: State, e: State, n: nat)
    requires FewMoved(d, r, n) && (Further(d, r) <==> Further(d, e)) && (Further(d, r) ==> e.rehashidx == r.rehashidx)
    ensures FewMoved(d, e, n)
  {}

  lemma MovedTwice(d: State, d1: State, e: State)
    requires FewMoved(d, d1, 1)
    requires Further(d, d1) ==> FewMoved(d1, e, 1) && forall m :: d1.rehashidx <= m < |d.t0| ==> d1.t0[m] == d.t0[m]
    requires Further(d, e) ==> Further(d, d1) && Further(d1, e)
    ensures FewMoved(d, e, 2)
  {
    if Further(d, d1) {
      var to := if Further(d, e) then e.rehashidx else |d.t0|;
      FilledSplit(d.t0, d.rehashidx, d1.rehashidx, to);
      FilledSame(d.t0, d1.t0, d1.rehashidx, to);
    }
  }

  lemma AddIsSmall(d: State, k: Key, v: Val, canResize: bool)
    requires Valid(d) && Rehashing(d) && d.iterators == 0
    ensures var e := Add(d, k, v, canResize).0;
      && FewMoved(d, e, 1) && (Further(d, e) || Over(d, e))
      && (Further(d, e) ==> forall m :: e.rehashidx <= m < |d.t0| ==> e.t0[m] == d.t0[m])
  {
    var r, e := RehashStep(d), Add(d, k, v, canResize).0;
    StepIsSmall(d);
    if Further(d, r) {
      assert e.t0 == r.t0 && e.rehashidx == r.rehashidx && |e.t1| == |r.t1|;
    } else {
      assert |e.t0| == |d.t1|;
    }
    SameMoved(d, r, e, 1);
  }

  lemma ReplaceIsSmall(d: State, k: Key, v: Val, canResize: bool)
    requires Valid(d) && Rehashing(d) && d.iterators == 0
    ensures FewMoved(d, Replace(d, k, v, canResize).0, 2)
  {
    var (d1, added) := Add(d, k, v, canResize);
    AddIsSmall(d, k, v, canResize);
    if added {
      MoreAllowed(d, d1);
    } else {
      var d2 := Find(d1, k).0;
      FindAfter(d, d1, d2, k);
      ValKeepsShape(d2, k, v);
      SameMoved(d, d2, SetVal(d2, k, v), 2);
    }
  }

  lemma MoreAllowed(d: State, e: State)
    requires FewMoved(d, e, 1)
    ensures FewMoved(d, e, 2)
  {}

  lemma FindAfter(d: State, d1: State, d2: State, k: Key)
    requires Valid(d) && Rehashing(d) && Valid(d1) && d1.iterators == 0 && d2 == Find(d1, k).0
    requires FewMoved(d, d1, 1) && (Further(d, d1) || Over(d, d1))
    requires Further(d, d1) ==> forall m :: d1.rehashidx <= m < |d.t0| ==> d1.t0[m] == d.t0[m]
    ensures FewMoved(d, d2, 2)
  {
    if Rehashing(d1) {
      StepIsSmall(d1);
    }
    MovedTwice(d, d1, d2);
  }

  lemma DeleteIsSmall(d: State, k: Key)
    requires Valid(d) && Rehashing(d) && d.iterators == 0
    ensures FewMoved(d, Delete(d, k).0, 1)
  {
    StepIsSmall(d);
    SameMoved(d, RehashStep(d), Delete(d, k).0, 1);
  }

  /** A look-up or update does no more than its share of a rehash: one chain is moved, or two by the
      two look-ups of a Replace that finds its key. */
  lemma CallIsSmall(d: State, op: Op)
    requires Valid(d) && Rehashing(d) && Keyed(op) && d.iterators == 0
    ensures FewMoved(d, Exec(d, op).0, if op.OpReplace? then 2 else 1)
  {
    match op
    case OpAdd(k, v, can) => AddIsSmall(d, k, v, can);
    case OpReplace(k, v, can) => ReplaceIsSmall(d, k, v, can);
    case OpFind(k) => StepIsSmall(d);
    case OpDelete(k) => DeleteIsSmall(d, k);
  }

  /** Look-ups and updates, one after the other. */
  ghost predicate Calls(ops: seq<Op>, states: seq<State>) {
    && |states| == |ops| + 1 && Valid(states[0])
    && forall i :: 0 <= i < |ops| ==>
         Keyed(ops[i]) && Valid(states[i]) && Exec(states[i], ops[i]).0 == states[i + 1]
  }

  /** Iterators are counted: nothing else registers or releases one. */
  lemma IteratorsCounted(d: State, op: Op)
    requires Valid(d) && Allowed(d, op)
    ensures Exec(d, op).0.iterators ==
            if op.OpIteratorStart? then d.iterators + 1
            else if op.OpIteratorRelease? then d.iterators - 1
            else if op.OpEmpty? then 0 else d.iterators
  {
    if Keyed(op) {
      KeyedKeepsIterators(d, op);
    }
  }

  lemma KeyedKeepsIterators(d: State, op: Op)
    requires Valid(d) && Keyed(op)
    ensures Exec(d, op).0.iterators == d.iterators
  {
    if op.OpReplace? && !Add(d, op.k, op.v, op.canResize).1 {
      var d1 := Add(d, op.k, op.v, op.canResize).0;
      assert Find(d1, op.k).0.iterators == d.iterators;
    }
  }

  /** While no iterator is registered a rehash is over after at most as many look-ups and updates, of
      whatever keys, as the old table has buckets left. */
  lemma {:induction false} CallsEndRehash(ops: seq<Op>, states: seq<State>)
    requires Calls(ops, states) && Rehashing(states[0]) && states[0].iterators == 0
    requires |ops| >= |states[0].t0| - states[0].rehashidx
    ensures exists i :: 0 < i <= |ops| && Over(states[0], states[i])
  {
    CallGoesOn(states[0], ops[0]);
    assert states[0 + 1] == Exec(states[0], ops[0]).0;
    KeyedKeepsIterators(states[0], ops[0]);
    if !Over(states[0], states[1]) {
      CallsEndRehash(ops[1..], states[1..]);
      var i :| 0 < i <= |ops[1..]| && Over(states[1..][0], states[1..][i]);
      assert states[1..][i] == states[i + 1];
    }
  }
}
