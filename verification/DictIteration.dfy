/** A whole iteration: the caller mixes dictNext with look-ups, additions, replacements and
    deletions of entries it has been given. */
module DictIteration {
  import opened Options
  import opened Dict
  import opened DictIterator

  // ----- what the other operations leave ahead -------------------------------------------

  /** The iterator is still well placed and the entries that were there before are ahead of
      it exactly when they were. */
  ghost predicate KeepsAhead(d: State, d': State, it: Iter) {
    && Points(d', it) && d.log <= d'.log
    && forall a: nat :: a < |d.log| ==> (Pending(d', it, a) <==> Pending(d, it, a))
  }

  lemma ExpandKeeps(d: State, it: Iter, canResize: bool)
    requires Valid(d) && Points(d, it)
    ensures KeepsAhead(d, ExpandIfNeeded(d, canResize).0, it)
  {
    var d' := ExpandIfNeeded(d, canResize).0;
    if Rehashing(d) {
    } else {
      forall a: nat ensures Pending(d', it, a) <==> Pending(d, it, a) {
        if Present(d, a) {
          assert TableFind(d.t0, d.log[a]).Some? && d'.t0 == d.t0;
        }
      }
    }
  }

  lemma PushAhead(t: Table, e: Entry, it: Iter, k: Key, a: nat)
    requires |t| > 0 && a != e.addr && it.next != Some(e.addr)
    ensures AheadIn(Push(t, e), it, k, a) <==> AheadIn(t, it, k, a)
  {
    var i := Bucket(e.key, t);
    assert ([e] + t[i])[1..] == t[i];
  }

  lemma PushPoints(c: Chain, e: Entry, x: nat)
    requires HasAddr(c, x)
    ensures HasAddr([e] + c, x)
  {
    var i :| 0 <= i < |c| && c[i].addr == x;
    assert ([e] + c)[i + 1].addr == x;
  }

  /** Saved pointers point to allocated entries. */
  lemma NextAllocated(d: State, it: Iter)
    requires Valid(d) && Points(d, it) && it.returned && it.next.Some?
    ensures it.next.value < |d.log|
  {
    var t: Table := HashTable(d, it.table);
    var i: nat :| i < |t[it.index]| && t[it.index][i].addr == it.next.value;
    KeyInChain(t[it.index], i, it.index, |t|, d.log);
  }

  lemma InsertKeeps(d: State, it: Iter, k: Key, v: Val)
    requires Valid(d) && Points(d, it) && |d.t0| > 0 && Lookup(d, k).None?
    ensures KeepsAhead(d, Insert(d, k, v), it)
  {
    InsertOk(d, k, v);
    var d' := Insert(d, k, v);
    var e := Entry(|d.log|, k, v);
    var it' := if it.returned then it else it.(next := None);
    if it.returned && it.next.Some? {
      NextAllocated(d, it);
      PushPoints(HashTable(d, it.table)[it.index], e, it.next.value);
    }
    forall a: nat | a < |d.log| ensures Pending(d', it, a) <==> Pending(d, it, a) {
      assert d'.log[a] == d.log[a];
      if Present(d, a) {
        PushAhead(Target(d), e, it', d.log[a], a);
      }
    }
  }

  /** dictAdd, even when it starts a rehash. */
  lemma AddKeeps(d: State, it: Iter, k: Key, v: Val, canResize: bool)
    requires Valid(d) && Points(d, it) && d.iterators > 0
    ensures KeepsAhead(d, Add(d, k, v, canResize).0, it)
  {
    var d1 := ExpandIfNeeded(d, canResize).0;
    ExpandKeeps(d, it, canResize);
    if Lookup(d1, k).None? {
      InsertKeeps(d1, it, k, v);
    }
  }

  lemma {:induction false} SetAddrs(c: Chain, k: Key, v: Val, x: nat, a: nat)
    ensures HasAddr(ChainSet(c, k, v), a) <==> HasAddr(c, a)
    ensures HasAddr(From(ChainSet(c, k, v), x), a) <==> HasAddr(From(c, x), a)
  {
    SetSame(c, k, v);
    SameAddrs(c, ChainSet(c, k, v), a);
    SameFrom(c, ChainSet(c, k, v), x);
    SameAddrs(From(c, x), From(ChainSet(c, k, v), x), a);
  }

  ghost predicate Aligned(c: Chain, b: Chain) {
    |c| == |b| && forall j :: 0 <= j < |c| ==> c[j].addr == b[j].addr
  }

  lemma SameAddrs(c: Chain, b: Chain, a: nat)
    requires Aligned(c, b)
    ensures HasAddr(c, a) <==> HasAddr(b, a)
  {}

  lemma {:induction false} SetSame(c: Chain, k: Key, v: Val)
    ensures Aligned(c, ChainSet(c, k, v))
  {
    if c != [] && c[0].key != k {
      SetSame(c[1..], k, v);
    }
  }

  lemma {:induction false} SameFrom(c: Chain, b: Chain, x: nat)
    requires Aligned(c, b)
    ensures Aligned(From(c, x), From(b, x))
  {
    if c != [] && c[0].addr != x {
      SameFrom(c[1..], b[1..], x);
    }
  }

  lemma SetValKeeps(d: State, it: Iter, k: Key, v: Val)
    requires Valid(d) && Points(d, it) && Lookup(d, k).Some?
    ensures KeepsAhead(d, SetVal(d, k, v), it)
  {
    SetValOk(d, k, v);
    var d' := SetVal(d, k, v);
    var table := if TableFind(d.t0, k).Some? then 0 else 1;
    var i := Bucket(k, HashTable(d, table));
    var c := HashTable(d, table)[i];
    var x := if it.next.Some? then it.next.value else 0;
    SetAddrs(c, k, v, x, x);
    forall a: nat | a < |d.log| ensures Pending(d', it, a) <==> Pending(d, it, a) {
      SetAddrs(c, k, v, x, a);
      SameTables(d, k, v, a);
    }
  }

  lemma SameTables(d: State, k: Key, v: Val, a: nat)
    requires Valid(d) && Lookup(d, k).Some? && a < |d.log|
    ensures var d' := SetVal(d, k, v);
      && Present(d', a) == Present(d, a)
      && TableFind(d'.t0, d.log[a]).Some? == TableFind(d.t0, d.log[a]).Some?
      && |d'.t0| == |d.t0| && |d'.t1| == |d.t1|
  {
    SetValOk(d, k, v);
    if TableFind(d.t0, k).Some? {
      TableSetOk(d.t0, k, v, d.log);
    }
  }

  /** dictReplace. */
  lemma ReplaceKeeps(d: State, it: Iter, k: Key, v: Val, canResize: bool)
    requires Valid(d) && Points(d, it) && d.iterators > 0
    ensures KeepsAhead(d, Replace(d, k, v, canResize).0, it)
  {
    var d1 := Add(d, k, v, canResize).0;
    AddKeeps(d, it, k, v, canResize);
    if Lookup(d, k).Some? {
      SetValKeeps(d1, it, k, v);
    }
  }

  lemma {:induction false} FoundHasAddr(c: Chain, k: Key)
    requires ChainFind(c, k).Some?
    ensures HasAddr(c, ChainFind(c, k).value.addr)
  {
    if c[0].key != k {
      FoundHasAddr(c[1..], k);
      PushPoints(c[1..], c[0], ChainFind(c, k).value.addr);
      assert [c[0]] + c[1..] == c;
    }
  }

  /** Unlinking an entry that is not in a suffix leaves the suffix. */
  lemma {:induction false} RemoveFrom(c: Chain, k: Key, x: nat)
    requires ChainFind(c, k).Some? && HasAddr(c, x) && !HasAddr(From(c, x), ChainFind(c, k).value.addr)
    ensures From(ChainRemove(c, k), x) == From(c, x) && HasAddr(ChainRemove(c, k), x)
  {
    FoundHasAddr(c, k);
    var i :| 0 <= i < |c| && c[i].addr == x;
    assert i > 0 && c[1..][i - 1].addr == x;
    if c[0].key != k {
      RemoveFrom(c[1..], k, x);
      PushPoints(ChainRemove(c[1..], k), c[0], x);
    }
  }

  /** The table without the entry of `k`. */
  function Without(t: Table, k: Key): Table
    requires |t| > 0
  {
    t[Bucket(k, t) := ChainRemove(t[Bucket(k, t)], k)]
  }

  lemma RemoveAhead(t: Table, it: Iter, k: Key, j: Key, a: nat)
    requires |t| > 0 && TableFind(t, k).Some?
    requires Bucket(k, t) == it.index && it.returned && it.next.Some? ==>
      HasAddr(t[it.index], it.next.value) && !HasAddr(From(t[it.index], it.next.value), TableFind(t, k).value.addr)
    ensures AheadIn(Without(t, k), it, j, a) <==> AheadIn(t, it, j, a)
  {
    if Bucket(k, t) == it.index && it.returned && it.next.Some? {
      RemoveFrom(t[it.index], k, it.next.value);
    }
  }

  lemma UnlinkPending(d: State, it: Iter, k: Key, a: nat)
    requires Valid(d) && Points(d, it) && Lookup(d, k).Some?
    requires (TableFind(d.t0, k).Some? ==> d.used0 > 0) && (TableFind(d.t1, k).Some? ==> d.used1 > 0)
    requires Present(d, Lookup(d, k).value.addr) && !Pending(d, it, Lookup(d, k).value.addr)
    requires d.log[Lookup(d, k).value.addr] == k
    requires forall j :: Lookup(Unlink(d, k), j) == if j == k then None else Lookup(d, j)
    ensures Pending(Unlink(d, k), it, a) <==> Pending(d, it, a)
  {
    if Present(d, a) && d.log[a] != k {
      var j := d.log[a];
      if TableFind(d.t0, k).Some? {
        TableRemoveOk(d.t0, k, d.log);
        if it.table == 0 {
          RemoveAhead(d.t0, it, k, j, a);
        }
      } else {
        TableRemoveOk(d.t1, k, d.log);
        if it.table == 1 {
          RemoveAhead(d.t1, it, k, j, a);
        }
      }
    }
  }

  lemma UnlinkPoints(d: State, it: Iter, k: Key)
    requires Valid(d) && Points(d, it)
    requires (TableFind(d.t0, k).Some? ==> d.used0 > 0) && (TableFind(d.t1, k).Some? ==> d.used1 > 0)
    requires Lookup(d, k).Some? && Present(d, Lookup(d, k).value.addr) && d.log[Lookup(d, k).value.addr] == k
    requires !Pending(d, it, Lookup(d, k).value.addr)
    ensures Points(Unlink(d, k), it)
  {
    if it.returned && it.next.Some? {
      var t: Table := HashTable(d, it.table);
      if TableFind(t, k).Some? && TableFind(t, k) == Lookup(d, k) && Bucket(k, t) == it.index {
        RemoveFrom(t[it.index], k, it.next.value);
      }
    }
  }

  /** Deleting an entry that is not ahead. */
  lemma DeleteKeeps(d: State, it: Iter, k: Key)
    requires Valid(d) && Points(d, it) && d.iterators > 0
    requires Lookup(d, k).Some? && !Pending(d, it, Lookup(d, k).value.addr)
    ensures Points(Delete(d, k).0, it)
    ensures forall a :: Pending(Delete(d, k).0, it, a) <==> Pending(d, it, a)
  {
    Positive(d, k);
    UnlinkOk(d, k);
    LookupKey(d, k);
    assert Delete(d, k).0 == Unlink(d, k);
    UnlinkPoints(d, it, k);
    forall a: nat ensures Pending(Unlink(d, k), it, a) <==> Pending(d, it, a) {
      UnlinkPending(d, it, k, a);
    }
  }

  // ----- the iteration ------------------------------------------------------------------

  /** What the caller does between two calls of dictNext, and dictNext itself. */
  datatype Act =
    | ActNext
    | ActFind(k: Key)
    | ActAdd(k: Key, v: Val, canResize: bool)
    | ActReplace(k: Key, v: Val, canResize: bool)
    | ActDelete(k: Key)

  /** `seen` lists the addresses of the returned entries. */
  datatype System = System(d: State, it: Iter, seen: seq<nat>)

  /** Only entries that the iterator has returned are deleted. */
  predicate Allowed(s: System, act: Act) {
    act.ActDelete? ==> Lookup(s.d, act.k).Some? && Lookup(s.d, act.k).value.addr in s.seen
  }

  function Perform(s: System, act: Act): System
    requires Valid(s.d) && Points(s.d, s.it)
  {
    match act
    case ActNext =>
      var (d, it, e) := Next(s.d, s.it);
      System(d, it, if e.Some? then s.seen + [e.value.addr] else s.seen)
    case ActFind(k) => s.(d := Find(s.d, k).0)
    case ActAdd(k, v, can) => s.(d := Add(s.d, k, v, can).0)
    case ActReplace(k, v, can) => s.(d := Replace(s.d, k, v, can).0)
    case ActDelete(k) => s.(d := Delete(s.d, k).0)
  }

  predicate NoDuplicates(s: seq<nat>) {
    forall i, j :: 0 <= i < j < |s| ==> s[i] != s[j]
  }

  /** Every returned entry is behind the iterator, and none was returned twice. */
  ghost predicate Iterating(s: System) {
    && Valid(s.d) && Points(s.d, s.it) && NoDuplicates(s.seen)
    && forall a :: a in s.seen ==> a < |s.d.log| && !Pending(s.d, s.it, a)
  }

  /** Entries of `start` that have not been returned are still ahead. */
  ghost predicate NoneLost(start: State, s: System) {
    forall a :: Present(start, a) ==> a in s.seen || Pending(s.d, s.it, a)
  }

  lemma AppendDistinct(s: seq<nat>, a: nat)
    requires NoDuplicates(s) && a !in s
    ensures NoDuplicates(s + [a])
  {}

  /** dictNext, seen from the state before the iterator count is raised. */
  lemma NextFrom(s: System)
    requires Valid(s.d) && Points(s.d, s.it)
    ensures var (d, it, e) := Next(s.d, s.it);
      && Valid(d) && d.log == s.d.log && Points(d, it)
      && (e.Some? ==> Pending(s.d, s.it, e.value.addr) &&
                      forall a :: Pending(d, it, a) <==> Pending(s.d, s.it, a) && a != e.value.addr)
      && (e.None? ==> forall a :: !Pending(s.d, s.it, a) && !Pending(d, it, a))
  {
    NextReturns(s.d, s.it);
    SameEntries(s.d, Next(s.d, s.it).0, s.it);
  }

  /** Raising the iterator count changes no entry. */
  lemma SameEntries(d: State, d1: State, it: Iter)
    requires Valid(d) && (d1 == d || d1 == d.(iterators := d.iterators + 1))
    ensures Valid(d1) && forall a :: Pending(d1, it, a) <==> Pending(d, it, a)
  {
    assert forall k :: Lookup(d1, k) == Lookup(d, k);
  }

  /** dictNext keeps the account; when it returns None, nothing that was there at the start
      is missing. */
  lemma NextStep(start: State, s: System)
    requires Iterating(s) && NoneLost(start, s)
    ensures Iterating(Perform(s, ActNext)) && NoneLost(start, Perform(s, ActNext))
    ensures Next(s.d, s.it).2.None? ==> forall a :: Present(start, a) ==> a in s.seen
  {
    NextFrom(s);
    var (d, it, e) := Next(s.d, s.it);
    if e.Some? {
      NextSome(start, s, d, it, e.value.addr);
    }
  }

  lemma NextSome(start: State, s: System, d: State, it: Iter, x: nat)
    requires Iterating(s) && NoneLost(start, s)
    requires Valid(d) && d.log == s.d.log && Points(d, it) && Pending(s.d, s.it, x)
    requires forall a :: Pending(d, it, a) <==> Pending(s.d, s.it, a) && a != x
    ensures Iterating(System(d, it, s.seen + [x])) && NoneLost(start, System(d, it, s.seen + [x]))
  {
    AppendDistinct(s.seen, x);
  }

  lemma KeepStep(start: State, s: System, d': State)
    requires Iterating(s) && NoneLost(start, s) && Valid(d') && KeepsAhead(s.d, d', s.it)
    ensures Iterating(s.(d := d')) && NoneLost(start, s.(d := d'))
  {
    forall a | Present(start, a) ensures a in s.seen || Pending(d', s.it, a) {
      assert a in s.seen || Pending(s.d, s.it, a);
    }
  }

  lemma PerformStep(start: State, s: System, act: Act)
    requires Iterating(s) && NoneLost(start, s) && s.d.iterators > 0 && Allowed(s, act)
    ensures var s' := Perform(s, act);
      Iterating(s') && NoneLost(start, s') && s'.d.iterators > 0
  {
    match act
    case ActNext => NextStep(start, s);
    case ActFind(k) => KeepStep(start, s, Find(s.d, k).0);
    case ActAdd(k, v, can) =>
      AddKeeps(s.d, s.it, k, v, can);
      KeepStep(start, s, Add(s.d, k, v, can).0);
    case ActReplace(k, v, can) =>
      ReplaceKeeps(s.d, s.it, k, v, can);
      KeepStep(start, s, Replace(s.d, k, v, can).0);
    case ActDelete(k) =>
      DeleteKeeps(s.d, s.it, k);
      KeepStep(start, s, Delete(s.d, k).0);
  }

  /** An iteration: the first act is the first call of dictNext. */
  ghost predicate Iteration(acts: seq<Act>, states: seq<System>) {
    && |acts| > 0 && |states| == |acts| + 1 && acts[0] == ActNext
    && Valid(states[0].d) && states[0].it == NEW_ITERATOR && states[0].seen == []
    && forall i :: 0 <= i < |acts| ==>
         Valid(states[i].d) && Points(states[i].d, states[i].it) && Allowed(states[i], acts[i]) &&
         states[i + 1] == Perform(states[i], acts[i])
  }

  lemma {:induction false} IterationInvariant(acts: seq<Act>, states: seq<System>, n: nat)
    requires Iteration(acts, states) && n <= |acts|
    ensures Iterating(states[n]) && NoneLost(states[0].d, states[n]) && (n > 0 ==> states[n].d.iterators > 0)
  {
    var start := states[0].d;
    if n == 0 {
      forall a | Present(start, a) ensures Pending(start, NEW_ITERATOR, a) {
      }
    } else {
      IterationInvariant(acts, states, n - 1);
      assert states[n] == Perform(states[n - 1], acts[n - 1]);
      if n == 1 {
        NextStep(start, states[0]);
      } else {
        PerformStep(start, states[n - 1], acts[n - 1]);
      }
    }
  }

  /** While the caller looks up, adds (even starting a rehash), replaces and deletes returned
      entries, no entry is returned twice; and when dictNext ends the iteration, every entry
      that was there at its first call has been returned. */
  lemma SafeIteration(acts: seq<Act>, states: seq<System>)
    requires Iteration(acts, states)
    ensures NoDuplicates(states[|acts|].seen)
    ensures forall n :: 0 <= n < |acts| && acts[n] == ActNext && Next(states[n].d, states[n].it).2.None? ==>
              forall a :: Present(states[0].d, a) ==> a in states[n].seen
  {
    IterationInvariant(acts, states, |acts|);
    forall n | 0 <= n < |acts| && acts[n] == ActNext && Next(states[n].d, states[n].it).2.None?
      ensures forall a :: Present(states[0].d, a) ==> a in states[n].seen
    {
      IterationInvariant(acts, states, n);
      NextStep(states[0].d, states[n]);
    }
  }
}
