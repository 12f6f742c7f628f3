/** Safe iterators: what dictNext returns while the caller goes on using the dictionary. */
module DictIterator {
  import opened Options
  import opened Dict

  /** `returned` tells that the current entry pointer is not NULL; `next` is the saved
      pointer to the entry after it. */
  datatype Iter = Iter(table: nat, index: int, returned: bool, next: Option<nat>)

  const NEW_ITERATOR := Iter(0, -1, false, None)

  function HashTable(d: State, table: nat): Table {
    if table == 0 then d.t0 else d.t1
  }

  /** The part of a chain from the entry at address `a` on. */
  function From(c: Chain, a: nat): Chain {
    if c == [] then [] else if c[0].addr == a then c else From(c[1..], a)
  }

  /** The pointer after the head of a chain. */
  function Second(c: Chain): Option<nat> {
    if |c| > 1 then Some(c[1].addr) else None
  }

  predicate HasAddr(c: Chain, a: nat) {
    exists i :: 0 <= i < |c| && c[i].addr == a
  }

  /** The saved pointer points into the bucket where the iterator stands. */
  predicate Points(d: State, it: Iter) {
    && it.table <= 1 && it.index >= -1
    && (it.returned && it.next.Some? ==>
          0 <= it.index < |HashTable(d, it.table)| && HasAddr(HashTable(d, it.table)[it.index], it.next.value))
  }

  /** The loop of dictNext over buckets. */
  function FromBucket(d: State, table: nat, index: nat): (r: (Iter, Option<Entry>))
    requires Valid(d) && table <= 1
    decreases 1 - table, |HashTable(d, table)| - index
  {
    if index >= |HashTable(d, table)| then
      if Rehashing(d) && table == 0 then FromBucket(d, 1, 0) else (Iter(table, index, false, None), None)
    else
      var c := HashTable(d, table)[index];
      if c == [] then FromBucket(d, table, index + 1) else (Iter(table, index, true, Second(c)), Some(c[0]))
  }

  lemma {:induction false} FromHas(c: Chain, a: nat)
    requires HasAddr(c, a)
    ensures From(c, a) != [] && From(c, a)[0].addr == a
  {
    if c[0].addr != a {
      var i :| 0 <= i < |c| && c[i].addr == a;
      assert c[1..][i - 1].addr == a;
      FromHas(c[1..], a);
    }
  }

  /** dictNext: the first call also registers the iterator. */
  function Next(d: State, it: Iter): (r: (State, Iter, Option<Entry>))
    requires Valid(d) && Points(d, it)
  {
    var d1 := if it.index == -1 && it.table == 0 then d.(iterators := d.iterators + 1) else d;
    if it.returned && it.next.Some? then
      FromHas(HashTable(d, it.table)[it.index], it.next.value);
      var rest := From(HashTable(d, it.table)[it.index], it.next.value);
      (d1, it.(next := Second(rest)), Some(rest[0]))
    else
      var (it1, e) := FromBucket(d1, it.table, it.index + 1);
      (d1, it1, e)
  }

  // ----- entries by address -------------------------------------------------------------

  /** The entry allocated at address `a` is in the dictionary. */
  ghost predicate Present(d: State, a: nat) {
    a < |d.log| && Lookup(d, d.log[a]).Some? && Lookup(d, d.log[a]).value.addr == a
  }

  /** The entry at address `a` lies ahead of the iterator. */
  ghost predicate Ahead(d: State, it: Iter, a: nat)
    requires a < |d.log|
  {
    var k := d.log[a];
    if TableFind(d.t0, k).Some? then it.table == 0 && AheadIn(d.t0, it, k, a)
    else it.table == 0 || (|d.t1| > 0 && AheadIn(d.t1, it, k, a))
  }

  ghost predicate AheadIn(t: Table, it: Iter, k: Key, a: nat)
    requires |t| > 0
  {
    var b := Bucket(k, t);
    b > it.index || (b == it.index && it.returned && it.next.Some? && HasAddr(From(t[b], it.next.value), a))
  }

  ghost predicate Pending(d: State, it: Iter, a: nat) {
    Present(d, a) && Ahead(d, it, a)
  }

  lemma {:induction false} KeyInChain(c: Chain, j: nat, i: nat, size: nat, log: seq<Key>)
    requires size > 0 && ChainOk(c, i, size, log) && j < |c|
    ensures ChainFind(c, c[j].key) == Some(c[j]) && c[j].addr < |log| && log[c[j].addr] == c[j].key
    ensures HASH_FUNCTION(c[j].key) % size == i
  {
    MemberFound(c, c[j], i, size, log);
    FoundInOk(c, c[j].key, i, size, log);
  }

  /** Entries of one chain have different addresses. */
  lemma AddrsDiffer(c: Chain, j: nat, l: nat, i: nat, size: nat, log: seq<Key>)
    requires size > 0 && ChainOk(c, i, size, log) && j < l < |c|
    ensures c[j].addr != c[l].addr
  {
    KeyInChain(c, j, i, size, log);
    KeyInChain(c, l, i, size, log);
    if c[j].key == c[l].key {
      DistinctKeys(c, j, l, i, size, log);
    }
  }

  lemma {:induction false} DistinctKeys(c: Chain, j: nat, l: nat, i: nat, size: nat, log: seq<Key>)
    requires size > 0 && ChainOk(c, i, size, log) && j < l < |c|
    ensures c[j].key != c[l].key
  {
    if j == 0 {
      KeyInChain(c[1..], l - 1, i, size, log);
    } else {
      DistinctKeys(c[1..], j - 1, l - 1, i, size, log);
    }
  }

  /** The suffix of a chain that starts at position `j`. */
  lemma {:induction false} FromAt(c: Chain, j: nat, i: nat, size: nat, log: seq<Key>)
    requires size > 0 && ChainOk(c, i, size, log) && j < |c|
    ensures From(c, c[j].addr) == c[j..]
  {
    if j > 0 {
      AddrsDiffer(c, 0, j, i, size, log);
      FromAt(c[1..], j - 1, i, size, log);
    }
  }

  lemma FromTail(c: Chain, a: nat, i: nat, size: nat, log: seq<Key>)
    requires size > 0 && ChainOk(c, i, size, log) && HasAddr(c, a)
    ensures var r := From(c, a);
      && r != [] && r[0].addr == a && r[0] in c
      && !HasAddr(r[1..], a)
      && (|r| > 1 ==> HasAddr(c, r[1].addr) && From(c, r[1].addr) == r[1..])
  {
    var j :| 0 <= j < |c| && c[j].addr == a;
    FromAt(c, j, i, size, log);
    var r := c[j..];
    forall l | 0 <= l < |r[1..]| ensures r[1..][l].addr != a {
      AddrsDiffer(c, j, j + 1 + l, i, size, log);
    }
    if |r| > 1 {
      FromAt(c, j + 1, i, size, log);
      assert r[1] == c[j + 1] && r[1..] == c[j + 1..];
    }
  }

  /** A present entry sits in the bucket of its key. */
  lemma EntryOf(t: Table, k: Key, log: seq<Key>)
    requires TableOk(t, log) && TableFind(t, k).Some?
    ensures HasAddr(t[Bucket(k, t)], TableFind(t, k).value.addr)
  {
    var j := FoundIsKey(t[Bucket(k, t)], k);
    KeyInChain(t[Bucket(k, t)], j, Bucket(k, t), |t|, log);
  }

  /** An entry in a bucket is present. */
  lemma InBucketPresent(d: State, table: nat, b: nat, e: Entry)
    requires Valid(d) && table <= 1 && b < |HashTable(d, table)| && e in HashTable(d, table)[b]
    ensures Present(d, e.addr) && d.log[e.addr] == e.key && Lookup(d, e.key) == Some(e)
    ensures TableFind(HashTable(d, table), e.key) == Some(e) && Bucket(e.key, HashTable(d, table)) == b
    ensures TableFind(d.t0, e.key).Some? <==> table == 0
  {
    var t := HashTable(d, table);
    var j :| 0 <= j < |t[b]| && t[b][j] == e;
    KeyInChain(t[b], j, b, |t|, d.log);
  }

  /** The iterator as it stands before bucket `index`. */
  function Before(table: nat, index: nat): Iter {
    Iter(table, index - 1, false, None)
  }

  /** What a call of dictNext may return: `e` was ahead and nothing else is passed over. */
  ghost predicate Returns(d: State, before: Iter, after: Iter, e: Option<Entry>) {
    if e.Some? then
      && Pending(d, before, e.value.addr) && Lookup(d, e.value.key) == e
      && forall a :: Pending(d, after, a) <==> Pending(d, before, a) && a != e.value.addr
    else
      forall a :: !Pending(d, after, a) && !Pending(d, before, a)
  }

  lemma {:induction false} FromBucketReturns(d: State, table: nat, index: nat)
    requires Valid(d) && table <= 1
    ensures var (it, e) := FromBucket(d, table, index);
      Points(d, it) && Returns(d, Before(table, index), it, e)
    decreases 1 - table, |HashTable(d, table)| - index
  {
    var t := HashTable(d, table);
    var before := Before(table, index);
    if index >= |t| {
      if Rehashing(d) && table == 0 {
        FromBucketReturns(d, 1, 0);
        assert forall a :: Pending(d, before, a) <==> Pending(d, Before(1, 0), a);
      }
    } else if t[index] == [] {
      FromBucketReturns(d, table, index + 1);
      assert forall a :: Pending(d, before, a) <==> Pending(d, Before(table, index + 1), a);
    } else {
      HeadReturned(d, table, index);
    }
  }

  lemma HeadReturned(d: State, table: nat, index: nat)
    requires Valid(d) && table <= 1 && index < |HashTable(d, table)| && HashTable(d, table)[index] != []
    ensures var c := HashTable(d, table)[index];
      && Points(d, Iter(table, index, true, Second(c)))
      && Returns(d, Before(table, index), Iter(table, index, true, Second(c)), Some(c[0]))
  {
    var t := HashTable(d, table);
    var c := t[index];
    var before, after := Before(table, index), Iter(table, index, true, Second(c));
    InBucketPresent(d, table, index, c[0]);
    FromAt(c, 0, index, |t|, d.log);
    FromTail(c, c[0].addr, index, |t|, d.log);
    forall a | Present(d, a) ensures Ahead(d, after, a) <==> Ahead(d, before, a) && a != c[0].addr {
      AheadAfterHead(d, table, index, c, a);
    }
  }

  /** The addresses after `x` in its chain. */
  lemma AfterNext(c: Chain, x: nat, a: nat, i: nat, size: nat, log: seq<Key>)
    requires size > 0 && ChainOk(c, i, size, log) && HasAddr(c, x)
    ensures var next := Second(From(c, x));
      (next.Some? && HasAddr(From(c, next.value), a)) <==> HasAddr(From(c, x), a) && a != x
  {
    FromTail(c, x, i, size, log);
    var r := From(c, x);
    if HasAddr(r, a) && a != x {
      var j :| 0 <= j < |r| && r[j].addr == a;
      assert r[1..][j - 1].addr == a;
    }
    if |r| > 1 && HasAddr(r[1..], a) {
      var j :| 0 <= j < |r[1..]| && r[1..][j].addr == a;
      assert r[j + 1].addr == a;
    }
  }

  lemma AheadAfterHead(d: State, table: nat, index: nat, c: Chain, a: nat)
    requires Valid(d) && table <= 1 && index < |HashTable(d, table)| && Present(d, a)
    requires c == HashTable(d, table)[index] && c != []
    ensures Ahead(d, Iter(table, index, true, Second(c)), a) <==> Ahead(d, Before(table, index), a) && a != c[0].addr
  {
    var t, k := HashTable(d, table), d.log[a];
    InBucketPresent(d, table, index, c[0]);
    FromAt(c, 0, index, |t|, d.log);
    AfterNext(c, c[0].addr, a, index, |t|, d.log);
    if TableFind(t, k).Some? && Bucket(k, t) == index {
      EntryOf(t, k, d.log);
      assert HasAddr(c, a);
    }
  }

  /** The entry that the saved pointer points to is returned. */
  lemma SavedReturned(d: State, it: Iter, c: Chain, x: nat)
    requires Valid(d) && Points(d, it) && it.returned && it.next == Some(x)
    requires it.index < |HashTable(d, it.table)| && c == HashTable(d, it.table)[it.index]
    ensures From(c, x) != [] && Points(d, it.(next := Second(From(c, x))))
    ensures Returns(d, it, it.(next := Second(From(c, x))), Some(From(c, x)[0]))
  {
    var t, r := HashTable(d, it.table), From(c, x);
    FromTail(c, x, it.index, |t|, d.log);
    InBucketPresent(d, it.table, it.index, r[0]);
    forall a | Present(d, a)
      ensures Ahead(d, it.(next := Second(r)), a) <==> Ahead(d, it, a) && a != x
    {
      AfterNext(c, x, a, it.index, |t|, d.log);
    }
    AfterNext(c, x, x, it.index, |t|, d.log);
  }

  lemma SameAhead(d: State, it: Iter, before: Iter)
    requires !(it.returned && it.next.Some?) && it.index >= -1 && before == Before(it.table, it.index + 1)
    ensures forall a :: Pending(d, it, a) <==> Pending(d, before, a)
  {}

  lemma SoughtReturned(d: State, it: Iter)
    requires Valid(d) && Points(d, it) && !(it.returned && it.next.Some?)
    ensures var (it1, e) := FromBucket(d, it.table, it.index + 1);
      Points(d, it1) && Returns(d, it, it1, e)
  {
    FromBucketReturns(d, it.table, it.index + 1);
    SameAhead(d, it, Before(it.table, it.index + 1));
  }

  /** dictNext returns an entry that was ahead, if there is one, and from then on exactly
      the others are ahead. */
  lemma NextReturns(d: State, it: Iter)
    requires Valid(d) && Points(d, it)
    ensures var (d1, it1, e) := Next(d, it);
      Points(d1, it1) && Returns(d1, it, it1, e)
  {
    var d1 := if it.index == -1 && it.table == 0 then d.(iterators := d.iterators + 1) else d;
    if it.returned && it.next.Some? {
      SavedReturned(d1, it, HashTable(d1, it.table)[it.index], it.next.value);
    } else {
      SoughtReturned(d1, it);
    }
  }
}
