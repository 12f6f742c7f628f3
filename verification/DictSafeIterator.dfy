/** The safe iterator in place: dictNext as a loop over its fields. */
module DictSafeIterator {
  import opened Options
  import opened Dict
  import opened DictIterator
  import opened DictTables

  /** A saved pointer into the chain leads to the entry at position `j`. */
  lemma NextOfSaved(s: State, it: Iter, c: Chain, j: nat)
    requires Valid(s) && Points(s, it) && it.returned && it.next.Some? && it.index < |HashTable(s, it.table)|
    requires c == HashTable(s, it.table)[it.index] && j < |c| && From(c, it.next.value) == c[j..]
    ensures Next(s, it) == (s, it.(next := if j + 1 < |c| then Some(c[j + 1].addr) else None), Some(c[j]))
  {
    assert c[j..][0] == c[j];
    if j + 1 < |c| {
      assert c[j..][1] == c[j + 1];
    }
  }

  lemma NextSought(s: State, it: Iter, s1: State, index: nat)
    requires Valid(s) && Points(s, it) && !(it.returned && it.next.Some?) && index == it.index + 1
    requires s1 == if it.index == -1 && it.table == 0 then s.(iterators := s.iterators + 1) else s
    ensures Valid(s1)
    ensures Next(s, it) == (s1, FromBucket(s1, it.table, index).0, FromBucket(s1, it.table, index).1)
  {}

  class SafeIterator {
    const d: DictTables
    var table: nat
    var index: int
    var returned: bool
    var next: Option<nat>

    ghost function It(): Iter
      reads this
    {
      Iter(table, index, returned, next)
    }

    /** dictGetSafeIterator. */
    constructor (dict: DictTables)
      ensures d == dict && It() == NEW_ITERATOR
    {
      d := dict;
      table, index, returned, next := 0, -1, false, None;
    }

    /** The chain at a bucket of one of the two tables. */
    method ChainAt(t: nat, i: nat) returns (c: Chain)
      requires t <= 1 && i < |HashTable(d.State(), t)|
      ensures c == HashTable(d.State(), t)[i]
    {
      if t == 0 {
        c := d.t0[i];
      } else {
        c := d.t1[i];
      }
    }

    /** dictNext. */
    method Next() returns (e: Option<Entry>)
      requires d.Ok() && Points(d.State(), It())
      modifies this, d`iterators
      ensures (d.State(), It(), e) == DictIterator.Next(old(d.State()), old(It()))
    {
      if returned && next.Some? {
        var c := ChainAt(table, index);
        var j := Deref(c, next.value);
        NextOfSaved(d.State(), It(), c, j);
        e := Some(c[j]);
        next := if j + 1 < |c| then Some(c[j + 1].addr) else None;
        return;
      }
      ghost var s, it := d.State(), It();
      if index == -1 && table == 0 {
        d.iterators := d.iterators + 1;
      }
      NextSought(s, it, d.State(), index + 1);
      returned, next, index := false, None, index + 1;
      e := SeekEntry();
    }

    /** The turns of the loop of dictNext that look for the next non-empty bucket. */
    method SeekEntry() returns (e: Option<Entry>)
      requires d.Ok() && table <= 1 && index >= 0 && !returned && next == None
      modifies this
      ensures (It(), e) == FromBucket(d.State(), old(table), old(index))
    {
      ghost var s := d.State();
      while true
        invariant table <= 1 && index >= 0 && !returned && next == None
        invariant FromBucket(s, table, index) == FromBucket(s, old(table), old(index))
        decreases 1 - table, |HashTable(s, table)| - index
      {
        var size := if table == 0 then d.t0.Length else d.t1.Length;
        if index >= size {
          if d.rehashidx != -1 && table == 0 {
            table, index := 1, 0;
          } else {
            return None;
          }
        } else {
          var c := ChainAt(table, index);
          if c != [] {
            returned, next := true, if |c| > 1 then Some(c[1].addr) else None;
            return Some(c[0]);
          }
          index := index + 1;
        }
      }
    }

    /** The entry that a saved pointer into the chain points to. */
    method Deref(c: Chain, a: nat) returns (j: nat)
      requires HasAddr(c, a)
      ensures j < |c| && From(c, a) == c[j..]
    {
      j := 0;
      while c[j].addr != a
        invariant j < |c| && From(c, a) == From(c[j..], a)
        invariant forall i :: 0 <= i < j ==> c[i].addr != a
        decreases |c| - j
      {
        assert c[j..][1..] == c[j + 1..];
        j := j + 1;
      }
    }
  }
}
