/** The key space of a database: values, deadlines, and in cluster mode the slot index. */
module Keyspace {
  import opened Database
  import opened Options
  import opened SlotIndex

  /** What expireIfNeeded looks at besides the database. */
  datatype Env = Env(loading: bool, slave: bool, now: int)

  predicate Expired(s: Db, k: Key, env: Env) {
    GetExpire(s, k) >= 0 && !env.loading && !env.slave && env.now > GetExpire(s, k)
  }

  /** A key has expired when its deadline has passed, but no key expires on a slave, or while loading. */
  lemma ExpiredExactly(s: Db, k: Key, env: Env)
    ensures Expired(s, k, env) <==>
            k in s.expires && 0 <= s.expires[k] < env.now && !env.loading && !env.slave
  {}

  /** After a look-up: an expired key is gone. */
  function Touched(s: Db, k: Key, env: Env): Db {
    if Expired(s, k, env) then Without(s, k) else s
  }

  /** The keys of a slot. */
  function KeysOf(dict: map<Key, Value>, slot: Slot): set<Key> {
    set k | k in dict && KEY_HASH_SLOT(k) == slot
  }

  datatype Renamed = SameObject | NoSuchKey | TargetExists | Done

  /** RENAME and RENAMENX. */
  function Rename(s: Db, src: Key, dst: Key, nx: bool, env: Env): (Db, Renamed) {
    if src == dst then (s, SameObject)
    else
      var s1 := Touched(s, src, env);
      if src !in s1.dict then (s1, NoSuchKey)
      else
        var s2 := Touched(s1, dst, env);
        if dst in s2.dict && nx then (s2, TargetExists)
        else
          var moved := Db((s2.dict - {src})[dst := s1.dict[src]], s2.expires - {src, dst});
          (if GetExpire(s1, src) == -1 then moved else ExpireAt(moved, dst, s1.expires[src]), Done)
  }

  /** A rename succeeds exactly when there is an unexpired source that is not the target, and for
      RENAMENX no unexpired target. Then the target has the value and the deadline of the source,
      which is gone. Otherwise nothing goes but what has expired; other keys are never touched. */
  lemma RenameOutcome(s: Db, src: Key, dst: Key, nx: bool, env: Env)
    ensures var (t, r) := Rename(s, src, dst, nx, env);
      && (r == Done <==> src != dst && src in s.dict && !Expired(s, src, env) &&
                         !(nx && dst in s.dict && !Expired(s, dst, env)))
      && (r == Done ==> src !in t.dict && src !in t.expires &&
                        dst in t.dict && t.dict[dst] == s.dict[src] && GetExpire(t, dst) == GetExpire(s, src))
      && (r != Done ==> forall k :: k in s.dict ==>
            if k in t.dict then t.dict[k] == s.dict[k] && GetExpire(t, k) == GetExpire(s, k) else Expired(s, k, env))
      && forall k :: k != src && k != dst ==>
           && (k in t.dict <==> k in s.dict) && (k in s.dict ==> t.dict[k] == s.dict[k])
           && GetExpire(t, k) == GetExpire(s, k)
  {}

  lemma IndexWithout(ix: seq<Element>, r: seq<Element>, keys: set<Key>, k: Key)
    requires Indexes(ix, keys) && Sorted(r) && k in keys
    requires forall d :: d in r <==> d in ix && d != (KEY_HASH_SLOT(k), k)
    ensures Indexes(r, keys - {k})
  {}

  lemma IndexWith(ix: seq<Element>, r: seq<Element>, keys: set<Key>, k: Key)
    requires Indexes(ix, keys) && Sorted(r)
    requires forall d :: d in r <==> d in ix || d == (KEY_HASH_SLOT(k), k)
    ensures Indexes(r, keys + {k})
  {}

  /** What the steps of a rename come to, from the state after both look-ups. */
  lemma RenameSteps(s2: Db, src: Key, dst: Key, o: Value, expire: int, added: Db)
    requires src != dst && added == Without(s2, dst).(dict := Without(s2, dst).dict[dst := o])
    ensures Without(added, src) == Db((s2.dict - {src})[dst := o], s2.expires - {src, dst})
    ensures Without(added.(expires := added.expires[dst := expire]), src) ==
            Db((s2.dict - {src})[dst := o], (s2.expires - {src, dst})[dst := expire])
  {
    assert Without(added, src).dict == (s2.dict - {src})[dst := o];
    assert Without(added, src).expires == s2.expires - {src, dst};
    assert added.expires[dst := expire] - {src} == (s2.expires - {src, dst})[dst := expire];
  }

  lemma WithoutMissing(s: Db, k: Key)
    requires k !in s.dict && s.expires.Keys <= s.dict.Keys
    ensures Without(s, k) == s
  {
    assert s.dict - {k} == s.dict && s.expires - {k} == s.expires;
  }

  class Keyspace {
    var dict: map<Key, Value>
    var expires: map<Key, int>
    var index: seq<Element>
    /** The keys for which propagateExpire sent a DEL. */
    var propagated: seq<Key>
    const clusterEnabled: bool

    ghost function State(): Db
      reads this
    {
      Db(dict, expires)
    }

    /** Deadlines belong to keys, and the index lists exactly the keys under their slots. */
    ghost predicate Valid()
      reads this
    {
      && expires.Keys <= dict.Keys
      && if clusterEnabled then Indexes(index, dict.Keys) else index == []
    }

    constructor (cluster: bool)
      ensures Valid() && State() == EMPTY_DB && clusterEnabled == cluster && propagated == []
    {
      dict, expires, index, propagated, clusterEnabled := map[], map[], [], [], cluster;
    }

    /** getExpire; the assertion that the key is in the main dictionary never fires. */
    method LookUpExpire(k: Key) returns (when: int)
      requires Valid()
      ensures when == GetExpire(State(), k)
    {
      if |expires| == 0 || k !in expires {
        return -1;
      }
      assert k in dict;
      return expires[k];
    }

    method SlotToKeyDel(k: Key, ghost keys: set<Key>) returns (ghost at: nat)
      requires Indexes(index, keys) && k in keys
      modifies `index
      ensures Indexes(index, keys - {k})
      ensures at < |old(index)| && old(index)[at] == (KEY_HASH_SLOT(k), k)
      ensures index == old(index)[..at] + old(index)[at + 1..]
    {
      ghost var before := index;
      index, at := Remove(index, (KEY_HASH_SLOT(k), k));
      IndexWithout(before, index, keys, k);
    }

    method SlotToKeyAdd(k: Key, ghost keys: set<Key>)
      requires Indexes(index, keys) && k !in keys
      modifies `index
      ensures Indexes(index, keys + {k})
    {
      ghost var before := index;
      assert (KEY_HASH_SLOT(k), k) !in index;
      index := Insert(index, (KEY_HASH_SLOT(k), k));
      IndexWith(before, index, keys, k);
    }

    /** dbDelete. */
    method DbDelete(k: Key) returns (deleted: bool, ghost at: nat)
      requires Valid()
      modifies `dict, `expires, `index
      ensures Valid() && State() == Without(old(State()), k) && deleted == (k in old(dict))
      ensures deleted && clusterEnabled ==> at < |old(index)| && old(index)[at] == (KEY_HASH_SLOT(k), k) &&
                                            index == old(index)[..at] + old(index)[at + 1..]
      ensures !deleted ==> index == old(index)
    {
      at := 0;
      if |expires| > 0 {
        expires := expires - {k};
      } else {
        assert expires - {k} == expires;
      }
      if k in dict {
        dict := dict - {k};
        if clusterEnabled {
          at := SlotToKeyDel(k, old(dict).Keys);
          assert dict.Keys == old(dict).Keys - {k};
        }
        return true, at;
      }
      WithoutMissing(old(State()), k);
      return false, 0;
    }

    /** expireIfNeeded; for a slave the answer alone. */
    method ExpireIfNeeded(k: Key, env: Env) returns (expired: bool)
      requires Valid()
      modifies `dict, `expires, `index, `propagated
      ensures Valid() && State() == Touched(old(State()), k, env)
      ensures propagated == old(propagated) + if Expired(old(State()), k, env) then [k] else []
      ensures expired == (GetExpire(old(State()), k) >= 0 && !env.loading && env.now > GetExpire(old(State()), k))
      ensures if k in old(expires) && 0 <= old(expires)[k] < env.now && !env.loading && !env.slave
              then Gone(State(), {k}) && OthersStay(old(State()), State(), {k}) && propagated == old(propagated) + [k]
              else State() == old(State()) && propagated == old(propagated)
    {
      var when := LookUpExpire(k);
      if when < 0 || env.loading {
        return false;
      }
      if env.slave {
        return env.now > when;
      }
      if env.now <= when {
        return false;
      }
      propagated := propagated + [k];
      ghost var at;
      expired, at := DbDelete(k);
    }

    /** lookupKeyWrite and lookupKeyRead. */
    method LookupKey(k: Key, env: Env) returns (found: bool)
      requires Valid()
      modifies `dict, `expires, `index, `propagated
      ensures Valid() && State() == Touched(old(State()), k, env)
      ensures found == (k in dict)
    {
      var _ := ExpireIfNeeded(k, env);
      found := k in dict;
    }

    /** dbAdd; the assertion that the key is new never fires if the callers see to it. */
    method DbAdd(k: Key, v: Value)
      requires Valid() && k !in dict
      modifies `dict, `index
      ensures Valid() && State() == PutValue(old(State()), k, v)
    {
      if clusterEnabled {
        SlotToKeyAdd(k, dict.Keys);
        assert dict[k := v].Keys == dict.Keys + {k};
      }
      dict := dict[k := v];
    }

    /** dbOverwrite. */
    method DbOverwrite(k: Key, v: Value)
      requires Valid() && k in dict
      modifies `dict
      ensures Valid() && State() == PutValue(old(State()), k, v)
    {
      dict := dict[k := v];
      assert dict.Keys == old(dict).Keys;
    }

    /** removeExpire. */
    method RemoveExpire(k: Key) returns (removed: bool)
      requires Valid() && k in dict
      modifies `expires
      ensures Valid() && State() == Persist(old(State()), k) && removed == (k in old(expires))
    {
      removed := k in expires;
      expires := expires - {k};
    }

    /** setExpire. */
    method SetExpire(k: Key, when: int)
      requires Valid() && k in dict
      modifies `expires
      ensures Valid() && State() == ExpireAt(old(State()), k, when)
    {
      expires := expires[k := when];
    }

    /** setKey: the key has the value and no deadline, whatever was there. */
    method SetKey(k: Key, v: Value, env: Env)
      requires Valid()
      modifies `dict, `expires, `index, `propagated
      ensures Valid() && State() == Database.SetKey(old(State()), k, v)
    {
      var found := LookupKey(k, env);
      if found {
        DbOverwrite(k, v);
      } else {
        DbAdd(k, v);
      }
      var _ := RemoveExpire(k);
    }

    /** renameGenericCommand. */
    method RenameKey(src: Key, dst: Key, nx: bool, env: Env) returns (r: Renamed)
      requires Valid()
      modifies `dict, `expires, `index, `propagated
      ensures Valid() && (State(), r) == Rename(old(State()), src, dst, nx, env)
    {
      if src == dst {
        return SameObject;
      }
      var found := LookupKey(src, env);
      if !found {
        return NoSuchKey;
      }
      var o := dict[src];
      var expire := LookUpExpire(src);
      found := LookupKey(dst, env);
      ghost var s2 := State();
      if found {
        if nx {
          return TargetExists;
        }
        var _, _ := DbDelete(dst);
      } else {
        WithoutMissing(s2, dst);
      }
      DbAdd(dst, o);
      RenameSteps(s2, src, dst, o, expire, State());
      if expire != -1 {
        SetExpire(dst, expire);
      }
      var _, _ := DbDelete(src);
      return Done;
    }

    /** expireGenericCommand, with the deadline already computed. A deadline in the past deletes
        the key (and is propagated as a DEL), except while loading and on slaves. */
    method ExpireKey(k: Key, when: int, env: Env) returns (found: bool, asDel: bool)
      requires Valid()
      modifies `dict, `expires, `index, `propagated
      ensures var s := Touched(old(State()), k, env);
        && Valid() && found == (k in s.dict) && asDel == (found && when <= env.now && !env.loading && !env.slave)
        && State() == if asDel then Without(s, k) else ExpireAt(s, k, when)
    {
      found := LookupKey(k, env);
      asDel := false;
      if !found {
        return;
      }
      if when <= env.now && !env.loading && !env.slave {
        var deleted, _ := DbDelete(k);
        assert deleted;
        asDel := true;
      } else {
        SetExpire(k, when);
      }
    }

    /** persistCommand. It does not look whether the key has expired. */
    method PersistKey(k: Key) returns (persisted: bool)
      requires Valid()
      modifies `expires
      ensures Valid() && persisted == (k in old(dict) && k in old(expires))
      ensures State() == Persist(old(State()), k)
    {
      if k !in dict {
        assert expires - {k} == expires;
        return false;
      }
      persisted := RemoveExpire(k);
    }

    /** delCommand. */
    method DelKeys(keys: seq<Key>, env: Env) returns (deleted: nat)
      requires Valid()
      modifies `dict, `expires, `index, `propagated
      ensures Valid() && State() == WithoutAll(old(State()), set k | k in keys)
      ensures Gone(State(), set k | k in keys) && OthersStay(old(State()), State(), set k | k in keys)
      ensures deleted == Present(old(State()), keys, env)
    {
      deleted := 0;
      ghost var gone: set<Key> := {};
      assert dict - gone == dict && expires - gone == expires && keys[0..] == keys;
      for j := 0 to |keys|
        invariant Valid() && gone == (set k | k in keys[..j])
        invariant dict == old(dict) - gone && expires == old(expires) - gone
        invariant deleted + Present(State(), keys[j..], env) == Present(old(State()), keys, env)
      {
        ghost var s := State();
        assert keys[j..][0] == keys[j] && keys[j..][1..] == keys[j + 1..] && keys[..j + 1] == keys[..j] + [keys[j]];
        var _ := ExpireIfNeeded(keys[j], env);
        var done, _ := DbDelete(keys[j]);
        WithoutTwice(s, keys[j]);
        WithoutMore(old(State()), gone, keys[j]);
        gone := gone + {keys[j]};
        if done {
          deleted := deleted + 1;
        }
      }
      assert keys[..|keys|] == keys;
    }

    /** flushdbCommand and emptyDb. */
    method Flush() returns (removed: nat)
      requires Valid()
      modifies `dict, `expires, `index
      ensures Valid() && State() == EMPTY_DB && removed == |old(dict)|
    {
      removed := |dict|;
      dict, expires := map[], map[];
      if clusterEnabled {
        index := [];
      }
    }

    // ----- the slot index ----------------------------------------------------------------------------

    /** zslGetRank, counted from one. */
    method GetRank(e: Element) returns (rank: nat)
      requires Valid() && e in index
      ensures 1 <= rank <= |index| && index[rank - 1] == e
    {
      rank := 1;
      while index[rank - 1] != e
        invariant 1 <= rank <= |index| && e !in index[..rank - 1]
        decreases |index| - rank
      {
        rank := rank + 1;
      }
    }

    /** zslLastInRange for a single slot, when it has keys. */
    method LastInSlot(slot: Slot, first: nat) returns (last: nat)
      requires Valid() && first < |index| && index[first].0 == slot
      ensures first <= last < |index| && index[last].0 == slot && (last + 1 < |index| ==> index[last + 1].0 > slot)
    {
      last := first;
      while last + 1 < |index| && index[last + 1].0 <= slot
        invariant first <= last < |index| && index[last].0 == slot
        decreases |index| - last
      {
        assert Before(index[last], index[last + 1]);
        last := last + 1;
      }
    }

    /** countKeysInSlot: the ranks of the first and the last key give the true count. */
    method CountKeysInSlot(slot: Slot) returns (count: int)
      requires Valid() && clusterEnabled
      ensures count == |KeysOf(dict, slot)|
    {
      count := 0;
      var first := FirstInSlot(index, slot);
      if first < |index| && index[first].0 == slot {
        var rank := GetRank(index[first]);
        SamePlace(index, rank - 1, first);
        count := |index| - (rank - 1);
        var last := LastInSlot(slot, first);
        rank := GetRank(index[last]);
        SamePlace(index, rank - 1, last);
        count := count - (|index| - rank);
        SlotStretch(index, dict, slot, first, last + 1);
      } else {
        SlotStretch(index, dict, slot, first, first);
      }
    }

    /** getKeysInSlot: the first `count` keys of the slot. */
    method GetKeysInSlot(slot: Slot, count: nat) returns (keys: seq<Key>)
      requires Valid() && clusterEnabled
      ensures |keys| == (if |KeysOf(dict, slot)| < count then |KeysOf(dict, slot)| else count)
      ensures forall i, j :: 0 <= i < j < |keys| ==> Less(keys[i], keys[j])
      ensures forall k :: k in keys ==> k in KeysOf(dict, slot)
      ensures forall k, l :: k in keys && l in KeysOf(dict, slot) && Less(l, k) ==> l in keys
    {
      var first := FirstInSlot(index, slot);
      var n := first;
      keys := [];
      while n < |index| && index[n].0 == slot && |keys| < count
        invariant first <= n <= |index| && |keys| == n - first <= count
        invariant Collected(index, slot, first, keys)
      {
        keys := keys + [index[n].1];
        n := n + 1;
      }
      KeysFrom(index, dict, slot, first, n, keys, count);
    }

    /** delKeysInSlot: exactly the keys of the slot go. */
    method DelKeysInSlot(slot: Slot) returns (j: nat)
      requires Valid() && clusterEnabled
      modifies `dict, `expires, `index
      ensures Valid() && State() == WithoutAll(old(State()), KeysOf(old(dict), slot))
      ensures j == |KeysOf(old(dict), slot)|
    {
      var n := FirstInSlot(index, slot);
      j := 0;
      ghost var gone: set<Key> := {};
      while n < |index| && index[n].0 == slot
        invariant Valid() && n <= |index|
        invariant gone <= KeysOf(old(dict), slot) && j == |gone|
        invariant dict == old(dict) - gone && expires == old(expires) - gone
        invariant (forall i :: 0 <= i < n ==> index[i].0 < slot) && (n < |index| ==> index[n].0 >= slot)
        decreases |index|
      {
        var key := index[n].1;
        var next := if n + 1 < |index| then Some(index[n + 1]) else None;
        ghost var before := index;
        assert index[n] in index;
        var _, at := DbDelete(key);
        NextAfterDelete(before, index, n, at, slot);
        assert next == if n < |index| then Some(index[n]) else None;
        WithoutMore(old(State()), gone, key);
        gone := gone + {key};
        j := j + 1;
      }
      SlotStretch(index, dict, slot, n, n);
      AllGone(old(dict), dict, slot, gone);
    }
  }

  /** Deleting the element at `n` leaves the element after it at `n`. */
  lemma NextAfterDelete(before: seq<Element>, ix: seq<Element>, n: nat, at: nat, slot: Slot)
    requires Sorted(before) && n < |before| && at < |before| && before[at] == before[n] && before[n].0 == slot
    requires ix == before[..at] + before[at + 1..] && forall i :: 0 <= i < n ==> before[i].0 < slot
    ensures n <= |ix| && (forall i :: 0 <= i < n ==> ix[i] == before[i]) && (n < |ix| <==> n + 1 < |before|)
    ensures n < |ix| ==> ix[n] == before[n + 1] && ix[n].0 >= slot
  {
    SamePlace(before, at, n);
    if n < |ix| {
      assert Before(before[n], before[n + 1]);
    }
  }

  lemma WithoutMore(s: Db, gone: set<Key>, k: Key)
    ensures s.dict - gone - {k} == s.dict - (gone + {k}) && s.expires - gone - {k} == s.expires - (gone + {k})
  {}

  lemma AllGone(before: map<Key, Value>, dict: map<Key, Value>, slot: Slot, gone: set<Key>)
    requires gone <= KeysOf(before, slot) && dict == before - gone && KeysOf(dict, slot) == {}
    ensures gone == KeysOf(before, slot)
  {
    forall k | k in KeysOf(before, slot) ensures k in gone {
      assert k !in KeysOf(dict, slot);
    }
  }

  /** How many of the keys DEL finds, when each is deleted in its turn. */
  function Present(s: Db, keys: seq<Key>, env: Env): nat
    decreases |keys|
  {
    if keys == [] then 0
    else
      var n := Present(Without(s, keys[0]), keys[1..], env);
      if keys[0] in s.dict && !Expired(s, keys[0], env) then n + 1 else n
  }

  /** DEL counts every key once that is there and has not expired, however often it is given. */
  lemma {:induction false} PresentCounts(s: Db, keys: seq<Key>, env: Env)
    ensures Present(s, keys, env) == |set k | k in keys && k in s.dict && !Expired(s, k, env)|
    decreases |keys|
  {
    var counted := set k | k in keys && k in s.dict && !Expired(s, k, env);
    if keys == [] {
      assert counted == {};
    } else {
      var s1, rest := Without(s, keys[0]), keys[1..];
      PresentCounts(s1, rest, env);
      var more := set k | k in rest && k in s1.dict && !Expired(s1, k, env);
      assert more == counted - {keys[0]};
    }
  }

  lemma WithoutTwice(s: Db, k: Key)
    ensures Without(Without(s, k), k) == Without(s, k)
  {
    assert s.dict - {k} - {k} == s.dict - {k} && s.expires - {k} - {k} == s.expires - {k};
  }

  lemma SamePlace(ix: seq<Element>, i: int, j: int)
    requires Sorted(ix) && 0 <= i < |ix| && 0 <= j < |ix| && ix[i] == ix[j]
    ensures i == j
  {
    BeforeTotal(ix[i], ix[j]);
  }

  /** The part of the index that belongs to a slot holds its keys, each once. */
  lemma SlotStretch(ix: seq<Element>, dict: map<Key, Value>, slot: Slot, i: nat, j: nat)
    requires Indexes(ix, dict.Keys) && i <= j <= |ix|
    requires forall m :: 0 <= m < i ==> ix[m].0 < slot
    requires i < j ==> ix[i].0 == slot && ix[j - 1].0 == slot
    requires j < |ix| ==> ix[j].0 > slot
    ensures |KeysOf(dict, slot)| == j - i
    ensures forall k :: k in KeysOf(dict, slot) <==> exists m :: i <= m < j && ix[m].1 == k
  {
    forall m | j <= m < |ix| ensures ix[m].0 > slot {
      if m > j { assert Before(ix[j], ix[m]); }
    }
    forall m | i <= m < j ensures ix[m].0 == slot {
      if i < m { assert Before(ix[i], ix[m]); }
      if m < j - 1 { assert Before(ix[m], ix[j - 1]); }
    }
    forall k ensures k in KeysOf(dict, slot) <==> exists m :: i <= m < j && ix[m].1 == k {
      if k in KeysOf(dict, slot) {
        var m :| 0 <= m < |ix| && ix[m] == (KEY_HASH_SLOT(k), k);
      }
      if m :| i <= m < j && ix[m].1 == k {
        assert ix[m] in ix;
      }
    }
    StretchSize(ix, slot, i, j, KeysOf(dict, slot));
  }

  lemma StretchEnd(ix: seq<Element>, slot: Slot, i: nat) returns (j: nat)
    requires Sorted(ix) && i <= |ix| && (i < |ix| ==> ix[i].0 >= slot)
    ensures i <= j <= |ix| && (forall m :: i <= m < j ==> ix[m].0 == slot) && (j < |ix| ==> ix[j].0 > slot)
  {
    j := i;
    while j < |ix| && ix[j].0 == slot
      invariant i <= j <= |ix| && forall m :: i <= m < j ==> ix[m].0 == slot
    {
      j := j + 1;
    }
    if j < |ix| && j > i {
      assert Before(ix[i], ix[j]);
    }
  }

  /** The keys of the elements from `i` on, all of them of the slot. */
  ghost predicate Collected(ix: seq<Element>, slot: Slot, i: nat, keys: seq<Key>) {
    i + |keys| <= |ix| && forall m :: 0 <= m < |keys| ==> keys[m] == ix[i + m].1 && ix[i + m].0 == slot
  }

  /** The keys collected from the start of a stretch are the first of the slot. */
  lemma KeysFrom(ix: seq<Element>, dict: map<Key, Value>, slot: Slot, i: nat, n: nat, keys: seq<Key>, count: nat)
    requires Indexes(ix, dict.Keys) && i <= n <= |ix| && |keys| == n - i <= count
    requires (forall m :: 0 <= m < i ==> ix[m].0 < slot) && (i < |ix| ==> ix[i].0 >= slot)
    requires Collected(ix, slot, i, keys)
    requires |keys| < count ==> n == |ix| || ix[n].0 != slot
    ensures |keys| == (if |KeysOf(dict, slot)| < count then |KeysOf(dict, slot)| else count)
    ensures forall a, b :: 0 <= a < b < |keys| ==> Less(keys[a], keys[b])
    ensures forall k :: k in keys ==> k in KeysOf(dict, slot)
    ensures forall k, l :: k in keys && l in KeysOf(dict, slot) && Less(l, k) ==> l in keys
  {
    var j := StretchEnd(ix, slot, i);
    SlotStretch(ix, dict, slot, i, j);
    forall m | i <= m < n ensures ix[m].0 == slot {
      assert keys[m - i] == ix[i + (m - i)].1;
    }
    forall a, b | 0 <= a < b < |keys| ensures Less(keys[a], keys[b]) {
      assert Before(ix[i + a], ix[i + b]);
    }
    forall k | k in keys ensures k in KeysOf(dict, slot) {
      var a :| 0 <= a < |keys| && keys[a] == k;
      assert ix[i + a].1 == k;
    }
    forall k, l | k in keys && l in KeysOf(dict, slot) && Less(l, k) ensures l in keys {
      var a :| 0 <= a < |keys| && keys[a] == k;
      var m :| i <= m < j && ix[m].1 == l;
      EarlierInStretch(ix, slot, i + a, m);
      assert keys[m - i] == l;
    }
  }

  lemma EarlierInStretch(ix: seq<Element>, slot: Slot, a: nat, m: nat)
    requires Sorted(ix) && a < |ix| && m < |ix| && ix[a].0 == slot && ix[m].0 == slot && Less(ix[m].1, ix[a].1)
    ensures m < a
  {
    BeforeTotal(ix[a], ix[m]);
  }

  lemma {:induction false} StretchSize(ix: seq<Element>, slot: Slot, i: nat, j: nat, keys: set<Key>)
    requires Sorted(ix) && i <= j <= |ix| && forall m :: i <= m < j ==> ix[m].0 == slot
    requires forall k :: k in keys <==> exists m :: i <= m < j && ix[m].1 == k
    ensures |keys| == j - i
    decreases j - i
  {
    if i == j {
      assert keys == {};
    } else {
      var last := ix[j - 1].1;
      forall k ensures k in keys - {last} <==> exists m :: i <= m < j - 1 && ix[m].1 == k {
        if m :| i <= m < j - 1 && ix[m].1 == k {
          assert Before(ix[m], ix[j - 1]);
          LessTotal(k, last);
        }
      }
      StretchSize(ix, slot, i, j - 1, keys - {last});
      assert last in keys;
    }
  }
}
