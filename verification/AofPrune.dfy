/** Commands and keys whose deadline has passed at an earlier reading of another clock: which commands
    do the same whether or not these keys are still there. */
module AofPrune {
  import opened AofSnapshot
  import opened Commands
  import opened Database
  import opened Decimal
  import opened Options
  import opened Resp
  import opened Verbs

  /** The deadline of the key has passed at time `t`. */
  predicate Dead(db: Db, k: Key, t: int) {
    k in db.expires && db.expires[k] < t
  }

  predicate Alive(db: Db, k: Key, t: int) {
    k in db.dict && !Dead(db, k, t)
  }

  /** The value is stored, with a deadline that has not passed, exactly if it is stored when only
      keys that have not expired are seen. */
  predicate SetUnseen(db: Db, k: Key, how: SetHow, now: int, t: int) {
    (Stores(db, k, how) && (how.ttl.Some? ==> now + how.ttl.value >= t)) <==> StoresIf(Alive(db, k, t), how)
  }

  predicate RestoreUnseen(db: Db, k: Key, how: RestoreHow, now: int, t: int) {
    (Restores(db, k, how) && (how.ttl != 0 ==> now + how.ttl >= t)) <==> RestoresIf(Alive(db, k, t), how)
  }

  /** SETEX and PSETEX. */
  predicate TtlUnseen(text: Bytes, unit: nat, now: int, t: int) {
    Ttl(text, unit).Some? ==> now + Ttl(text, unit).value >= t
  }

  /** The EXPIRE family: a key that has expired is given another such deadline, one that has not
      is not. */
  predicate ExpireUnseen(db: Db, k: Key, text: Bytes, unit: nat, from: int, t: int) {
    Number(text).Some? && k in db.dict ==> (Dead(db, k, t) <==> Number(text).value * unit + from < t)
  }

  /** The command makes the same of a database as of its keys that have not expired at time `t`. */
  predicate Unseen(db: Db, c: Command, now: int, t: int) {
    match VerbOf(c)
    case VSet => SetUnseen(db, c[1], SetArgs(c), now, t)
    case VSetEx => TtlUnseen(c[2], 1000, now, t)
    case VPSetEx => TtlUnseen(c[2], 1, now, t)
    case VExpire => ExpireUnseen(db, c[1], c[2], 1000, now, t)
    case VPExpire => ExpireUnseen(db, c[1], c[2], 1, now, t)
    case VExpireAt => ExpireUnseen(db, c[1], c[2], 1000, 0, t)
    case VPExpireAt => ExpireUnseen(db, c[1], c[2], 1, 0, t)
    case VRestore => RestoreUnseen(db, c[1], RestoreArgs(c), now, t)
    case VPersist => !Dead(db, c[1], t)
    case VPush => !Dead(db, c[1], t)
    case VAddMembers => !Dead(db, c[1], t)
    case VAddScores => !Dead(db, c[1], t)
    case VSetFields => !Dead(db, c[1], t)
    case _ => true
  }

  /** What pruning leaves: the keys without a deadline, and those whose deadline had not passed, with
      their values and deadlines. */
  lemma PruneIs(db: Db, t: int)
    ensures var r := Prune(db, t);
      && (forall k :: k in r.dict <==> k in db.dict && (k in db.expires ==> db.expires[k] >= t))
      && (forall k :: k in r.dict ==> r.dict[k] == db.dict[k])
      && (forall k :: k in r.expires <==> k in db.expires && db.expires[k] >= t)
      && (forall k :: k in r.expires ==> r.expires[k] == db.expires[k])
  {}

  lemma PruneHas(db: Db, k: Key, t: int)
    ensures k in Prune(db, t).dict <==> Alive(db, k, t)
  {}

  lemma PutPrune(db: Db, k: Key, v: Value, t: int)
    requires !Dead(db, k, t)
    ensures Prune(PutValue(db, k, v), t) == PutValue(Prune(db, t), k, v)
  {
    assert Prune(PutValue(db, k, v), t).dict == PutValue(Prune(db, t), k, v).dict;
  }

  lemma WithoutPrune(db: Db, keys: set<Key>, t: int)
    ensures Prune(WithoutAll(db, keys), t) == WithoutAll(Prune(db, t), keys)
  {
    assert Prune(WithoutAll(db, keys), t).dict == Prune(db, t).dict - keys;
    assert Prune(WithoutAll(db, keys), t).expires == Prune(db, t).expires - keys;
  }

  lemma OneWithoutPrune(db: Db, k: Key, t: int)
    ensures Prune(Without(db, k), t) == Without(Prune(db, t), k) && !Dead(Without(db, k), k, t)
  {
    WithoutPrune(db, {k}, t);
  }

  lemma SetPrune(db: Db, k: Key, v: Value, t: int)
    ensures Prune(SetKey(db, k, v), t) == SetKey(Prune(db, t), k, v)
  {
    assert Prune(SetKey(db, k, v), t).dict == Prune(db, t).dict[k := v];
    assert Prune(SetKey(db, k, v), t).expires == Prune(db, t).expires - {k};
  }

  lemma ExpirePrune(db: Db, k: Key, at: int, t: int)
    requires !Dead(db, k, t) && at >= t
    ensures Prune(ExpireAt(db, k, at), t) == ExpireAt(Prune(db, t), k, at)
  {
    if k in db.dict {
      assert Prune(ExpireAt(db, k, at), t).dict == Prune(db, t).dict;
      assert Prune(ExpireAt(db, k, at), t).expires == Prune(db, t).expires[k := at];
    }
  }

  lemma PersistPrune(db: Db, k: Key, t: int)
    requires !Dead(db, k, t)
    ensures Prune(Persist(db, k), t) == Persist(Prune(db, t), k)
  {
    if k in db.dict {
      assert Prune(Persist(db, k), t).dict == Prune(db, t).dict;
      assert Prune(Persist(db, k), t).expires == Prune(db, t).expires - {k};
    }
  }

  lemma SameThere(db: Db, k: Key, t: int)
    requires !Dead(db, k, t)
    ensures k in Prune(db, t).dict <==> k in db.dict
    ensures k in db.dict ==> Prune(db, t).dict[k] == db.dict[k]
  {}

  /** A key that has expired, or is gone, may be given a deadline that has passed. */
  lemma DeadOnArrival(db: Db, k: Key, dict: map<Key, Value>, at: int, t: int)
    requires Dead(db, k, t) && at < t && dict.Keys == db.dict.Keys
    requires forall j :: j in dict && j != k ==> dict[j] == db.dict[j]
    ensures Prune(Db(dict, db.expires[k := at]), t) == Prune(db, t)
  {
    assert Prune(Db(dict, db.expires[k := at]), t).dict == Prune(db, t).dict;
    assert Prune(Db(dict, db.expires[k := at]), t).expires == Prune(db, t).expires;
  }

  // ----- commands that do not see them -----------------------------------------------------------

  lemma SetLasts(db: Db, k: Key, text: Bytes, how: SetHow, now: int, t: int)
    requires how.Put? && (how.ttl.Some? ==> now + how.ttl.value >= t)
    requires Stores(db, k, how) && Stores(Prune(db, t), k, how)
    ensures Prune(ExecSet(db, k, text, how, now), t) == ExecSet(Prune(db, t), k, text, how, now)
  {
    SetPrune(db, k, String(text), t);
    if how.ttl.Some? {
      ExpirePrune(SetKey(db, k, String(text)), k, now + how.ttl.value, t);
    }
  }

  lemma SetDies(db: Db, k: Key, v: Value, at: int, t: int)
    requires Dead(db, k, t) && k in db.dict && at < t
    ensures Prune(ExpireAt(SetKey(db, k, v), k, at), t) == Prune(db, t)
  {
    assert ExpireAt(SetKey(db, k, v), k, at) == Db(db.dict[k := v], db.expires[k := at]);
    assert db.dict[k := v].Keys == db.dict.Keys;
    DeadOnArrival(db, k, db.dict[k := v], at, t);
  }

  lemma ExecSetPrune(db: Db, k: Key, text: Bytes, how: SetHow, now: int, t: int)
    requires db.expires.Keys <= db.dict.Keys && SetUnseen(db, k, how, now, t)
    ensures Prune(ExecSet(db, k, text, how, now), t) == ExecSet(Prune(db, t), k, text, how, now)
  {
    PruneHas(db, k, t);
    if Stores(Prune(db, t), k, how) {
      SetLasts(db, k, text, how, now, t);
    } else if Stores(db, k, how) {
      SetDies(db, k, String(text), now + how.ttl.value, t);
    }
  }

  lemma StorePrune(db: Db, k: Key, v: Value, ttl: int, at: int, t: int)
    requires !Dead(db, k, t) && (ttl != 0 ==> at >= t)
    ensures Prune(if ttl == 0 then PutValue(db, k, v) else ExpireAt(PutValue(db, k, v), k, at), t) ==
            if ttl == 0 then PutValue(Prune(db, t), k, v) else ExpireAt(PutValue(Prune(db, t), k, v), k, at)
  {
    PutPrune(db, k, v, t);
    if ttl != 0 {
      ExpirePrune(PutValue(db, k, v), k, at, t);
    }
  }

  lemma RestoreOver(db: Db, k: Key, how: RestoreHow, now: int, t: int)
    requires how.Restore? && how.replace && (how.ttl != 0 ==> now + how.ttl >= t)
    ensures Prune(ExecRestore(db, k, how, now), t) == ExecRestore(Prune(db, t), k, how, now)
  {
    var cleared, at := Without(db, k), now + how.ttl;
    OneWithoutPrune(db, k, t);
    StorePrune(cleared, k, how.value, how.ttl, at, t);
    RestoredOver(db, cleared, k, how, now, at);
    RestoredOver(Prune(db, t), Prune(cleared, t), k, how, now, at);
  }

  lemma RestoredOver(db: Db, cleared: Db, k: Key, how: RestoreHow, now: int, at: int)
    requires how.Restore? && how.replace && cleared == Without(db, k) && at == now + how.ttl
    ensures ExecRestore(db, k, how, now) ==
            if how.ttl == 0 then PutValue(cleared, k, how.value) else ExpireAt(PutValue(cleared, k, how.value), k, at)
  {}

  lemma RestoreNew(db: Db, k: Key, how: RestoreHow, now: int, t: int)
    requires !Dead(db, k, t) && how.Restore? && !how.replace && k !in db.dict && (how.ttl != 0 ==> now + how.ttl >= t)
    ensures Prune(ExecRestore(db, k, how, now), t) == ExecRestore(Prune(db, t), k, how, now)
  {
    StorePrune(db, k, how.value, how.ttl, now + how.ttl, t);
  }

  lemma ExecRestorePrune(db: Db, k: Key, how: RestoreHow, now: int, t: int)
    requires db.expires.Keys <= db.dict.Keys && RestoreUnseen(db, k, how, now, t)
    ensures Prune(ExecRestore(db, k, how, now), t) == ExecRestore(Prune(db, t), k, how, now)
  {
    PruneHas(db, k, t);
    if Restores(Prune(db, t), k, how) {
      if how.replace {
        RestoreOver(db, k, how, now, t);
      } else {
        RestoreNew(db, k, how, now, t);
      }
    }
  }

  lemma AddPrune(db: Db, c: Command, now: int, t: int)
    requires VerbOf(c).VPush? || VerbOf(c).VAddMembers? || VerbOf(c).VAddScores? || VerbOf(c).VSetFields?
    requires !Dead(db, c[1], t)
    ensures Prune(Exec(db, c, now), t) == Exec(Prune(db, t), c, now)
  {
    var k := c[1];
    SameThere(db, k, t);
    var db' := Exec(db, c, now);
    if k in db'.dict && db' == PutValue(db, k, db'.dict[k]) {
      PutPrune(db, k, db'.dict[k], t);
    }
  }

  lemma ExpireAtPrune(db: Db, k: Key, at: int, t: int)
    requires k in db.dict && (Dead(db, k, t) <==> at < t)
    ensures Prune(ExpireAt(db, k, at), t) == ExpireAt(Prune(db, t), k, at)
  {
    if Dead(db, k, t) {
      DeadOnArrival(db, k, db.dict, at, t);
    } else {
      ExpirePrune(db, k, at, t);
    }
  }

  lemma ExpireByPrune(db: Db, k: Key, text: Bytes, unit: nat, from: int, t: int)
    requires db.expires.Keys <= db.dict.Keys && ExpireUnseen(db, k, text, unit, from, t)
    ensures Prune(ExpireBy(db, k, text, unit, from), t) == ExpireBy(Prune(db, t), k, text, unit, from)
  {
    if k in db.dict {
      if Number(text).Some? {
        ExpireAtPrune(db, k, Number(text).value * unit + from, t);
      }
    } else {
      PruneHas(db, k, t);
    }
  }

  lemma SetWithTtlPrune(db: Db, c: Command, unit: nat, now: int, t: int)
    requires |c| == 4 && TtlUnseen(c[2], unit, now, t)
    ensures Prune(SetWithTtl(db, c, unit, now), t) == SetWithTtl(Prune(db, t), c, unit, now)
  {
    if Ttl(c[2], unit).Some? {
      var k, stored, at := c[1], SetKey(db, c[1], String(c[3])), now + Ttl(c[2], unit).value;
      SetPrune(db, k, String(c[3]), t);
      ExpirePrune(stored, k, at, t);
    }
  }

  lemma UnseenSame(db: Db, c: Command, now: int, t: int)
    requires Local(c) && db.expires.Keys <= db.dict.Keys && Unseen(db, c, now, t)
    ensures Prune(Exec(db, c, now), t) == Exec(Prune(db, t), c, now)
  {
    match VerbOf(c)
    case VSet => ExecSetPrune(db, c[1], c[2], SetArgs(c), now, t);
    case VSetEx => SetWithTtlPrune(db, c, 1000, now, t);
    case VPSetEx => SetWithTtlPrune(db, c, 1, now, t);
    case VExpire => ExpireByPrune(db, c[1], c[2], 1000, now, t);
    case VPExpire => ExpireByPrune(db, c[1], c[2], 1, now, t);
    case VExpireAt => ExpireByPrune(db, c[1], c[2], 1000, 0, t);
    case VPExpireAt => ExpireByPrune(db, c[1], c[2], 1, 0, t);
    case VRestore => ExecRestorePrune(db, c[1], RestoreArgs(c), now, t);
    case VPersist => PersistPrune(db, c[1], t);
    case VDel => WithoutPrune(db, (set k | k in c[1..]), t);
    case VFlushDb => assert Prune(EMPTY_DB, t) == EMPTY_DB;
    case VPush => AddPrune(db, c, now, t);
    case VAddMembers => AddPrune(db, c, now, t);
    case VAddScores => AddPrune(db, c, now, t);
    case VSetFields => AddPrune(db, c, now, t);
    case _ =>
  }

  // ----- commands that see them --------------------------------------------------------------------

  /** The key is there in one of the databases, and not in the other. */
  predicate Differ(a: Db, b: Db, k: Key) {
    (k in a.dict) != (k in b.dict)
  }

  lemma ExecSetDiffers(db: Db, k: Key, text: Bytes, how: SetHow, now: int, u: int, t: int)
    requires db.expires.Keys <= db.dict.Keys && !SetUnseen(db, k, how, now, t)
    ensures Differ(Prune(ExecSet(db, k, text, how, now), t), ExecSet(Prune(db, t), k, text, how, u), k)
  {
    PruneHas(db, k, t);
    PruneHas(ExecSet(db, k, text, how, now), k, t);
  }

  lemma ExecRestoreDiffers(db: Db, k: Key, how: RestoreHow, now: int, u: int, t: int)
    requires db.expires.Keys <= db.dict.Keys && !RestoreUnseen(db, k, how, now, t)
    ensures Differ(Prune(ExecRestore(db, k, how, now), t), ExecRestore(Prune(db, t), k, how, u), k)
  {
    PruneHas(db, k, t);
    PruneHas(ExecRestore(db, k, how, now), k, t);
  }

  lemma ExpireByDiffers(db: Db, k: Key, text: Bytes, unit: nat, from: int, other: int, t: int)
    requires db.expires.Keys <= db.dict.Keys && !ExpireUnseen(db, k, text, unit, from, t)
    ensures Differ(Prune(ExpireBy(db, k, text, unit, from), t), ExpireBy(Prune(db, t), k, text, unit, other), k)
  {
    PruneHas(db, k, t);
    PruneHas(ExpireBy(db, k, text, unit, from), k, t);
  }

  lemma SetWithTtlDiffers(db: Db, c: Command, unit: nat, now: int, u: int, t: int)
    requires |c| == 4 && !TtlUnseen(c[2], unit, now, t)
    ensures Differ(Prune(SetWithTtl(db, c, unit, now), t), SetWithTtl(Prune(db, t), c, unit, u), c[1])
  {
    PruneHas(SetWithTtl(db, c, unit, now), c[1], t);
  }

  lemma AddDiffers(db: Db, c: Command, now: int, u: int, t: int)
    requires VerbOf(c).VPush? || VerbOf(c).VAddMembers? || VerbOf(c).VAddScores? || VerbOf(c).VSetFields?
    requires db.expires.Keys <= db.dict.Keys && Dead(db, c[1], t)
    ensures Differ(Prune(Exec(db, c, now), t), Exec(Prune(db, t), c, u), c[1])
  {
    PruneHas(db, c[1], t);
    PruneHas(Exec(db, c, now), c[1], t);
  }

  /** Whenever it is executed again. */
  lemma SeenDiffers(db: Db, c: Command, now: int, u: int, t: int)
    requires Local(c) && db.expires.Keys <= db.dict.Keys && !Unseen(db, c, now, t)
    ensures Prune(Exec(db, c, now), t) != Exec(Prune(db, t), c, u)
  {
    match VerbOf(c)
    case VSet => ExecSetDiffers(db, c[1], c[2], SetArgs(c), now, u, t);
    case VSetEx => SetWithTtlDiffers(db, c, 1000, now, u, t);
    case VPSetEx => SetWithTtlDiffers(db, c, 1, now, u, t);
    case VExpire => ExpireByDiffers(db, c[1], c[2], 1000, now, u, t);
    case VPExpire => ExpireByDiffers(db, c[1], c[2], 1, now, u, t);
    case VExpireAt => ExpireByDiffers(db, c[1], c[2], 1000, 0, 0, t);
    case VPExpireAt => ExpireByDiffers(db, c[1], c[2], 1, 0, 0, t);
    case VRestore => ExecRestoreDiffers(db, c[1], RestoreArgs(c), now, u, t);
    case VPersist =>
      PruneHas(db, c[1], t);
      PruneHas(Persist(db, c[1]), c[1], t);
    case VPush => AddDiffers(db, c, now, u, t);
    case VAddMembers => AddDiffers(db, c, now, u, t);
    case VAddScores => AddDiffers(db, c, now, u, t);
    case VSetFields => AddDiffers(db, c, now, u, t);
  }

  /** A local command, executed at time `now`, and executed again at time `u` without the keys that
      had expired at time `t`, comes to the same if and only if it does not see these keys, and
      `u` is `now` or it gives no time to live. */
  lemma ExecPrune(db: Db, c: Command, now: int, u: int, t: int)
    requires Local(c) && db.expires.Keys <= db.dict.Keys
    ensures Prune(Exec(db, c, now), t) == Exec(Prune(db, t), c, u) <==>
            Unseen(db, c, now, t) && (u == now || !SetsTtl(Prune(db, t), c))
  {
    if Unseen(db, c, now, t) {
      UnseenSame(db, c, now, t);
      ClockMatters(Prune(db, t), c, now, u);
    } else {
      SeenDiffers(db, c, now, u, t);
    }
  }

  // ----- commands that are given no expired key ------------------------------------------------------

  /** The keys that a local command is given. */
  function KeysGiven(c: Command): set<Key> {
    match VerbOf(c)
    case VDel => set k | k in c[1..]
    case VFlushDb => {}
    case _ => if |c| > 1 then {c[1]} else {}
  }

  /** The deadline that a command gives a key. */
  function DeadlineGiven(db: Db, c: Command, now: int): Option<int> {
    match VerbOf(c)
    case VExpireAt => if Number(c[2]).Some? then Some(Number(c[2]).value * 1000) else None
    case VPExpireAt => Number(c[2])
    case _ => if SetsTtl(db, c) then Some(now + TtlOf(c)) else None
  }

  /** No key that it is given has expired, and none expires at once. */
  predicate AllAlive(db: Db, c: Command, now: int, t: int) {
    && (forall k :: k in KeysGiven(c) ==> !Dead(db, k, t))
    && (DeadlineGiven(db, c, now).Some? ==> DeadlineGiven(db, c, now).value >= t)
  }

  /** In particular a command does not see expired keys that is given none. */
  lemma AliveUnseen(db: Db, c: Command, now: int, t: int)
    requires Local(c) && AllAlive(db, c, now, t)
    ensures Unseen(db, c, now, t)
  {
    if |c| > 1 && !VerbOf(c).VDel? && !VerbOf(c).VFlushDb? {
      assert c[1] in KeysGiven(c);
    }
  }
}
