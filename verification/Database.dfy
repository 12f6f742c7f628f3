/** A database: values and deadlines by key, and what the key-space operations make of them. */
module Database {
  import opened Decimal
  import opened Options

  type Key = Bytes

  /** Scores are the text that prints them. */
  datatype Value =
    | String(text: Bytes)
    | List(items: seq<Bytes>)
    | Set(members: set<Bytes>)
    | SortedSet(scores: map<Bytes, Bytes>)
    | Hash(fields: map<Bytes, Bytes>)

  datatype Db = Db(dict: map<Key, Value>, expires: map<Key, int>)

  const EMPTY_DB: Db := Db(map[], map[])

  /** getExpire. */
  function GetExpire(db: Db, k: Key): int {
    if k in db.expires then db.expires[k] else -1
  }

  /** dbDelete. */
  function Without(db: Db, k: Key): Db {
    Db(db.dict - {k}, db.expires - {k})
  }

  /** delCommand, when no key has expired. */
  function WithoutAll(db: Db, keys: set<Key>): Db {
    Db(db.dict - keys, db.expires - keys)
  }

  /** dbAdd and dbOverwrite. */
  function PutValue(db: Db, k: Key, v: Value): Db {
    db.(dict := db.dict[k := v])
  }

  /** setKey: the old value and its deadline go. */
  function SetKey(db: Db, k: Key, v: Value): Db {
    Db(db.dict[k := v], db.expires - {k})
  }

  /** setExpire, for a key that is there. */
  function ExpireAt(db: Db, k: Key, at: int): Db {
    if k in db.dict then db.(expires := db.expires[k := at]) else db
  }

  /** persistCommand, which looks a key up without first removing it if it has expired. */
  function Persist(db: Db, k: Key): Db {
    if k in db.dict then db.(expires := db.expires - {k}) else db
  }

  // ----- what they change ----------------------------------------------------------------------

  /** Keys other than these are there, with their values and deadlines, or not, as they were. */
  ghost predicate OthersStay(db: Db, db': Db, keys: set<Key>) {
    forall k :: k !in keys ==>
      && (k in db'.dict <==> k in db.dict) && (k in db.dict ==> db'.dict[k] == db.dict[k])
      && (k in db'.expires <==> k in db.expires) && (k in db.expires ==> db'.expires[k] == db.expires[k])
  }

  /** The key has a value, and a deadline or none. */
  predicate Holds(db: Db, k: Key, v: Value, deadline: Option<int>) {
    && k in db.dict && db.dict[k] == v
    && if deadline.None? then k !in db.expires else k in db.expires && db.expires[k] == deadline.value
  }

  function DeadlineOf(db: Db, k: Key): Option<int> {
    if k in db.expires then Some(db.expires[k]) else None
  }

  ghost predicate Gone(db: Db, keys: set<Key>) {
    forall k :: k in keys ==> k !in db.dict && k !in db.expires
  }

  lemma KeysAreGone(db: Db, keys: set<Key>)
    ensures Gone(WithoutAll(db, keys), keys) && OthersStay(db, WithoutAll(db, keys), keys)
    ensures forall k :: Gone(Without(db, k), {k}) && OthersStay(db, Without(db, k), {k})
  {}

  lemma ValueIsPut(db: Db, k: Key, v: Value)
    ensures Holds(PutValue(db, k, v), k, v, DeadlineOf(db, k)) && OthersStay(db, PutValue(db, k, v), {k})
    ensures Holds(SetKey(db, k, v), k, v, None) && OthersStay(db, SetKey(db, k, v), {k})
  {}

  lemma DeadlineIsSet(db: Db, k: Key, at: int)
    ensures if k in db.dict
            then Holds(ExpireAt(db, k, at), k, db.dict[k], Some(at)) && OthersStay(db, ExpireAt(db, k, at), {k})
            else ExpireAt(db, k, at) == db
    ensures if k in db.dict then Holds(Persist(db, k), k, db.dict[k], None) && OthersStay(db, Persist(db, k), {k})
            else Persist(db, k) == db
  {}
}
