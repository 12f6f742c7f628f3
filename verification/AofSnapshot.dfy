/** The commands that rewriteAppendOnlyFile emits for a data set, and what replaying them
    rebuilds. */
module AofSnapshot {
  import opened Basics
  import opened Database
  import opened Decimal
  import opened Options
  import opened Resp
  import opened Verbs
  import opened Commands
  import opened AofObjects

  // ----- one value --------------------------------------------------------------------------

  /** `order` lists the members of a collection, each once, as its iterator returns them. */
  ghost predicate Enumerates<T(!new)>(order: seq<T>, members: set<T>) {
    && (forall i, j :: 0 <= i < j < |order| ==> order[i] != order[j])
    && forall m :: m in order <==> m in members
  }

  ghost function Members(v: Value): set<Bytes> {
    match v
    case String(_) => {}
    case List(_) => {}
    case Set(members) => members
    case SortedSet(scores) => scores.Keys
    case Hash(fields) => fields.Keys
  }

  /** No collection in the data set is empty. */
  predicate NotEmpty(v: Value) {
    match v
    case String(_) => true
    case List(items) => items != []
    case Set(members) => members != {}
    case SortedSet(scores) => scores != map[]
    case Hash(fields) => fields != map[]
  }

  function Singles(xs: seq<Bytes>): seq<Item> {
    seq(|xs|, i requires 0 <= i < |xs| => [xs[i]])
  }

  /** Score and member, or field and value, of every member. */
  function Pairs(m: map<Bytes, Bytes>, order: seq<Bytes>, keyFirst: bool): seq<Item>
    requires forall k :: k in order ==> k in m
  {
    seq(|order|, i requires 0 <= i < |order| =>
      if keyFirst then [order[i], m[order[i]]] else [m[order[i]], order[i]])
  }

  function CommandName(v: Value): Bytes {
    match v
    case String(_) => SET
    case List(_) => RPUSH
    case Set(_) => SADD
    case SortedSet(_) => ZADD
    case Hash(_) => HMSET
  }

  /** Arguments per item. */
  function Width(v: Value): nat {
    if v.SortedSet? || v.Hash? then 2 else 1
  }

  function Items(v: Value, order: seq<Bytes>): seq<Item>
    requires Enumerates(order, Members(v))
  {
    match v
    case String(text) => [[text]]
    case List(items) => Singles(items)
    case Set(_) => Singles(order)
    case SortedSet(scores) => Pairs(scores, order, false)
    case Hash(fields) => Pairs(fields, order, true)
  }

  /** The commands that rebuild a value: SET for a string, else commands of at most 64 items. */
  function ValueCommands(k: Key, v: Value, order: seq<Bytes>): seq<Command>
    requires Enumerates(order, Members(v))
  {
    if v.String? then [[SET, k, v.text]] else Chunks(CommandName(v), k, Items(v, order))
  }

  /** rewriteListObject and its siblings, and the SET that rewriteAppendOnlyFile writes. */
  method EmitValue(k: Key, v: Value, order: seq<Bytes>) returns (out: Bytes)
    requires Enumerates(order, Members(v))
    ensures out == EncodeAll(ValueCommands(k, v, order))
  {
    if v.String? {
      out := Header(STAR, 3) + EncodeArgs([SET, k, v.text]);
      assert EncodeAll([[SET, k, v.text]]) == Encode([SET, k, v.text]) + EncodeAll([]);
    } else {
      out := EmitItems(CommandName(v), k, Items(v, order), Width(v));
    }
  }

  // ----- replaying them ----------------------------------------------------------------------

  lemma {:induction false} PutPairsAppend(m: map<Bytes, Bytes>, a: seq<Bytes>, b: seq<Bytes>, keyFirst: bool)
    requires |a| % 2 == 0
    ensures PutPairs(m, a + b, keyFirst) == PutPairs(PutPairs(m, a, keyFirst), b, keyFirst)
    decreases |a|
  {
    if a == [] {
      assert a + b == b;
    } else {
      assert (a + b)[2..] == a[2..] + b;
      PutPairsAppend(if keyFirst then m[a[0] := a[1]] else m[a[1] := a[0]], a[2..], b, keyFirst);
    }
  }

  /** The value that a command with arguments `args` makes of a missing key. */
  function Made(v: Value, args: seq<Bytes>): Value {
    match v
    case String(_) => String([])
    case List(_) => List(args)
    case Set(_) => Set(set m | m in args)
    case SortedSet(_) => SortedSet(PutPairs(map[], args, false))
    case Hash(_) => Hash(PutPairs(map[], args, true))
  }

  function VerbFor(v: Value): Verb {
    match v
    case String(_) => VSet
    case List(_) => VPush
    case Set(_) => VAddMembers
    case SortedSet(_) => VAddScores
    case Hash(_) => VSetFields
  }

  lemma ValueVerb(k: Key, v: Value, args: seq<Bytes>, c: Command)
    requires c == [CommandName(v), k] + args && args != [] && (Width(v) == 2 ==> |args| % 2 == 0)
    ensures VerbOf(c) == VerbFor(v) && c[1] == k && c[2..] == args
  {
    VerbIs(c, VerbFor(v));
  }

  /** A command of the right kind makes a value of a missing key. */
  lemma ExecFirst(db: Db, k: Key, v: Value, args: seq<Bytes>, at: int)
    requires !v.String? && k !in db.dict && args != [] && (Width(v) == 2 ==> |args| % 2 == 0)
    ensures Exec(db, [CommandName(v), k] + args, at) == PutValue(db, k, Made(v, args))
  {
    ValueVerb(k, v, args, [CommandName(v), k] + args);
  }

  /** A further one adds to it. */
  lemma ExecNext(db: Db, k: Key, v: Value, before: seq<Bytes>, args: seq<Bytes>, at: int)
    requires !v.String? && args != [] && (Width(v) == 2 ==> |args| % 2 == 0 && |before| % 2 == 0)
    ensures Exec(PutValue(db, k, Made(v, before)), [CommandName(v), k] + args, at) ==
            PutValue(db, k, Made(v, before + args))
  {
    ValueVerb(k, v, args, [CommandName(v), k] + args);
    match v
    case List(_) =>
    case Set(_) => MembersMore(db, k, before, args);
    case SortedSet(_) => ScoresMore(db, k, before, args);
    case Hash(_) => FieldsMore(db, k, before, args);
  }

  lemma ScoresMore(db: Db, k: Key, before: seq<Bytes>, args: seq<Bytes>)
    requires |before| % 2 == 0 && |args| % 2 == 0
    ensures AddScores(PutValue(db, k, SortedSet(PutPairs(map[], before, false))), k, args) ==
            PutValue(db, k, SortedSet(PutPairs(map[], before + args, false)))
  {
    PutPairsAppend(map[], before, args, false);
  }

  lemma FieldsMore(db: Db, k: Key, before: seq<Bytes>, args: seq<Bytes>)
    requires |before| % 2 == 0 && |args| % 2 == 0
    ensures SetFields(PutValue(db, k, Hash(PutPairs(map[], before, true))), k, args) ==
            PutValue(db, k, Hash(PutPairs(map[], before + args, true)))
  {
    PutPairsAppend(map[], before, args, true);
  }

  lemma MembersMore(db: Db, k: Key, before: seq<Bytes>, args: seq<Bytes>)
    ensures AddMembers(PutValue(db, k, Set(set m | m in before)), k, args) ==
            PutValue(db, k, Set(set m | m in before + args))
  {
    assert (set m | m in before + args) == (set m | m in before) + (set m | m in args);
  }

  lemma EvenFlat(items: seq<Item>, width: nat)
    requires forall i :: i in items ==> |i| == width
    ensures width == 2 ==> |Flat(items)| % 2 == 0
    ensures width > 0 && items != [] ==> Flat(items) != []
  {
    FlatLength(items, width);
  }

  lemma {:induction false} FlatAppend(a: seq<Item>, b: seq<Item>)
    ensures Flat(a + b) == Flat(a) + Flat(b)
  {
    if a == [] {
      assert a + b == b;
    } else {
      assert (a + b)[1..] == a[1..] + b;
      FlatAppend(a[1..], b);
    }
  }

  lemma FlatSplit(items: seq<Item>, n: nat)
    requires n <= |items|
    ensures Flat(items) == Flat(items[..n]) + Flat(items[n..])
  {
    assert items == items[..n] + items[n..];
    FlatAppend(items[..n], items[n..]);
  }

  /** Commands with this name add their arguments to what the database holds. */
  ghost predicate Adds(put: seq<Bytes> -> Db, name: Bytes, k: Key, width: nat, at: int) {
    forall before, args :: AddsOnce(put, name, k, width, at, before, args)
  }

  ghost predicate AddsOnce(put: seq<Bytes> -> Db, name: Bytes, k: Key, width: nat, at: int,
                           before: seq<Bytes>, args: seq<Bytes>) {
    args != [] && (width == 2 ==> |args| % 2 == 0 && |before| % 2 == 0) ==>
      Exec(put(before), [name, k] + args, at) == put(before + args)
  }

  lemma {:induction false} ReplayAdds(put: seq<Bytes> -> Db, name: Bytes, k: Key, width: nat, before: seq<Bytes>,
                                      items: seq<Item>, at: int)
    requires Adds(put, name, k, width, at) && width > 0
    requires (forall i :: i in items ==> |i| == width) && (width == 2 ==> |before| % 2 == 0)
    ensures ExecAll(put(before), Chunks(name, k, items), at) == put(before + Flat(items))
    decreases |items|
  {
    if items == [] {
      assert before + [] == before;
    } else {
      var args, rest := FirstArgs(name, k, items, width);
      var more := before + args;
      if width == 2 {
        EvenSum(|before|, |args|, |more|);
      }
      ReplayAdds(put, name, k, width, more, rest, at);
      AddsFirst(put, name, k, width, before, args, more, Chunks(name, k, items), Chunks(name, k, rest), at);
      Associate(before, args, Flat(rest));
    }
  }

  lemma EvenSum(a: nat, b: nat, c: nat)
    requires a % 2 == 0 && b % 2 == 0 && c == a + b
    ensures c % 2 == 0
  {}

  /** The arguments of the first command, and the items that are left for the others. */
  lemma FirstArgs(name: Bytes, k: Key, items: seq<Item>, width: nat) returns (args: seq<Bytes>, rest: seq<Item>)
    requires items != [] && width > 0 && forall i :: i in items ==> |i| == width
    ensures args != [] && (width == 2 ==> |args| % 2 == 0) && Flat(items) == args + Flat(rest)
    ensures |rest| < |items| && forall i :: i in rest ==> |i| == width
    ensures Chunks(name, k, items) == [[name, k] + args] + Chunks(name, k, rest)
  {
    var n := FirstChunk(items);
    args, rest := Flat(items[..n]), items[n..];
    EvenFlat(items[..n], width);
    FlatSplit(items, n);
  }

  lemma AddsFirst(put: seq<Bytes> -> Db, name: Bytes, k: Key, width: nat, before: seq<Bytes>, args: seq<Bytes>,
                  more: seq<Bytes>, cs: seq<Command>, rest: seq<Command>, at: int)
    requires Adds(put, name, k, width, at) && args != [] && (width == 2 ==> |args| % 2 == 0 && |before| % 2 == 0)
    requires more == before + args && cs != [] && cs[0] == [name, k] + args && cs[1..] == rest
    ensures ExecAll(put(before), cs, at) == ExecAll(put(more), rest, at)
  {
    assert AddsOnce(put, name, k, width, at, before, args);
    ExecAllFirst(put(before), cs, cs[0], rest, at);
  }

  lemma ReplayMore(db: Db, k: Key, v: Value, before: seq<Bytes>, items: seq<Item>, at: int)
    requires !v.String? && (forall i :: i in items ==> |i| == Width(v)) && (Width(v) == 2 ==> |before| % 2 == 0)
    ensures ExecAll(PutValue(db, k, Made(v, before)), Chunks(CommandName(v), k, items), at) ==
            PutValue(db, k, Made(v, before + Flat(items)))
  {
    var put := args => PutValue(db, k, Made(v, args));
    forall b, args ensures AddsOnce(put, CommandName(v), k, Width(v), at, b, args) {
      if args != [] && (Width(v) == 2 ==> |args| % 2 == 0 && |b| % 2 == 0) {
        ExecNext(db, k, v, b, args, at);
      }
    }
    ReplayAdds(put, CommandName(v), k, Width(v), before, items, at);
  }

  lemma ExecAllFirst(db: Db, cs: seq<Command>, c: Command, rest: seq<Command>, at: int)
    requires cs != [] && cs[0] == c && cs[1..] == rest
    ensures ExecAll(db, cs, at) == ExecAll(Exec(db, c, at), rest, at)
  {}

  lemma ChunksSplit(name: Bytes, k: Key, items: seq<Item>, n: nat)
    requires items != [] && n == FirstChunk(items)
    ensures Chunks(name, k, items) != [] && Chunks(name, k, items)[0] == [name, k] + Flat(items[..n])
    ensures Chunks(name, k, items)[1..] == Chunks(name, k, items[n..])
  {}

  lemma ReplayChunks(db: Db, k: Key, v: Value, items: seq<Item>, at: int)
    requires !v.String? && items != [] && (forall i :: i in items ==> |i| == Width(v)) && k !in db.dict
    ensures ExecAll(db, Chunks(CommandName(v), k, items), at) == PutValue(db, k, Made(v, Flat(items)))
  {
    var n := FirstChunk(items);
    var args := Flat(items[..n]);
    EvenFlat(items[..n], Width(v));
    ExecFirst(db, k, v, args, at);
    ReplayMore(db, k, v, args, items[n..], at);
    FlatSplit(items, n);
    ChunksSplit(CommandName(v), k, items, n);
  }

  lemma {:induction false} FlatSingles(xs: seq<Bytes>)
    ensures Flat(Singles(xs)) == xs
  {
    if xs != [] {
      assert Singles(xs)[1..] == Singles(xs[1..]);
      FlatSingles(xs[1..]);
      assert [xs[0]] + xs[1..] == xs;
    }
  }

  function Restrict(m: map<Bytes, Bytes>, order: seq<Bytes>): map<Bytes, Bytes> {
    map k | k in order && k in m :: m[k]
  }

  lemma {:induction false} PutAllPairs(acc: map<Bytes, Bytes>, m: map<Bytes, Bytes>, order: seq<Bytes>, keyFirst: bool)
    requires forall k :: k in order ==> k in m
    ensures PutPairs(acc, Flat(Pairs(m, order, keyFirst)), keyFirst) == acc + Restrict(m, order)
    decreases |order|
  {
    if order == [] {
      assert acc + Restrict(m, order) == acc;
    } else {
      var items, k := Pairs(m, order, keyFirst), order[0];
      assert items[1..] == Pairs(m, order[1..], keyFirst);
      var args := Flat(items);
      assert args == items[0] + Flat(items[1..]);
      assert args[2..] == Flat(items[1..]);
      PutAllPairs(acc[k := m[k]], m, order[1..], keyFirst);
      assert acc[k := m[k]] + Restrict(m, order[1..]) == acc + Restrict(m, order);
    }
  }

  /** The arguments of all the commands together make the value again. */
  lemma ItemsMakeValue(v: Value, order: seq<Bytes>)
    requires !v.String? && Enumerates(order, Members(v))
    ensures Made(v, Flat(Items(v, order))) == v
  {
    match v
    case List(items) => FlatSingles(items);
    case Set(members) =>
      FlatSingles(order);
      assert (set m | m in order) == members;
    case SortedSet(scores) =>
      PutAllPairs(map[], scores, order, false);
      assert map[] + Restrict(scores, order) == scores;
    case Hash(fields) =>
      PutAllPairs(map[], fields, order, true);
      assert map[] + Restrict(fields, order) == fields;
  }

  lemma SomeItems(v: Value, order: seq<Bytes>)
    requires NotEmpty(v) && Enumerates(order, Members(v))
    ensures Items(v, order) != []
  {}

  /** SET without options. */
  lemma PlainSet(db: Db, k: Key, text: Bytes, at: int)
    ensures VerbOf([SET, k, text]) == VSet && Exec(db, [SET, k, text], at) == SetKey(db, k, String(text))
    ensures !GivesTtl([SET, k, text])
  {
    var c := [SET, k, text];
    VerbIs(c, VSet);
    assert c[3..] == [];
  }

  /** Replaying the commands for a value rebuilds it, whatever its size. */
  lemma ReplayValue(db: Db, k: Key, v: Value, order: seq<Bytes>, at: int)
    requires NotEmpty(v) && Enumerates(order, Members(v)) && k !in db.dict && k !in db.expires
    ensures ExecAll(db, ValueCommands(k, v, order), at) == PutValue(db, k, v)
  {
    if v.String? {
      var c := [SET, k, v.text];
      PlainSet(db, k, v.text, at);
      assert db.expires - {k} == db.expires;
      ExecAllFirst(db, [c], c, [], at);
    } else {
      SomeItems(v, order);
      ReplayChunks(db, k, v, Items(v, order), at);
      ItemsMakeValue(v, order);
    }
  }

  // ----- one database ------------------------------------------------------------------------

  /** The orders in which the iterators of a dictionary and of its values go. */
  datatype Order = Order(keys: seq<Key>, members: Key -> seq<Bytes>)

  ghost predicate Orders(db: Db, o: Order) {
    Enumerates(o.keys, db.dict.Keys) && forall k :: k in db.dict ==> Enumerates(o.members(k), Members(db.dict[k]))
  }

  /** Every deadline belongs to a key, and is not the -1 that stands for none. */
  predicate WellFormed(db: Db) {
    && db.expires.Keys <= db.dict.Keys
    && (forall k :: k in db.expires ==> db.expires[k] != -1)
    && forall k :: k in db.dict ==> NotEmpty(db.dict[k])
  }

  /** The commands for one key: none if its deadline has passed. */
  function EntryCommands(db: Db, k: Key, o: Order, now: int): seq<Command>
    requires Orders(db, o) && k in db.dict
  {
    var expiretime := GetExpire(db, k);
    if expiretime != -1 && expiretime < now then []
    else ValueCommands(k, db.dict[k], o.members(k)) +
         if expiretime != -1 then [[PEXPIREAT, k, DecInt(expiretime)]] else []
  }

  function DbCommands(db: Db, keys: seq<Key>, o: Order, now: int): seq<Command>
    requires Orders(db, o) && forall k :: k in keys ==> k in db.dict
  {
    if keys == [] then [] else EntryCommands(db, keys[0], o, now) + DbCommands(db, keys[1..], o, now)
  }

  /** The keys whose deadline has not passed. */
  function Prune(db: Db, now: int): Db {
    Db(map k | k in db.dict && !(k in db.expires && db.expires[k] < now) :: db.dict[k],
       map k | k in db.expires && db.expires[k] >= now :: db.expires[k])
  }

  /** The part of a database that concerns the given keys. */
  function Part(db: Db, keys: seq<Key>): Db {
    Db(map k | k in db.dict && k in keys :: db.dict[k], map k | k in db.expires && k in keys :: db.expires[k])
  }

  lemma ExecDeadline(db: Db, k: Key, when: int, at: int)
    ensures VerbOf([PEXPIREAT, k, DecInt(when)]) == VPExpireAt
    ensures Exec(db, [PEXPIREAT, k, DecInt(when)], at) == ExpireAt(db, k, when)
  {
    VerbIs([PEXPIREAT, k, DecInt(when)], VPExpireAt);
    NumberOfDecInt(when);
  }

  lemma ReplayDeadline(db: Db, k: Key, when: int, at: int)
    ensures ExecAll(db, [[PEXPIREAT, k, DecInt(when)]], at) == ExpireAt(db, k, when)
  {
    var c := [PEXPIREAT, k, DecInt(when)];
    ExecDeadline(db, k, when, at);
    ExecAllFirst(db, [c], c, [], at);
  }

  /** Replaying the commands for a key adds it with its deadline. */
  lemma ReplayEntry(base: Db, db: Db, k: Key, o: Order, now: int, at: int)
    requires WellFormed(db) && Orders(db, o) && k in db.dict && k !in base.dict && k !in base.expires
    ensures ExecAll(base, EntryCommands(db, k, o, now), at) ==
            if k in db.expires && db.expires[k] < now then base
            else if k in db.expires then Db(base.dict[k := db.dict[k]], base.expires[k := db.expires[k]])
            else PutValue(base, k, db.dict[k])
  {
    var cs := ValueCommands(k, db.dict[k], o.members(k));
    if k in db.expires && db.expires[k] < now {
    } else {
      ReplayValue(base, k, db.dict[k], o.members(k), at);
      if k in db.expires {
        ExecAllAppend(base, cs, [[PEXPIREAT, k, DecInt(db.expires[k])]], at);
        ReplayDeadline(PutValue(base, k, db.dict[k]), k, db.expires[k], at);
      } else {
        assert cs + [] == cs;
      }
    }
  }

  lemma PartNext(db: Db, done: seq<Key>, k: Key, base: Db)
    requires k in db.dict && k !in done && base == Part(db, done)
    requires db.expires.Keys <= db.dict.Keys
    ensures Part(db, done + [k]) ==
            if k in db.expires then Db(base.dict[k := db.dict[k]], base.expires[k := db.expires[k]])
                                    else PutValue(base, k, db.dict[k])
  {}

  lemma PruneNext(db: Db, done: seq<Key>, k: Key, now: int)
    requires k in db.dict && k !in done && WellFormed(db)
    ensures k in db.expires && db.expires[k] < now ==> Part(Prune(db, now), done + [k]) == Part(Prune(db, now), done)
  {}

  lemma ReplayKey(db: Db, done: seq<Key>, k: Key, o: Order, now: int, at: int)
    requires WellFormed(db) && Orders(db, o) && k in db.dict && k !in done
    ensures ExecAll(Part(Prune(db, now), done), EntryCommands(db, k, o, now), at) == Part(Prune(db, now), done + [k])
  {
    var live := Prune(db, now);
    ReplayEntry(Part(live, done), db, k, o, now, at);
    if k in live.dict {
      PartNext(live, done, k, Part(live, done));
    } else {
      PruneNext(db, done, k, now);
    }
  }

  lemma {:induction false} ReplayKeys(db: Db, done: seq<Key>, keys: seq<Key>, o: Order, now: int, at: int)
    requires WellFormed(db) && Orders(db, o)
    requires Enumerates(done + keys, db.dict.Keys) && forall k :: k in keys ==> k in db.dict
    ensures ExecAll(Part(Prune(db, now), done), DbCommands(db, keys, o, now), at) == Prune(db, now)
    decreases |keys|
  {
    if keys == [] {
      PartOfAll(db, done, keys, now);
    } else {
      var k := keys[0];
      NotAmongDone(done, keys);
      ReplayKey(db, done, k, o, now, at);
      ExecAllAppend(Part(Prune(db, now), done), EntryCommands(db, k, o, now), DbCommands(db, keys[1..], o, now), at);
      MoveFirst(done, keys);
      ReplayKeys(db, done + [k], keys[1..], o, now, at);
    }
  }

  lemma MoveFirst(done: seq<Key>, keys: seq<Key>)
    requires keys != []
    ensures done + [keys[0]] + keys[1..] == done + keys
  {}

  lemma PartOfAll(db: Db, done: seq<Key>, keys: seq<Key>, now: int)
    requires Enumerates(done + keys, db.dict.Keys) && keys == [] && db.expires.Keys <= db.dict.Keys
    ensures Part(Prune(db, now), done) == Prune(db, now)
  {
    assert done + keys == done;
  }

  lemma NotAmongDone(done: seq<Key>, keys: seq<Key>)
    requires keys != [] && forall i, j :: 0 <= i < j < |done + keys| ==> (done + keys)[i] != (done + keys)[j]
    ensures keys[0] !in done
  {
    assert (done + keys)[|done|] == keys[0];
    forall i | 0 <= i < |done| ensures done[i] != keys[0] {
      assert (done + keys)[i] == done[i];
    }
  }

  /** Replaying the commands for a database rebuilds it, without the keys whose deadline had
      passed. */
  lemma ReplayDb(db: Db, o: Order, now: int, at: int)
    requires WellFormed(db) && Orders(db, o)
    ensures ExecAll(EMPTY_DB, DbCommands(db, o.keys, o, now), at) == Prune(db, now)
  {
    assert Part(Prune(db, now), []) == EMPTY_DB;
    assert [] + o.keys == o.keys;
    ReplayKeys(db, [], o.keys, o, now, at);
  }

  // ----- all databases -----------------------------------------------------------------------

  function SelectCommand(j: nat): Command {
    [SELECT, Dec(j)]
  }

  /** A database that is not empty: it is selected, and its keys follow. */
  function OneDb(j: nat, db: Db, o: Order, now: int): seq<Command>
    requires Orders(db, o)
  {
    if db.dict == map[] then [] else [SelectCommand(j)] + DbCommands(db, o.keys, o, now)
  }

  /** rewriteAppendOnlyFile, from database `j` on. */
  function Snapshot(dbs: seq<Db>, orders: seq<Order>, now: int, j: nat): seq<Command>
    requires |orders| == |dbs| && (forall i :: 0 <= i < |dbs| ==> Orders(dbs[i], orders[i])) && j <= |dbs|
    decreases |dbs| - j
  {
    if j == |dbs| then []
    else OneDb(j, dbs[j], orders[j], now) + Snapshot(dbs, orders, now, j + 1)
  }

  function PruneAll(dbs: seq<Db>, now: int): seq<Db> {
    seq(|dbs|, i requires 0 <= i < |dbs| => Prune(dbs[i], now))
  }

  /** The databases when the first `j` have been loaded. */
  function LoadedTo(dbs: seq<Db>, now: int, j: nat): seq<Db>
    requires j <= |dbs|
  {
    seq(|dbs|, i requires 0 <= i < |dbs| => if i < j then Prune(dbs[i], now) else EMPTY_DB)
  }

  /** Local commands that give no time to live. */
  predicate Plain(cs: seq<Command>) {
    forall c :: c in cs ==> Local(c) && !GivesTtl(c)
  }

  lemma {:induction false} PlainValue(k: Key, v: Value, order: seq<Bytes>)
    requires NotEmpty(v) && Enumerates(order, Members(v))
    ensures Plain(ValueCommands(k, v, order))
  {
    if v.String? {
      PlainSet(EMPTY_DB, k, v.text, 0);
    } else {
      PlainChunks(k, v, Items(v, order));
    }
  }

  lemma {:induction false} PlainChunks(k: Key, v: Value, items: seq<Item>)
    requires !v.String? && forall i :: i in items ==> |i| == Width(v)
    ensures Plain(Chunks(CommandName(v), k, items))
    decreases |items|
  {
    if items != [] {
      var n := FirstChunk(items);
      EvenFlat(items[..n], Width(v));
      PlainChunks(k, v, items[n..]);
      ChunksSplit(CommandName(v), k, items, n);
      PlainFirst(k, v, Flat(items[..n]), Chunks(CommandName(v), k, items), Chunks(CommandName(v), k, items[n..]));
    }
  }

  lemma PlainFirst(k: Key, v: Value, args: seq<Bytes>, cs: seq<Command>, rest: seq<Command>)
    requires !v.String? && args != [] && (Width(v) == 2 ==> |args| % 2 == 0)
    requires cs != [] && cs[0] == [CommandName(v), k] + args && cs[1..] == rest && Plain(rest)
    ensures Plain(cs)
  {
    ValueVerb(k, v, args, cs[0]);
    assert cs == [cs[0]] + rest;
  }

  lemma PlainEntry(db: Db, k: Key, o: Order, now: int)
    requires WellFormed(db) && Orders(db, o) && k in db.dict
    ensures Plain(EntryCommands(db, k, o, now))
  {
    var deadline := [PEXPIREAT, k, DecInt(GetExpire(db, k))];
    PlainValue(k, db.dict[k], o.members(k));
    PlainDeadline(db, k, GetExpire(db, k), deadline);
    PlainWith(ValueCommands(k, db.dict[k], o.members(k)), [deadline]);
    PlainWith(ValueCommands(k, db.dict[k], o.members(k)), []);
  }

  lemma PlainDeadline(db: Db, k: Key, when: int, c: Command)
    requires c == [PEXPIREAT, k, DecInt(when)]
    ensures Plain([c])
  {
    ExecDeadline(db, k, when, 0);
  }

  lemma PlainWith(a: seq<Command>, b: seq<Command>)
    requires Plain(a) && Plain(b)
    ensures Plain(a + b)
  {}

  lemma {:induction false} PlainDb(db: Db, keys: seq<Key>, o: Order, now: int)
    requires WellFormed(db) && Orders(db, o) && forall k :: k in keys ==> k in db.dict
    ensures Plain(DbCommands(db, keys, o, now))
  {
    if keys != [] {
      PlainEntry(db, keys[0], o, now);
      PlainDb(db, keys[1..], o, now);
    }
  }

  lemma ExecSelect(other: Others, w: World, j: nat, at: int)
    requires j < |w.dbs| && w.selected < |w.dbs|
    ensures VerbOf(SelectCommand(j)) == VSelect && Step(other, w, SelectCommand(j), at) == w.(selected := j)
  {
    VerbIs(SelectCommand(j), VSelect);
    NumberOfDecInt(j);
  }

  lemma ReplayOneDb(other: Others, dbs: seq<Db>, orders: seq<Order>, now: int, j: nat, selected: nat, at: int)
    requires |orders| == |dbs| && j < |dbs| && Orders(dbs[j], orders[j]) && WellFormed(dbs[j]) && selected < |dbs|
    ensures Replay(other, World(LoadedTo(dbs, now, j), selected),
                   [SelectCommand(j)] + DbCommands(dbs[j], orders[j].keys, orders[j], now), at) ==
            World(LoadedTo(dbs, now, j + 1), j)
  {
    var cs := DbCommands(dbs[j], orders[j].keys, orders[j], now);
    var w := World(LoadedTo(dbs, now, j), selected);
    ExecSelect(other, w, j, at);
    assert ([SelectCommand(j)] + cs)[1..] == cs;
    PlainDb(dbs[j], orders[j].keys, orders[j], now);
    ReplayIsExecAll(other, w.(selected := j), cs, at);
    ReplayDb(dbs[j], orders[j], now, at);
    assert LoadedTo(dbs, now, j)[j := Prune(dbs[j], now)] == LoadedTo(dbs, now, j + 1);
  }

  lemma {:induction false} ReplayFrom(other: Others, dbs: seq<Db>, orders: seq<Order>, now: int, j: nat,
                                      selected: nat, at: int)
    requires |orders| == |dbs| && j <= |dbs| && selected < |dbs|
    requires forall i :: 0 <= i < |dbs| ==> Orders(dbs[i], orders[i]) && WellFormed(dbs[i])
    ensures var w := Replay(other, World(LoadedTo(dbs, now, j), selected), Snapshot(dbs, orders, now, j), at);
      w.dbs == PruneAll(dbs, now) && w.selected < |dbs|
    decreases |dbs| - j
  {
    if j == |dbs| {
      assert LoadedTo(dbs, now, j) == PruneAll(dbs, now);
    } else if dbs[j].dict == map[] {
      assert Prune(dbs[j], now) == EMPTY_DB by { assert dbs[j].expires.Keys == {}; assert dbs[j].expires == map[]; }
      assert LoadedTo(dbs, now, j) == LoadedTo(dbs, now, j + 1);
      assert [] + Snapshot(dbs, orders, now, j + 1) == Snapshot(dbs, orders, now, j + 1);
      ReplayFrom(other, dbs, orders, now, j + 1, selected, at);
    } else {
      ReplayOneDb(other, dbs, orders, now, j, selected, at);
      ReplayAppend(other, World(LoadedTo(dbs, now, j), selected),
                   [SelectCommand(j)] + DbCommands(dbs[j], orders[j].keys, orders[j], now),
                   Snapshot(dbs, orders, now, j + 1), at);
      ReplayFrom(other, dbs, orders, now, j + 1, j, at);
    }
  }

  /** No command of a rewritten file depends on the clock. */
  lemma {:induction false} SnapshotTimeless(other: Others, dbs: seq<Db>, orders: seq<Order>, now: int, j: nat)
    requires |orders| == |dbs| && j <= |dbs|
    requires forall i :: 0 <= i < |dbs| ==> Orders(dbs[i], orders[i]) && WellFormed(dbs[i])
    ensures AllTimeless(other, Snapshot(dbs, orders, now, j))
    decreases |dbs| - j
  {
    if j < |dbs| {
      OneDbTimeless(other, j, dbs[j], orders[j], now);
      SnapshotTimeless(other, dbs, orders, now, j + 1);
    }
  }

  lemma OneDbTimeless(other: Others, j: nat, db: Db, o: Order, now: int)
    requires Orders(db, o) && WellFormed(db)
    ensures AllTimeless(other, OneDb(j, db, o, now))
  {
    PlainDb(db, o.keys, o, now);
    VerbIs(SelectCommand(j), VSelect);
    forall c | c in OneDb(j, db, o, now) ensures Timeless(other, c) {
      TimelessExactly(other, c);
    }
  }

  /** A server that has just started. */
  function Blank(n: nat): World {
    World(seq(n, _ => EMPTY_DB), 0)
  }

  /** Loading a rewritten file, at whatever time, rebuilds every database, without the keys whose
      deadline had passed when it was written. */
  lemma ReplaySnapshot(other: Others, dbs: seq<Db>, orders: seq<Order>, now: int, at: int)
    requires |orders| == |dbs| > 0
    requires forall i :: 0 <= i < |dbs| ==> Orders(dbs[i], orders[i]) && WellFormed(dbs[i])
    ensures var w := Replay(other, Blank(|dbs|), Snapshot(dbs, orders, now, 0), at);
      w.dbs == PruneAll(dbs, now) && w.selected < |dbs|
  {
    assert LoadedTo(dbs, now, 0) == Blank(|dbs|).dbs;
    ReplayFrom(other, dbs, orders, now, 0, 0, at);
  }

  // ----- writing them -----------------------------------------------------------------------

  /** The body of the loop over keys in rewriteAppendOnlyFile. */
  method EmitEntry(db: Db, k: Key, o: Order, now: int) returns (out: Bytes)
    requires Orders(db, o) && k in db.dict
    ensures out == EncodeAll(EntryCommands(db, k, o, now))
  {
    var expiretime := GetExpire(db, k);
    if expiretime != -1 && expiretime < now {
      return [];
    }
    out := EmitValue(k, db.dict[k], o.members(k));
    if expiretime != -1 {
      var deadline := [PEXPIREAT, k, DecInt(expiretime)];
      EncodeAllAppend(ValueCommands(k, db.dict[k], o.members(k)), [deadline]);
      EncodeOne(deadline);
      out := out + (Header(STAR, 3) + EncodeArgs(deadline));
    } else {
      assert ValueCommands(k, db.dict[k], o.members(k)) + [] == ValueCommands(k, db.dict[k], o.members(k));
    }
  }

  lemma EncodeOne(c: Command)
    ensures EncodeAll([c]) == Encode(c)
  {
    assert [c][1..] == [];
    assert Encode(c) + EncodeAll([]) == Encode(c);
  }

  /** The loop over the keys of a database. */
  method EmitDb(db: Db, o: Order, now: int) returns (out: Bytes)
    requires Orders(db, o)
    ensures out == EncodeAll(DbCommands(db, o.keys, o, now))
  {
    out := [];
    for i := 0 to |o.keys|
      invariant out + EncodeAll(DbCommands(db, o.keys[i..], o, now)) == EncodeAll(DbCommands(db, o.keys, o, now))
    {
      var rest := o.keys[i..];
      assert rest[0] == o.keys[i] && rest[1..] == o.keys[i + 1..];
      EncodeAllAppend(EntryCommands(db, rest[0], o, now), DbCommands(db, rest[1..], o, now));
      var entry := EmitEntry(db, o.keys[i], o, now);
      Associate(out, entry, EncodeAll(DbCommands(db, rest[1..], o, now)));
      out := out + entry;
    }
    assert o.keys[|o.keys|..] == [];
  }

  method EmitOneDb(j: nat, db: Db, o: Order, now: int) returns (out: Bytes)
    requires Orders(db, o)
    ensures out == EncodeAll(OneDb(j, db, o, now))
  {
    if db.dict == map[] {
      return [];
    }
    var keys := EmitDb(db, o, now);
    EncodeOne(SelectCommand(j));
    EncodeAllAppend([SelectCommand(j)], DbCommands(db, o.keys, o, now));
    out := Header(STAR, 2) + EncodeArgs([SELECT, Dec(j)]) + keys;
  }

  /** rewriteAppendOnlyFile, up to the differences from the parent. */
  method EmitSnapshot(dbs: seq<Db>, orders: seq<Order>, now: int) returns (out: Bytes)
    requires |orders| == |dbs| && forall i :: 0 <= i < |dbs| ==> Orders(dbs[i], orders[i])
    ensures out == EncodeAll(Snapshot(dbs, orders, now, 0))
  {
    out := [];
    ghost var whole := EncodeAll(Snapshot(dbs, orders, now, 0));
    for j := 0 to |dbs|
      invariant out + EncodeAll(Snapshot(dbs, orders, now, j)) == whole
    {
      var part := EmitOneDb(j, dbs[j], orders[j], now);
      SnapshotNext(dbs, orders, now, j, j + 1, out, part);
      out := out + part;
    }
    assert Snapshot(dbs, orders, now, |dbs|) == [];
  }

  lemma SnapshotNext(dbs: seq<Db>, orders: seq<Order>, now: int, j: nat, i: nat, out: Bytes, part: Bytes)
    requires |orders| == |dbs| && j < |dbs| && i == j + 1
    requires forall i :: 0 <= i < |dbs| ==> Orders(dbs[i], orders[i])
    requires part == EncodeAll(OneDb(j, dbs[j], orders[j], now))
    ensures out + EncodeAll(Snapshot(dbs, orders, now, j)) == out + part + EncodeAll(Snapshot(dbs, orders, now, i))
  {
    EncodeAllAppend(OneDb(j, dbs[j], orders[j], now), Snapshot(dbs, orders, now, i));
    Associate(out, part, EncodeAll(Snapshot(dbs, orders, now, i)));
  }
}
