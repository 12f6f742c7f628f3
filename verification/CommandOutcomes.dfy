/** What each command leaves behind, key by key: which values, which deadlines, and what is not
    touched. */
module CommandOutcomes {
  import opened AofSnapshot
  import opened Commands
  import opened Database
  import opened Decimal
  import opened Options
  import opened Resp
  import opened Verbs

  // ----- keys that go ------------------------------------------------------------------------------

  /** DEL: the keys that it is given are gone, with their deadlines; nothing else is. */
  lemma DelOutcome(db: Db, keys: seq<Key>, now: int)
    requires keys != []
    ensures var r, given := Exec(db, [DEL] + keys, now), set k | k in keys;
      Gone(r, given) && OthersStay(db, r, given)
  {
    VerbIs([DEL] + keys, VDel);
    assert ([DEL] + keys)[1..] == keys;
  }

  /** What is gone and what stays leave no choice. */
  lemma OneOutcome(db: Db, r: Db, r': Db, keys: set<Key>)
    requires Gone(r, keys) && OthersStay(db, r, keys) && Gone(r', keys) && OthersStay(db, r', keys)
    ensures r == r'
  {
    assert r.dict == r'.dict && r.expires == r'.expires;
  }

  /** Letters that are the same but for their case. */
  predicate SameLetters(a: Bytes, b: Bytes) {
    |a| == |b| && forall i :: 0 <= i < |a| ==>
      a[i] == b[i] || (65 <= a[i] <= 90 && b[i] == a[i] + 32) || (65 <= b[i] <= 90 && a[i] == b[i] + 32)
  }

  /** The arguments from the one at `j` on. */
  ghost predicate SameFrom(c: Command, d: Command, j: nat) {
    |c| == |d| && (j <= |c| ==> c[j..] == d[j..]) && (j < |c| ==> c[j] == d[j])
  }

  lemma SameArguments(c: Command, d: Command, j: nat)
    requires c != [] && d != [] && c[1..] == d[1..] && j > 0
    ensures SameFrom(c, d, j)
  {
    assert |c[1..]| == |d[1..]|;
    if j <= |c| {
      assert c[j..] == c[1..][j - 1..] == d[j..];
    }
    if j < |c| {
      assert c[j] == c[1..][j - 1] == d[j];
    }
  }

  /** The name of a command may be written in large or small letters. */
  lemma CaseIgnored(other: Others, w: World, c: Command, d: Command, now: int)
    requires c != [] && d != [] && c[1..] == d[1..] && SameLetters(c[0], d[0]) && !VerbOf(c).VOther?
    ensures Step(other, w, c, now) == Step(other, w, d, now)
  {
    SameArguments(c, d, 1);
    SameArguments(c, d, 2);
    SameArguments(c, d, 3);
    SameArguments(c, d, 4);
    SameVerb(c, d);
    if Local(c) && w.selected < |w.dbs| {
      SameExec(w.dbs[w.selected], c, d, now);
      StepIsExec(other, w, c, now);
      StepIsExec(other, w, d, now);
    }
  }

  lemma SameVerb(c: Command, d: Command)
    requires c != [] && |c| == |d| && SameLetters(c[0], d[0])
    ensures VerbOf(c) == VerbOf(d)
  {
    assert UpperAll(c[0]) == UpperAll(d[0]);
  }

  lemma SameSet(c: Command, d: Command)
    requires VerbOf(c).VSet? && VerbOf(d).VSet? && SameFrom(c, d, 3)
    ensures SetArgs(c) == SetArgs(d)
  {}

  lemma SameRestore(c: Command, d: Command)
    requires VerbOf(c).VRestore? && VerbOf(d).VRestore? && SameFrom(c, d, 2) && SameFrom(c, d, 3) && SameFrom(c, d, 4)
    ensures RestoreArgs(c) == RestoreArgs(d)
  {}

  lemma SameExec(db: Db, c: Command, d: Command, now: int)
    requires VerbOf(c) == VerbOf(d) && SameFrom(c, d, 1) && SameFrom(c, d, 2) && SameFrom(c, d, 3) && SameFrom(c, d, 4)
    ensures Exec(db, c, now) == Exec(db, d, now)
  {
    match VerbOf(c)
    case VSet => SameSet(c, d);
    case VRestore => SameRestore(c, d);
    case _ =>
  }

  /** FLUSHDB and FLUSHALL: nothing is left, in the one database or in all. */
  lemma FlushOutcome(other: Others, w: World, now: int)
    requires w.selected < |w.dbs|
    ensures var w' := Step(other, w, [FLUSHDB], now);
      && |w'.dbs| == |w.dbs| && w'.selected == w.selected
      && w'.dbs[w.selected].dict == map[] && w'.dbs[w.selected].expires == map[]
      && forall i :: 0 <= i < |w.dbs| && i != w.selected ==> w'.dbs[i] == w.dbs[i]
    ensures var w' := Step(other, w, [FLUSHALL], now);
      && |w'.dbs| == |w.dbs| && w'.selected == w.selected
      && forall i :: 0 <= i < |w.dbs| ==> w'.dbs[i].dict == map[] && w'.dbs[i].expires == map[]
  {
    VerbIs([FLUSHDB], VFlushDb);
    VerbIs([FLUSHALL], VFlushAll);
  }

  /** SELECT: another database is selected if there is one with this number; none is changed. */
  lemma SelectOutcome(other: Others, w: World, text: Bytes, now: int)
    requires w.selected < |w.dbs|
    ensures var w' := Step(other, w, [SELECT, text], now);
      && w'.dbs == w.dbs
      && if Number(text).Some? && 0 <= Number(text).value < |w.dbs| then w'.selected == Number(text).value
         else w'.selected == w.selected
  {
    VerbIs([SELECT, text], VSelect);
  }

  /** The key is moved: it is there, is not in the target, and the target is another database. */
  predicate Moves(w: World, k: Key, text: Bytes)
    requires w.selected < |w.dbs|
  {
    && Number(text).Some? && 0 <= Number(text).value < |w.dbs| && Number(text).value != w.selected
    && k in w.dbs[w.selected].dict && k !in w.dbs[Number(text).value].dict
  }

  /** MOVE: the key has its value in the other database, without its deadline, and is gone from this
      one; or nothing happens at all. */
  lemma MoveOutcome(other: Others, w: World, k: Key, text: Bytes, now: int)
    requires w.selected < |w.dbs| && forall i :: 0 <= i < |w.dbs| ==> w.dbs[i].expires.Keys <= w.dbs[i].dict.Keys
    ensures var j, w' := w.selected, Step(other, w, [MOVE, k, text], now);
      if Moves(w, k, text) then
        var i := Number(text).value;
        && |w'.dbs| == |w.dbs| && w'.selected == j
        && Gone(w'.dbs[j], {k}) && OthersStay(w.dbs[j], w'.dbs[j], {k})
        && Holds(w'.dbs[i], k, w.dbs[j].dict[k], None) && OthersStay(w.dbs[i], w'.dbs[i], {k})
        && forall m :: 0 <= m < |w.dbs| && m != j && m != i ==> w'.dbs[m] == w.dbs[m]
      else w' == w
  {
    VerbIs([MOVE, k, text], VMove);
  }

  // ----- SET -----------------------------------------------------------------------------------------

  datatype SetOption = Nx | Xx | Ex(seconds: Bytes) | Px(millis: Bytes)

  /** A word of two letters, each of them large or small, which a zero byte may end. */
  predicate Spelt(word: Bytes, x: Byte, y: Byte) {
    && |word| >= 2 && (word[0] == x || word[0] == x + 32) && (word[1] == y || word[1] == y + 32)
    && (|word| == 2 || word[2] == 0)
  }

  const LETTER_N: Byte := 78
  const LETTER_X: Byte := 88
  const LETTER_E: Byte := 69
  const LETTER_P: Byte := 80

  /** The arguments after the value that write these options. */
  predicate Writes(args: seq<Bytes>, options: seq<SetOption>)
    decreases |options|
  {
    if options == [] then args == []
    else
      match options[0]
      case Nx => |args| > 0 && Spelt(args[0], LETTER_N, LETTER_X) && Writes(args[1..], options[1..])
      case Xx => |args| > 0 && Spelt(args[0], LETTER_X, LETTER_X) && Writes(args[1..], options[1..])
      case Ex(text) =>
        |args| > 1 && Spelt(args[0], LETTER_E, LETTER_X) && args[1] == text && Writes(args[2..], options[1..])
      case Px(text) =>
        |args| > 1 && Spelt(args[0], LETTER_P, LETTER_X) && args[1] == text && Writes(args[2..], options[1..])
  }

  /** The last time to live among the options, and its unit in milliseconds. */
  function LastTime(options: seq<SetOption>): Option<(Bytes, nat)> {
    if options == [] then None
    else
      match options[|options| - 1]
      case Ex(text) => Some((text, 1000))
      case Px(text) => Some((text, 1))
      case _ => LastTime(options[..|options| - 1])
  }

  lemma {:induction false} LastTimeFirst(first: SetOption, rest: seq<SetOption>, options: seq<SetOption>)
    requires options == [first] + rest
    ensures LastTime(options) == if LastTime(rest).Some? then LastTime(rest) else LastTime([first])
  {
    if rest != [] {
      var last := rest[|rest| - 1];
      assert options[|options| - 1] == last && options[..|options| - 1] == [first] + rest[..|rest| - 1];
      if last.Nx? || last.Xx? {
        LastTimeFirst(first, rest[..|rest| - 1], options[..|options| - 1]);
      }
    } else {
      assert options == [first];
    }
  }

  function WithTime(o: SetOptions, t: Option<(Bytes, nat)>): SetOptions {
    if t.None? then o else o.(expire := Some(t.value.0), unit := t.value.1)
  }

  /** The options that parsing these leads to. */
  function Parsed(o: SetOptions, options: seq<SetOption>): SetOptions {
    WithTime(o.(nx := o.nx || Nx in options, xx := o.xx || Xx in options), LastTime(options))
  }

  /** What one option changes. */
  function With(o: SetOptions, first: SetOption): SetOptions {
    match first
    case Nx => o.(nx := true)
    case Xx => o.(xx := true)
    case Ex(text) => o.(expire := Some(text), unit := 1000)
    case Px(text) => o.(expire := Some(text), unit := 1)
  }

  lemma ParsedFirst(o: SetOptions, first: SetOption, rest: seq<SetOption>, options: seq<SetOption>)
    requires options == [first] + rest
    ensures Parsed(o, options) == Parsed(With(o, first), rest)
  {
    LastTimeFirst(first, rest, options);
    assert [first][..0] == [];
    assert Nx in options <==> first == Nx || Nx in rest;
    assert Xx in options <==> first == Xx || Xx in rest;
  }

  lemma ParseFirst(args: seq<Bytes>, options: seq<SetOption>, o: SetOptions) returns (more: seq<Bytes>)
    requires options != [] && Writes(args, options)
    ensures |more| < |args| && Writes(more, options[1..]) && ParseSet(args, o) == ParseSet(more, With(o, options[0]))
  {
    more := if options[0].Nx? || options[0].Xx? then args[1..] else args[2..];
  }

  lemma {:induction false} OptionsParsed(args: seq<Bytes>, options: seq<SetOption>, o: SetOptions)
    requires Writes(args, options)
    ensures ParseSet(args, o) == Some(Parsed(o, options))
    decreases |options|
  {
    if options != [] {
      var more := ParseFirst(args, options, o);
      OptionsParsed(more, options[1..], With(o, options[0]));
      ParsedFirst(o, options[0], options[1..], options);
    }
  }

  /** What is accepted is written by some options. */
  lemma {:induction false} ParsedIsWritten(args: seq<Bytes>, o: SetOptions) returns (options: seq<SetOption>)
    requires ParseSet(args, o).Some?
    ensures Writes(args, options)
    decreases |args|
  {
    if args == [] {
      options := [];
    } else {
      var first, more := FirstOption(args, o);
      var rest := ParsedIsWritten(more, With(o, first));
      options := [first] + rest;
    }
  }

  lemma FirstOption(args: seq<Bytes>, o: SetOptions) returns (first: SetOption, more: seq<Bytes>)
    requires args != [] && ParseSet(args, o).Some?
    ensures |more| < |args| && ParseSet(more, With(o, first)).Some?
    ensures forall rest :: Writes(more, rest) ==> Writes(args, [first] + rest)
  {
    if Spelt(args[0], LETTER_N, LETTER_X) {
      first, more := Nx, args[1..];
    } else if Spelt(args[0], LETTER_X, LETTER_X) {
      first, more := Xx, args[1..];
    } else {
      first, more := if Spelt(args[0], LETTER_E, LETTER_X) then Ex(args[1]) else Px(args[1]), args[2..];
    }
    forall rest | Writes(more, rest) ensures Writes(args, [first] + rest) {
      assert ([first] + rest)[0] == first && ([first] + rest)[1..] == rest;
    }
  }

  /** The time to live is a number above zero, or there is none. */
  predicate TimeOk(t: Option<(Bytes, nat)>) {
    t.Some? ==> Number(t.value.0).Some? && Number(t.value.0).value > 0
  }

  /** SET, with options written in any way: the value is stored unless NX is among them and the key is
      there, or XX and it is not, or the last time to live is not a number above zero. A key that is
      stored has that time to live from now, or no deadline. */
  lemma SetOutcome(db: Db, k: Key, text: Bytes, args: seq<Bytes>, options: seq<SetOption>, now: int)
    requires Writes(args, options)
    ensures var r, t := Exec(db, [SET, k, text] + args, now), LastTime(options);
      if !TimeOk(t) || (Nx in options && k in db.dict) || (Xx in options && k !in db.dict) then r == db
      else OthersStay(db, r, {k}) &&
           Holds(r, k, String(text), if t.None? then None else Some(now + Number(t.value.0).value * t.value.1))
  {
    var c := [SET, k, text] + args;
    VerbIs(c, VSet);
    assert c[3..] == args && c[1] == k && c[2] == text;
    OptionsParsed(args, options, SetOptions(false, false, None, 1000));
    ValueIsPut(db, k, String(text));
    SetDone(db, k, text, SetArgs(c), now);
  }

  lemma SetDone(db: Db, k: Key, text: Bytes, how: SetHow, now: int)
    ensures if Stores(db, k, how)
            then OthersStay(db, ExecSet(db, k, text, how, now), {k}) &&
                 Holds(ExecSet(db, k, text, how, now), k, String(text),
                       if how.ttl.None? then None else Some(now + how.ttl.value))
            else ExecSet(db, k, text, how, now) == db
  {
    ValueIsPut(db, k, String(text));
    if how.Put? && how.ttl.Some? {
      DeadlineIsSet(SetKey(db, k, String(text)), k, now + how.ttl.value);
    }
  }

  /** SET with arguments that no options write is an error. */
  lemma SetRefused(db: Db, k: Key, text: Bytes, args: seq<Bytes>, now: int)
    requires forall options :: !Writes(args, options)
    ensures Exec(db, [SET, k, text] + args, now) == db
  {
    var c, o := [SET, k, text] + args, SetOptions(false, false, None, 1000);
    VerbIs(c, VSet);
    assert c[3..] == args;
    if ParseSet(args, o).Some? {
      var options := ParsedIsWritten(args, o);
    }
  }

  // ----- deadlines -----------------------------------------------------------------------------------

  /** SETEX and PSETEX: the value and the deadline, if the time to live is a number above zero. */
  lemma SetExOutcome(db: Db, k: Key, amount: Bytes, text: Bytes, now: int)
    ensures var r, n := Exec(db, [SETEX, k, amount, text], now), Number(amount);
      if n.Some? && n.value > 0
      then Holds(r, k, String(text), Some(now + 1000 * n.value)) && OthersStay(db, r, {k}) else r == db
    ensures var r, n := Exec(db, [PSETEX, k, amount, text], now), Number(amount);
      if n.Some? && n.value > 0
      then Holds(r, k, String(text), Some(now + n.value)) && OthersStay(db, r, {k}) else r == db
  {
    VerbIs([SETEX, k, amount, text], VSetEx);
    VerbIs([PSETEX, k, amount, text], VPSetEx);
    ValueIsPut(db, k, String(text));
    if Number(amount).Some? {
      DeadlineIsSet(SetKey(db, k, String(text)), k, now + Number(amount).value * 1000);
      DeadlineIsSet(SetKey(db, k, String(text)), k, now + Number(amount).value * 1);
    }
  }

  /** The key keeps its value and has this deadline; if it is not there, or there is no number,
      nothing happens. */
  ghost predicate Expires(db: Db, r: Db, k: Key, at: Option<int>) {
    if k in db.dict && at.Some? then Holds(r, k, db.dict[k], at) && OthersStay(db, r, {k}) else r == db
  }

  function At(n: Option<int>, unit: nat, from: int): Option<int> {
    if n.None? then None else Some(from + n.value * unit)
  }

  lemma ExpireByDone(db: Db, k: Key, text: Bytes, unit: nat, from: int)
    ensures Expires(db, ExpireBy(db, k, text, unit, from), k, At(Number(text), unit, from))
  {
    if Number(text).Some? {
      DeadlineIsSet(db, k, Number(text).value * unit + from);
    }
  }

  /** EXPIRE and PEXPIRE count seconds and milliseconds from now, EXPIREAT and PEXPIREAT from zero. */
  lemma ExpireOutcome(db: Db, k: Key, text: Bytes, now: int)
    ensures Expires(db, Exec(db, [EXPIRE, k, text], now), k, At(Number(text), 1000, now))
    ensures Expires(db, Exec(db, [PEXPIRE, k, text], now), k, At(Number(text), 1, now))
    ensures Expires(db, Exec(db, [EXPIREAT, k, text], now), k, At(Number(text), 1000, 0))
    ensures Expires(db, Exec(db, [PEXPIREAT, k, text], now), k, At(Number(text), 1, 0))
  {
    VerbIs([EXPIRE, k, text], VExpire);
    VerbIs([PEXPIRE, k, text], VPExpire);
    VerbIs([EXPIREAT, k, text], VExpireAt);
    VerbIs([PEXPIREAT, k, text], VPExpireAt);
    ExpireByDone(db, k, text, 1000, now);
    ExpireByDone(db, k, text, 1, now);
    ExpireByDone(db, k, text, 1000, 0);
    ExpireByDone(db, k, text, 1, 0);
  }

  /** PERSIST: the key keeps its value and has no deadline. */
  lemma PersistOutcome(db: Db, k: Key, now: int)
    ensures var r := Exec(db, [PERSIST, k], now);
      if k in db.dict then Holds(r, k, db.dict[k], None) && OthersStay(db, r, {k}) else r == db
  {
    VerbIs([PERSIST, k], VPersist);
    DeadlineIsSet(db, k, 0);
  }

  /** RESTORE: every option must be REPLACE, the time to live a number that is not negative, and the
      payload good; without REPLACE the key must not be there. Then it has the value, and the time to
      live from now, zero meaning none. */
  lemma RestoreOutcome(db: Db, k: Key, ttl: Bytes, payload: Bytes, args: seq<Bytes>, now: int)
    requires db.expires.Keys <= db.dict.Keys
    ensures var r, n, v := Exec(db, [RESTORE, k, ttl, payload] + args, now), Number(ttl), UNDUMP(payload);
      if (forall a :: a in args ==> UpperAll(a) == REPLACE) && n.Some? && n.value >= 0 && v.Some? &&
         (k in db.dict ==> args != [])
      then Holds(r, k, v.value, if n.value == 0 then None else Some(now + n.value)) && OthersStay(db, r, {k})
      else r == db
  {
    var c := [RESTORE, k, ttl, payload] + args;
    VerbIs(c, VRestore);
    assert c[4..] == args && c[1] == k && c[2] == ttl && c[3] == payload;
    RestoreDone(db, k, RestoreArgs(c), now);
  }

  lemma RestoreDone(db: Db, k: Key, how: RestoreHow, now: int)
    requires db.expires.Keys <= db.dict.Keys
    ensures var r := ExecRestore(db, k, how, now);
      if Restores(db, k, how)
      then Holds(r, k, how.value, if how.ttl == 0 then None else Some(now + how.ttl)) && OthersStay(db, r, {k})
      else r == db
  {
    if Restores(db, k, how) {
      var cleared := if how.replace then Without(db, k) else db;
      KeysAreGone(db, {k});
      ValueIsPut(cleared, k, how.value);
      DeadlineIsSet(PutValue(cleared, k, how.value), k, now + how.ttl);
    }
  }

  // ----- collections ---------------------------------------------------------------------------------

  /** The value is put in the place of the old one, under the old deadline, or nothing happens. */
  ghost predicate Becomes(db: Db, r: Db, k: Key, v: Option<Value>) {
    if v.Some? then Holds(r, k, v.value, DeadlineOf(db, k)) && OthersStay(db, r, {k}) else r == db
  }

  /** RPUSH: the items come after those of the list. A value of another kind stays. */
  lemma PushOutcome(db: Db, k: Key, items: seq<Bytes>, now: int)
    requires items != []
    ensures Becomes(db, Exec(db, [RPUSH, k] + items, now), k,
                    if k !in db.dict then Some(List(items))
                    else if db.dict[k].List? then Some(List(db.dict[k].items + items)) else None)
  {
    var c := [RPUSH, k] + items;
    VerbIs(c, VPush);
    assert c[2..] == items && c[1] == k;
    ValueIsPut(db, k, List(items));
    if k in db.dict && db.dict[k].List? {
      ValueIsPut(db, k, List(db.dict[k].items + items));
    }
  }

  /** SADD: the members and those of the set. */
  lemma AddOutcome(db: Db, k: Key, members: seq<Bytes>, now: int)
    requires members != []
    ensures var r := Exec(db, [SADD, k] + members, now);
      if k in db.dict && !db.dict[k].Set? then r == db
      else && k in r.dict && r.dict[k].Set? && DeadlineOf(r, k) == DeadlineOf(db, k) && OthersStay(db, r, {k})
           && forall m :: m in r.dict[k].members <==> m in members || (k in db.dict && m in db.dict[k].members)
  {
    var c := [SADD, k] + members;
    VerbIs(c, VAddMembers);
    assert c[2..] == members && c[1] == k;
  }

  /** The last of the pairs with this key has this value. */
  ghost predicate LastPair(args: seq<Bytes>, keyFirst: bool, x: Bytes, y: Bytes) {
    exists i :: PairAt(args, keyFirst, i, x, y) && forall j :: i < j ==> !KeyAt(args, keyFirst, j, x)
  }

  ghost predicate KeyAt(args: seq<Bytes>, keyFirst: bool, i: int, x: Bytes) {
    0 <= i && 2 * i + 1 < |args| && args[if keyFirst then 2 * i else 2 * i + 1] == x
  }

  ghost predicate PairAt(args: seq<Bytes>, keyFirst: bool, i: int, x: Bytes, y: Bytes) {
    KeyAt(args, keyFirst, i, x) && args[if keyFirst then 2 * i + 1 else 2 * i] == y
  }

  ghost predicate NoPair(args: seq<Bytes>, keyFirst: bool, x: Bytes) {
    forall i :: !KeyAt(args, keyFirst, i, x)
  }

  /** The map with the pairs: the last one of a key counts, and keys without a pair stay. */
  ghost predicate PairsPut(m: map<Bytes, Bytes>, args: seq<Bytes>, keyFirst: bool, r: map<Bytes, Bytes>) {
    forall x :: PairPut(m, args, keyFirst, r, x)
  }

  ghost predicate PairPut(m: map<Bytes, Bytes>, args: seq<Bytes>, keyFirst: bool, r: map<Bytes, Bytes>, x: Bytes) {
    && (x in r <==> x in m || !NoPair(args, keyFirst, x))
    && (x in r ==> LastPair(args, keyFirst, x, r[x]) || (NoPair(args, keyFirst, x) && r[x] == m[x]))
  }

  lemma {:induction false} PairsArePut(m: map<Bytes, Bytes>, args: seq<Bytes>, keyFirst: bool, x: Bytes)
    ensures PairPut(m, args, keyFirst, PutPairs(m, args, keyFirst), x)
    decreases |args|
  {
    if |args| >= 2 {
      var more := if keyFirst then m[args[0] := args[1]] else m[args[1] := args[0]];
      PairsArePut(more, args[2..], keyFirst, x);
      FirstPair(m, args, args[2..], keyFirst, more, PutPairs(more, args[2..], keyFirst), x);
    }
  }

  lemma LaterKey(args: seq<Bytes>, rest: seq<Bytes>, keyFirst: bool, x: Bytes)
    requires |args| >= 2 && rest == args[2..]
    ensures forall i :: i >= 0 ==> (KeyAt(rest, keyFirst, i, x) <==> KeyAt(args, keyFirst, i + 1, x))
    ensures forall i, y :: PairAt(rest, keyFirst, i, x, y) ==> PairAt(args, keyFirst, i + 1, x, y)
  {}

  lemma FirstPair(m: map<Bytes, Bytes>, args: seq<Bytes>, rest: seq<Bytes>, keyFirst: bool, more: map<Bytes, Bytes>,
                  r: map<Bytes, Bytes>, x: Bytes)
    requires |args| >= 2 && rest == args[2..] && PairPut(more, rest, keyFirst, r, x)
    requires more == if keyFirst then m[args[0] := args[1]] else m[args[1] := args[0]]
    ensures PairPut(m, args, keyFirst, r, x)
  {
    LaterKey(args, rest, keyFirst, x);
    if x in r && LastPair(rest, keyFirst, x, r[x]) {
      var i :| PairAt(rest, keyFirst, i, x, r[x]) && forall j :: i < j ==> !KeyAt(rest, keyFirst, j, x);
      assert PairAt(args, keyFirst, i + 1, x, r[x]);
      forall j | i + 1 < j ensures !KeyAt(args, keyFirst, j, x) {
        assert !KeyAt(rest, keyFirst, j - 1, x);
      }
    } else if KeyAt(args, keyFirst, 0, x) {
      assert x in more && PairAt(args, keyFirst, 0, x, more[x]);
      forall j | 0 < j && x in r ensures !KeyAt(args, keyFirst, j, x) {
        assert !KeyAt(rest, keyFirst, j - 1, x);
      }
    } else {
      forall i ensures KeyAt(args, keyFirst, i, x) <==> KeyAt(rest, keyFirst, i - 1, x) {}
    }
  }

  /** ZADD: every member that is given has the last score that is given for it. */
  lemma ScoreOutcome(db: Db, k: Key, args: seq<Bytes>, now: int)
    requires |args| >= 2 && |args| % 2 == 0
    ensures var r := Exec(db, [ZADD, k] + args, now);
      if k in db.dict && !db.dict[k].SortedSet? then r == db
      else && k in r.dict && r.dict[k].SortedSet? && DeadlineOf(r, k) == DeadlineOf(db, k) && OthersStay(db, r, {k})
           && PairsPut(if k in db.dict then db.dict[k].scores else map[], args, false, r.dict[k].scores)
  {
    var c := [ZADD, k] + args;
    VerbIs(c, VAddScores);
    assert c[2..] == args && c[1] == k;
    var before := if k in db.dict && db.dict[k].SortedSet? then db.dict[k].scores else map[];
    forall x ensures PairPut(before, args, false, PutPairs(before, args, false), x) {
      PairsArePut(before, args, false, x);
    }
  }

  /** HMSET: every field that is given has the last value that is given for it. */
  lemma FieldOutcome(db: Db, k: Key, args: seq<Bytes>, now: int)
    requires |args| >= 2 && |args| % 2 == 0
    ensures var r := Exec(db, [HMSET, k] + args, now);
      if k in db.dict && !db.dict[k].Hash? then r == db
      else && k in r.dict && r.dict[k].Hash? && DeadlineOf(r, k) == DeadlineOf(db, k) && OthersStay(db, r, {k})
           && PairsPut(if k in db.dict then db.dict[k].fields else map[], args, true, r.dict[k].fields)
  {
    var c := [HMSET, k] + args;
    VerbIs(c, VSetFields);
    assert c[2..] == args && c[1] == k;
    var before := if k in db.dict && db.dict[k].Hash? then db.dict[k].fields else map[];
    forall x ensures PairPut(before, args, true, PutPairs(before, args, true), x) {
      PairsArePut(before, args, true, x);
    }
  }
}
