/** What commands do to the databases, at a given reading of the clock: those that the server
    writes of its own accord and those that give or take deadlines are spelt out, every other
    command is a parameter. */
module Commands {
  import opened Database
  import opened Decimal
  import opened Options
  import opened Resp
  import opened Verbs

  // ----- values ---------------------------------------------------------------------------------

  /** RPUSH; a value of another type is left alone. */
  function PushItems(db: Db, k: Key, items: seq<Bytes>): Db {
    if k !in db.dict then PutValue(db, k, List(items))
    else if db.dict[k].List? then PutValue(db, k, List(db.dict[k].items + items))
    else db
  }

  /** SADD. */
  function AddMembers(db: Db, k: Key, members: seq<Bytes>): Db {
    var added := set m | m in members;
    if k !in db.dict then PutValue(db, k, Set(added))
    else if db.dict[k].Set? then PutValue(db, k, Set(db.dict[k].members + added))
    else db
  }

  /** The arguments of ZADD (score, member) and HMSET (field, value) in pairs, added to a map. */
  function PutPairs(m: map<Bytes, Bytes>, args: seq<Bytes>, keyFirst: bool): map<Bytes, Bytes>
    decreases |args|
  {
    if |args| < 2 then m
    else PutPairs(if keyFirst then m[args[0] := args[1]] else m[args[1] := args[0]], args[2..], keyFirst)
  }

  /** ZADD. */
  function AddScores(db: Db, k: Key, args: seq<Bytes>): Db {
    if k !in db.dict then PutValue(db, k, SortedSet(PutPairs(map[], args, false)))
    else if db.dict[k].SortedSet? then PutValue(db, k, SortedSet(PutPairs(db.dict[k].scores, args, false)))
    else db
  }

  /** HMSET. */
  function SetFields(db: Db, k: Key, args: seq<Bytes>): Db {
    if k !in db.dict then PutValue(db, k, Hash(PutPairs(map[], args, true)))
    else if db.dict[k].Hash? then PutValue(db, k, Hash(PutPairs(db.dict[k].fields, args, true)))
    else db
  }

  // ----- SET and RESTORE ------------------------------------------------------------------------

  datatype SetOptions = SetOptions(nx: bool, xx: bool, expire: Option<Bytes>, unit: nat)

  /** A two-letter option in any case, which a zero byte may end. */
  predicate IsOption(a: Bytes, x: Byte, y: Byte) {
    |a| >= 2 && Upper(a[0]) == x && Upper(a[1]) == y && (|a| == 2 || a[2] == 0)
  }

  /** The options of setCommand: NX, XX, EX and PX, the last time winning. */
  function ParseSet(args: seq<Bytes>, o: SetOptions): Option<SetOptions>
    decreases |args|
  {
    if args == [] then Some(o)
    else if IsOption(args[0], 78, 88) then ParseSet(args[1..], o.(nx := true))
    else if IsOption(args[0], 88, 88) then ParseSet(args[1..], o.(xx := true))
    else if IsOption(args[0], 69, 88) && |args| > 1 then ParseSet(args[2..], o.(expire := Some(args[1]), unit := 1000))
    else if IsOption(args[0], 80, 88) && |args| > 1 then ParseSet(args[2..], o.(expire := Some(args[1]), unit := 1))
    else None
  }

  /** A time to live in milliseconds, from a number that must be positive. */
  function Ttl(text: Bytes, unit: nat): Option<int> {
    match Number(text)
    case None => None
    case Some(n) => if n <= 0 then None else Some(n * unit)
  }

  /** How SET is to be executed: not at all, or under a condition and with a time to live. */
  datatype SetHow = Refuse | Put(nx: bool, xx: bool, ttl: Option<int>)

  function SetArgs(c: Command): SetHow
    requires |c| >= 3
  {
    match ParseSet(c[3..], SetOptions(false, false, None, 1000))
    case None => Refuse
    case Some(o) =>
      match o.expire
      case None => Put(o.nx, o.xx, None)
      case Some(text) =>
        (match Ttl(text, o.unit)
         case None => Refuse
         case Some(ttl) => Put(o.nx, o.xx, Some(ttl)))
  }

  /** Whether SET stores the value, by whether the key is there. */
  predicate StoresIf(there: bool, how: SetHow) {
    how.Put? && !(how.nx && there) && !(how.xx && !there)
  }

  predicate Stores(db: Db, k: Key, how: SetHow) {
    StoresIf(k in db.dict, how)
  }

  function ExecSet(db: Db, k: Key, text: Bytes, how: SetHow, now: int): Db {
    if !Stores(db, k, how) then db
    else
      var stored := SetKey(db, k, String(text));
      if how.ttl.None? then stored else ExpireAt(stored, k, now + how.ttl.value)
  }

  /** What verifyDumpPayload and rdbLoadObject make of a payload. */
  const UNDUMP: Bytes -> Option<Value>

  const REPLACE: Bytes := [82, 69, 80, 76, 65, 67, 69]

  /** Every option of restoreCommand must be REPLACE; the time to live must not be negative, zero
      meaning none. */
  datatype RestoreHow = RefuseRestore | Restore(replace: bool, ttl: int, value: Value)

  function RestoreArgs(c: Command): RestoreHow
    requires |c| >= 4
  {
    if exists a :: a in c[4..] && UpperAll(a) != REPLACE then RefuseRestore
    else
      match Number(c[2])
      case None => RefuseRestore
      case Some(ttl) =>
        if ttl < 0 || UNDUMP(c[3]).None? then RefuseRestore else Restore(|c| > 4, ttl, UNDUMP(c[3]).value)
  }

  predicate RestoresIf(there: bool, how: RestoreHow) {
    how.Restore? && (how.replace || !there)
  }

  predicate Restores(db: Db, k: Key, how: RestoreHow) {
    RestoresIf(k in db.dict, how)
  }

  function ExecRestore(db: Db, k: Key, how: RestoreHow, now: int): Db {
    if !Restores(db, k, how) then db
    else
      var stored := PutValue(if how.replace then Without(db, k) else db, k, how.value);
      if how.ttl == 0 then stored else ExpireAt(stored, k, now + how.ttl)
  }

  // ----- one database ---------------------------------------------------------------------------

  /** Commands that read and change the selected database alone. */
  predicate Local(c: Command) {
    var v := VerbOf(c);
    !(v.VSelect? || v.VMove? || v.VFlushAll? || v.VOther?)
  }

  function ExpireBy(db: Db, k: Key, text: Bytes, unit: nat, from: int): Db {
    match Number(text)
    case None => db
    case Some(n) => ExpireAt(db, k, n * unit + from)
  }

  function SetWithTtl(db: Db, c: Command, unit: nat, now: int): Db
    requires |c| == 4
  {
    match Ttl(c[2], unit)
    case None => db
    case Some(ttl) => ExpireAt(SetKey(db, c[1], String(c[3])), c[1], now + ttl)
  }

  /** A command in the selected database, `now` being the clock. (EXPIRE with a deadline in the
      past deletes the key unless the server is loading; a DEL is then written in its place.) */
  function Exec(db: Db, c: Command, now: int): Db {
    match VerbOf(c)
    case VSet => ExecSet(db, c[1], c[2], SetArgs(c), now)
    case VSetEx => SetWithTtl(db, c, 1000, now)
    case VPSetEx => SetWithTtl(db, c, 1, now)
    case VExpire => ExpireBy(db, c[1], c[2], 1000, now)
    case VPExpire => ExpireBy(db, c[1], c[2], 1, now)
    case VExpireAt => ExpireBy(db, c[1], c[2], 1000, 0)
    case VPExpireAt => ExpireBy(db, c[1], c[2], 1, 0)
    case VPersist => Persist(db, c[1])
    case VDel => WithoutAll(db, set k | k in c[1..])
    case VRestore => ExecRestore(db, c[1], RestoreArgs(c), now)
    case VPush => PushItems(db, c[1], c[2..])
    case VAddMembers => AddMembers(db, c[1], c[2..])
    case VAddScores => AddScores(db, c[1], c[2..])
    case VSetFields => SetFields(db, c[1], c[2..])
    case VFlushDb => EMPTY_DB
    case _ => db
  }

  // ----- the clock ------------------------------------------------------------------------------

  /** The command gives a key a deadline that counts from now. */
  predicate SetsTtl(db: Db, c: Command) {
    match VerbOf(c)
    case VSet => Stores(db, c[1], SetArgs(c)) && SetArgs(c).ttl.Some?
    case VSetEx => Ttl(c[2], 1000).Some?
    case VPSetEx => Ttl(c[2], 1).Some?
    case VExpire => Number(c[2]).Some? && c[1] in db.dict
    case VPExpire => Number(c[2]).Some? && c[1] in db.dict
    case VRestore => Restores(db, c[1], RestoreArgs(c)) && RestoreArgs(c).ttl != 0
    case _ => false
  }

  /** At two readings of the clock a command does the same if and only if the readings are the
      same or it gives no key a time to live. */
  lemma ClockMatters(db: Db, c: Command, t: int, u: int)
    ensures Exec(db, c, t) == Exec(db, c, u) <==> t == u || !SetsTtl(db, c)
  {
    if SetsTtl(db, c) {
      DeadlineFromNow(db, c, t);
      DeadlineFromNow(db, c, u);
    }
  }

  /** How far in the future it puts the deadline. */
  function TtlOf(c: Command): int {
    match VerbOf(c)
    case VSet => if SetArgs(c).Put? && SetArgs(c).ttl.Some? then SetArgs(c).ttl.value else 0
    case VSetEx => if Ttl(c[2], 1000).Some? then Ttl(c[2], 1000).value else 0
    case VPSetEx => if Ttl(c[2], 1).Some? then Ttl(c[2], 1).value else 0
    case VExpire => if Number(c[2]).Some? then Number(c[2]).value * 1000 else 0
    case VPExpire => if Number(c[2]).Some? then Number(c[2]).value else 0
    case VRestore => if RestoreArgs(c).Restore? then RestoreArgs(c).ttl else 0
    case _ => 0
  }

  lemma DeadlineFromNow(db: Db, c: Command, now: int)
    requires SetsTtl(db, c)
    ensures |c| > 1 && c[1] in Exec(db, c, now).expires && Exec(db, c, now).expires[c[1]] == now + TtlOf(c)
  {}

  // ----- all databases --------------------------------------------------------------------------

  /** The databases and the one that the client of the loader has selected. */
  datatype World = World(dbs: seq<Db>, selected: nat)

  /** The commands of which nothing is known here: what they make of all the databases, given the
      clock. */
  type Others = (World, Command, int) -> seq<Db>

  /** No command changes the number of databases. */
  function ExecOther(other: Others, w: World, c: Command, now: int): (dbs: seq<Db>)
    ensures |dbs| == |w.dbs|
  {
    var dbs := other(w, c, now);
    if |dbs| == |w.dbs| then dbs else w.dbs
  }

  /** moveCommand: a key that is missing in the target goes there, and loses its deadline. */
  function Move(dbs: seq<Db>, j: nat, k: Key, target: Option<int>): (r: seq<Db>)
    requires j < |dbs|
    ensures |r| == |dbs|
  {
    if target.None? || !(0 <= target.value < |dbs|) || target.value == j then dbs
    else
      var i: nat := target.value;
      if k !in dbs[j].dict || k in dbs[i].dict then dbs
      else dbs[i := PutValue(dbs[i], k, dbs[j].dict[k])][j := Without(dbs[j], k)]
  }

  function Step(other: Others, w: World, c: Command, now: int): (w': World)
    ensures |w'.dbs| == |w.dbs|
  {
    if w.selected >= |w.dbs| then w
    else
      match VerbOf(c)
      case VSelect =>
        (match Number(c[1])
         case None => w
         case Some(j) => if 0 <= j < |w.dbs| then w.(selected := j) else w)
      case VMove => w.(dbs := Move(w.dbs, w.selected, c[1], Number(c[2])))
      case VFlushAll => w.(dbs := seq(|w.dbs|, _ => EMPTY_DB))
      case VOther => w.(dbs := ExecOther(other, w, c, now))
      case _ => w.(dbs := w.dbs[w.selected := Exec(w.dbs[w.selected], c, now)])
  }

  /** Loading a file that holds these commands, with the clock at `now`. */
  function Replay(other: Others, w: World, cs: seq<Command>, now: int): World
    decreases |cs|
  {
    if cs == [] then w else Replay(other, Step(other, w, cs[0], now), cs[1..], now)
  }

  /** Loading it while the clock runs: a reading for every command. */
  function ReplayAt(other: Others, w: World, cs: seq<Command>, at: seq<int>): World
    requires |at| == |cs|
    decreases |cs|
  {
    if cs == [] then w else ReplayAt(other, Step(other, w, cs[0], at[0]), cs[1..], at[1..])
  }

  /** The command does not depend on the clock. */
  ghost predicate Timeless(other: Others, c: Command) {
    forall w, t, u :: Step(other, w, c, t) == Step(other, w, c, u)
  }

  ghost predicate AllTimeless(other: Others, cs: seq<Command>) {
    forall c :: c in cs ==> Timeless(other, c)
  }

  /** Commands that do not depend on the clock replay to the same whenever they are loaded. */
  lemma {:induction false} ClockFree(other: Others, w: World, cs: seq<Command>, at: seq<int>, now: int)
    requires AllTimeless(other, cs) && |at| == |cs|
    ensures ReplayAt(other, w, cs, at) == Replay(other, w, cs, now)
    decreases |cs|
  {
    if cs != [] {
      assert Timeless(other, cs[0]);
      ClockFree(other, Step(other, w, cs[0], now), cs[1..], at[1..], now);
    }
  }

  lemma SameReading(other: Others, w: World, cs: seq<Command>, t: int, u: int)
    requires AllTimeless(other, cs)
    ensures Replay(other, w, cs, t) == Replay(other, w, cs, u)
  {
    var at := seq(|cs|, _ => t);
    ClockFree(other, w, cs, at, t);
    ClockFree(other, w, cs, at, u);
  }

  /** Whether a command can give a key a time to live at all. */
  predicate GivesTtl(c: Command) {
    match VerbOf(c)
    case VSet => SetArgs(c).Put? && SetArgs(c).ttl.Some? && !(SetArgs(c).nx && SetArgs(c).xx)
    case VSetEx => Ttl(c[2], 1000).Some?
    case VPSetEx => Ttl(c[2], 1).Some?
    case VExpire => Number(c[2]).Some?
    case VPExpire => Number(c[2]).Some?
    case VRestore => RestoreArgs(c).Restore? && RestoreArgs(c).ttl != 0
    case _ => false
  }

  /** A database in which it does. */
  lemma TtlIsGiven(c: Command) returns (db: Db)
    requires GivesTtl(c)
    ensures SetsTtl(db, c)
  {
    var there := Db(map[c[1] := String([])], map[]);
    match VerbOf(c)
    case VSet => db := if SetArgs(c).xx then there else EMPTY_DB;
    case VRestore => db := EMPTY_DB;
    case _ => db := there;
  }

  /** A command that is spelt out is independent of the clock if and only if it cannot give a
      time to live. */
  lemma TimelessExactly(other: Others, c: Command)
    requires !VerbOf(c).VOther?
    ensures Timeless(other, c) <==> !GivesTtl(c)
  {
    if GivesTtl(c) {
      var db := TtlIsGiven(c);
      var w := World([db], 0);
      ClockMatters(db, c, 0, 1);
      assert Step(other, w, c, 0).dbs[0] == Exec(db, c, 0) && Step(other, w, c, 1).dbs[0] == Exec(db, c, 1);
      assert Step(other, w, c, 0) != Step(other, w, c, 1);
    } else {
      forall w, t, u ensures Step(other, w, c, t) == Step(other, w, c, u) {
        if w.selected < |w.dbs| && Local(c) {
          NeverGiven(w.dbs[w.selected], c);
          ClockMatters(w.dbs[w.selected], c, t, u);
        }
      }
    }
  }

  lemma NeverGiven(db: Db, c: Command)
    requires !GivesTtl(c)
    ensures !SetsTtl(db, c)
  {}

  // ----- replaying ------------------------------------------------------------------------------

  lemma {:induction false} ReplayAppend(other: Others, w: World, a: seq<Command>, b: seq<Command>, now: int)
    ensures Replay(other, w, a + b, now) == Replay(other, Replay(other, w, a, now), b, now)
    decreases |a|
  {
    if a == [] {
      assert a + b == b;
    } else {
      assert (a + b)[1..] == a[1..] + b;
      ReplayAppend(other, Step(other, w, a[0], now), a[1..], b, now);
    }
  }

  lemma {:induction false} ReplaySizes(other: Others, w: World, cs: seq<Command>, now: int)
    requires w.selected < |w.dbs|
    ensures |Replay(other, w, cs, now).dbs| == |w.dbs| && Replay(other, w, cs, now).selected < |w.dbs|
    decreases |cs|
  {
    if cs != [] {
      ReplaySizes(other, Step(other, w, cs[0], now), cs[1..], now);
    }
  }

  /** Commands that all run in the selected database. */
  function ExecAll(db: Db, cs: seq<Command>, now: int): Db
    decreases |cs|
  {
    if cs == [] then db else ExecAll(Exec(db, cs[0], now), cs[1..], now)
  }

  predicate AllLocal(cs: seq<Command>) {
    forall c :: c in cs ==> Local(c)
  }

  lemma StepIsExec(other: Others, w: World, c: Command, now: int)
    requires Local(c) && w.selected < |w.dbs|
    ensures Step(other, w, c, now) == w.(dbs := w.dbs[w.selected := Exec(w.dbs[w.selected], c, now)])
  {}

  lemma {:induction false} ReplayIsExecAll(other: Others, w: World, cs: seq<Command>, now: int)
    requires AllLocal(cs) && w.selected < |w.dbs|
    ensures Replay(other, w, cs, now) == w.(dbs := w.dbs[w.selected := ExecAll(w.dbs[w.selected], cs, now)])
    decreases |cs|
  {
    if cs == [] {
      assert w.dbs[w.selected := w.dbs[w.selected]] == w.dbs;
    } else {
      assert cs[0] in cs;
      StepIsExec(other, w, cs[0], now);
      ReplayIsExecAll(other, Step(other, w, cs[0], now), cs[1..], now);
    }
  }

  lemma {:induction false} ExecAllAppend(db: Db, a: seq<Command>, b: seq<Command>, now: int)
    ensures ExecAll(db, a + b, now) == ExecAll(ExecAll(db, a, now), b, now)
    decreases |a|
  {
    if a == [] {
      assert a + b == b;
    } else {
      assert (a + b)[1..] == a[1..] + b;
      ExecAllAppend(Exec(db, a[0], now), a[1..], b, now);
    }
  }
}
