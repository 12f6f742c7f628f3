/** Every run of the dictionary behaves like the same run on one finite map. */
module DictRefinement {
  import opened Options
  import opened Dict

  /** A call, with the setting of dict_can_resize at that moment where it matters. */
  datatype Op =
    | OpAdd(k: Key, v: Val, canResize: bool)
    | OpReplace(k: Key, v: Val, canResize: bool)
    | OpFind(k: Key)
    | OpDelete(k: Key)
    | OpSize
    | OpExpand(size: nat)
    | OpResize(canResize: bool)
    | OpRehash(n: nat)
    | OpIteratorStart
    | OpIteratorRelease
    | OpEmpty

  /** What a caller sees; table maintenance shows nothing. */
  datatype Answer = Flag(ok: bool) | Value(value: Option<Val>) | Size(n: int) | Nothing

  /** A release matches a started iterator. */
  predicate Allowed(d: State, op: Op) {
    op.OpIteratorRelease? ==> d.iterators > 0
  }

  function Exec(d: State, op: Op): (r: (State, Answer))
    requires Valid(d) && Allowed(d, op)
    ensures Valid(r.0)
  {
    match op
    case OpAdd(k, v, can) => var (e, b) := Add(d, k, v, can); (e, Flag(b))
    case OpReplace(k, v, can) => var (e, b) := Replace(d, k, v, can); (e, Flag(b))
    case OpFind(k) => var (e, found) := Find(d, k); (e, Value(if found.Some? then Some(found.value.val) else None))
    case OpDelete(k) => var (e, b) := Delete(d, k); (e, Flag(b))
    case OpSize => (d, Size(d.used0 + d.used1))
    case OpExpand(size) => (Expand(d, size).0, Nothing)
    case OpResize(can) => (Resize(d, can).0, Nothing)
    case OpRehash(n) => (Rehash(d, n).0, Nothing)
    case OpIteratorStart => (d.(iterators := d.iterators + 1), Nothing)
    case OpIteratorRelease => (d.(iterators := d.iterators - 1), Nothing)
    case OpEmpty => (CREATED.(log := d.log), Nothing)
  }

  /** The same call on a map. */
  function ExecMap(m: map<Key, Val>, op: Op): (map<Key, Val>, Answer) {
    match op
    case OpAdd(k, v, _) => if k in m then (m, Flag(false)) else (m[k := v], Flag(true))
    case OpReplace(k, v, _) => (m[k := v], Flag(k !in m))
    case OpFind(k) => (m, Value(if k in m then Some(m[k]) else None))
    case OpDelete(k) => (m - {k}, Flag(k in m))
    case OpSize => (m, Size(|m|))
    case OpEmpty => (map[], Nothing)
    case _ => (m, Nothing)
  }

  lemma AbsIs(d: State, m: map<Key, Val>)
    requires forall k :: k in m <==> Lookup(d, k).Some?
    requires forall k :: k in m ==> m[k] == Lookup(d, k).value.val
    ensures Abs(d) == m
  {
    AbsLookup(d);
  }

  lemma RemovedSize(m: map<Key, Val>, k: Key)
    ensures |m - {k}| == |m| - if k in m then 1 else 0
  {
    if k in m {
      assert m == (m - {k})[k := m[k]];
    } else {
      assert m == m - {k};
    }
  }

  /** The two `used` counters count the keys of the map. */
  ghost predicate SizeExact(d: State) {
    |Abs(d)| == d.used0 + d.used1
  }

  /** The answer is that of the same call on the map, and the state stands for the map that it leaves. */
  ghost predicate Refines(d: State, op: Op, e: State, a: Answer) {
    SizeExact(e) && (Abs(e), a) == ExecMap(Abs(d), op)
  }

  /** The key has the value, and nothing else is different. */
  ghost predicate Puts(d: State, k: Key, v: Val, e: State) {
    && (forall j :: j != k ==> Lookup(e, j) == Lookup(d, j))
    && Lookup(e, k).Some? && Lookup(e, k).value.val == v
    && e.used0 + e.used1 == d.used0 + d.used1 + if Lookup(d, k).None? then 1 else 0
  }

  ghost predicate Drops(d: State, k: Key, e: State) {
    && (forall j :: Lookup(e, j) == if j == k then None else Lookup(d, j))
    && e.used0 + e.used1 == d.used0 + d.used1 - if Lookup(d, k).Some? then 1 else 0
  }

  ghost predicate Keeps(d: State, e: State) {
    (forall j :: Lookup(e, j) == Lookup(d, j)) && e.used0 + e.used1 == d.used0 + d.used1
  }

  /** What a call does to the entries, and its answer. */
  ghost predicate Effect(d: State, op: Op, e: State, a: Answer) {
    match op
    case OpAdd(k, v, _) =>
      a == Flag(Lookup(d, k).None?) && if Lookup(d, k).None? then Puts(d, k, v, e) else Keeps(d, e)
    case OpReplace(k, v, _) => a == Flag(Lookup(d, k).None?) && Puts(d, k, v, e)
    case OpFind(k) =>
      a == Value(if Lookup(d, k).Some? then Some(Lookup(d, k).value.val) else None) && Keeps(d, e)
    case OpDelete(k) => a == Flag(Lookup(d, k).Some?) && Drops(d, k, e)
    case OpSize => a == Size(d.used0 + d.used1) && Keeps(d, e)
    case OpEmpty => a == Nothing && (forall j :: Lookup(e, j).None?) && e.used0 + e.used1 == 0
    case _ => a == Nothing && Keeps(d, e)
  }

  lemma PutsRefines(d: State, k: Key, v: Val, e: State)
    requires SizeExact(d) && Puts(d, k, v, e)
    ensures SizeExact(e) && Abs(e) == Abs(d)[k := v]
  {
    AbsLookup(d);
    AbsIs(e, Abs(d)[k := v]);
  }

  lemma DropsRefines(d: State, k: Key, e: State)
    requires SizeExact(d) && Drops(d, k, e)
    ensures SizeExact(e) && Abs(e) == Abs(d) - {k}
  {
    AbsLookup(d);
    AbsIs(e, Abs(d) - {k});
    RemovedSize(Abs(d), k);
  }

  lemma EffectRefines(d: State, op: Op, e: State, a: Answer)
    requires SizeExact(d) && Effect(d, op, e, a)
    ensures Refines(d, op, e, a)
  {
    AbsLookup(d);
    match op
    case OpAdd(k, v, _) =>
      if Lookup(d, k).None? { PutsRefines(d, k, v, e); } else { SameMap(e, d); }
    case OpReplace(k, v, _) => PutsRefines(d, k, v, e);
    case OpDelete(k) => DropsRefines(d, k, e);
    case OpEmpty => AbsIs(e, map[]);
    case _ => SameMap(e, d);
  }

  lemma AddEffect(d: State, k: Key, v: Val, canResize: bool)
    requires Valid(d)
    ensures var (e, b) := Add(d, k, v, canResize); Effect(d, OpAdd(k, v, canResize), e, Flag(b))
  {}

  lemma ReplaceEffect(d: State, k: Key, v: Val, canResize: bool)
    requires Valid(d)
    ensures var (e, b) := Replace(d, k, v, canResize); Effect(d, OpReplace(k, v, canResize), e, Flag(b))
  {}

  lemma FindEffect(d: State, k: Key)
    requires Valid(d)
    ensures var (e, found) := Find(d, k);
      Effect(d, OpFind(k), e, Value(if found.Some? then Some(found.value.val) else None))
  {}

  lemma DeleteEffect(d: State, k: Key)
    requires Valid(d)
    ensures var (e, b) := Delete(d, k); Effect(d, OpDelete(k), e, Flag(b))
  {}

  lemma UnchangedKeeps(d: State, e: State)
    requires Unchanged(e, d)
    ensures Keeps(d, e)
  {}

  lemma RehashKeeps(d: State, n: nat)
    requires Valid(d)
    ensures Keeps(d, Rehash(d, n).0)
  {
    UnchangedKeeps(d, Rehash(d, n).0);
  }

  lemma ExpandKeeps(d: State, size: nat)
    requires Valid(d)
    ensures Keeps(d, Expand(d, size).0)
  {
    UnchangedKeeps(d, Expand(d, size).0);
  }

  lemma ResizeKeeps(d: State, canResize: bool)
    requires Valid(d)
    ensures Keeps(d, Resize(d, canResize).0)
  {
    UnchangedKeeps(d, Resize(d, canResize).0);
  }

  lemma ExecEffect(d: State, op: Op)
    requires Valid(d) && Allowed(d, op)
    ensures Effect(d, op, Exec(d, op).0, Exec(d, op).1)
  {
    match op
    case OpAdd(k, v, can) => AddEffect(d, k, v, can);
    case OpReplace(k, v, can) => ReplaceEffect(d, k, v, can);
    case OpFind(k) => FindEffect(d, k);
    case OpDelete(k) => DeleteEffect(d, k);
    case OpExpand(size) => ExpandKeeps(d, size);
    case OpResize(can) => ResizeKeeps(d, can);
    case OpRehash(n) => RehashKeeps(d, n);
    case _ =>
  }

  /** One call: the answer and the new contents are those of the map. */
  lemma ExecRefines(d: State, op: Op)
    requires Valid(d) && Allowed(d, op) && SizeExact(d)
    ensures SizeExact(Exec(d, op).0)
    ensures (Abs(Exec(d, op).0), Exec(d, op).1) == ExecMap(Abs(d), op)
  {
    ExecEffect(d, op);
    EffectRefines(d, op, Exec(d, op).0, Exec(d, op).1);
  }

  /** `states` and `answers` are what the calls `ops` went through. */
  ghost predicate Run(ops: seq<Op>, states: seq<State>, answers: seq<Answer>) {
    && |states| == |ops| + 1 && |answers| == |ops| && states[0] == CREATED
    && forall i :: 0 <= i < |ops| ==>
         Valid(states[i]) && Allowed(states[i], ops[i]) && Exec(states[i], ops[i]) == (states[i + 1], answers[i])
  }

  function MapRun(ops: seq<Op>): (map<Key, Val>, seq<Answer>) {
    if ops == [] then (map[], [])
    else
      var (m, before) := MapRun(ops[..|ops| - 1]);
      var (m', a) := ExecMap(m, ops[|ops| - 1]);
      (m', before + [a])
  }

  /** The state stands for the map that the calls leave, and the answers are those of the map. */
  ghost predicate Refined(ops: seq<Op>, d: State, answers: seq<Answer>) {
    Valid(d) && SizeExact(d) && (Abs(d), answers) == MapRun(ops)
  }

  lemma RefinedNext(ops: seq<Op>, n: nat, d: State, before: seq<Answer>, e: State, a: Answer, answers: seq<Answer>)
    requires |ops| == n + 1 && Refined(ops[..n], d, before) && answers == before + [a]
    requires Allowed(d, ops[n]) && Exec(d, ops[n]) == (e, a)
    ensures Refined(ops, e, answers)
  {
    ExecRefines(d, ops[n]);
  }

  lemma RunBefore(ops: seq<Op>, states: seq<State>, answers: seq<Answer>, n: nat)
    requires Run(ops, states, answers) && |ops| == n + 1
    ensures Run(ops[..n], states[..n + 1], answers[..n])
    ensures Valid(states[n]) && Allowed(states[n], ops[n])
    ensures Exec(states[n], ops[n]) == (states[n + 1], answers[n])
  {}

  /** From a new dictionary, whatever calls are made and however the tables are resized,
      expanded and rehashed in between, the answers are those of a plain map, the state
      stays valid and the two `used` counters add up to the number of keys. */
  lemma DictionaryRefinesMap(ops: seq<Op>, states: seq<State>, answers: seq<Answer>)
    requires Run(ops, states, answers)
    ensures var d := states[|ops|];
      Valid(d) && SizeExact(d) && (Abs(d), answers) == MapRun(ops)
  {
    RunRefined(ops, states, answers);
  }

  lemma {:induction false} RunRefined(ops: seq<Op>, states: seq<State>, answers: seq<Answer>)
    requires Run(ops, states, answers)
    ensures Refined(ops, states[|ops|], answers)
  {
    if ops == [] {
      AbsIs(CREATED, map[]);
    } else {
      var n := |ops| - 1;
      RunBefore(ops, states, answers, n);
      RunRefined(ops[..n], states[..n + 1], answers[..n]);
      assert answers == answers[..n] + [answers[n]];
      RefinedNext(ops, n, states[n], answers[..n], states[n + 1], answers[n], answers);
    }
  }

  // ----- progress of a rehash -----------------------------------------------------------

  /** `m` rehash steps of one bucket each, as run by successive calls. */
  function RehashTimes(d: State, m: nat): (r: State)
    requires Valid(d)
    ensures Valid(r) && Unchanged(r, d)
    decreases m
  {
    if m == 0 then d else RehashTimes(Rehash(d, 1).0, m - 1)
  }

  /** A rehash is over after at most as many steps as the old table has buckets, and moves
      every entry exactly once: the same entries are found at the same addresses. */
  lemma {:induction false} RehashTerminates(d: State, m: nat)
    requires Valid(d) && (Rehashing(d) ==> m >= |d.t0| - d.rehashidx)
    ensures !Rehashing(RehashTimes(d, m)) && Unchanged(RehashTimes(d, m), d)
    decreases m
  {
    if m > 0 {
      RehashTerminates(Rehash(d, 1).0, m - 1);
    }
  }
}
