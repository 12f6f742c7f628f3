/** Slots in the cluster configuration file: the ranges printed for a node, and reading
    them back. */
module ClusterConfig {
  import opened ClusterSlots
  import opened Decimal
  import opened Options

  /** A printed range of slots: one number, or two with a dash. */
  function Token(a: nat, b: nat): Bytes {
    if a == b then Dec(a) else Dec(a) + [MINUS] + Dec(b)
  }

  function Tokens(ranges: seq<(nat, nat)>): (r: seq<Bytes>)
    ensures |r| == |ranges| && forall i :: 0 <= i < |r| ==> r[i] == Token(ranges[i].0, ranges[i].1)
  {
    if ranges == [] then [] else [Token(ranges[0].0, ranges[0].1)] + Tokens(ranges[1..])
  }

  ghost predicate InRange(r: (nat, nat), s: nat) {
    r.0 <= s <= r.1
  }

  /** The ranges are the maximal runs of set bits below `n`, in increasing order. */
  ghost predicate MaximalRuns(bits: nat -> bool, n: nat, ranges: seq<(nat, nat)>) {
    && (forall i :: 0 <= i < |ranges| ==>
          && ranges[i].0 <= ranges[i].1 < n
          && (forall s: nat :: InRange(ranges[i], s) ==> bits(s))
          && (ranges[i].0 > 0 ==> !bits(ranges[i].0 - 1))
          && (ranges[i].1 + 1 < n ==> !bits(ranges[i].1 + 1)))
    && (forall i, j :: 0 <= i < j < |ranges| ==> ranges[i].1 + 1 < ranges[j].0)
    && (forall s: nat :: s < n && bits(s) ==> exists i :: 0 <= i < |ranges| && InRange(ranges[i], s))
  }

  /** Whether a node's bitmap has a slot; there are no slots from `SLOTS` on. */
  predicate SlotBit(slots: Bitmap, s: nat)
    requires |slots| == BITMAP_BYTES
  {
    s < SLOTS && TestBit(slots, s)
  }

  ghost predicate IsBits(bits: nat -> bool, slots: Bitmap) {
    |slots| == BITMAP_BYTES && forall s: nat :: bits(s) <==> SlotBit(slots, s)
  }

  lemma SlotBits(slots: Bitmap, bits: nat -> bool, j: nat)
    requires IsBits(bits, slots) && j < SLOTS
    ensures bits(j) == TestBit(slots, j) && !bits(SLOTS)
  {
    assert !SlotBit(slots, SLOTS) && SlotBit(slots, j) == TestBit(slots, j);
  }

  /** The slot loop of clusterGenNodeDescription. */
  method PrintSlots(slots: Bitmap, ghost bits: nat -> bool) returns (tokens: seq<Bytes>, ghost ranges: seq<(nat, nat)>)
    requires IsBits(bits, slots)
    ensures tokens == Tokens(ranges) && MaximalRuns(bits, SLOTS, ranges)
    ensures forall s: nat :: s < SLOTS ==> (Listed(tokens, s) <==> TestBit(slots, s))
  {
    tokens, ranges := [], [];
    var start: int := -1;
    var j: nat := 0;
    while j < SLOTS
      invariant j <= SLOTS + 1 && (j >= SLOTS ==> start == -1)
      invariant tokens == Tokens(ranges) && Scanning(bits, j, start, ranges)
      decreases SLOTS + 1 - j
    {
      var bit := TestBit(slots, j);
      SlotBits(slots, bits, j);
      if bit {
        GoOn(bits, j, start, ranges);
        if start == -1 {
          start := j;
        }
      }
      if start != -1 && (!bit || j == SLOTS - 1) {
        if bit && j == SLOTS - 1 {
          j := j + 1;
        }
        tokens, ranges := PrintRange(bits, j, start, tokens, ranges);
        start := -1;
      } else if !bit {
        NoRun(bits, j, ranges);
      }
      j := j + 1;
    }
    PrintedAll(slots, bits, j, ranges);
    TokensListBits(slots, bits, ranges);
  }

  lemma TokensListBits(slots: Bitmap, bits: nat -> bool, ranges: seq<(nat, nat)>)
    requires IsBits(bits, slots) && MaximalRuns(bits, SLOTS, ranges)
    ensures forall s: nat :: s < SLOTS ==> (Listed(Tokens(ranges), s) <==> TestBit(slots, s))
  {
    forall s: nat | s < SLOTS ensures Listed(Tokens(ranges), s) <==> TestBit(slots, s) {
      PrintedIsListed(bits, ranges, s);
      SlotBits(slots, bits, s);
    }
  }

  /** The run from `start` to the slot before `j` is printed. */
  method PrintRange(ghost bits: nat -> bool, j: nat, start: nat, tokens: seq<Bytes>, ghost ranges: seq<(nat, nat)>)
    returns (tokens': seq<Bytes>, ghost ranges': seq<(nat, nat)>)
    requires tokens == Tokens(ranges) && Scanning(bits, j, start, ranges) && !bits(j)
    ensures tokens' == Tokens(ranges') && Scanning(bits, j + 1, -1, ranges')
  {
    EndRun(bits, j, start, ranges);
    TokensAppend(ranges, start, j - 1);
    if start == j - 1 {
      tokens' := tokens + [Dec(start)];
    } else {
      tokens' := tokens + [Dec(start) + [MINUS] + Dec(j - 1)];
    }
    ranges' := ranges + [(start, j - 1)];
  }

  /** What the loop keeps: the runs that ended before `j` are printed, and `start` is where
      the run that reaches `j` began, or -1. */
  ghost predicate Scanning(bits: nat -> bool, j: nat, start: int, ranges: seq<(nat, nat)>) {
    if start == -1 then Printed(bits, j, ranges) && (j > 0 ==> !bits(j - 1))
    else start >= 0 && Printed(bits, start, ranges) && RunSoFar(bits, start, j)
  }

  lemma GoOn(bits: nat -> bool, j: nat, start: int, ranges: seq<(nat, nat)>)
    requires Scanning(bits, j, start, ranges) && bits(j)
    ensures Scanning(bits, j + 1, if start == -1 then j else start, ranges)
  {}

  lemma EndRun(bits: nat -> bool, j: nat, start: nat, ranges: seq<(nat, nat)>)
    requires Scanning(bits, j, start, ranges) && !bits(j)
    ensures Scanning(bits, j + 1, -1, ranges + [(start, j - 1)])
  {
    RangePrinted(bits, start, j - 1, ranges);
    NothingThere(bits, j, ranges + [(start, j - 1)]);
  }

  lemma NoRun(bits: nat -> bool, j: nat, ranges: seq<(nat, nat)>)
    requires Scanning(bits, j, -1, ranges) && !bits(j)
    ensures Scanning(bits, j + 1, -1, ranges)
  {
    NothingThere(bits, j, ranges);
  }

  /** A run of set bits from `start` up to, but not including, `j`. */
  ghost predicate RunSoFar(bits: nat -> bool, start: nat, j: nat) {
    start < j && (forall s: nat :: start <= s < j ==> bits(s)) && (start > 0 ==> !bits(start - 1))
  }

  /** Everything before slot `n` has been printed. */
  ghost predicate Printed(bits: nat -> bool, n: nat, ranges: seq<(nat, nat)>) {
    && (forall i :: 0 <= i < |ranges| ==> ranges[i].1 < n && PrintedRange(bits, ranges[i]))
    && (forall i, j :: 0 <= i < j < |ranges| ==> ranges[i].1 + 1 < ranges[j].0)
    && (forall s: nat :: s < n && bits(s) ==> exists i :: 0 <= i < |ranges| && InRange(ranges[i], s))
  }

  ghost predicate PrintedRange(bits: nat -> bool, r: (nat, nat)) {
    && r.0 <= r.1 && (forall s: nat :: InRange(r, s) ==> bits(s))
    && (r.0 > 0 ==> !bits(r.0 - 1)) && !bits(r.1 + 1)
  }

  lemma RangePrinted(bits: nat -> bool, start: nat, end: nat, ranges: seq<(nat, nat)>)
    requires Printed(bits, start, ranges) && RunSoFar(bits, start, end + 1) && !bits(end + 1)
    ensures Printed(bits, end + 1, ranges + [(start, end)])
  {
    var r := (start, end);
    forall i | 0 <= i < |ranges| ensures ranges[i].1 + 1 < start {
      assert PrintedRange(bits, ranges[i]);
      assert ranges[i].1 + 1 == start ==> !bits(start);
    }
    forall s: nat | s < end + 1 && bits(s)
      ensures exists i :: 0 <= i < |ranges + [r]| && InRange((ranges + [r])[i], s)
    {
      if s < start {
        var i :| 0 <= i < |ranges| && InRange(ranges[i], s);
        assert InRange((ranges + [r])[i], s);
      } else {
        assert InRange((ranges + [r])[|ranges|], s);
      }
    }
  }

  lemma NothingThere(bits: nat -> bool, n: nat, ranges: seq<(nat, nat)>)
    requires Printed(bits, n, ranges) && !bits(n)
    ensures Printed(bits, n + 1, ranges)
  {}

  lemma PrintedAll(slots: Bitmap, bits: nat -> bool, n: nat, ranges: seq<(nat, nat)>)
    requires Printed(bits, n, ranges) && n >= SLOTS && IsBits(bits, slots)
    ensures MaximalRuns(bits, SLOTS, ranges)
  {
    forall i | 0 <= i < |ranges| ensures ranges[i].1 < SLOTS {
      assert PrintedRange(bits, ranges[i]) && InRange(ranges[i], ranges[i].1);
    }
  }

  lemma {:induction false} TokensAppend(ranges: seq<(nat, nat)>, a: nat, b: nat)
    ensures Tokens(ranges + [(a, b)]) ==
            Tokens(ranges) + [if a == b then Dec(a) else Dec(a) + [MINUS] + Dec(b)]
  {
    if ranges != [] {
      assert (ranges + [(a, b)])[1..] == ranges[1..] + [(a, b)];
      TokensAppend(ranges[1..], a, b);
    }
  }

  // ----- reading the ranges back ---------------------------------------------------------

  /** Position of the first dash, or the length. */
  function Dash(t: Bytes): (i: nat)
    ensures i <= |t| && (i < |t| ==> t[i] == MINUS)
  {
    if t == [] || t[0] == MINUS then 0 else 1 + Dash(t[1..])
  }

  /** The slots from and to in a token of the file. */
  function ParseToken(t: Bytes): (int, int) {
    var i := Dash(t);
    if i < |t| then (Atoi(t[..i]), Atoi(t[i + 1..])) else (Atoi(t), Atoi(t))
  }

  lemma {:induction false} DashAfterDigits(s: Bytes, rest: Bytes)
    requires forall i :: 0 <= i < |s| ==> IsDigit(s[i])
    requires rest == [] || rest[0] == MINUS
    ensures Dash(s + rest) == |s|
  {
    if s != [] {
      assert (s + rest)[1..] == s[1..] + rest;
      DashAfterDigits(s[1..], rest);
    } else {
      assert s + rest == rest;
    }
  }

  /** A printed range reads back as itself. */
  lemma ParseOfToken(a: nat, b: nat)
    ensures ParseToken(Token(a, b)) == (a, b) && !Bracketed(Token(a, b))
  {
    AtoiOfDec(a, []);
    AtoiOfDec(b, []);
    assert Dec(a) + [] == Dec(a) && Dec(b) + [] == Dec(b);
    if a == b {
      DashAfterDigits(Dec(a), []);
    } else {
      var t := Token(a, b);
      assert t == Dec(a) + ([MINUS] + Dec(b));
      DashAfterDigits(Dec(a), [MINUS] + Dec(b));
      assert t[..|Dec(a)|] == Dec(a) && t[|Dec(a)| + 1..] == Dec(b);
    }
  }

  /** A token in brackets is about a slot on the move. */
  predicate Bracketed(t: Bytes) {
    t != [] && t[0] == LBRACKET
  }

  /** The token claims slot `s`. */
  ghost predicate Claims(t: Bytes, s: nat) {
    !Bracketed(t) && ParseToken(t).0 <= s <= ParseToken(t).1
  }

  ghost predicate Listed(tokens: seq<Bytes>, s: nat) {
    exists i :: 0 <= i < |tokens| && Claims(tokens[i], s)
  }

  /** The ranges printed for a bitmap list exactly its slots. */
  lemma PrintedIsListed(bits: nat -> bool, ranges: seq<(nat, nat)>, s: nat)
    requires MaximalRuns(bits, SLOTS, ranges) && s < SLOTS
    ensures Listed(Tokens(ranges), s) <==> bits(s)
  {
    var tokens := Tokens(ranges);
    if bits(s) {
      var i :| 0 <= i < |ranges| && InRange(ranges[i], s);
      ParseOfToken(ranges[i].0, ranges[i].1);
      assert Claims(tokens[i], s);
    }
    if Listed(tokens, s) {
      var i :| 0 <= i < |tokens| && Claims(tokens[i], s);
      ParseOfToken(ranges[i].0, ranges[i].1);
      assert InRange(ranges[i], s);
    }
  }

  // ----- slots on the move -----------------------------------------------------------------

  const LBRACKET: Byte := 91
  const RBRACKET: Byte := 93
  const LESS: Byte := 60
  const GREATER: Byte := 62
  const NAME_LENGTH: nat := 40

  /** By slot, the name of the node that it is moved to or imported from. */
  type Moves = seq<Option<Bytes>>

  ghost predicate Named(moves: Moves) {
    |moves| == SLOTS && forall j :: 0 <= j < SLOTS && moves[j].Some? ==> |moves[j].value| == NAME_LENGTH
  }

  /** `[slot->-name]` for a slot that leaves, `[slot-<-name]` for one that comes. */
  function MoveToken(j: nat, leaves: bool, name: Bytes): Bytes {
    [LBRACKET] + Dec(j) + [MINUS, if leaves then GREATER else LESS, MINUS] + name + [RBRACKET]
  }

  /** What is printed for one slot: if it leaves and comes, only that it leaves. */
  function SlotMove(migrating: Moves, importing: Moves, j: nat): seq<Bytes>
    requires j < |migrating| && j < |importing|
  {
    if migrating[j].Some? then [MoveToken(j, true, migrating[j].value)]
    else if importing[j].Some? then [MoveToken(j, false, importing[j].value)]
    else []
  }

  function MoveTokens(migrating: Moves, importing: Moves, n: nat): seq<Bytes>
    requires n <= |migrating| && n <= |importing|
  {
    if n == 0 then [] else MoveTokens(migrating, importing, n - 1) + SlotMove(migrating, importing, n - 1)
  }

  /** The end of clusterGenNodeDescription, for this node. */
  method PrintMoves(migrating: Moves, importing: Moves) returns (tokens: seq<Bytes>)
    requires Named(migrating) && Named(importing)
    ensures tokens == MoveTokens(migrating, importing, SLOTS)
  {
    tokens := [];
    for j := 0 to SLOTS
      invariant tokens == MoveTokens(migrating, importing, j)
    {
      if migrating[j].Some? {
        tokens := tokens + [MoveToken(j, true, migrating[j].value)];
      } else if importing[j].Some? {
        tokens := tokens + [MoveToken(j, false, importing[j].value)];
      }
    }
  }

  /** What clusterLoadConfig counts on: a dash (which it asserts), a name, and a slot of the table. */
  predicate MoveOk(t: Bytes) {
    Bracketed(t) && Dash(t) + 3 + NAME_LENGTH <= |t| && 0 <= Atoi(t[1..Dash(t)]) < SLOTS
  }

  /** The slot, whether it leaves, and the name of the other node. */
  function ParseMove(t: Bytes): (nat, bool, Bytes)
    requires MoveOk(t)
  {
    var i := Dash(t);
    (Atoi(t[1..i]), t[i + 1] == GREATER, t[i + 3..i + 3 + NAME_LENGTH])
  }

  lemma DashInBrackets(digits: Bytes, rest: Bytes)
    requires (forall i :: 0 <= i < |digits| ==> IsDigit(digits[i])) && rest != [] && rest[0] == MINUS
    ensures Dash([LBRACKET] + digits + rest) == |digits| + 1
  {
    var t := [LBRACKET] + digits + rest;
    assert t[1..] == digits + rest;
    DashAfterDigits(digits, rest);
  }

  /** A printed move reads back as itself. */
  lemma ParseOfMove(j: nat, leaves: bool, name: Bytes)
    requires j < SLOTS && |name| == NAME_LENGTH
    ensures MoveOk(MoveToken(j, leaves, name)) && ParseMove(MoveToken(j, leaves, name)) == (j, leaves, name)
  {
    var t, d := MoveToken(j, leaves, name), Dec(j);
    var rest := [MINUS, if leaves then GREATER else LESS, MINUS] + name + [RBRACKET];
    assert t == [LBRACKET] + d + rest;
    DashInBrackets(d, rest);
    AtoiOfDec(j, []);
    assert d + [] == d && t[1..|d| + 1] == d;
    assert t[|d| + 4..|d| + 4 + NAME_LENGTH] == name;
  }

  /** The moves in one direction after the tokens have been read. */
  function Moved(m: Moves, tokens: seq<Bytes>, leaves: bool): (r: Moves)
    requires |m| == SLOTS
    ensures |r| == SLOTS
  {
    if tokens == [] then m else MovedBy(Moved(m, tokens[..|tokens| - 1], leaves), tokens[|tokens| - 1], leaves)
  }

  function MovedBy(m: Moves, t: Bytes, leaves: bool): (r: Moves)
    requires |m| == SLOTS
    ensures |r| == SLOTS
  {
    if MoveOk(t) && ParseMove(t).1 == leaves then m[ParseMove(t).0 := Some(ParseMove(t).2)] else m
  }

  lemma {:induction false} MovedAppend(m: Moves, a: seq<Bytes>, b: seq<Bytes>, leaves: bool)
    requires |m| == SLOTS
    ensures Moved(m, a + b, leaves) == Moved(Moved(m, a, leaves), b, leaves)
  {
    if b == [] {
      assert a + b == a;
    } else {
      var last := |b| - 1;
      MovedAppend(m, a, b[..last], leaves);
      assert (a + b)[..|a + b| - 1] == a + b[..last];
    }
  }

  lemma {:induction false} NothingMoved(m: Moves, tokens: seq<Bytes>, leaves: bool)
    requires |m| == SLOTS && forall i :: 0 <= i < |tokens| ==> !Bracketed(tokens[i])
    ensures Moved(m, tokens, leaves) == m
  {
    if tokens != [] {
      NothingMoved(m, tokens[..|tokens| - 1], leaves);
    }
  }

  /** What comes back of the moves below `n`. */
  ghost predicate Restored(migrating: Moves, importing: Moves, n: nat, leaves: Moves, comes: Moves)
    requires |migrating| == |importing| == |leaves| == |comes| == SLOTS
  {
    forall j :: 0 <= j < SLOTS ==>
      && leaves[j] == (if j < n then migrating[j] else None)
      && comes[j] == if j < n && migrating[j].None? then importing[j] else None
  }

  lemma MovedSnoc(m: Moves, before: seq<Bytes>, more: seq<Bytes>, leaves: bool)
    requires |m| == SLOTS && |more| <= 1
    ensures Moved(m, before + more, leaves) ==
            if more == [] then Moved(m, before, leaves) else MovedBy(Moved(m, before, leaves), more[0], leaves)
  {
    if more == [] {
      assert before + more == before;
    } else {
      assert (before + more)[..|before + more| - 1] == before;
    }
  }

  lemma SlotMoveIs(migrating: Moves, importing: Moves, j: nat, m: Moves)
    requires Named(migrating) && Named(importing) && j < SLOTS && |m| == SLOTS
    ensures var more := SlotMove(migrating, importing, j);
      && (more == [] <==> migrating[j].None? && importing[j].None?)
      && (more != [] ==> MovedBy(m, more[0], true) == if migrating[j].Some? then m[j := migrating[j]] else m)
      && (more != [] ==> MovedBy(m, more[0], false) == if migrating[j].Some? then m else m[j := importing[j]])
  {
    if migrating[j].Some? {
      ParseOfMove(j, true, migrating[j].value);
    } else if importing[j].Some? {
      ParseOfMove(j, false, importing[j].value);
    }
  }

  lemma SlotRestored(migrating: Moves, importing: Moves, j: nat, n: nat, leaves: Moves, comes: Moves,
                     leaves': Moves, comes': Moves)
    requires |migrating| == |importing| == |leaves| == |comes| == SLOTS && n == j + 1 && j < SLOTS
    requires Restored(migrating, importing, j, leaves, comes)
    requires leaves' == if migrating[j].Some? then leaves[j := migrating[j]] else leaves
    requires comes' == if migrating[j].None? && importing[j].Some? then comes[j := importing[j]] else comes
    ensures Restored(migrating, importing, n, leaves', comes')
  {}

  lemma {:induction false} MovesRestored(migrating: Moves, importing: Moves, n: nat, blank: Moves)
    requires Named(migrating) && Named(importing) && n <= SLOTS && blank == seq(SLOTS, _ => None)
    ensures var tokens := MoveTokens(migrating, importing, n);
      Restored(migrating, importing, n, Moved(blank, tokens, true), Moved(blank, tokens, false))
  {
    if n > 0 {
      var j := n - 1;
      var before, more := MoveTokens(migrating, importing, j), SlotMove(migrating, importing, j);
      MovesRestored(migrating, importing, j, blank);
      MovedSnoc(blank, before, more, true);
      MovedSnoc(blank, before, more, false);
      SlotMoveIs(migrating, importing, j, Moved(blank, before, true));
      SlotMoveIs(migrating, importing, j, Moved(blank, before, false));
      SlotRestored(migrating, importing, j, n, Moved(blank, before, true), Moved(blank, before, false),
                   Moved(blank, before + more, true), Moved(blank, before + more, false));
    }
  }

  lemma {:induction false} MoveTokensBracketed(migrating: Moves, importing: Moves, n: nat)
    requires Named(migrating) && Named(importing) && n <= SLOTS
    ensures forall i :: 0 <= i < |MoveTokens(migrating, importing, n)| ==>
              MoveOk(MoveTokens(migrating, importing, n)[i])
  {
    if n > 0 {
      MoveTokensBracketed(migrating, importing, n - 1);
      if SlotMove(migrating, importing, n - 1) != [] {
        ParseOfMove(n - 1, migrating[n - 1].Some?,
                    if migrating[n - 1].Some? then migrating[n - 1].value else importing[n - 1].value);
      }
    }
  }

  // ----- loading ---------------------------------------------------------------------------

  /** The token keeps within the slot table. */
  predicate Loadable(t: Bytes) {
    if Bracketed(t) then MoveOk(t) else 0 <= ParseToken(t).0 && ParseToken(t).1 < SLOTS
  }

  /** The slot loop of clusterLoadConfig for one node: every listed slot that is not yet assigned
      goes to it, and tokens in brackets tell which slots are on the move. */
  method LoadSlots(t: SlotTable, n: Node, tokens: seq<Bytes>)
    requires t.Valid() && n in t.nodes && forall i :: 0 <= i < |tokens| ==> Loadable(tokens[i])
    modifies t`owner, t`migrating, t`importing, n`slots, n`numslots
    ensures t.Valid()
    ensures forall s :: 0 <= s < SLOTS ==>
              t.owner[s] == if old(t.owner)[s] == null && Listed(tokens, s) then n else old(t.owner)[s]
    ensures t.migrating == Moved(old(t.migrating), tokens, true)
    ensures t.importing == Moved(old(t.importing), tokens, false)
  {
    for i := 0 to |tokens|
      invariant t.Valid()
      invariant forall s :: 0 <= s < SLOTS ==>
        t.owner[s] == if old(t.owner)[s] == null && Listed(tokens[..i], s) then n else old(t.owner)[s]
      invariant t.migrating == Moved(old(t.migrating), tokens[..i], true)
      invariant t.importing == Moved(old(t.importing), tokens[..i], false)
    {
      assert tokens[..i + 1][..i] == tokens[..i] && tokens[..i + 1][i] == tokens[i];
      forall s: nat | s < SLOTS ensures Listed(tokens[..i + 1], s) <==> Listed(tokens[..i], s) || Claims(tokens[i], s) {
        OneMore(tokens, i, s);
      }
      LoadToken(t, n, tokens[i]);
    }
    assert tokens[..|tokens|] == tokens;
  }

  method LoadToken(t: SlotTable, n: Node, token: Bytes)
    requires t.Valid() && n in t.nodes && Loadable(token)
    modifies t`owner, t`migrating, t`importing, n`slots, n`numslots
    ensures t.Valid()
    ensures forall s :: 0 <= s < SLOTS ==>
              t.owner[s] == if old(t.owner)[s] == null && Claims(token, s) then n else old(t.owner)[s]
    ensures t.migrating == MovedBy(old(t.migrating), token, true)
    ensures t.importing == MovedBy(old(t.importing), token, false)
  {
    if Bracketed(token) {
      var (slot, leaves, name) := ParseMove(token);
      if leaves {
        t.migrating := t.migrating[slot := Some(name)];
      } else {
        t.importing := t.importing[slot := Some(name)];
      }
    } else {
      var (start, stop) := ParseToken(token);
      LoadRange(t, n, start, stop);
    }
  }

  lemma OneMore(tokens: seq<Bytes>, i: nat, s: nat)
    requires i < |tokens|
    ensures Listed(tokens[..i + 1], s) <==> Listed(tokens[..i], s) || Claims(tokens[i], s)
  {
    if Listed(tokens[..i], s) {
      var j :| 0 <= j < i && Claims(tokens[..i][j], s);
      assert Claims(tokens[..i + 1][j], s);
    }
    if Claims(tokens[i], s) {
      assert Claims(tokens[..i + 1][i], s);
    }
    if Listed(tokens[..i + 1], s) {
      var j :| 0 <= j < i + 1 && Claims(tokens[..i + 1][j], s);
      assert j == i || Claims(tokens[..i][j], s);
    }
  }

  method LoadRange(t: SlotTable, n: Node, start: int, stop: int)
    requires t.Valid() && n in t.nodes && 0 <= start && stop < SLOTS
    modifies t`owner, n`slots, n`numslots
    ensures t.Valid()
    ensures forall s :: 0 <= s < SLOTS ==>
              t.owner[s] == if old(t.owner)[s] == null && start <= s <= stop then n else old(t.owner)[s]
  {
    var s := start;
    while s <= stop
      invariant t.Valid() && start <= s && (start <= stop ==> s <= stop + 1)
      invariant forall i :: 0 <= i < SLOTS ==>
        t.owner[i] == if old(t.owner)[i] == null && start <= i < s && i <= stop then n else old(t.owner)[i]
      decreases stop + 1 - s
    {
      var _ := t.AddSlot(n, s);
      s := s + 1;
    }
  }

  /** Saving and loading: into a table in which nothing is on the move and the slots of the bitmap
      are unassigned, reading what is printed for a node gives it exactly the slots of the bitmap,
      and every move comes back but the import of a slot that is also moved away. */
  method SaveAndLoad(slots: Bitmap, ghost bits: nat -> bool, migrating: Moves, importing: Moves, t: SlotTable, n: Node)
    requires IsBits(bits, slots)
    requires Named(migrating) && Named(importing)
    requires t.Valid() && n in t.nodes && forall s: nat :: s < SLOTS && bits(s) ==> t.owner[s] == null
    requires t.migrating == t.importing == seq(SLOTS, _ => None)
    modifies t`owner, t`migrating, t`importing, n`slots, n`numslots
    ensures t.Valid()
    ensures forall s :: 0 <= s < SLOTS ==> t.owner[s] == if TestBit(slots, s) then n else old(t.owner)[s]
    ensures t.migrating == migrating
    ensures t.importing == importing <==> forall s :: 0 <= s < SLOTS ==> migrating[s].None? || importing[s].None?
  {
    var tokens, ranges := PrintSlots(slots, bits);
    var moves := PrintMoves(migrating, importing);
    forall i | 0 <= i < |tokens| ensures Loadable(tokens[i]) && !Bracketed(tokens[i]) {
      ParseOfToken(ranges[i].0, ranges[i].1);
    }
    MoveTokensBracketed(migrating, importing, SLOTS);
    forall leaves ensures Moved(t.migrating, tokens + moves, leaves) == Moved(t.migrating, moves, leaves) {
      MovedAppend(t.migrating, tokens, moves, leaves);
      NothingMoved(t.migrating, tokens, leaves);
    }
    forall s: nat | s < SLOTS ensures Listed(tokens + moves, s) <==> Listed(tokens, s) {
      OnlyTokensClaim(tokens, moves, s);
    }
    MovesRestored(migrating, importing, SLOTS, t.migrating);
    LoadSlots(t, n, tokens + moves);
  }

  lemma OnlyTokensClaim(tokens: seq<Bytes>, moves: seq<Bytes>, s: nat)
    requires forall i :: 0 <= i < |moves| ==> MoveOk(moves[i])
    ensures Listed(tokens + moves, s) <==> Listed(tokens, s)
  {
    var all := tokens + moves;
    if Listed(all, s) {
      var i :| 0 <= i < |all| && Claims(all[i], s);
      assert i < |tokens| && all[i] == tokens[i];
    }
    if Listed(tokens, s) {
      var i :| 0 <= i < |tokens| && Claims(tokens[i], s);
      assert all[i] == tokens[i];
    }
  }
}
