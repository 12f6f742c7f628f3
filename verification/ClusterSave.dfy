/** The slots of all nodes in the cluster configuration file: saving a slot table and loading it into
    an empty one. */
module ClusterSave {
  import opened ClusterConfig
  import opened ClusterSlots
  import opened Decimal
  import opened Options

  /** The line lists exactly the slots of the node. */
  ghost predicate LineOf(line: seq<Bytes>, owner: seq<Node?>, n: Node) {
    && |owner| == SLOTS && (forall i :: 0 <= i < |line| ==> Loadable(line[i]))
    && forall s: nat :: s < SLOTS ==> (Listed(line, s) <==> owner[s] == n)
  }

  /** The line says of slots on the move what the tokens say. */
  ghost predicate MovesLike(line: seq<Bytes>, moves: seq<Bytes>) {
    forall m: Moves, leaves :: |m| == SLOTS ==> Moved(m, line, leaves) == Moved(m, moves, leaves)
  }

  /** What is printed for a node, `me` being the one that prints. */
  ghost predicate Describes(line: seq<Bytes>, owner: seq<Node?>, n: Node, me: Node, moves: seq<Bytes>) {
    LineOf(line, owner, n) && MovesLike(line, if n == me then moves else [])
  }

  lemma WithMoves(tokens: seq<Bytes>, moves: seq<Bytes>, owner: seq<Node?>, n: Node)
    requires LineOf(tokens, owner, n) && forall i :: 0 <= i < |tokens| ==> !Bracketed(tokens[i])
    requires forall i :: 0 <= i < |moves| ==> MoveOk(moves[i])
    ensures LineOf(tokens + moves, owner, n) && MovesLike(tokens + moves, moves)
  {
    forall s: nat | s < SLOTS ensures Listed(tokens + moves, s) <==> owner[s] == n {
      OnlyTokensClaim(tokens, moves, s);
    }
    forall m: Moves, leaves | |m| == SLOTS ensures Moved(m, tokens + moves, leaves) == Moved(m, moves, leaves) {
      MovedAppend(m, tokens, moves, leaves);
      NothingMoved(m, tokens, leaves);
    }
  }

  /** clusterGenNodeDescription, as far as slots go. */
  method Describe(t: SlotTable, n: Node) returns (line: seq<Bytes>)
    requires t.Valid() && n in t.nodes && Named(t.migrating) && Named(t.importing)
    ensures Describes(line, t.owner, n, t.myself, MoveTokens(t.migrating, t.importing, SLOTS))
  {
    ghost var slots := n.slots;
    ghost var bits: nat -> bool := (s: nat) => |slots| == BITMAP_BYTES && SlotBit(slots, s);
    var tokens, ranges := PrintSlots(n.slots, bits);
    forall i | 0 <= i < |tokens| ensures Loadable(tokens[i]) && !Bracketed(tokens[i]) {
      ParseOfToken(ranges[i].0, ranges[i].1);
    }
    forall s: nat | s < SLOTS ensures Listed(tokens, s) <==> t.owner[s] == n {
      t.BitIsOwner(n, s);
    }
    var moves: seq<Bytes> := [];
    if n == t.myself {
      moves := PrintMoves(t.migrating, t.importing);
      MoveTokensBracketed(t.migrating, t.importing, SLOTS);
    }
    WithMoves(tokens, moves, t.owner, n);
    line := tokens + moves;
  }

  /** clusterGenNodesDescription, the nodes in any order. */
  method Save(t: SlotTable, order: seq<Node>) returns (lines: seq<seq<Bytes>>)
    requires t.Valid() && Named(t.migrating) && Named(t.importing)
    requires forall i :: 0 <= i < |order| ==> order[i] in t.nodes
    ensures |lines| == |order|
    ensures forall i :: 0 <= i < |order| ==>
              Describes(lines[i], t.owner, order[i], t.myself, MoveTokens(t.migrating, t.importing, SLOTS))
  {
    lines := [];
    for i := 0 to |order|
      invariant |lines| == i
      invariant forall j :: 0 <= j < i ==>
        Describes(lines[j], t.owner, order[j], t.myself, MoveTokens(t.migrating, t.importing, SLOTS))
    {
      var line := Describe(t, order[i]);
      lines := lines + [line];
    }
  }

  /** The moves in one direction after all lines have been read. */
  function AllMoved(m: Moves, lines: seq<seq<Bytes>>, leaves: bool): (r: Moves)
    requires |m| == SLOTS
    ensures |r| == SLOTS
  {
    if lines == [] then m else Moved(AllMoved(m, lines[..|lines| - 1], leaves), lines[|lines| - 1], leaves)
  }

  ghost predicate NotListed(lines: seq<seq<Bytes>>, s: nat) {
    forall j :: 0 <= j < |lines| ==> !Listed(lines[j], s)
  }

  /** The slot belongs to the node whose line lists it, if there is one. */
  ghost predicate OwnerByLines(owner: Node?, lines: seq<seq<Bytes>>, order: seq<Node>, s: nat)
    requires |lines| <= |order|
  {
    && (forall j :: 0 <= j < |lines| && Listed(lines[j], s) ==> owner == order[j])
    && (NotListed(lines, s) ==> owner == null)
  }

  lemma OneMoreLine(before: Node?, after: Node?, lines: seq<seq<Bytes>>, i: nat, order: seq<Node>, s: nat)
    requires i < |lines| == |order| && OwnerByLines(before, lines[..i], order, s)
    requires forall j :: 0 <= j < i ==> !(Listed(lines[j], s) && Listed(lines[i], s))
    requires after == if before == null && Listed(lines[i], s) then order[i] else before
    ensures OwnerByLines(after, lines[..i + 1], order, s)
  {
    var all, others := lines[..i + 1], lines[..i];
    assert all == others + [lines[i]];
    forall j | 0 <= j < |all| && Listed(all[j], s) ensures after == order[j] {
      if j < i {
        assert Listed(others[j], s);
      } else {
        assert NotListed(others, s);
      }
    }
    if NotListed(all, s) {
      assert !Listed(all[i], s);
      assert forall j :: 0 <= j < i ==> others[j] == all[j];
    }
  }

  ghost predicate Disjoint(lines: seq<seq<Bytes>>) {
    forall i, j, s: nat :: 0 <= j < i < |lines| && s < SLOTS ==> !(Listed(lines[j], s) && Listed(lines[i], s))
  }

  /** clusterLoadConfig over all lines, into a table in which no slot is assigned. */
  method Load(t: SlotTable, order: seq<Node>, lines: seq<seq<Bytes>>)
    requires t.Valid() && |lines| == |order| && Disjoint(lines)
    requires forall i :: 0 <= i < |order| ==> order[i] in t.nodes
    requires forall i, j :: 0 <= i < |lines| && 0 <= j < |lines[i]| ==> Loadable(lines[i][j])
    requires forall s :: 0 <= s < SLOTS ==> t.owner[s] == null
    modifies t`owner, t`migrating, t`importing, t.nodes`slots, t.nodes`numslots
    ensures t.Valid() && forall s :: 0 <= s < SLOTS ==> OwnerByLines(t.owner[s], lines, order, s)
    ensures t.migrating == AllMoved(old(t.migrating), lines, true)
    ensures t.importing == AllMoved(old(t.importing), lines, false)
  {
    for i := 0 to |order|
      invariant t.Valid() && forall s :: 0 <= s < SLOTS ==> OwnerByLines(t.owner[s], lines[..i], order, s)
      invariant t.migrating == AllMoved(old(t.migrating), lines[..i], true)
      invariant t.importing == AllMoved(old(t.importing), lines[..i], false)
    {
      ghost var before := t.owner;
      assert lines[..i + 1][..i] == lines[..i] && lines[..i + 1][i] == lines[i];
      LoadSlots(t, order[i], lines[i]);
      forall s | 0 <= s < SLOTS ensures OwnerByLines(t.owner[s], lines[..i + 1], order, s) {
        OneMoreLine(before[s], t.owner[s], lines, i, order, s);
      }
    }
    assert lines[..|lines|] == lines;
  }

  lemma {:induction false} OnlyMyMoves(m: Moves, lines: seq<seq<Bytes>>, me: nat, moves: seq<Bytes>, k: nat,
                                       leaves: bool)
    requires |m| == SLOTS && me < |lines| && k <= |lines| && MovesLike(lines[me], moves)
    requires forall i :: 0 <= i < |lines| && i != me ==> MovesLike(lines[i], [])
    ensures AllMoved(m, lines[..k], leaves) == if k > me then Moved(m, moves, leaves) else m
  {
    if k > 0 {
      OnlyMyMoves(m, lines, me, moves, k - 1, leaves);
      assert lines[..k][..k - 1] == lines[..k - 1] && lines[..k][k - 1] == lines[k - 1];
    }
  }

  ghost predicate Distinct(order: seq<Node>) {
    forall i, j :: 0 <= i < j < |order| ==> order[i] != order[j]
  }

  lemma OwnersMatch(owner: seq<Node?>, order: seq<Node>, loaded: Node?, order': seq<Node>, lines: seq<seq<Bytes>>,
                    s: nat)
    requires |lines| == |order| == |order'| && Distinct(order) && Distinct(order') && s < SLOTS == |owner|
    requires forall i :: 0 <= i < |order| ==> LineOf(lines[i], owner, order[i])
    requires OwnerByLines(loaded, lines, order', s) && (owner[s] == null || owner[s] in order)
    ensures loaded == null <==> owner[s] == null
    ensures forall i :: 0 <= i < |order| ==> (loaded == order'[i] <==> owner[s] == order[i])
  {
    if owner[s] == null {
      assert NotListed(lines, s);
    } else {
      var j :| 0 <= j < |order| && order[j] == owner[s];
      assert Listed(lines[j], s);
    }
  }

  lemma LinesDisjoint(owner: seq<Node?>, order: seq<Node>, lines: seq<seq<Bytes>>)
    requires |lines| == |order| && Distinct(order)
    requires forall i :: 0 <= i < |order| ==> LineOf(lines[i], owner, order[i])
    ensures Disjoint(lines)
  {}

  lemma AllOwnersMatch(owner: seq<Node?>, order: seq<Node>, loaded: seq<Node?>, order': seq<Node>,
                       lines: seq<seq<Bytes>>)
    requires |lines| == |order| == |order'| && Distinct(order) && Distinct(order') && |owner| == |loaded| == SLOTS
    requires forall i :: 0 <= i < |order| ==> LineOf(lines[i], owner, order[i])
    requires forall s :: 0 <= s < SLOTS ==> OwnerByLines(loaded[s], lines, order', s)
    requires forall s :: 0 <= s < SLOTS ==> owner[s] == null || owner[s] in order
    ensures SameOwners(owner, order, loaded, order')
  {
    forall s | 0 <= s < SLOTS ensures SameOwner(owner[s], order, loaded[s], order') {
      OwnersMatch(owner, order, loaded[s], order', lines, s);
    }
  }

  /** The nodes take each other's places. */
  ghost predicate SameOwner(owner: Node?, order: seq<Node>, owner': Node?, order': seq<Node>)
    requires |order| == |order'|
  {
    && (owner' == null <==> owner == null)
    && forall i :: 0 <= i < |order| ==> (owner' == order'[i] <==> owner == order[i])
  }

  ghost predicate SameOwners(owner: seq<Node?>, order: seq<Node>, owner': seq<Node?>, order': seq<Node>)
    requires |order| == |order'| && |owner| == |owner'|
  {
    forall s :: 0 <= s < |owner| ==> SameOwner(owner[s], order, owner'[s], order')
  }

  lemma MovesComeBack(lines: seq<seq<Bytes>>, me: nat, migrating: Moves, importing: Moves, blank: Moves)
    requires Named(migrating) && Named(importing) && blank == seq(SLOTS, _ => None) && me < |lines|
    requires MovesLike(lines[me], MoveTokens(migrating, importing, SLOTS))
    requires forall i :: 0 <= i < |lines| && i != me ==> MovesLike(lines[i], [])
    ensures AllMoved(blank, lines, true) == migrating
    ensures AllMoved(blank, lines, false) == importing <==>
            forall s :: 0 <= s < SLOTS ==> migrating[s].None? || importing[s].None?
  {
    var moves := MoveTokens(migrating, importing, SLOTS);
    assert lines[..|lines|] == lines;
    OnlyMyMoves(blank, lines, me, moves, |lines|, true);
    OnlyMyMoves(blank, lines, me, moves, |lines|, false);
    MovesRestored(migrating, importing, SLOTS, blank);
  }

  lemma OwnersIn(t: SlotTable, order: seq<Node>)
    requires t.Valid() && (set n | n in order) == t.nodes
    ensures forall s :: 0 <= s < SLOTS ==> t.owner[s] == null || t.owner[s] in order
  {}

  /** Saving every node of a slot table and loading all lines into an empty one gives each slot to the
      node that takes the place of its owner, and restores every slot on the move but the import of
      one that is also moved away. */
  method SaveAndLoadAll(t: SlotTable, order: seq<Node>, t': SlotTable, order': seq<Node>, ghost me: nat)
    requires t.Valid() && Named(t.migrating) && Named(t.importing)
    requires Distinct(order) && (set n | n in order) == t.nodes && me < |order| && order[me] == t.myself
    requires t'.Valid() && t' != t && t'.nodes !! t.nodes && (forall s :: 0 <= s < SLOTS ==> t'.owner[s] == null)
    requires t'.migrating == t'.importing == seq(SLOTS, _ => None)
    requires |order'| == |order| && Distinct(order') && forall i :: 0 <= i < |order'| ==> order'[i] in t'.nodes
    modifies t'`owner, t'`migrating, t'`importing, t'.nodes`slots, t'.nodes`numslots
    ensures t'.Valid() && SameOwners(t.owner, order, t'.owner, order')
    ensures t'.migrating == t.migrating
    ensures t'.importing == t.importing <==>
            forall s :: 0 <= s < SLOTS ==> t.migrating[s].None? || t.importing[s].None?
  {
    var lines := Save(t, order);
    LinesDisjoint(t.owner, order, lines);
    MovesComeBack(lines, me, t.migrating, t.importing, t'.migrating);
    ghost var owner := t.owner;
    OwnersIn(t, order);
    Load(t', order', lines);
    AllOwnersMatch(owner, order, t'.owner, order', lines);
  }
}
