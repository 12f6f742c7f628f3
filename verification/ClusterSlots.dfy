/** Slot ownership: the slot table, the bitmap and slot count of every node, and the claims
    that move slots. */
module ClusterSlots {
  import opened Decimal
  import opened Options

  const SLOTS: nat := 16384
  const BITMAP_BYTES: nat := 2048

  type Bitmap = seq<bv8>

  // ----- bitmaps --------------------------------------------------------------------------

  /** `1 << bit`. */
  function BitOf(bit: nat): bv8
    requires bit < 8
  {
    match bit case 0 => 1 case 1 => 2 case 2 => 4 case 3 => 8 case 4 => 16 case 5 => 32 case 6 => 64 case _ => 128
  }

  predicate ByteHas(x: bv8, bit: nat)
    requires bit < 8
  {
    x & BitOf(bit) != 0
  }

  predicate TestBit(b: Bitmap, pos: nat)
    requires pos / 8 < |b|
  {
    ByteHas(b[pos / 8], pos % 8)
  }

  function SetBit(b: Bitmap, pos: nat): Bitmap
    requires pos / 8 < |b|
  {
    b[pos / 8 := b[pos / 8] | BitOf(pos % 8)]
  }

  function ClearBit(b: Bitmap, pos: nat): Bitmap
    requires pos / 8 < |b|
  {
    b[pos / 8 := b[pos / 8] & !BitOf(pos % 8)]
  }

  lemma ByteBits(x: bv8, i: nat, j: nat)
    requires i < 8 && j < 8
    ensures ByteHas(x | BitOf(i), j) == (i == j || ByteHas(x, j))
    ensures ByteHas(x & !BitOf(i), j) == (i != j && ByteHas(x, j))
  {}

  lemma SamePosition(pos: nat, q: nat)
    ensures pos / 8 == q / 8 && pos % 8 == q % 8 <==> pos == q
  {}

  /** Setting or clearing a bit changes that bit alone. */
  lemma BitUpdates(b: Bitmap, pos: nat, q: nat)
    requires pos / 8 < |b| && q / 8 < |b|
    ensures TestBit(SetBit(b, pos), q) == (q == pos || TestBit(b, q))
    ensures TestBit(ClearBit(b, pos), q) == (q != pos && TestBit(b, q))
  {
    SamePosition(pos, q);
    if pos / 8 == q / 8 {
      ByteBits(b[pos / 8], pos % 8, q % 8);
      assert SetBit(b, pos)[q / 8] == b[pos / 8] | BitOf(pos % 8);
      assert ClearBit(b, pos)[q / 8] == b[pos / 8] & !BitOf(pos % 8);
    } else {
      assert SetBit(b, pos)[q / 8] == b[q / 8];
      assert ClearBit(b, pos)[q / 8] == b[q / 8];
    }
  }

  /** The slots whose bits are set. */
  ghost function Marked(b: Bitmap): set<nat>
    requires |b| == BITMAP_BYTES
  {
    set s: nat | s < SLOTS && TestBit(b, s)
  }

  lemma MarkedUpdates(b: Bitmap, pos: nat)
    requires |b| == BITMAP_BYTES && pos < SLOTS
    ensures Marked(SetBit(b, pos)) == Marked(b) + {pos}
    ensures Marked(ClearBit(b, pos)) == Marked(b) - {pos}
  {
    forall q: nat | q < SLOTS
      ensures TestBit(SetBit(b, pos), q) == (q == pos || TestBit(b, q))
      ensures TestBit(ClearBit(b, pos), q) == (q != pos && TestBit(b, q))
    {
      BitUpdates(b, pos, q);
    }
  }

  // ----- nodes and the slot table -------------------------------------------------------------

  class Node {
    var slots: Bitmap
    var numslots: int
    var configEpoch: nat

    constructor (epoch: nat)
      ensures slots == seq(BITMAP_BYTES, _ => 0) && numslots == 0 && configEpoch == epoch
    {
      slots := seq(BITMAP_BYTES, _ => 0);
      numslots, configEpoch := 0, epoch;
    }

    /** clusterNodeSetSlotBit: the old bit. */
    method SetSlotBit(slot: nat) returns (was: bool)
      requires |slots| == BITMAP_BYTES && slot < SLOTS && numslots == |Marked(slots)|
      modifies `slots, `numslots
      ensures was == TestBit(old(slots), slot) && |slots| == BITMAP_BYTES
      ensures Marked(slots) == old(Marked(slots)) + {slot} && numslots == |Marked(slots)|
    {
      MarkedUpdates(slots, slot);
      was := TestBit(slots, slot);
      slots := SetBit(slots, slot);
      if !was {
        numslots := numslots + 1;
      } else {
        assert Marked(slots) == old(Marked(slots));
      }
    }

    /** clusterNodeClearSlotBit: the old bit. */
    method ClearSlotBit(slot: nat) returns (was: bool)
      requires |slots| == BITMAP_BYTES && slot < SLOTS && numslots == |Marked(slots)|
      modifies `slots, `numslots
      ensures was == TestBit(old(slots), slot) && |slots| == BITMAP_BYTES
      ensures Marked(slots) == old(Marked(slots)) - {slot} && numslots == |Marked(slots)|
    {
      MarkedUpdates(slots, slot);
      was := TestBit(slots, slot);
      slots := ClearBit(slots, slot);
      if was {
        numslots := numslots - 1;
      } else {
        assert Marked(slots) == old(Marked(slots));
      }
    }
  }

  ghost function OwnedIn(owner: seq<Node?>, n: Node): set<nat>
    requires |owner| == SLOTS
  {
    set s: nat | s < SLOTS && owner[s] == n
  }

  lemma OwnedUpdate(owner: seq<Node?>, slot: nat, to: Node?, n: Node)
    requires |owner| == SLOTS && slot < SLOTS
    ensures OwnedIn(owner[slot := to], n) == if n == to then OwnedIn(owner, n) + {slot} else OwnedIn(owner, n) - {slot}
  {}

  lemma NotOwned(owner: seq<Node?>, slot: nat, n: Node)
    requires |owner| == SLOTS && slot < SLOTS && owner[slot] != n
    ensures OwnedIn(owner, n) - {slot} == OwnedIn(owner, n)
  {}

  /** Of the slots below `n`, those of one node have gone to another. */
  ghost predicate TakenOver(before: seq<Node?>, after: seq<Node?>, from: Node, to: Node, n: nat) {
    && |before| == SLOTS == |after|
    && forall i :: 0 <= i < SLOTS ==> after[i] == if i < n && before[i] == from then to else before[i]
  }

  lemma AllTakenOver(before: seq<Node?>, after: seq<Node?>, from: Node, to: Node, n: nat)
    requires TakenOver(before, after, from, to, n) && n == SLOTS && from != to
    ensures OwnedIn(after, to) == OwnedIn(before, to) + OwnedIn(before, from) && OwnedIn(after, from) == {}
  {}

  class SlotTable {
    ghost var nodes: set<Node>
    var myself: Node
    var owner: seq<Node?>
    /** The names of the nodes that slots are moved to and imported from. */
    var migrating: seq<Option<Bytes>>
    var importing: seq<Option<Bytes>>

    /** The slots that the table assigns to a node. */
    ghost function Owned(n: Node): set<nat>
      reads this
      requires |owner| == SLOTS
    {
      OwnedIn(owner, n)
    }

    /** Slot table, bitmaps and slot counts agree. */
    ghost predicate Valid()
      reads this, nodes
    {
      && |owner| == SLOTS && |migrating| == SLOTS && |importing| == SLOTS && myself in nodes
      && (forall s :: 0 <= s < SLOTS ==> owner[s] == null || owner[s] in nodes)
      && (forall n :: n in nodes ==>
            |n.slots| == BITMAP_BYTES && Marked(n.slots) == Owned(n) && n.numslots == |Owned(n)|)
    }

    /** No node serves a slot at first. */
    constructor (me: Node)
      requires |me.slots| == BITMAP_BYTES && Marked(me.slots) == {} && me.numslots == 0
      ensures Valid() && nodes == {me} && myself == me
      ensures owner == seq(SLOTS, _ => null) && migrating == importing == seq(SLOTS, _ => None)
    {
      nodes, myself := {me}, me;
      owner, migrating, importing := seq(SLOTS, _ => null), seq(SLOTS, _ => None), seq(SLOTS, _ => None);
    }

    /** clusterAddSlot: refused when the slot is assigned. */
    method AddSlot(n: Node, slot: nat) returns (ok: bool)
      requires Valid() && n in nodes && slot < SLOTS
      modifies `owner, n`slots, n`numslots
      ensures Valid() && ok == (old(owner)[slot] == null)
      ensures owner == if ok then old(owner)[slot := n] else old(owner)
    {
      if owner[slot] != null {
        return false;
      }
      var _ := n.SetSlotBit(slot);
      forall m | m in nodes ensures OwnedIn(owner[slot := n], m) == if m == n then Owned(m) + {slot} else Owned(m) {
        OwnedUpdate(owner, slot, n, m);
        NotOwned(owner, slot, m);
      }
      owner := owner[slot := n];
      return true;
    }

    /** clusterDelSlot: refused when the slot is unassigned. The assertion on the owner's bit
        never fails. */
    method DelSlot(slot: nat) returns (ok: bool)
      requires Valid() && slot < SLOTS
      modifies `owner, nodes`slots, nodes`numslots
      ensures Valid() && ok == (old(owner)[slot] != null)
      ensures owner == old(owner)[slot := null]
    {
      var n := owner[slot];
      if n == null {
        return false;
      }
      assert slot in Owned(n);
      var was := n.ClearSlotBit(slot);
      assert was;
      forall m | m in nodes ensures OwnedIn(owner[slot := null], m) == if m == n then Owned(m) - {slot} else Owned(m) {
        OwnedUpdate(owner, slot, null, m);
        if m != n {
          NotOwned(owner, slot, m);
        }
      }
      owner := owner[slot := null];
      return true;
    }

    /** clusterDelNodeSlots. */
    method DelNodeSlots(n: Node)
      requires Valid() && n in nodes
      modifies `owner, nodes`slots, nodes`numslots
      ensures Valid() && Owned(n) == {}
      ensures forall j :: 0 <= j < SLOTS && old(owner)[j] != n ==> owner[j] == old(owner)[j]
    {
      for j := 0 to SLOTS
        invariant Valid()
        invariant forall i :: 0 <= i < j ==> owner[i] != n
        invariant forall i :: 0 <= i < SLOTS && (i >= j || old(owner)[i] != n) ==> owner[i] == old(owner)[i]
      {
        BitIsOwner(n, j);
        if TestBit(n.slots, j) {
          var _ := DelSlot(j);
        }
      }
    }

    /** clusterDelSlot and clusterAddSlot, as they are used together. */
    method MoveSlot(n: Node, slot: nat)
      requires Valid() && n in nodes && slot < SLOTS
      modifies `owner, nodes`slots, nodes`numslots
      ensures Valid() && owner == old(owner)[slot := n]
    {
      var _ := DelSlot(slot);
      var _ := AddSlot(n, slot);
    }

    lemma BitIsOwner(n: Node, slot: nat)
      requires Valid() && n in nodes && slot < SLOTS
      ensures slot / 8 < |n.slots| && (TestBit(n.slots, slot) <==> owner[slot] == n)
    {
      assert slot in Marked(n.slots) <==> slot in Owned(n);
    }

    /** clusterFailoverReplaceYourMaster: the promoted slave takes all slots of its master. */
    method ReplaceMaster(oldmaster: Node)
      requires Valid() && oldmaster in nodes && oldmaster != myself
      modifies `owner, nodes`slots, nodes`numslots
      ensures Valid() && Owned(oldmaster) == {} && Owned(myself) == old(Owned(myself)) + old(Owned(oldmaster))
      ensures forall j :: 0 <= j < SLOTS ==>
                owner[j] == if old(owner)[j] == oldmaster then myself else old(owner)[j]
    {
      for j := 0 to SLOTS
        invariant Valid() && TakenOver(old(owner), owner, oldmaster, myself, j)
      {
        BitIsOwner(oldmaster, j);
        if TestBit(oldmaster.slots, j) {
          MoveSlot(myself, j);
        }
      }
      AllTakenOver(old(owner), owner, oldmaster, myself, SLOTS);
    }

    /** A claim of `sender` under `epoch` takes a slot that it does not hold, that is not
        being imported, and that is unassigned or held under a smaller epoch. */
    predicate Takes(sender: Node, epoch: nat, slot: nat)
      reads this, nodes
      requires Valid() && slot < SLOTS
    {
      owner[slot] != sender && importing[slot].None? && (owner[slot] == null || owner[slot].configEpoch < epoch)
    }

    lemma TakesExactly(sender: Node, epoch: nat, slot: nat)
      requires Valid() && slot < SLOTS
      ensures Takes(sender, epoch, slot) <==>
                importing[slot] == None && owner[slot] != sender &&
                (owner[slot] != null ==> owner[slot].configEpoch < epoch)
    {}

    /** The loop of clusterUpdateSlotsConfigWith: whether a slot of `curmaster` went to the
        sender, and which slots this node lost that still hold keys. */
    method ClaimSlots(sender: Node, epoch: nat, claimed: Bitmap, curmaster: Node?, hasKeys: nat -> bool)
      returns (newmaster: bool, dirty: seq<nat>)
      requires Valid() && sender in nodes && sender != myself && |claimed| == BITMAP_BYTES
      modifies `owner, nodes`slots, nodes`numslots
      ensures Valid()
      ensures forall j :: 0 <= j < SLOTS ==>
                owner[j] == if TestBit(claimed, j) && old(Takes(sender, epoch, j)) then sender else old(owner)[j]
      ensures newmaster <==> exists j :: 0 <= j < SLOTS && old(owner)[j] == curmaster && owner[j] != old(owner)[j]
      ensures forall j :: j in dirty <==>
                0 <= j < SLOTS && hasKeys(j) && old(owner)[j] == myself && owner[j] != old(owner)[j]
    {
      newmaster, dirty := false, [];
      for j := 0 to SLOTS
        invariant Valid()
        invariant forall i :: j <= i < SLOTS ==> owner[i] == old(owner)[i]
        invariant forall i :: 0 <= i < j ==>
          owner[i] == if TestBit(claimed, i) && old(Takes(sender, epoch, i)) then sender else old(owner)[i]
        invariant newmaster <==> exists i :: 0 <= i < j && old(owner)[i] == curmaster && owner[i] != old(owner)[i]
        invariant forall i :: i in dirty <==>
          0 <= i < j && hasKeys(i) && old(owner)[i] == myself && owner[i] != old(owner)[i]
      {
        if TestBit(claimed, j) && Takes(sender, epoch, j) {
          if owner[j] == myself && hasKeys(j) {
            dirty := dirty + [j];
          }
          if owner[j] == curmaster {
            newmaster := true;
          }
          MoveSlot(sender, j);
        }
      }
    }

    /** clusterUpdateSlotsConfigWith. `curmaster` is this node, or its master if it is a slave,
        which may be missing; `hasKeys` tells which slots hold keys. The results are whether this
        node turns into a slave of the sender, otherwise the slots whose keys are deleted, and
        whether the slot count of a missing master is read. */
    method UpdateSlotsConfigWith(sender: Node, epoch: nat, claimed: Bitmap, curmaster: Node?, hasKeys: nat -> bool)
      returns (demoted: bool, dropped: seq<nat>, nullRead: bool)
      requires Valid() && sender in nodes && (curmaster == null || curmaster in nodes) && |claimed| == BITMAP_BYTES
      modifies `owner, nodes`slots, nodes`numslots
      ensures Valid()
      ensures sender == myself ==> owner == old(owner) && !demoted && dropped == []
      // A slot moves exactly when it is claimed and the claim takes it.
      ensures sender != myself ==> forall j :: 0 <= j < SLOTS ==>
                owner[j] == if TestBit(claimed, j) && old(Takes(sender, epoch, j)) then sender else old(owner)[j]
      // No claimed slot stays with an owner of a smaller epoch, except the imported ones.
      ensures sender != myself ==> forall j :: 0 <= j < SLOTS && TestBit(claimed, j) && importing[j].None? ==>
                owner[j] == sender || (owner[j] != null && owner[j].configEpoch >= epoch)
      // A slave without a master fails exactly when an unassigned slot is claimed that it does not import.
      ensures nullRead <==> (sender != myself && curmaster == null &&
                             exists j :: 0 <= j < SLOTS && TestBit(claimed, j) &&
                                         old(owner)[j] == null && importing[j].None?)
      ensures demoted <==> (sender != myself && curmaster != null && Owned(curmaster) == {} &&
                            exists j :: 0 <= j < SLOTS && old(owner)[j] == curmaster && owner[j] != old(owner)[j])
      ensures forall j :: j in dropped <==> (!demoted && !nullRead && 0 <= j < SLOTS && hasKeys(j) &&
                                             old(owner)[j] == myself && owner[j] != old(owner)[j])
    {
      demoted, dropped, nullRead := false, [], false;
      if sender == myself {
        return;
      }
      var newmaster, dirty := ClaimSlots(sender, epoch, claimed, curmaster, hasKeys);
      if newmaster {
        if curmaster == null {
          return false, [], true;
        }
        if curmaster.numslots == 0 {
          return true, [], false;
        }
      }
      dropped := dirty;
    }
  }
}
