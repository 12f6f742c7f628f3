/** What each step of a node makes of its epochs and roles, entry by entry. */
module ClusterChanges {
  import opened ClusterEpochs
  import opened ClusterSlots
  import opened Options

  /** The epochs of all nodes but `x` are as they were. */
  ghost predicate OtherEpochs(n: ClusterEpochs.Node, n': ClusterEpochs.Node, x: Name) {
    n'.config.Keys == n.config.Keys && forall y :: y in n.config && y != x ==> n'.config[y] == n.config[y]
  }

  ghost predicate OtherRoles(n: ClusterEpochs.Node, n': ClusterEpochs.Node, x: Name) {
    n'.roles.Keys == n.roles.Keys && forall y :: y in n.roles && y != x ==> n'.roles[y] == n.roles[y]
  }

  /** Nothing has changed but what node `x` itself holds. */
  ghost predicate OnlyAt(c: Cluster, c': Cluster, x: Name) {
    && c'.sent == c.sent && c'.nodes.Keys == c.nodes.Keys
    && forall y :: y in c.nodes && y != x ==> c'.nodes[y] == c.nodes[y]
  }

  lemma StepAt(c: Cluster, s: Step)
    requires ClusterOk(c) && Enabled(c, s)
    ensures s.x in Do(c, s).nodes && (!s.DoSend? ==> OnlyAt(c, Do(c, s), s.x))
    ensures s.DoSend? ==> Do(c, s).nodes == c.nodes && exists m :: Do(c, s).sent == c.sent + {m} && m.sender == s.x
  {
    if s.DoSend? {
      assert Packet(s.x, c.nodes[s.x], s.body).sender == s.x;
    }
  }

  // ----- elections -----------------------------------------------------------------------------------

  /** An election is started in an epoch that the node has not seen before. */
  lemma ElectionStarts(c: Cluster, x: Name)
    requires EpochsBounded(c) && x in c.nodes
    ensures var n, n' := c.nodes[x], Do(c, DoStartElection(x)).nodes[x];
      && n'.authEpoch == n'.current == n.current + 1 && n'.config == n.config && n'.roles == n.roles
      && forall y :: y in n.config ==> n.config[y] < n'.authEpoch
  {}

  /** The winner of an election is a master. Its config epoch is that of the election, unless it was
      greater already; nothing else has changed. */
  lemma ElectionWon(c: Cluster, x: Name)
    requires ClusterOk(c) && x in c.nodes
    ensures OnlyAt(c, Do(c, DoWinElection(x)), x)
    ensures var n, n' := c.nodes[x], Do(c, DoWinElection(x)).nodes[x];
      && x in n'.roles && n'.roles[x] == Master && OtherRoles(n, n', x)
      && n'.current == n.current && n'.authEpoch == n.authEpoch
      && x in n'.config && OtherEpochs(n, n', x) && n'.config[x] >= n.authEpoch && n'.config[x] >= n.config[x]
      && (n.config[x] < n.authEpoch ==> n'.config[x] == n.authEpoch)
      && (n.config[x] >= n.authEpoch ==> n'.config[x] == n.config[x])
  {}

  lemma ElectionEpochKept(c: Cluster, s: Step, x: Name)
    requires ClusterOk(c) && Enabled(c, s) && x in c.nodes
    requires s.x == x ==> !s.DoStartElection? && !s.DoRestart?
    ensures x in Do(c, s).nodes && Do(c, s).nodes[x].authEpoch == c.nodes[x].authEpoch
  {
    StepAt(c, s);
  }

  /** The epoch of an election stays until the next one is started, or the node restarts. */
  lemma {:induction false} ElectionEpochStays(cs: seq<Cluster>, steps: seq<Step>, i: nat, j: nat, x: Name)
    requires Run(cs, steps) && i <= j <= |steps| && x in cs[i].nodes
    requires forall k :: i <= k < j && steps[k].x == x ==> !steps[k].DoStartElection? && !steps[k].DoRestart?
    ensures x in cs[j].nodes && cs[j].nodes[x].authEpoch == cs[i].nodes[x].authEpoch
  {
    if i < j {
      var h := j - 1;
      ElectionEpochStays(cs, steps, i, h, x);
      assert cs[h + 1] == Do(cs[h], steps[h]);
      ElectionEpochKept(cs[h], steps[h], x);
    }
  }

  /** In every run, winning an election takes the config epoch of the winner above every epoch that it
      knew when it asked for the votes. */
  lemma WinnerIsAhead(cs: seq<Cluster>, steps: seq<Step>, i: nat, h: nat, j: nat, k: nat, x: Name)
    requires Run(cs, steps) && h == i + 1 <= j < k == j + 1 <= |steps|
    requires steps[i] == DoStartElection(x) && steps[j] == DoWinElection(x)
    requires forall k :: i < k < j && steps[k].x == x ==> !steps[k].DoStartElection? && !steps[k].DoRestart?
    ensures x in cs[i].nodes && x in cs[k].nodes && x in cs[k].nodes[x].config && cs[k].nodes[x].roles[x] == Master
    ensures forall y :: y in cs[i].nodes[x].config ==> cs[i].nodes[x].config[y] < cs[k].nodes[x].config[x]
  {
    CurrentEpochIsGreatest(cs, steps, i);
    ElectionStarts(cs[i], x);
    assert cs[i + 1] == Do(cs[i], steps[i]) && cs[j + 1] == Do(cs[j], steps[j]);
    StepAt(cs[i], steps[i]);
    ElectionEpochStays(cs, steps, h, j, x);
    ElectionWon(cs[j], x);
  }

  /** The first claims of the winner at another node: every slot that it claims goes to it, if it does
      not hold the slot already, unless the slot is imported, or held under an epoch that is not below
      that of the election. */
  method ReceiveClaim(t: SlotTable, sender: ClusterSlots.Node, m: Msg, claimed: Bitmap,
                      curmaster: ClusterSlots.Node?, hasKeys: nat -> bool, ghost c: Cluster, ghost x: Name)
    requires ClusterOk(c) && x in c.nodes && m == Packet(x, Do(c, DoWinElection(x)).nodes[x], m.body)
    requires t.Valid() && sender in t.nodes && sender != t.myself && (curmaster == null || curmaster in t.nodes)
    requires |claimed| == BITMAP_BYTES
    modifies t`owner, t.nodes`slots, t.nodes`numslots
    ensures t.Valid()
    ensures forall j :: 0 <= j < SLOTS && TestBit(claimed, j) && t.importing[j].None? &&
                        (old(t.owner)[j] == null || old(t.owner[j].configEpoch) < c.nodes[x].authEpoch) ==>
              t.owner[j] == sender
    ensures forall j :: 0 <= j < SLOTS && t.owner[j] != old(t.owner)[j] ==>
              t.owner[j] == sender && TestBit(claimed, j) && t.importing[j].None? &&
              (old(t.owner)[j] == null || old(t.owner[j].configEpoch) < m.config)
  {
    ElectionWon(c, x);
    var _, _, _ := t.UpdateSlotsConfigWith(sender, m.config, claimed, curmaster, hasKeys);
  }

  // ----- commands ------------------------------------------------------------------------------------

  /** A bump that is not needed changes nothing: the own epoch is there and no known one is greater.
      Otherwise it becomes one that no other known one reaches. */
  lemma EpochBumped(c: Cluster, x: Name, max: nat)
    requires EpochsBounded(c) && x in c.nodes && IsMaxEpoch(c.nodes[x], max)
    ensures var n, n' := c.nodes[x], Do(c, DoBump(x, max)).nodes[x];
      if n.config[x] > 0 && n.config[x] >= n.current && forall y :: y in n.config ==> n.config[y] <= n.config[x]
      then n' == n
      else && OtherEpochs(n, n', x) && n'.roles == n.roles && n'.authEpoch == n.authEpoch
           && n'.config[x] == n'.current == n.current + 1 && forall y :: y in n.config ==> n.config[y] < n'.config[x]
  {}

  /** An epoch is set by hand exactly on a node that knows no other and has none. */
  lemma EpochSet(c: Cluster, x: Name, epoch: nat)
    requires ClusterOk(c) && x in c.nodes
    ensures var n, n' := c.nodes[x], Do(c, DoSetConfigEpoch(x, epoch)).nodes[x];
      if n.config.Keys == {x} && n.config[x] == 0
      then && n'.config == map[x := epoch] && n'.roles == n.roles && n'.authEpoch == n.authEpoch
           && n'.current >= n.current && n'.current >= epoch && (n'.current == n.current || n'.current == epoch)
      else n' == n
  {
    OneKey(c.nodes[x].config, x);
  }

  lemma OneKey(m: map<Name, nat>, x: Name)
    requires x in m
    ensures |m| > 1 <==> m.Keys != {x}
    ensures m.Keys == {x} ==> forall e: nat :: m[x := e] == map[x := e]
  {
    assert |m| == |m.Keys| && m.Keys == {x} + (m.Keys - {x});
    if m.Keys - {x} != {} {
      var y :| y in m.Keys - {x};
      assert m.Keys - {x} == {y} + (m.Keys - {x} - {y});
    }
  }

  /** A node that is introduced is known without an epoch; one that is known stays as it is. */
  lemma NodeAdded(c: Cluster, x: Name, y: Name, master: bool)
    requires ClusterOk(c) && x in c.nodes
    ensures var n, n' := c.nodes[x], Do(c, DoAddNode(x, y, master)).nodes[x];
      && n'.current == n.current && n'.authEpoch == n.authEpoch
      && n'.config.Keys == n.config.Keys + {y} == n'.roles.Keys
      && (forall z :: z in n.config ==> n'.config[z] == n.config[z] && n'.roles[z] == n.roles[z])
      && (y !in n.config ==> n'.config[y] == 0 && (n'.roles[y] == Master <==> master) &&
                             (n'.roles[y] == Slave(None) <==> !master))
  {}

  /** A node that is forgotten is known no more, and its slaves have no master; a node does not forget
      itself, nor its own master. */
  lemma NodeForgotten(c: Cluster, x: Name, y: Name)
    requires ClusterOk(c) && x in c.nodes
    ensures var n, n' := c.nodes[x], Do(c, DoForgetNode(x, y)).nodes[x];
      if y == x || n.roles[x] == Slave(Some(y)) then n' == n
      else && n'.current == n.current && n'.authEpoch == n.authEpoch
           && n'.config.Keys == n.config.Keys - {y} == n'.roles.Keys
           && forall z :: z in n.config && z != y ==>
                && n'.config[z] == n.config[z]
                && n'.roles[z] == if n.roles[z] == Slave(Some(y)) then Slave(None) else n.roles[z]
  {}

  /** After a soft reset a node is a master that knows itself alone, with all its epochs. */
  lemma NodeReset(c: Cluster, x: Name)
    requires ClusterOk(c) && x in c.nodes
    ensures var n, n' := c.nodes[x], Do(c, DoSoftReset(x)).nodes[x];
      && n'.config.Keys == {x} == n'.roles.Keys && n'.config[x] == n.config[x] && n'.roles[x] == Master
      && n'.current == n.current && n'.authEpoch == n.authEpoch
  {}

  /** A node that restarts has what it saved, and its current epoch is the greatest one in it. */
  lemma NodeRestarted(c: Cluster, x: Name, saved: ClusterEpochs.Node, max: nat)
    requires ClusterOk(c) && Enabled(c, DoRestart(x, saved, max))
    ensures var n' := Do(c, DoRestart(x, saved, max)).nodes[x];
      && n'.config == saved.config && n'.roles == saved.roles && n'.authEpoch == 0 && n'.current >= saved.current
      && (forall y :: y in n'.config ==> n'.config[y] <= n'.current)
      && (n'.current == saved.current || exists y :: y in n'.config && n'.config[y] == n'.current)
  {}

  // ----- packets -------------------------------------------------------------------------------------

  /** What a node sends: its name and current epoch, and its own config epoch, or that of its master
      if it is a slave of a node that it knows. */
  lemma PacketSent(c: Cluster, x: Name, body: Body)
    requires ClusterOk(c) && Enabled(c, DoSend(x, body))
    ensures var n := c.nodes[x];
      exists m :: && Do(c, DoSend(x, body)).sent == c.sent + {m}
                  && m.sender == x && m.current == n.current && m.body == body
                  && (n.roles[x] == Master ==> m.config == n.config[x] && (body.Ping? ==> body == Ping(None)))
                  && (n.roles[x].Slave? && n.roles[x].of.Some? ==>
                        var z := n.roles[x].of.value;
                        && m.config == (if z in n.config then n.config[z] else n.config[x])
                        && (body.Ping? ==> body == Ping(Some(z))))
  {
    var m := Packet(x, c.nodes[x], body);
    assert Do(c, DoSend(x, body)).sent == c.sent + {m};
  }

  /** What the header of a packet of a known sender tells: the greater one of both epochs is kept. */
  predicate Heard(n: ClusterEpochs.Node, m: Msg, current: nat, record: nat)
    requires m.sender in n.config
  {
    && current >= n.current && current >= m.current && current in {n.current, m.current}
    && record >= n.config[m.sender] && record >= m.config && record in {n.config[m.sender], m.config}
  }

  /** The role in which the sender of a PING is known from then on. A master that is not known itself
      leaves a slave as it was, and a master as a slave without a master. */
  predicate KnownAs(n: ClusterEpochs.Node, sender: Name, slaveOf: Option<Name>, role: Role)
    requires sender in n.roles
  {
    && (slaveOf.None? ==> role == Master)
    && (slaveOf.Some? && slaveOf.value in n.config ==> role == Slave(slaveOf))
    && (slaveOf.Some? && slaveOf.value !in n.config && n.roles[sender] == Master ==> role == Slave(None))
    && (slaveOf.Some? && slaveOf.value !in n.config && n.roles[sender] != Master ==> role == n.roles[sender])
  }

  /** A PING collides: both are masters from now on, with one epoch, and the sender has the greater
      name. */
  predicate Collides(me: Name, n: ClusterEpochs.Node, m: Msg, demoted: bool)
    requires me in n.config && me in n.roles && m.sender in n.config
  {
    && m.body == Ping(None) && !demoted && n.roles[me] == Master && me < m.sender
    && m.config == n.config[me] && n.config[m.sender] <= m.config
  }

  /** Everything that a PING of another node changes: the epochs of its header, the role of the sender,
      the role of this node if it loses its last slot to the sender, and its epoch on a collision. */
  lemma PingReceived(me: Name, n: ClusterEpochs.Node, m: Msg, demoted: bool)
    requires WellFormed(me, n) && m.sender in n.config && m.sender != me && m.body.Ping?
    ensures exists current, record, role ::
      && Heard(n, m, current, record) && KnownAs(n, m.sender, m.body.slaveOf, role)
      && var n', moves := Receive(me, n, m, demoted), Collides(me, n, m, demoted);
         && n'.authEpoch == n.authEpoch && n'.current == (if moves then current + 1 else current)
         && n'.config == n.config[m.sender := record][me := if moves then current + 1 else n.config[me]]
         && n'.roles == n.roles[m.sender := role][me := if demoted && m.body == Ping(None) then Slave(Some(m.sender))
                                                       else n.roles[me]]
  {
    var n1, n' := AcceptHeader(n, m), Receive(me, n, m, demoted);
    var current, record, role := n1.current, n1.config[m.sender], n'.roles[m.sender];
    assert Heard(n, m, current, record) && KnownAs(n, m.sender, m.body.slaveOf, role);
  }

  /** Everything that an UPDATE changes: a newer epoch is recorded, and its node known as a master,
      whose slave this one becomes if it loses its last slot to it. */
  lemma UpdateReceived(me: Name, n: ClusterEpochs.Node, m: Msg, demoted: bool)
    requires WellFormed(me, n) && m.sender in n.config && m.sender != me && m.body.Update?
    ensures exists current, record ::
      && Heard(n, m, current, record)
      && var n', about, n1 := Receive(me, n, m, demoted), m.body.about, n.config[m.sender := record];
         && n'.authEpoch == n.authEpoch && n'.current == current
         && if about in n1 && n1[about] < m.body.epoch
            then n'.config == n1[about := m.body.epoch] &&
                 n'.roles == if demoted && about != me then n.roles[about := Master][me := Slave(Some(about))]
                             else n.roles[about := Master]
            else n'.config == n1 && n'.roles == n.roles
  {
    var n1 := AcceptHeader(n, m);
    var current, record := n1.current, n1.config[m.sender];
    assert Heard(n, m, current, record);
  }

  /** Other packets of a known node change nothing but the epochs of the header. */
  lemma PlainReceived(me: Name, n: ClusterEpochs.Node, m: Msg, demoted: bool)
    requires WellFormed(me, n) && m.sender in n.config && m.body.Plain?
    ensures exists current, record ::
      Heard(n, m, current, record) &&
      Receive(me, n, m, demoted) == n.(current := current, config := n.config[m.sender := record])
  {
    var n1 := AcceptHeader(n, m);
    var current, record := n1.current, n1.config[m.sender];
    assert Heard(n, m, current, record);
  }
}
