/** When no node moves any more, and whether its epoch is its own by then. */
module ClusterQuiescence {
  import opened ClusterCollision
  import opened ClusterEpochs
  import opened Options

  /** A fresh PING of `b`, received by `a`, makes `a` move; `demoted` tells that the slots which `b`
      claims make `a` its slave. */
  ghost predicate Moves(c: Cluster, a: Name, b: Name, demoted: bool)
    requires ClusterOk(c) && a in c.nodes && b in c.nodes
  {
    var m := Packet(b, c.nodes[b], PingBody(b, c.nodes[b]));
    a != b && Receive(a, c.nodes[a], m, demoted).config[a] != Own(c, a)
  }

  ghost predicate IsMaster(c: Cluster, x: Name) {
    x in c.nodes && x in c.nodes[x].roles && c.nodes[x].roles[x].Master?
  }

  /** A node announces itself as a master if it is one, or a slave that has no master. */
  ghost predicate Poses(c: Cluster, x: Name) {
    x in c.nodes && x in c.nodes[x].roles && PingBody(x, c.nodes[x]) == Ping(None)
  }

  /** Two nodes that count as masters share an epoch. */
  ghost predicate Shares(c: Cluster, a: Name, b: Name)
    requires ClusterOk(c)
  {
    IsMaster(c, a) && Poses(c, b) && a < b && Own(c, a) == Own(c, b)
  }

  /** The one with the smaller name knows the other, and has not recorded an epoch of it that is
      ahead of its own. */
  ghost predicate SeesIt(c: Cluster, a: Name, b: Name)
    requires ClusterOk(c) && a in c.nodes && b in c.nodes
  {
    b in c.nodes[a].config && c.nodes[a].config[b] <= Own(c, b)
  }

  /** Exactly when a fresh PING moves its receiver: two nodes that count as masters share an epoch,
      and the receiver, which has the smaller name, sees it. */
  lemma FreshPing(c: Cluster, a: Name, b: Name, demoted: bool)
    requires EpochsBounded(c) && a in c.nodes && b in c.nodes
    ensures Moves(c, a, b, demoted) <==> !demoted && Shares(c, a, b) && SeesIt(c, a, b)
  {
    if Poses(c, b) {
      OwnIsPublished(b, c.nodes[b]);
    }
  }

  ghost predicate Quiescent(c: Cluster)
    requires ClusterOk(c)
  {
    forall a, b :: a in c.nodes && b in c.nodes ==> !Moves(c, a, b, false)
  }

  /** Every shared epoch is hidden from the smaller-named node. */
  ghost predicate AllHidden(c: Cluster)
    requires ClusterOk(c)
  {
    forall a, b :: Shares(c, a, b) ==> !SeesIt(c, a, b)
  }

  ghost predicate NoneShared(c: Cluster)
    requires ClusterOk(c)
  {
    forall a, b :: !Shares(c, a, b)
  }

  /** Masters see the greater-named ones as they are. */
  ghost predicate AllSeen(c: Cluster)
    requires ClusterOk(c)
  {
    forall a, b :: IsMaster(c, a) && Poses(c, b) && a < b ==> SeesIt(c, a, b)
  }

  /** No fresh PING moves anyone if and only if every shared epoch is hidden from the smaller-named
      node; if all masters see the greater-named ones, if and only if no epoch is shared. */
  lemma QuiescentMeansDistinct(c: Cluster)
    requires EpochsBounded(c)
    ensures Quiescent(c) <==> AllHidden(c)
    ensures AllSeen(c) ==> (Quiescent(c) <==> NoneShared(c))
  {
    forall a, b | a in c.nodes && b in c.nodes
      ensures Moves(c, a, b, false) <==> Shares(c, a, b) && SeesIt(c, a, b)
    {
      FreshPing(c, a, b, false);
    }
    if AllSeen(c) {
      forall a, b | Shares(c, a, b) ensures SeesIt(c, a, b) {}
    }
  }

  // ----- when nothing is hidden ------------------------------------------------------------------

  /** No node has recorded, and no packet carries, an epoch that is ahead of the node it is about. */
  ghost predicate NoneAhead(c: Cluster) {
    && ClusterOk(c)
    && (forall x :: x in c.nodes ==> RecordsOk(c, c.nodes[x]))
    && (forall m :: m in c.sent ==> PacketOk(c, m))
  }

  ghost predicate RecordsOk(c: Cluster, n: Node)
    requires ClusterOk(c)
  {
    forall y :: y in n.config && y in c.nodes ==> n.config[y] <= Own(c, y)
  }

  ghost predicate PacketOk(c: Cluster, m: Msg)
    requires ClusterOk(c)
  {
    && (m.sender in c.nodes ==> m.config <= Own(c, m.sender))
    && (m.body.Update? && m.body.about in c.nodes ==> m.body.epoch <= Own(c, m.body.about))
  }

  /** Senders publish their own epochs, as all masters do, and what a node restarts with is not
      ahead of others. */
  ghost predicate Honest(c: Cluster, s: Step)
    requires ClusterOk(c) && Enabled(c, s)
  {
    && (s.DoSend? ==> Published(s.x, c.nodes[s.x]) <= Own(c, s.x))
    && (s.DoRestart? ==> RecordsOk(c, s.saved))
  }

  lemma ReceiveNotAhead(c: Cluster, x: Name, m: Msg, demoted: bool, y: Name)
    requires EpochsBounded(c) && NoneAhead(c) && x in c.nodes && m in c.sent
    requires y in c.nodes && y != x && y in c.nodes[x].config
    ensures var n' := Receive(x, c.nodes[x], m, demoted);
      y in n'.config && n'.config[y] <= Own(c, y)
  {
    assert PacketOk(c, m) && RecordsOk(c, c.nodes[x]);
  }

  /** The same nodes, none with a smaller own epoch. */
  ghost predicate Grown(c: Cluster, c': Cluster)
    requires ClusterOk(c) && ClusterOk(c')
  {
    c'.nodes.Keys == c.nodes.Keys && forall y :: y in c.nodes ==> Own(c', y) >= Own(c, y)
  }

  /** What a node knows after a step of its own, but for a packet received. */
  lemma StepRecords(c: Cluster, s: Step)
    requires EpochsBounded(c) && NoneAhead(c) && Enabled(c, s) && Honest(c, s) && !s.DoReceive? && ClusterOk(Do(c, s))
    ensures s.x in Do(c, s).nodes
    ensures forall y :: y in c.nodes && y != s.x && y in Do(c, s).nodes[s.x].config ==>
              Do(c, s).nodes[s.x].config[y] <= Own(c, y)
  {
    assert RecordsOk(c, c.nodes[s.x]);
  }

  lemma ReceiveRecords(c: Cluster, s: Step)
    requires EpochsBounded(c) && NoneAhead(c) && Enabled(c, s) && s.DoReceive? && ClusterOk(Do(c, s))
    ensures s.x in Do(c, s).nodes
    ensures forall y :: y in c.nodes && y != s.x && y in Do(c, s).nodes[s.x].config ==>
              Do(c, s).nodes[s.x].config[y] <= Own(c, y)
  {
    ReceiveKeys(s.x, c.nodes[s.x], s.m, s.demoted);
    forall y | y in c.nodes && y != s.x && y in Do(c, s).nodes[s.x].config
      ensures Do(c, s).nodes[s.x].config[y] <= Own(c, y)
    {
      ReceiveNotAhead(c, s.x, s.m, s.demoted, y);
    }
  }

  lemma RecordsGrown(c: Cluster, c': Cluster, x: Name)
    requires NoneAhead(c) && ClusterOk(c') && Grown(c, c') && x in c'.nodes
    requires c'.nodes[x] == c.nodes[x] || forall y :: y in c.nodes && y != x && y in c'.nodes[x].config ==>
                                               c'.nodes[x].config[y] <= Own(c, y)
    ensures RecordsOk(c', c'.nodes[x])
  {
    assert RecordsOk(c, c.nodes[x]);
  }

  lemma PacketsGrown(c: Cluster, s: Step, m: Msg)
    requires NoneAhead(c) && Enabled(c, s) && Honest(c, s)
    requires ClusterOk(Do(c, s)) && Grown(c, Do(c, s)) && m in Do(c, s).sent
    ensures PacketOk(Do(c, s), m)
  {
    assert m in c.sent ==> PacketOk(c, m);
    assert RecordsOk(c, c.nodes[s.x]);
  }

  lemma OthersStay(c: Cluster, s: Step, x: Name)
    requires ClusterOk(c) && Enabled(c, s) && x in c.nodes && x != s.x
    ensures x in Do(c, s).nodes && Do(c, s).nodes[x] == c.nodes[x]
  {}

  lemma StepGrown(c: Cluster, s: Step)
    requires EpochsBounded(c) && Enabled(c, s) && OwnByPing(c, s)
    ensures ClusterOk(Do(c, s)) && Grown(c, Do(c, s))
  {
    StepBounded(c, s);
    SameNodes(c, s);
    forall y | y in c.nodes ensures Own(Do(c, s), y) >= Own(c, y) {
      StepOwn(c, s, y);
    }
  }

  lemma StepNoneAhead(c: Cluster, s: Step)
    requires EpochsBounded(c) && NoneAhead(c) && Enabled(c, s) && OwnByPing(c, s) && Honest(c, s)
    ensures NoneAhead(Do(c, s))
  {
    var c' := Do(c, s);
    StepGrown(c, s);
    if s.DoReceive? {
      ReceiveRecords(c, s);
    } else {
      StepRecords(c, s);
    }
    forall x | x in c'.nodes ensures RecordsOk(c', c'.nodes[x]) {
      if x != s.x {
        OthersStay(c, s, x);
      }
      RecordsGrown(c, c', x);
    }
    forall m | m in c'.sent ensures PacketOk(c', m) {
      PacketsGrown(c, s, m);
    }
  }

  lemma ReceiveKeys(me: Name, n: Node, m: Msg, demoted: bool)
    requires WellFormed(me, n)
    ensures Receive(me, n, m, demoted).config.Keys == n.config.Keys
  {}

  /** Nodes share an epoch only with nodes that they do not know. */
  ghost predicate AllUnknown(c: Cluster)
    requires ClusterOk(c)
  {
    forall a, b :: Shares(c, a, b) ==> b !in c.nodes[a].config
  }

  lemma NothingHidden(c: Cluster)
    requires EpochsBounded(c) && NoneAhead(c)
    ensures Quiescent(c) <==> AllUnknown(c)
  {
    QuiescentMeansDistinct(c);
    forall a, b | Shares(c, a, b) ensures SeesIt(c, a, b) <==> b in c.nodes[a].config {
      assert RecordsOk(c, c.nodes[a]);
    }
  }

  ghost predicate HonestRun(cs: seq<Cluster>, steps: seq<Step>) {
    && CollisionRun(cs, steps) && NoneAhead(cs[0])
    && forall j :: 0 <= j < |steps| ==> Honest(cs[j], steps[j])
  }

  lemma HonestStep(cs: seq<Cluster>, steps: seq<Step>, h: nat, i: nat)
    requires HonestRun(cs, steps) && i == h + 1 <= |steps| && NoneAhead(cs[h])
    ensures NoneAhead(cs[i])
  {
    RunBounded(cs, steps, h);
    assert cs[h + 1] == Do(cs[h], steps[h]) && Honest(cs[h], steps[h]);
    StepNoneAhead(cs[h], steps[h]);
  }

  /** While all senders publish their own epochs, as in a cluster that is being created, nothing but
      not knowing each other hides a shared epoch. */
  lemma {:induction false} CreationSettles(cs: seq<Cluster>, steps: seq<Step>, i: nat)
    requires HonestRun(cs, steps) && i <= |steps|
    ensures EpochsBounded(cs[i]) && NoneAhead(cs[i]) && (Quiescent(cs[i]) <==> AllUnknown(cs[i]))
  {
    if i > 0 {
      CreationSettles(cs, steps, i - 1);
      HonestStep(cs, steps, i - 1, i);
    }
    RunBounded(cs, steps, i);
    NothingHidden(cs[i]);
  }
}
