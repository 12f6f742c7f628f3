/** Config epochs in the cluster: what a node does with its epochs on every packet and
    command, as functions on the node's view, and as a state machine of message passing. */
module ClusterEpochs {
  import opened Basics
  import opened Options

  /** A node name, read as the number that its bytes spell: `memcmp` compares these. */
  type Name = nat

  /** The role a node is known in; a slave's master may be unknown. */
  datatype Role = Master | Slave(of: Option<Name>)

  /** What one node holds: its current epoch, the config epoch and role of every node it
      knows (itself among them), and the epoch of its last election. */
  datatype Node = Node(current: nat, config: map<Name, nat>, roles: map<Name, Role>, authEpoch: nat)

  datatype Body =
    | Ping(slaveOf: Option<Name>)
    | Update(about: Name, epoch: nat)
    | Plain

  /** A packet: the header fields that carry epochs, and the body. */
  datatype Msg = Msg(sender: Name, current: nat, config: nat, body: Body)

  ghost predicate WellFormed(me: Name, n: Node) {
    me in n.config && n.config.Keys == n.roles.Keys
  }

  /** The config epoch that a node publishes: its own, or its master's if it is a slave. */
  function Published(me: Name, n: Node): nat
    requires me in n.config && me in n.roles
  {
    if n.roles[me].Slave? && n.roles[me].of.Some? && n.roles[me].of.value in n.config
    then n.config[n.roles[me].of.value] else n.config[me]
  }

  /** clusterBuildMessageHdr, with a body. */
  function Packet(me: Name, n: Node, body: Body): Msg
    requires me in n.config && me in n.roles
  {
    Msg(me, n.current, Published(me, n), body)
  }

  function PingBody(me: Name, n: Node): Body
    requires me in n.roles
  {
    Ping(if n.roles[me].Master? then None else if n.roles[me].of.Some? then n.roles[me].of else None)
  }

  /** The start of clusterProcessPacket, for a known sender. */
  function AcceptHeader(n: Node, m: Msg): Node {
    if m.sender in n.config then
      n.(current := Max(n.current, m.current),
         config := n.config[m.sender := Max(n.config[m.sender], m.config)])
    else n
  }

  /** Role switch of the sender of a PING, PONG or MEET. */
  function SwitchRole(n: Node, sender: Name, slaveOf: Option<Name>): Node
    requires sender in n.roles
  {
    if slaveOf.None? then n.(roles := n.roles[sender := Master])
    else if slaveOf.value in n.config then n.(roles := n.roles[sender := Slave(slaveOf)])
    else if n.roles[sender].Master? then n.(roles := n.roles[sender := Slave(None)])
    else n
  }

  /** clusterHandleConfigEpochCollision. */
  function ResolveCollision(me: Name, n: Node, sender: Name): Node
    requires me in n.config && sender in n.config && me in n.roles && sender in n.roles
  {
    if n.config[sender] != n.config[me] || !n.roles[sender].Master? || !n.roles[me].Master? then n
    else if sender <= me then n
    else n.(current := n.current + 1, config := n.config[me := n.current + 1])
  }

  /** clusterUpdateSlotsConfigWith, as far as roles go: `demoted` tells that the slots that
      `x` claims make this node a slave of it. */
  function Follow(me: Name, n: Node, x: Name, demoted: bool): Node {
    if demoted && x != me then n.(roles := n.roles[me := Slave(Some(x))]) else n
  }

  /** The part of a PING, PONG or MEET after the header. */
  function ReceivePing(me: Name, n: Node, m: Msg, slaveOf: Option<Name>, demoted: bool): Node
    requires WellFormed(me, n) && m.sender in n.config
  {
    var n1 := SwitchRole(n, m.sender, slaveOf);
    var n2 := if n1.roles[m.sender].Master? then Follow(me, n1, m.sender, demoted) else n1;
    if n2.roles[me].Master? && n2.roles[m.sender].Master? && m.config == n2.config[me]
    then ResolveCollision(me, n2, m.sender) else n2
  }

  /** clusterProcessPacket, as far as epochs and roles go. */
  function Receive(me: Name, n: Node, m: Msg, demoted: bool): Node
    requires WellFormed(me, n)
  {
    if m.sender !in n.config then n
    else
      var n1 := AcceptHeader(n, m);
      match m.body
      case Plain => n1
      case Update(about, epoch) =>
        if about !in n1.config || n1.config[about] >= epoch then n1
        else Follow(me, n1.(config := n1.config[about := epoch], roles := n1.roles[about := Master]), about, demoted)
      case Ping(slaveOf) => ReceivePing(me, n1, m, slaveOf, demoted)
  }

  // ----- commands and timers ---------------------------------------------------------------

  ghost predicate IsMaxEpoch(n: Node, max: nat) {
    && n.current <= max && (forall x :: x in n.config ==> n.config[x] <= max)
    && (max == n.current || exists x :: x in n.config && n.config[x] == max)
  }

  /** clusterBumpConfigEpochWithoutConsensus, given the greatest epoch known. */
  function Bump(me: Name, n: Node, max: nat): Node
    requires me in n.config
  {
    if n.config[me] == 0 || n.config[me] != max
    then n.(current := n.current + 1, config := n.config[me := n.current + 1]) else n
  }

  /** The start of an election in clusterHandleSlaveFailover. */
  function StartElection(n: Node): Node {
    n.(current := n.current + 1, authEpoch := n.current + 1)
  }

  /** A won election: the config epoch becomes the election's. */
  function WinElection(me: Name, n: Node): Node
    requires me in n.config
  {
    n.(config := n.config[me := Max(n.config[me], n.authEpoch)], roles := n.roles[me := Master])
  }

  /** CLUSTER SET-CONFIG-EPOCH, accepted only from a node that knows no other. */
  function SetConfigEpoch(me: Name, n: Node, epoch: nat): Node
    requires me in n.config
  {
    if |n.config| > 1 || n.config[me] != 0 then n
    else n.(config := n.config[me := epoch], current := Max(n.current, epoch))
  }

  /** A handshake that ends: the node is known from now on, in the role that it announces. */
  function AddNode(n: Node, x: Name, master: bool): Node {
    if x in n.config then n
    else n.(config := n.config[x := 0], roles := n.roles[x := if master then Master else Slave(None)])
  }

  /** CLUSTER FORGET: refused for itself and its master; the slaves of the node keep no master. */
  function ForgetNode(me: Name, n: Node, x: Name): Node
    requires me in n.roles
  {
    if x == me || n.roles[me] == Slave(Some(x)) then n
    else n.(config := n.config - {x},
            roles := map y | y in n.roles && y != x :: if n.roles[y] == Slave(Some(x)) then Slave(None) else n.roles[y])
  }

  /** CLUSTER RESET SOFT: all other nodes forgotten, the epochs kept. */
  function SoftReset(me: Name, n: Node): Node
    requires me in n.config
  {
    n.(config := map[me := n.config[me]], roles := map[me := Master])
  }

  /** clusterLoadConfig: the saved current epoch is raised to the greatest one in the file. */
  function Restart(saved: Node, max: nat): Node {
    saved.(current := max, authEpoch := 0)
  }

  // ----- the cluster -----------------------------------------------------------------------

  /** All nodes, and every packet ever sent: it may arrive any number of times, or never. */
  datatype Cluster = Cluster(nodes: map<Name, Node>, sent: set<Msg>)

  datatype Step =
    | DoSend(x: Name, body: Body)
    | DoReceive(x: Name, m: Msg, demoted: bool)
    | DoBump(x: Name, max: nat)
    | DoStartElection(x: Name)
    | DoWinElection(x: Name)
    | DoSetConfigEpoch(x: Name, epoch: nat)
    | DoAddNode(x: Name, y: Name, master: bool)
    | DoForgetNode(x: Name, y: Name)
    | DoSoftReset(x: Name)
    | DoRestart(x: Name, saved: Node, max: nat)

  /** A node announces its role in PINGs and what it knows in UPDATEs. */
  ghost predicate CanSend(me: Name, n: Node, body: Body) {
    match body
    case Ping(_) => me in n.roles && body == PingBody(me, n)
    case Update(about, epoch) => about in n.config && n.config[about] == epoch
    case Plain => true
  }

  ghost predicate Enabled(c: Cluster, s: Step) {
    && s.x in c.nodes
    && match s
       case DoSend(x, body) => CanSend(x, c.nodes[x], body)
       case DoReceive(x, m, demoted) => m in c.sent
       case DoBump(x, max) => IsMaxEpoch(c.nodes[x], max)
       case DoRestart(x, saved, max) => WellFormed(x, saved) && IsMaxEpoch(saved, max)
       case _ => true
  }

  ghost predicate ClusterOk(c: Cluster) {
    forall x :: x in c.nodes ==> WellFormed(x, c.nodes[x])
  }

  ghost function Do(c: Cluster, s: Step): Cluster
    requires ClusterOk(c) && s.x in c.nodes
  {
    var n := c.nodes[s.x];
    match s
    case DoSend(x, body) => c.(sent := c.sent + {Packet(x, n, body)})
    case DoReceive(x, m, demoted) => c.(nodes := c.nodes[x := Receive(x, n, m, demoted)])
    case DoBump(x, max) => c.(nodes := c.nodes[x := Bump(x, n, max)])
    case DoStartElection(x) => c.(nodes := c.nodes[x := StartElection(n)])
    case DoWinElection(x) => c.(nodes := c.nodes[x := WinElection(x, n)])
    case DoSetConfigEpoch(x, epoch) => c.(nodes := c.nodes[x := SetConfigEpoch(x, n, epoch)])
    case DoAddNode(x, y, master) => c.(nodes := c.nodes[x := AddNode(n, y, master)])
    case DoForgetNode(x, y) => c.(nodes := c.nodes[x := ForgetNode(x, n, y)])
    case DoSoftReset(x) => c.(nodes := c.nodes[x := SoftReset(x, n)])
    case DoRestart(x, saved, max) => c.(nodes := c.nodes[x := Restart(saved, max)])
  }

  /** No node has published anything yet; what it knows it has from its configuration. */
  ghost predicate Initial(c: Cluster) {
    ClusterOk(c) && c.sent == {} && forall x :: x in c.nodes ==> Bounded(c.nodes[x])
  }

  ghost predicate Run(cs: seq<Cluster>, steps: seq<Step>) {
    && |cs| == |steps| + 1 && Initial(cs[0])
    && forall i :: 0 <= i < |steps| ==>
         ClusterOk(cs[i]) && Enabled(cs[i], steps[i]) && cs[i + 1] == Do(cs[i], steps[i])
  }

  // ----- the current epoch is the greatest -------------------------------------------------

  /** The current epoch of a node is at least every config epoch it knows. */
  ghost predicate Bounded(n: Node) {
    n.authEpoch <= n.current && forall x :: x in n.config ==> n.config[x] <= n.current
  }

  /** The current epoch in a packet is at least every config epoch in it. */
  ghost predicate BoundedMsg(m: Msg) {
    m.config <= m.current && (m.body.Update? ==> m.body.epoch <= m.current)
  }

  ghost predicate EpochsBounded(c: Cluster) {
    && ClusterOk(c)
    && (forall x :: x in c.nodes ==> Bounded(c.nodes[x]))
    && (forall m :: m in c.sent ==> BoundedMsg(m))
  }

  lemma PingBounded(me: Name, n: Node, m: Msg, slaveOf: Option<Name>, demoted: bool)
    requires WellFormed(me, n) && Bounded(n) && m.sender in n.config
    ensures WellFormed(me, ReceivePing(me, n, m, slaveOf, demoted)) && Bounded(ReceivePing(me, n, m, slaveOf, demoted))
  {}

  lemma HeaderBounded(me: Name, n: Node, m: Msg)
    requires WellFormed(me, n) && Bounded(n) && BoundedMsg(m) && m.sender in n.config
    ensures WellFormed(me, AcceptHeader(n, m)) && Bounded(AcceptHeader(n, m))
    ensures m.body.Update? ==> m.body.epoch <= AcceptHeader(n, m).current
  {}

  lemma ReceiveBounded(me: Name, n: Node, m: Msg, demoted: bool)
    requires WellFormed(me, n) && Bounded(n) && BoundedMsg(m)
    ensures WellFormed(me, Receive(me, n, m, demoted)) && Bounded(Receive(me, n, m, demoted))
  {
    if m.sender in n.config {
      HeaderBounded(me, n, m);
      if m.body.Ping? {
        PingBounded(me, AcceptHeader(n, m), m, m.body.slaveOf, demoted);
      }
    }
  }

  /** Newer epochs are taken over and none goes back; those of third nodes are as they were. */
  ghost predicate Learns(me: Name, n: Node, m: Msg, n': Node) {
    && n'.config.Keys == n.config.Keys && n'.authEpoch == n.authEpoch
    && (m.sender in n.config ==> n'.current >= m.current && n'.config[m.sender] >= m.config)
    && n'.current >= n.current && (forall x :: x in n.config ==> n'.config[x] >= n.config[x])
    && (forall x :: x in n.config && x != me && x != m.sender && n'.config[x] != n.config[x] ==>
          m.body == Update(x, n'.config[x]))
  }

  /** After the header. */
  lemma RestLearns(me: Name, n: Node, m: Msg, n1: Node, n': Node)
    requires me in n.config && m.sender in n.config && n1 == AcceptHeader(n, m)
    requires n'.config.Keys == n1.config.Keys && n'.authEpoch == n1.authEpoch && n'.current >= n1.current
    requires forall x :: x in n1.config ==> n'.config[x] >= n1.config[x]
    requires forall x :: x in n1.config && x != me && n'.config[x] != n1.config[x] ==> m.body == Update(x, n'.config[x])
    ensures Learns(me, n, m, n')
  {}

  lemma PingLearns(me: Name, n: Node, m: Msg, demoted: bool)
    requires WellFormed(me, n) && Bounded(n) && BoundedMsg(m) && m.sender in n.config && m.body.Ping?
    ensures Learns(me, n, m, Receive(me, n, m, demoted))
  {
    RestLearns(me, n, m, AcceptHeader(n, m), Receive(me, n, m, demoted));
  }

  lemma UpdateLearns(me: Name, n: Node, m: Msg, demoted: bool)
    requires WellFormed(me, n) && Bounded(n) && BoundedMsg(m) && m.sender in n.config && m.body.Update?
    ensures Learns(me, n, m, Receive(me, n, m, demoted))
  {
    RestLearns(me, n, m, AcceptHeader(n, m), Receive(me, n, m, demoted));
  }

  /** A node that is not known is not listened to. From a known one the node takes over what is
      newer in the header; the epochs of third nodes change only by an UPDATE about them; and no
      epoch goes back. */
  lemma ReceiveLearns(me: Name, n: Node, m: Msg, demoted: bool)
    requires WellFormed(me, n) && Bounded(n) && BoundedMsg(m) && m.sender != me
    ensures var n' := Receive(me, n, m, demoted);
      && n'.config.Keys == n.config.Keys && n'.authEpoch == n.authEpoch
      && (m.sender !in n.config ==> n' == n)
      && (m.sender in n.config ==> n'.current >= m.current && n'.config[m.sender] >= m.config)
      && n'.current >= n.current && (forall x :: x in n.config ==> n'.config[x] >= n.config[x])
      && (forall x :: x in n.config && x != me && x != m.sender && n'.config[x] != n.config[x] ==>
            m.body == Update(x, n'.config[x]))
  {
    if m.sender in n.config {
      match m.body
      case Ping(_) => PingLearns(me, n, m, demoted);
      case Update(_, _) => UpdateLearns(me, n, m, demoted);
      case Plain => RestLearns(me, n, m, AcceptHeader(n, m), AcceptHeader(n, m));
    }
  }

  /** Its own epoch changes only by an UPDATE, or by a collision between masters that the smaller
      name has to leave, to an epoch that is greater than all it knows. */
  lemma ReceiveOwnEpoch(me: Name, n: Node, m: Msg, demoted: bool)
    requires WellFormed(me, n) && Bounded(n) && BoundedMsg(m) && m.sender != me
    requires Receive(me, n, m, demoted).config[me] != n.config[me]
    ensures var n' := Receive(me, n, m, demoted);
      || m.body == Update(me, n'.config[me])
      || (&& m.body.Ping? && m.config == n.config[me] && me < m.sender
          && n'.roles[me].Master? && n'.roles[m.sender].Master?
          && n'.config[me] == n'.current && forall x :: x in n.config && x != me ==> n'.config[x] < n'.config[me])
  {
    ReceiveBounded(me, n, m, demoted);
  }

  lemma StepBounded(c: Cluster, s: Step)
    requires EpochsBounded(c) && Enabled(c, s)
    ensures EpochsBounded(Do(c, s))
  {
    var n := c.nodes[s.x];
    if s.DoReceive? {
      ReceiveBounded(s.x, n, s.m, s.demoted);
    }
  }

  /** In every run without a hard reset, every node's current epoch is at least every config
      epoch it knows, and every packet ever sent says the same of its own contents. */
  lemma {:induction false} CurrentEpochIsGreatest(cs: seq<Cluster>, steps: seq<Step>, i: nat)
    requires Run(cs, steps) && i <= |steps|
    ensures EpochsBounded(cs[i])
  {
    if i > 0 {
      CurrentEpochIsGreatest(cs, steps, i - 1);
      StepBounded(cs[i - 1], steps[i - 1]);
    }
  }
}
