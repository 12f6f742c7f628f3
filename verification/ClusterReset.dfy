/** Two masters that share a config epoch for good: a node that was a slave, and is reset. */
module ClusterReset {
  import opened ClusterCollision
  import opened ClusterEpochs
  import opened ClusterQuiescence
  import opened Options

  /** A cluster of two nodes. */
  function Pair(a: Name, b: Name, na: Node, nb: Node, sent: set<Msg>): Cluster {
    Cluster(map[a := na, b := nb], sent)
  }

  /** A master that knows `b` in some role. */
  function First(a: Name, b: Name, e: nat, current: nat, record: nat, role: Role): Node {
    Node(current, map[a := e, b := record], map[a := Master, b := role], 0)
  }

  /** A slave of `z`, which has the greater epoch `f`. */
  function SecondAsSlave(a: Name, b: Name, z: Name, e: nat, f: nat): Node {
    Node(f, map[a := 0, b := e, z := f], map[a := Master, b := Slave(Some(z)), z := Master], 0)
  }

  function SecondAlone(b: Name, e: nat, f: nat): Node {
    Node(f, map[b := e], map[b := Master], 0)
  }

  function SecondAsMaster(a: Name, b: Name, e: nat, f: nat): Node {
    Node(f, map[b := e, a := 0], map[b := Master, a := Master], 0)
  }

  function PingAsSlave(b: Name, z: Name, f: nat): Msg {
    Msg(b, f, f, Ping(Some(z)))
  }

  function PingAsMaster(b: Name, e: nat, f: nat): Msg {
    Msg(b, f, e, Ping(None))
  }

  /** `a` receives a PING of `b`, which publishes the epoch of its master; `b` is reset and, a master
      by now, meets `a` again; and its next PING reaches `a`. */
  function ResetSteps(a: Name, b: Name, z: Name, e: nat, f: nat): seq<Step> {
    [DoSend(b, Ping(Some(z))), DoReceive(a, PingAsSlave(b, z, f), false), DoSoftReset(b), DoAddNode(b, a, true),
     DoSend(b, Ping(None)), DoReceive(a, PingAsMaster(b, e, f), false)]
  }

  /** The states that these steps lead through. */
  function ResetStates(a: Name, b: Name, z: Name, e: nat, f: nat): seq<Cluster> {
    var m1, m2 := PingAsSlave(b, z, f), PingAsMaster(b, e, f);
    var stranger, met, master := First(a, b, e, e, 0, Slave(None)), First(a, b, e, f, f, Slave(None)),
                                 First(a, b, e, f, f, Master);
    [Pair(a, b, stranger, SecondAsSlave(a, b, z, e, f), {}),
     Pair(a, b, stranger, SecondAsSlave(a, b, z, e, f), {m1}),
     Pair(a, b, met, SecondAsSlave(a, b, z, e, f), {m1}),
     Pair(a, b, met, SecondAlone(b, e, f), {m1}),
     Pair(a, b, met, SecondAsMaster(a, b, e, f), {m1}),
     Pair(a, b, met, SecondAsMaster(a, b, e, f), {m1, m2}),
     Pair(a, b, master, SecondAsMaster(a, b, e, f), {m1, m2})]
  }

  lemma PairUpdate(a: Name, b: Name, na: Node, nb: Node, sent: set<Msg>, n: Node)
    requires a != b
    ensures Pair(a, b, na, nb, sent).(nodes := Pair(a, b, na, nb, sent).nodes[a := n]) == Pair(a, b, n, nb, sent)
    ensures Pair(a, b, na, nb, sent).(nodes := Pair(a, b, na, nb, sent).nodes[b := n]) == Pair(a, b, na, n, sent)
  {
    assert map[a := na, b := nb][a := n] == map[a := n, b := nb];
    assert map[a := na, b := nb][b := n] == map[a := na, b := n];
  }

  /** What the steps make of the two nodes. */
  lemma FirstReceives(a: Name, b: Name, z: Name, e: nat, f: nat)
    requires a < b && z != a && z != b && e < f
    ensures Receive(a, First(a, b, e, e, 0, Slave(None)), PingAsSlave(b, z, f), false) ==
            First(a, b, e, f, f, Slave(None))
    ensures Receive(a, First(a, b, e, f, f, Slave(None)), PingAsMaster(b, e, f), false) == First(a, b, e, f, f, Master)
  {
    assert map[a := e, b := 0][b := f] == map[a := e, b := f] == map[a := e, b := f][b := f];
    assert map[a := Master, b := Slave(None)][b := Master] == map[a := Master, b := Master];
  }

  lemma SecondChanges(a: Name, b: Name, z: Name, e: nat, f: nat)
    requires a < b && z != a && z != b && e < f
    ensures Packet(b, SecondAsSlave(a, b, z, e, f), Ping(Some(z))) == PingAsSlave(b, z, f)
    ensures SoftReset(b, SecondAsSlave(a, b, z, e, f)) == SecondAlone(b, e, f)
    ensures AddNode(SecondAlone(b, e, f), a, true) == SecondAsMaster(a, b, e, f)
    ensures Packet(b, SecondAsMaster(a, b, e, f), Ping(None)) == PingAsMaster(b, e, f)
  {
    assert map[b := e][a := 0] == map[b := e, a := 0];
    assert map[b := Master][a := Master] == map[b := Master, a := Master];
  }

  /** One step of the run. */
  ghost predicate Leads(c: Cluster, s: Step, c': Cluster) {
    ClusterOk(c) && Enabled(c, s) && c' == Do(c, s)
  }

  lemma PairReceives(a: Name, b: Name, na: Node, nb: Node, sent: set<Msg>, m: Msg, n: Node)
    requires a != b && WellFormed(a, na) && WellFormed(b, nb) && m in sent && n == Receive(a, na, m, false)
    ensures Leads(Pair(a, b, na, nb, sent), DoReceive(a, m, false), Pair(a, b, n, nb, sent))
  {
    PairUpdate(a, b, na, nb, sent, n);
  }

  lemma PairSends(a: Name, b: Name, na: Node, nb: Node, sent: set<Msg>, body: Body, sent': set<Msg>)
    requires a != b && WellFormed(a, na) && WellFormed(b, nb) && CanSend(b, nb, body)
    requires sent' == sent + {Packet(b, nb, body)}
    ensures Leads(Pair(a, b, na, nb, sent), DoSend(b, body), Pair(a, b, na, nb, sent'))
  {}

  lemma PairChanges(a: Name, b: Name, na: Node, nb: Node, sent: set<Msg>)
    requires a != b && WellFormed(a, na) && WellFormed(b, nb)
    ensures Leads(Pair(a, b, na, nb, sent), DoSoftReset(b), Pair(a, b, na, SoftReset(b, nb), sent))
    ensures Leads(Pair(a, b, na, nb, sent), DoAddNode(b, a, true), Pair(a, b, na, AddNode(nb, a, true), sent))
  {
    PairUpdate(a, b, na, nb, sent, SoftReset(b, nb));
    PairUpdate(a, b, na, nb, sent, AddNode(nb, a, true));
  }

  lemma AllWellFormed(a: Name, b: Name, z: Name, e: nat, f: nat, current: nat, record: nat, role: Role)
    ensures WellFormed(a, First(a, b, e, current, record, role)) && WellFormed(b, SecondAsSlave(a, b, z, e, f))
    ensures WellFormed(b, SecondAlone(b, e, f)) && WellFormed(b, SecondAsMaster(a, b, e, f))
  {}

  lemma SendAsSlave(a: Name, b: Name, z: Name, e: nat, f: nat)
    requires a < b && z != a && z != b && e < f
    ensures var cs, steps := ResetStates(a, b, z, e, f), ResetSteps(a, b, z, e, f);
      Leads(cs[0], steps[0], cs[1])
  {
    AllWellFormed(a, b, z, e, f, e, 0, Slave(None));
    SecondChanges(a, b, z, e, f);
    PairSends(a, b, First(a, b, e, e, 0, Slave(None)), SecondAsSlave(a, b, z, e, f), {}, Ping(Some(z)),
              {PingAsSlave(b, z, f)});
  }

  lemma MeetAsSlave(a: Name, b: Name, z: Name, e: nat, f: nat)
    requires a < b && z != a && z != b && e < f
    ensures var cs, steps := ResetStates(a, b, z, e, f), ResetSteps(a, b, z, e, f);
      Leads(cs[1], steps[1], cs[2])
  {
    var m, na, nb := PingAsSlave(b, z, f), First(a, b, e, e, 0, Slave(None)), SecondAsSlave(a, b, z, e, f);
    AllWellFormed(a, b, z, e, f, e, 0, Slave(None));
    FirstReceives(a, b, z, e, f);
    PairReceives(a, b, na, nb, {m}, m, First(a, b, e, f, f, Slave(None)));
  }

  lemma ResetAndMeet(a: Name, b: Name, z: Name, e: nat, f: nat)
    requires a < b && z != a && z != b && e < f
    ensures var cs, steps := ResetStates(a, b, z, e, f), ResetSteps(a, b, z, e, f);
      Leads(cs[2], steps[2], cs[3]) && Leads(cs[3], steps[3], cs[4])
  {
    var m, na := PingAsSlave(b, z, f), First(a, b, e, f, f, Slave(None));
    AllWellFormed(a, b, z, e, f, f, f, Slave(None));
    SecondChanges(a, b, z, e, f);
    PairChanges(a, b, na, SecondAsSlave(a, b, z, e, f), {m});
    PairChanges(a, b, na, SecondAlone(b, e, f), {m});
  }

  lemma MeetAsMaster(a: Name, b: Name, z: Name, e: nat, f: nat)
    requires a < b && z != a && z != b && e < f
    ensures var cs, steps := ResetStates(a, b, z, e, f), ResetSteps(a, b, z, e, f);
      Leads(cs[4], steps[4], cs[5]) && Leads(cs[5], steps[5], cs[6])
  {
    var m1, m2 := PingAsSlave(b, z, f), PingAsMaster(b, e, f);
    var na, nb := First(a, b, e, f, f, Slave(None)), SecondAsMaster(a, b, e, f);
    AllWellFormed(a, b, z, e, f, f, f, Slave(None));
    FirstReceives(a, b, z, e, f);
    SecondChanges(a, b, z, e, f);
    PairSends(a, b, na, nb, {m1}, Ping(None), {m1, m2});
    PairReceives(a, b, na, nb, {m1, m2}, m2, First(a, b, e, f, f, Master));
  }

  /** The nodes `a` and `b` share an epoch, and `a` has recorded one of `b` that is ahead of it. */
  ghost predicate Stuck(c: Cluster, a: Name, b: Name, e: nat) {
    && EpochsBounded(c) && a < b && c.nodes.Keys == {a, b}
    && Own(c, a) == e && Own(c, b) == e
    && b in c.nodes[a].config && c.nodes[a].config[b] > e
    && forall m :: m in c.sent ==> m.body.Ping? && m.sender in {a, b}
  }

  /** They are masters, and know each other as masters. */
  ghost predicate MutualMasters(c: Cluster, a: Name, b: Name) {
    && IsMaster(c, a) && IsMaster(c, b)
    && b in c.nodes[a].roles && c.nodes[a].roles[b].Master? && a in c.nodes[b].roles && c.nodes[b].roles[a].Master?
  }

  lemma OnlyPair(names: set<Name>, a: Name, b: Name, x: Name, y: Name)
    requires names == {a, b} && a < b && x in names && y in names && x < y
    ensures x == a && y == b
  {}

  lemma StuckIsQuiescent(c: Cluster, a: Name, b: Name, e: nat)
    requires Stuck(c, a, b, e)
    ensures Quiescent(c)
  {
    forall x, y | Shares(c, x, y) ensures !SeesIt(c, x, y) {
      OnlyPair(c.nodes.Keys, a, b, x, y);
    }
    assert AllHidden(c);
    QuiescentMeansDistinct(c);
  }

  lemma RunOfLeads(cs: seq<Cluster>, steps: seq<Step>)
    requires |cs| == |steps| + 1 && Initial(cs[0])
    requires forall i :: 0 <= i < |steps| ==> Leads(cs[i], steps[i], cs[i + 1])
    ensures Run(cs, steps)
  {
    forall i | 0 <= i < |steps|
      ensures ClusterOk(cs[i]) && Enabled(cs[i], steps[i]) && cs[i + 1] == Do(cs[i], steps[i])
    {
      assert Leads(cs[i], steps[i], cs[i + 1]);
    }
  }

  lemma StartIsInitial(a: Name, b: Name, z: Name, e: nat, f: nat)
    requires a < b && z != a && z != b && e < f
    ensures Initial(ResetStates(a, b, z, e, f)[0])
  {
    AllWellFormed(a, b, z, e, f, e, 0, Slave(None));
  }

  lemma ResetIsRun(a: Name, b: Name, z: Name, e: nat, f: nat)
    requires a < b && z != a && z != b && e < f
    ensures Run(ResetStates(a, b, z, e, f), ResetSteps(a, b, z, e, f))
  {
    SendAsSlave(a, b, z, e, f);
    MeetAsSlave(a, b, z, e, f);
    ResetAndMeet(a, b, z, e, f);
    MeetAsMaster(a, b, z, e, f);
    StartIsInitial(a, b, z, e, f);
    RunOfLeads(ResetStates(a, b, z, e, f), ResetSteps(a, b, z, e, f));
  }

  /** For any names and epochs, a run after which two masters that know each other share an epoch,
      and no fresh PING moves either of them. */
  lemma ResetHides(a: Name, b: Name, z: Name, e: nat, f: nat)
    requires a < b && z != a && z != b && e < f
    ensures var cs := ResetStates(a, b, z, e, f);
      && Run(cs, ResetSteps(a, b, z, e, f))
      && Stuck(cs[6], a, b, e) && MutualMasters(cs[6], a, b) && Quiescent(cs[6])
  {
    ResetIsRun(a, b, z, e, f);
    var cs := ResetStates(a, b, z, e, f);
    CurrentEpochIsGreatest(cs, ResetSteps(a, b, z, e, f), 6);
    StuckIsQuiescent(cs[6], a, b, e);
  }

  /** They share it for good, while PINGs are all that is sent: whatever is received, demoting or not,
      changes neither epoch. */
  lemma {:induction false} SharedForGood(cs: seq<Cluster>, steps: seq<Step>, i: nat, a: Name, b: Name, e: nat)
    requires |cs| == |steps| + 1 && i <= |steps| && Stuck(cs[0], a, b, e)
    requires forall j :: 0 <= j < |steps| ==>
               ClusterOk(cs[j]) && Enabled(cs[j], steps[j]) && PingsOnly(steps[j]) && cs[j + 1] == Do(cs[j], steps[j])
    ensures Stuck(cs[i], a, b, e)
  {
    if i > 0 {
      SharedForGood(cs, steps, i - 1, a, b, e);
      assert cs[i - 1 + 1] == Do(cs[i - 1], steps[i - 1]) && PingsOnly(steps[i - 1]);
      StuckStep(cs[i - 1], steps[i - 1], a, b, e);
    }
  }

  /** PINGs are sent, and packets of others received. */
  predicate PingsOnly(s: Step) {
    (s.DoSend? && s.body.Ping?) || (s.DoReceive? && s.m.sender != s.x)
  }

  lemma StuckStep(c: Cluster, s: Step, a: Name, b: Name, e: nat)
    requires Stuck(c, a, b, e) && Enabled(c, s) && PingsOnly(s)
    ensures Stuck(Do(c, s), a, b, e)
  {
    StepBounded(c, s);
    if s.DoReceive? {
      ReceiveOwn(s.x, c.nodes[s.x], s.m, s.demoted);
      ReceiveLearns(s.x, c.nodes[s.x], s.m, s.demoted);
    }
  }
}
