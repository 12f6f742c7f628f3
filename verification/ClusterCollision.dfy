/** Collisions of config epochs resolve themselves: how often a node moves. */
module ClusterCollision {
  import opened Basics
  import opened Options
  import opened Binary
  import opened ClusterEpochs

  /** A node's own config epoch. */
  function Own(c: Cluster, x: Name): nat
    requires x in c.nodes && x in c.nodes[x].config
  {
    c.nodes[x].config[x]
  }

  /** The step changes own epochs, if any, by a PING of another node. Roles, the nodes that are
      known, current epochs and records of others may change in any way. */
  ghost predicate OwnByPing(c: Cluster, s: Step)
    requires ClusterOk(c) && s.x in c.nodes
  {
    forall x :: x in c.nodes && (x !in Do(c, s).nodes[x].config || Own(Do(c, s), x) != Own(c, x)) ==>
      s.DoReceive? && s.x == x && s.m.body.Ping? && s.m.sender != x
  }

  /** A run from any state that a run can lead to, with packets under way, in which new config
      epochs come from collisions alone: nodes are introduced, forgotten, reset, demoted, start
      elections and restart, and packets arrive in any order, late, repeatedly or never. */
  ghost predicate CollisionRun(cs: seq<Cluster>, steps: seq<Step>) {
    && |cs| == |steps| + 1 && EpochsBounded(cs[0])
    && forall i :: 0 <= i < |steps| ==>
         ClusterOk(cs[i]) && Enabled(cs[i], steps[i]) && OwnByPing(cs[i], steps[i]) && cs[i + 1] == Do(cs[i], steps[i])
  }

  lemma {:induction false} RunBounded(cs: seq<Cluster>, steps: seq<Step>, i: nat)
    requires CollisionRun(cs, steps) && i <= |steps|
    ensures EpochsBounded(cs[i]) && cs[i].nodes.Keys == cs[0].nodes.Keys
  {
    if i > 0 {
      RunBounded(cs, steps, i - 1);
      StepBounded(cs[i - 1], steps[i - 1]);
      SameNodes(cs[i - 1], steps[i - 1]);
    }
  }

  lemma SameNodes(c: Cluster, s: Step)
    requires ClusterOk(c) && Enabled(c, s)
    ensures Do(c, s).nodes.Keys == c.nodes.Keys
  {}

  // ----- what moves a node ---------------------------------------------------------------------

  /** A PING of another node moves its receiver only on a collision: the sender announces itself
      as a master, has the greater name and the same epoch, and no greater one was recorded of it; and the
      receiver moves upwards. */
  lemma ReceiveOwn(me: Name, n: Node, m: Msg, demoted: bool)
    requires WellFormed(me, n) && Bounded(n) && BoundedMsg(m) && m.body.Ping? && m.sender != me
    ensures var n' := Receive(me, n, m, demoted);
      && me in n'.config && n'.config[me] >= n.config[me]
      && (n'.config[me] != n.config[me] ==>
            && m.body == Ping(None) && m.sender > me && m.config == n.config[me]
            && m.sender in n.config && n.config[m.sender] <= m.config)
  {}

  /** A node that announces itself as a master publishes its own epoch. */
  lemma OwnIsPublished(me: Name, n: Node)
    requires WellFormed(me, n) && PingBody(me, n) == Ping(None)
    ensures Packet(me, n, Ping(None)).config == n.config[me]
  {}

  /** What a step may do to an own epoch: nothing, or a move away from the epoch that a
      greater-named node has announced. */
  lemma StepOwn(c: Cluster, s: Step, x: Name)
    requires EpochsBounded(c) && Enabled(c, s) && OwnByPing(c, s) && x in c.nodes
    ensures x in Do(c, s).nodes && x in Do(c, s).nodes[x].config && Own(Do(c, s), x) >= Own(c, x)
    ensures Own(Do(c, s), x) != Own(c, x) ==>
              s.DoReceive? && s.m in c.sent && s.m.body == Ping(None) && s.m.sender > x && s.m.config == Own(c, x)
  {
    StepBounded(c, s);
    SameNodes(c, s);
    if s.DoReceive? && s.x == x && s.m.body.Ping? && s.m.sender != x {
      ReceiveOwn(x, c.nodes[x], s.m, s.demoted);
    }
  }

  // ----- how many epochs a node goes through -----------------------------------------------------

  /** How often the numbers of a sequence change. */
  function Changes(s: seq<nat>): nat {
    if |s| <= 1 then 0 else Changes(s[..|s| - 1]) + if s[|s| - 1] != s[|s| - 2] then 1 else 0
  }

  function Elements(s: seq<nat>): set<nat> {
    set v | v in s
  }

  predicate Ascending(s: seq<nat>) {
    forall j, k :: 0 <= j < k < |s| ==> s[j] <= s[k]
  }

  /** In an ascending sequence there is one more number than there are changes. */
  lemma {:induction false} ChangesCount(s: seq<nat>)
    requires s != [] && Ascending(s)
    ensures |Elements(s)| == Changes(s) + 1
  {
    if |s| == 1 {
      assert Elements(s) == {s[0]};
    } else {
      var before := s[..|s| - 1];
      ChangesCount(before);
      OneMoreChange(before, before[|before| - 1], s[|s| - 1], s);
    }
  }

  lemma OneMoreChange(before: seq<nat>, last: nat, v: nat, s: seq<nat>)
    requires before != [] && Ascending(before) && last == before[|before| - 1] && last <= v && s == before + [v]
    ensures |Elements(s)| == |Elements(before)| + if v != last then 1 else 0
    ensures Changes(s) == Changes(before) + if v != last then 1 else 0
  {
    ChangesSnoc(before, last, v, s);
    ElementsSnoc(before, v, s);
    LastIsGreatest(before, last);
    AddValue(Elements(before), v, last);
  }

  lemma LastIsGreatest(s: seq<nat>, last: nat)
    requires s != [] && Ascending(s) && last == s[|s| - 1]
    ensures last in Elements(s) && forall v :: v in Elements(s) ==> v <= last
  {
    forall v | v in Elements(s) ensures v <= last {
      var j :| 0 <= j < |s| && s[j] == v;
    }
  }

  lemma ChangesSnoc(before: seq<nat>, last: nat, v: nat, s: seq<nat>)
    requires before != [] && last == before[|before| - 1] && s == before + [v]
    ensures Changes(s) == Changes(before) + if v != last then 1 else 0
  {
    assert s[..|s| - 1] == before;
  }

  lemma ElementsSnoc(before: seq<nat>, v: nat, s: seq<nat>)
    requires s == before + [v]
    ensures Elements(s) == Elements(before) + {v}
  {}

  lemma AddValue(s: set<nat>, v: nat, last: nat)
    requires last in s && forall u :: u in s ==> u <= last
    requires v >= last
    ensures |s + {v}| == |s| + if v != last then 1 else 0
  {
    if v == last {
      assert s + {v} == s;
    }
  }

  lemma {:induction false} AscendingBySteps(h: seq<nat>)
    requires forall j :: 0 < j < |h| ==> h[j - 1] <= h[j]
    ensures Ascending(h)
  {
    if h != [] {
      var before := h[..|h| - 1];
      AscendingBySteps(before);
      forall j | 0 <= j < |before| ensures h[j] <= h[|h| - 1] {
        assert before[j] <= before[|before| - 1];
      }
    }
  }

  ghost predicate IsThere(c: Cluster, x: Name) {
    x in c.nodes && x in c.nodes[x].config
  }

  /** A node in every state of the run. */
  ghost predicate InRun(cs: seq<Cluster>, x: Name) {
    forall j :: 0 <= j < |cs| ==> IsThere(cs[j], x)
  }

  /** The config epochs of a node up to state `i`. */
  ghost function History(cs: seq<Cluster>, x: Name, i: nat): (h: seq<nat>)
    requires i < |cs| && InRun(cs, x)
    ensures |h| == i + 1 && forall j :: 0 <= j <= i ==> h[j] == Own(cs[j], x)
  {
    seq(i + 1, j requires 0 <= j <= i => Own(cs[j], x))
  }

  ghost function Values(cs: seq<Cluster>, x: Name, i: nat): set<nat>
    requires i < |cs| && InRun(cs, x)
  {
    Elements(History(cs, x, i))
  }

  /** How often its config epoch has changed up to state `i`. */
  ghost function Bumps(cs: seq<Cluster>, x: Name, i: nat): nat
    requires i < |cs| && InRun(cs, x)
  {
    Changes(History(cs, x, i))
  }

  lemma AllInRun(cs: seq<Cluster>, steps: seq<Step>, x: Name)
    requires CollisionRun(cs, steps) && x in cs[0].nodes
    ensures InRun(cs, x)
  {
    forall j | 0 <= j < |cs| ensures IsThere(cs[j], x) {
      RunBounded(cs, steps, j);
    }
  }

  lemma OwnGrows(cs: seq<Cluster>, steps: seq<Step>, x: Name, h: nat, i: nat)
    requires CollisionRun(cs, steps) && i == h + 1 <= |steps| && InRun(cs, x)
    ensures Own(cs[i], x) >= Own(cs[h], x)
    ensures Own(cs[i], x) != Own(cs[h], x) ==>
              && steps[h].DoReceive? && steps[h].m in cs[h].sent
              && steps[h].m.body == Ping(None) && steps[h].m.sender > x && steps[h].m.config == Own(cs[h], x)
  {
    RunBounded(cs, steps, h);
    assert IsThere(cs[h], x) && cs[h + 1] == Do(cs[h], steps[h]);
    StepOwn(cs[h], steps[h], x);
  }

  /** Epochs only grow, so there is one more value than there were changes. */
  lemma BumpsCountValues(cs: seq<Cluster>, steps: seq<Step>, x: Name, i: nat)
    requires CollisionRun(cs, steps) && i <= |steps| && InRun(cs, x)
    ensures |Values(cs, x, i)| == Bumps(cs, x, i) + 1
    ensures Own(cs[i], x) in Values(cs, x, i) && forall v :: v in Values(cs, x, i) ==> v <= Own(cs[i], x)
  {
    var h := History(cs, x, i);
    forall j | 0 < j < |h| ensures h[j - 1] <= h[j] {
      OwnGrows(cs, steps, x, j - 1, j);
    }
    AscendingBySteps(h);
    ChangesCount(h);
    LastIsGreatest(h, h[i]);
  }

  // ----- where the epochs in PINGs come from -------------------------------------------------------

  /** The node announces itself as a master at some time in the run. */
  ghost predicate Announces(steps: seq<Step>, y: Name) {
    exists j :: 0 <= j < |steps| && steps[j] == DoSend(y, Ping(None))
  }

  /** The epochs in the PINGs of masters that are under way at the start. */
  ghost function UnderWay(cs: seq<Cluster>): set<nat>
    requires |cs| > 0
  {
    set m | m in cs[0].sent && m.body == Ping(None) :: m.config
  }

  lemma ValueAt(cs: seq<Cluster>, x: Name, j: nat, i: nat)
    requires j <= i < |cs| && InRun(cs, x)
    ensures IsThere(cs[j], x) && Own(cs[j], x) in Values(cs, x, i)
  {
    assert History(cs, x, i)[j] in History(cs, x, i);
  }

  /** A PING of a master was under way at the start, or carries an epoch that its sender has had
      since. */
  lemma {:induction false} PacketHasValue(cs: seq<Cluster>, steps: seq<Step>, i: nat, m: Msg)
    requires CollisionRun(cs, steps) && i <= |steps| && m in cs[i].sent && m.body == Ping(None)
    ensures m.config in UnderWay(cs) ||
            (m.sender in cs[0].nodes && Announces(steps, m.sender) && InRun(cs, m.sender) &&
             m.config in Values(cs, m.sender, i))
  {
    if m !in cs[0].sent {
      var h := i - 1;
      if m in cs[h].sent {
        PacketHasValue(cs, steps, h, m);
        if m.config !in UnderWay(cs) {
          ValuesGrow(cs, m.sender, h, i);
        }
      } else {
        FreshPacket(cs, steps, h, i, m);
        ValueAt(cs, m.sender, h, i);
      }
    }
  }

  /** A packet that was not there before carries the epoch that its sender has. */
  lemma FreshPacket(cs: seq<Cluster>, steps: seq<Step>, h: nat, i: nat, m: Msg)
    requires CollisionRun(cs, steps) && i == h + 1 <= |steps| && m in cs[i].sent && m !in cs[h].sent
    requires m.body == Ping(None)
    ensures m.sender in cs[0].nodes && Announces(steps, m.sender) && InRun(cs, m.sender)
    ensures m.config == Own(cs[h], m.sender)
  {
    RunBounded(cs, steps, h);
    assert cs[h + 1] == Do(cs[h], steps[h]);
    assert steps[h] == DoSend(m.sender, Ping(None));
    AllInRun(cs, steps, m.sender);
    OwnIsPublished(m.sender, cs[h].nodes[m.sender]);
  }

  lemma ValuesGrow(cs: seq<Cluster>, x: Name, i: nat, j: nat)
    requires i <= j < |cs| && InRun(cs, x)
    ensures Values(cs, x, i) <= Values(cs, x, j)
  {}

  // ----- the bound -------------------------------------------------------------------------

  /** The nodes with greater names that announce themselves as masters in the run. */
  ghost function Greater(cs: seq<Cluster>, steps: seq<Step>, x: Name): set<Name>
    requires |cs| > 0
  {
    set y | y in cs[0].nodes && Announces(steps, y) && y > x
  }

  ghost predicate AllInSet(cs: seq<Cluster>, names: set<Name>) {
    forall y :: y in names ==> InRun(cs, y)
  }

  /** The epochs under way at the start, and all that any of these nodes has had. */
  ghost function Union(cs: seq<Cluster>, names: set<Name>, i: nat): set<nat>
    requires i < |cs| && AllInSet(cs, names)
  {
    UnderWay(cs) + set y, v | y in names && v in Values(cs, y, i) :: v
  }

  lemma UnionHas(cs: seq<Cluster>, names: set<Name>, i: nat, y: Name)
    requires i < |cs| && AllInSet(cs, names) && y in names
    ensures Values(cs, y, i) <= Union(cs, names, i)
  {}

  lemma UnionGrows(cs: seq<Cluster>, names: set<Name>, i: nat, j: nat)
    requires i <= j < |cs| && AllInSet(cs, names)
    ensures Union(cs, names, i) <= Union(cs, names, j)
  {
    forall y | y in names ensures Values(cs, y, i) <= Values(cs, y, j) {
      ValuesGrow(cs, y, i, j);
    }
  }

  /** Every epoch that a node has left was under way or was had by a greater-named node. */
  lemma {:induction false} LeftValues(cs: seq<Cluster>, steps: seq<Step>, x: Name, i: nat, v: nat)
    requires CollisionRun(cs, steps) && i <= |steps| && InRun(cs, x) && AllInSet(cs, Greater(cs, steps, x))
    requires v in Values(cs, x, i) && v != Own(cs[i], x)
    ensures v in Union(cs, Greater(cs, steps, x), i)
  {
    var h := i - 1;
    if v == Own(cs[h], x) {
      OwnGrows(cs, steps, x, h, i);
      PacketHasValue(cs, steps, h, steps[h].m);
      if v !in UnderWay(cs) {
        UnionHas(cs, Greater(cs, steps, x), h, steps[h].m.sender);
      }
    } else {
      LeftValues(cs, steps, x, h, v);
    }
    UnionGrows(cs, Greater(cs, steps, x), h, i);
  }

  lemma Smallest(names: set<Name>) returns (x: Name)
    requires names != {}
    ensures x in names && forall y :: y in names ==> x <= y
    decreases names
  {
    x :| x in names;
    if names != {x} {
      var y := Smallest(names - {x});
      assert names == (names - {x}) + {x};
      x := if y < x then y else x;
    }
  }

  lemma UnionSize(a: set<nat>, b: set<nat>)
    ensures |a + b| <= |a| + |b|
  {
    SubsetSize(b - a, b);
    assert a + b == a + (b - a);
    assert |a + (b - a)| == |a| + |b - a|;
  }

  /** A node has had at most one epoch more than the greater-named ones together. */
  lemma ValuesBound(cs: seq<Cluster>, steps: seq<Step>, x: Name, i: nat)
    requires CollisionRun(cs, steps) && i <= |steps| && InRun(cs, x) && AllInSet(cs, Greater(cs, steps, x))
    ensures |Values(cs, x, i)| <= |Union(cs, Greater(cs, steps, x), i)| + 1
  {
    var all := Union(cs, Greater(cs, steps, x), i) + {Own(cs[i], x)};
    forall v | v in Values(cs, x, i) ensures v in all {
      if v != Own(cs[i], x) {
        LeftValues(cs, steps, x, i, v);
      }
    }
    SubsetSize(Values(cs, x, i), all);
    UnionSize(Union(cs, Greater(cs, steps, x), i), {Own(cs[i], x)});
  }

  lemma SplitUnion(cs: seq<Cluster>, names: set<Name>, x: Name, i: nat)
    requires i < |cs| && AllInSet(cs, names) && x in names
    ensures Union(cs, names, i) == Union(cs, names - {x}, i) + Values(cs, x, i)
  {
    forall v | v in Union(cs, names, i) && v !in UnderWay(cs)
      ensures v in Union(cs, names - {x}, i) + Values(cs, x, i)
    {
      var y :| y in names && v in Values(cs, y, i);
    }
  }

  /** Nodes that announce themselves as masters, and with each of them all greater-named ones. */
  ghost predicate Closed(cs: seq<Cluster>, steps: seq<Step>, names: set<Name>)
    requires |cs| > 0
  {
    forall x :: x in names ==> x in cs[0].nodes && Announces(steps, x) && Greater(cs, steps, x) <= names
  }

  lemma GreaterClosed(cs: seq<Cluster>, steps: seq<Step>, x: Name)
    requires |cs| > 0
    ensures Closed(cs, steps, Greater(cs, steps, x))
  {}

  lemma WithoutSmallest(cs: seq<Cluster>, steps: seq<Step>, names: set<Name>) returns (x: Name, rest: set<Name>)
    requires |cs| > 0 && Closed(cs, steps, names) && names != {}
    ensures x in names && rest == names - {x} && rest == Greater(cs, steps, x) && |names| == |rest| + 1
  {
    x := Smallest(names);
    rest := names - {x};
    assert Greater(cs, steps, x) <= names;
    assert rest == Greater(cs, steps, x);
  }

  /** n nodes, among them every greater-named one that announces itself as a master, have had fewer
      than 2^n * b epochs, where b - 1 were under way at the start, and are counted. */
  lemma {:induction false} UnionBound(cs: seq<Cluster>, steps: seq<Step>, names: set<Name>, i: nat, b: nat)
    requires CollisionRun(cs, steps) && i <= |steps| && AllInSet(cs, names)
    requires Closed(cs, steps, names) && b == |UnderWay(cs)| + 1
    ensures |Union(cs, names, i)| < Up(|names|, b)
    decreases |names|
  {
    if names == {} {
      assert Union(cs, names, i) == UnderWay(cs);
    } else {
      var x, rest := WithoutSmallest(cs, steps, names);
      GreaterClosed(cs, steps, x);
      UnionBound(cs, steps, rest, i, b);
      OneMoreNode(cs, steps, names, x, rest, i);
      DoubleAndOne(|Union(cs, names, i)|, |Union(cs, rest, i)|, b, |names|, |rest|);
    }
  }

  lemma OneMoreNode(cs: seq<Cluster>, steps: seq<Step>, names: set<Name>, x: Name, rest: set<Name>, i: nat)
    requires CollisionRun(cs, steps) && i <= |steps| && AllInSet(cs, names)
    requires x in names && rest == names - {x} && rest == Greater(cs, steps, x)
    ensures AllInSet(cs, rest) && |Union(cs, names, i)| <= 2 * |Union(cs, rest, i)| + 1
  {
    ValuesBound(cs, steps, x, i);
    SplitUnion(cs, names, x, i);
    UnionSize(Union(cs, rest, i), Values(cs, x, i));
  }

  lemma DoubleAndOne(u: nat, r: nat, b: nat, n: nat, k: nat)
    requires u <= 2 * r + 1 && r < Up(k, b) && n == k + 1
    ensures u < Up(n, b)
  {}

  lemma GreaterInRun(cs: seq<Cluster>, steps: seq<Step>, x: Name)
    requires CollisionRun(cs, steps) && x in cs[0].nodes
    ensures InRun(cs, x) && AllInSet(cs, Greater(cs, steps, x))
  {
    AllInRun(cs, steps, x);
    forall y | y in Greater(cs, steps, x) ensures InRun(cs, y) {
      AllInRun(cs, steps, y);
    }
  }

  lemma BumpsBelow(cs: seq<Cluster>, steps: seq<Step>, x: Name, k: nat, b: nat)
    requires CollisionRun(cs, steps) && x in cs[0].nodes
    requires k == |Greater(cs, steps, x)| && b == |UnderWay(cs)| + 1
    ensures InRun(cs, x) && Bumps(cs, x, |steps|) < Up(k, b)
  {
    GreaterInRun(cs, steps, x);
    BumpsCountValues(cs, steps, x, |steps|);
    ValuesBound(cs, steps, x, |steps|);
    GreaterClosed(cs, steps, x);
    UnionBound(cs, steps, Greater(cs, steps, x), |steps|, b);
  }

  /** A node changes its config epoch fewer than 2^k * (u + 1) times, where k greater-named nodes
      announce themselves as masters in the run and u epochs are in the PINGs of masters that are
      under way at its start; so at most 2^k - 1 times if nothing is under way. */
  lemma BumpsBound(cs: seq<Cluster>, steps: seq<Step>, x: Name)
    requires CollisionRun(cs, steps) && x in cs[0].nodes
    ensures InRun(cs, x) && var k, u := |Greater(cs, steps, x)|, |UnderWay(cs)|;
      && Bumps(cs, x, |steps|) < (u + 1) * Pow2(k)
      && (cs[0].sent == {} ==> Bumps(cs, x, |steps|) <= Pow2(k) - 1)
  {
    var k, b := |Greater(cs, steps, x)|, |UnderWay(cs)| + 1;
    BumpsBelow(cs, steps, x, k, b);
    UpIsProduct(k, b);
    if cs[0].sent == {} {
      assert UnderWay(cs) == {};
    }
  }
}
