/** The objects that one cluster node keeps, and the handlers that update them in place:
    packets, epoch commands, votes and failovers. */
module ClusterHandlers {
  import opened Basics
  import opened Options
  import opened ClusterEpochs
  import Election = ClusterElection

  /** A known node. */
  class Peer {
    const name: Name
    var configEpoch: nat
    var isMaster: bool
    var slaveof: Peer?
    /** Flagged as failing; the number of slots it serves; when this node last voted about it. */
    var failed: bool
    var numslots: nat
    var votedTime: int

    function Role(): Role
      reads `isMaster, `slaveof
    {
      if isMaster then Master else Slave(if slaveof == null then None else Some(slaveof.name))
    }

    constructor (name: Name, master: bool)
      ensures this.name == name && configEpoch == 0 && isMaster == master && slaveof == null
      ensures !failed && numslots == 0 && votedTime == 0
    {
      this.name, configEpoch, isMaster, slaveof := name, 0, master, null;
      failed, numslots, votedTime := false, 0, 0;
    }
  }

  /** What a run of the failover handler did. */
  datatype Outcome = Nothing | Scheduled | Asked(request: Election.Request) | Won

  /** The clock, the timeout setting and the random delay, as one run of the handler sees them. */
  datatype Timing = Timing(now: int, nodeTimeout: nat, random: nat, rank: nat)

  /** For how many milliseconds the replication link to the master has been silent or down, and the
      settings that say how long is too long (a factor of zero meaning that nothing is). */
  datatype Link = Link(silent: int, validityFactor: nat, pingPeriod: nat)

  /** The data of a slave is recent enough to take over; the node timeout does not count. */
  predicate Recent(t: Timing, link: Link) {
    var age := if link.silent > t.nodeTimeout then link.silent - t.nodeTimeout else link.silent;
    link.validityFactor == 0 || age <= link.pingPeriod * 1000 + t.nodeTimeout * link.validityFactor
  }

  /** When an attempt to fail over is due, and the rank of this slave when that was decided. */
  datatype Attempt = Attempt(time: int, rank: nat)

  datatype Verdict = Again | Early | Expired | Open

  /** Votes are waited for during two node timeouts, at least two seconds. */
  function AuthTimeout(t: Timing): nat {
    if t.nodeTimeout * 2 < 2000 then 2000 else t.nodeTimeout * 2
  }

  function FirstAttempt(t: Timing, manual: bool): Attempt {
    if manual then Attempt(t.now, 0) else Attempt(t.now + 500 + t.random % 500 + t.rank * 1000, t.rank)
  }

  /** A slave that turns out to have a worse rank waits longer, unless it has asked already. */
  function Ranked(a: Attempt, t: Timing, sent: bool, manual: bool): Attempt {
    if !sent && !manual && t.rank > a.rank then Attempt(a.time + (t.rank - a.rank) * 1000, t.rank) else a
  }

  function Due(a: Attempt, t: Timing, sent: bool, manual: bool): Verdict {
    if t.now - a.time > 2 * AuthTimeout(t) then Again
    else if t.now < Ranked(a, t, sent, manual).time then Early
    else if t.now - a.time > AuthTimeout(t) then Expired
    else Open
  }

  /** Four node timeouts (at least four seconds) after the time of an attempt another one is
      scheduled. It is open from its time on, put off by a second for every slave that has turned out
      to be better, for two node timeouts (at least two seconds). */
  lemma DueExactly(a: Attempt, t: Timing, sent: bool, manual: bool)
    ensures var start := a.time + if !sent && !manual && t.rank > a.rank then (t.rank - a.rank) * 1000 else 0;
      && (Due(a, t, sent, manual) == Again <==> t.now - a.time > 4 * t.nodeTimeout && t.now - a.time > 4000)
      && (Due(a, t, sent, manual) == Open <==>
            t.now >= start && (t.now - a.time <= 2 * t.nodeTimeout || t.now - a.time <= 2000))
      && (Due(a, t, sent, manual) == Early ==> t.now < start)
      && (Due(a, t, sent, manual) == Expired ==> t.now - a.time > 2 * t.nodeTimeout && t.now - a.time > 2000)
  {}

  /** The delay for a worse rank is added once: the attempt then has the greatest rank so far. */
  lemma RankedOnce(a: Attempt, t: Timing, sent: bool, manual: bool)
    ensures var r := Ranked(a, t, sent, manual);
      && Ranked(r, t, sent, manual) == r && r.time - 1000 * r.rank == a.time - 1000 * a.rank
      && (sent || manual ==> r == a) && (!sent && !manual ==> r.rank >= a.rank && r.rank >= t.rank)
      && (r.rank == a.rank || r.rank == t.rank)
  {}

  /** Votes are not asked for earlier than half a second after an attempt was scheduled, and a second
      for every better slave, now or then; by hand they are asked for at once. */
  lemma AskedLater(t: Timing, u: Timing, manual: bool)
    requires u.now >= t.now && Due(FirstAttempt(t, manual), u, false, manual) == Open
    ensures !manual ==> u.now >= t.now + 500 + 1000 * t.rank && u.now >= t.now + 500 + 1000 * u.rank
    ensures manual ==> FirstAttempt(t, manual) == Attempt(t.now, 0)
    ensures !manual ==> FirstAttempt(t, manual).rank == t.rank &&
                        FirstAttempt(t, manual).time < t.now + 1000 + 1000 * t.rank
  {}

  class ClusterState {
    const myself: Peer
    var nodes: map<Name, Peer>
    var currentEpoch: nat
    var lastVoteEpoch: nat
    var authEpoch: nat
    var authCount: nat
    var authSent: bool
    var authTime: int
    var authRank: nat
    /** Who serves which slot; the end of a manual failover, or zero, and whether it may start. */
    var slots: seq<Peer?>
    var manualEnd: int
    var manualCanStart: bool

    ghost predicate Valid()
      reads `nodes, `slots, nodes.Values`isMaster, nodes.Values`slaveof
    {
      && myself.name in nodes && nodes[myself.name] == myself
      && (forall x :: x in nodes ==> nodes[x].name == x && (nodes[x].isMaster ==> nodes[x].slaveof == null))
      && (forall x :: x in nodes ==> nodes[x].slaveof == null || nodes[x].slaveof in nodes.Values)
      && forall j :: 0 <= j < |slots| ==> slots[j] == null || slots[j] in nodes.Values
    }

    ghost function Config(): map<Name, nat>
      reads `nodes, nodes.Values`configEpoch
    {
      map x | x in nodes :: nodes[x].configEpoch
    }

    ghost function Roles(): map<Name, Role>
      reads `nodes, nodes.Values`isMaster, nodes.Values`slaveof
    {
      map x | x in nodes :: nodes[x].Role()
    }

    /** The state as a value: what the node knows of epochs and roles. */
    ghost function View(): Node
      reads `nodes, `currentEpoch, `authEpoch, nodes.Values`configEpoch, nodes.Values`isMaster, nodes.Values`slaveof
    {
      Node(currentEpoch, Config(), Roles(), authEpoch)
    }

    ghost function Voter(): Election.Voter
      reads `currentEpoch, `lastVoteEpoch
    {
      Election.Voter(currentEpoch, lastVoteEpoch)
    }

    ghost function Candidate(): Election.Candidate
      reads `currentEpoch, `authEpoch, `authCount, `authSent
    {
      Election.Candidate(currentEpoch, authEpoch, authCount, authSent)
    }

    ghost function Plan(): Attempt
      reads `authTime, `authRank
    {
      Attempt(authTime, authRank)
    }

    /** A fresh node is a master without epochs. */
    constructor (name: Name)
      ensures Valid() && View() == Node(0, map[name := 0], map[name := Master], 0) && lastVoteEpoch == 0
    {
      var me := new Peer(name, true);
      myself, nodes := me, map[name := me];
      currentEpoch, lastVoteEpoch, authEpoch, authCount, authSent, authTime, authRank := 0, 0, 0, 0, false, 0, 0;
      slots, manualEnd, manualCanStart := [], 0, false;
    }

    method SetEpoch(p: Peer, epoch: nat)
      requires Valid() && p in nodes.Values
      modifies p`configEpoch
      ensures Valid() && View() == old(View()).(config := old(View()).config[p.name := epoch])
    {
      p.configEpoch := epoch;
      assert Config() == old(Config())[p.name := epoch];
    }

    /** A new epoch, which becomes the own config epoch. */
    method NewEpoch()
      requires Valid()
      modifies `currentEpoch, myself`configEpoch
      ensures Valid() && var n, next := old(View()), old(currentEpoch) + 1;
        View() == n.(current := next, config := n.config[myself.name := next])
    {
      currentEpoch := currentEpoch + 1;
      SetEpoch(myself, currentEpoch);
    }

    method SetRole(p: Peer, master: bool, slaveof: Peer?)
      requires Valid() && p in nodes.Values && (master ==> slaveof == null)
      requires slaveof == null || slaveof in nodes.Values
      modifies p`isMaster, p`slaveof
      ensures Valid() && p.isMaster == master && p.slaveof == slaveof
      ensures View() == old(View()).(roles := old(View()).roles[p.name := p.Role()])
    {
      ghost var names := nodes.Keys;
      p.isMaster, p.slaveof := master, slaveof;
      forall x | x in names ensures Roles()[x] == old(Roles())[p.name := p.Role()][x] {
        assert nodes[x] == p <==> x == p.name;
      }
      assert Roles() == old(Roles())[p.name := p.Role()];
    }

    /** clusterSetNodeAsMaster. */
    method SetNodeAsMaster(p: Peer)
      requires Valid() && p in nodes.Values
      modifies p`isMaster, p`slaveof
      ensures Valid() && View() == old(View()).(roles := old(View()).roles[p.name := Master])
    {
      if p.isMaster {
        return;
      }
      SetRole(p, true, null);
    }

    /** The role switch of the sender of a PING. */
    method SwitchRole(sender: Peer, slaveOf: Option<Name>)
      requires Valid() && sender in nodes.Values
      modifies sender`isMaster, sender`slaveof
      ensures Valid() && View() == ClusterEpochs.SwitchRole(old(View()), sender.name, slaveOf)
    {
      if slaveOf.None? {
        SetNodeAsMaster(sender);
        return;
      }
      var master: Peer? := if slaveOf.value in nodes then nodes[slaveOf.value] else null;
      if sender.isMaster {
        SetRole(sender, false, null);
      }
      if master != null && sender.slaveof != master {
        SetRole(sender, false, master);
      }
    }

    /** clusterHandleConfigEpochCollision. */
    method HandleConfigEpochCollision(sender: Peer)
      requires Valid() && sender in nodes.Values
      modifies `currentEpoch, myself`configEpoch
      ensures Valid() && View() == ResolveCollision(myself.name, old(View()), sender.name)
    {
      if sender.configEpoch != myself.configEpoch || !sender.isMaster || !myself.isMaster {
        return;
      }
      if sender.name <= myself.name {
        return;
      }
      NewEpoch();
    }

    /** The end of clusterUpdateSlotsConfigWith: this node becomes a slave of `p`. */
    method FollowIf(p: Peer, demoted: bool)
      requires Valid() && p in nodes.Values
      modifies myself`isMaster, myself`slaveof
      ensures Valid() && View() == Follow(myself.name, old(View()), p.name, demoted)
    {
      if p != myself && demoted {
        SetRole(myself, false, p);
      }
    }

    /** The header of every packet of a known sender. */
    method AcceptHeader(sender: Peer, m: Msg)
      requires Valid() && sender in nodes.Values && sender.name == m.sender
      modifies `currentEpoch, sender`configEpoch
      ensures Valid() && View() == ClusterEpochs.AcceptHeader(old(View()), m)
    {
      if m.current > currentEpoch {
        currentEpoch := m.current;
      }
      if m.config > sender.configEpoch {
        SetEpoch(sender, m.config);
      }
    }

    /** clusterProcessPacket, for PING, UPDATE and bodies without epochs. `demoted` tells what
        the claimed slots do to this node. */
    method ProcessPacket(m: Msg, demoted: bool)
      requires Valid()
      modifies `currentEpoch, nodes.Values
      ensures Valid() && View() == Receive(myself.name, old(View()), m, demoted)
    {
      if m.sender !in nodes {
        return;
      }
      var sender := nodes[m.sender];
      AcceptHeader(sender, m);
      match m.body {
        case Plain =>
        case Update(about, epoch) =>
          if about !in nodes || nodes[about].configEpoch >= epoch {
            return;
          }
          var n := nodes[about];
          SetNodeAsMaster(n);
          SetEpoch(n, epoch);
          FollowIf(n, demoted);
        case Ping(slaveOf) => ProcessPing(sender, m, slaveOf, demoted);
      }
    }

    method ProcessPing(sender: Peer, m: Msg, slaveOf: Option<Name>, demoted: bool)
      requires Valid() && sender in nodes.Values && sender.name == m.sender
      modifies `currentEpoch, nodes.Values
      ensures Valid() && View() == ReceivePing(myself.name, old(View()), m, slaveOf, demoted)
    {
      SwitchRole(sender, slaveOf);
      if sender.isMaster {
        FollowIf(sender, demoted);
      }
      if myself.isMaster && sender.isMaster && m.config == myself.configEpoch {
        HandleConfigEpochCollision(sender);
      }
    }

    /** clusterGetMaxEpoch. */
    method GetMaxEpoch() returns (max: nat)
      ensures IsMaxEpoch(View(), max)
    {
      max := 0;
      ghost var known := View().config;
      var left := nodes.Keys;
      while left != {}
        invariant left <= nodes.Keys
        invariant forall x :: x in nodes.Keys - left ==> nodes[x].configEpoch <= max
        invariant max == 0 || exists x :: x in known && known[x] == max
        decreases left
      {
        var x :| x in left;
        if nodes[x].configEpoch > max {
          max := nodes[x].configEpoch;
          assert known[x] == max;
        }
        left := left - {x};
      }
      if max < currentEpoch {
        max := currentEpoch;
      }
    }

    /** clusterBumpConfigEpochWithoutConsensus. */
    method BumpConfigEpoch() returns (ok: bool, ghost max: nat)
      requires Valid()
      modifies `currentEpoch, myself`configEpoch
      ensures Valid() && IsMaxEpoch(old(View()), max) && View() == Bump(myself.name, old(View()), max)
      ensures ok <==> View() != old(View())
    {
      var maxEpoch := GetMaxEpoch();
      max := maxEpoch;
      assert View().config[myself.name] == myself.configEpoch;
      if myself.configEpoch == 0 || myself.configEpoch != maxEpoch {
        NewEpoch();
        assert View().current != old(View()).current;
        return true, max;
      }
      return false, max;
    }

    method AdoptEpoch(epoch: nat)
      requires Valid()
      modifies `currentEpoch, myself`configEpoch
      ensures Valid() && var n := old(View());
        View() == n.(config := n.config[myself.name := epoch], current := Max(n.current, epoch))
    {
      SetEpoch(myself, epoch);
      if currentEpoch < epoch {
        currentEpoch := epoch;
      }
    }

    lemma CountNodes()
      requires Valid()
      ensures |nodes| > 0 && |View().config| == |nodes|
    {
      assert nodes.Keys != {};
      assert View().config.Keys == nodes.Keys;
    }

    /** CLUSTER SET-CONFIG-EPOCH. */
    method SetConfigEpoch(epoch: int) returns (ok: bool)
      requires Valid()
      modifies `currentEpoch, myself`configEpoch
      ensures Valid()
      ensures epoch >= 0 ==> View() == ClusterEpochs.SetConfigEpoch(myself.name, old(View()), epoch)
      ensures ok <==> epoch >= 0 && |nodes| == 1 && old(myself.configEpoch) == 0
      ensures !ok ==> View() == old(View())
    {
      CountNodes();
      if epoch < 0 || |nodes| > 1 || myself.configEpoch != 0 {
        return false;
      }
      AdoptEpoch(epoch);
      return true;
    }

    // ----- votes ---------------------------------------------------------------------------

    /** No claimed slot is served under a greater epoch. */
    predicate ClaimsOk(claimed: nat -> bool, epoch: nat)
      reads this, slots
    {
      forall j :: 0 <= j < |slots| && claimed(j) && slots[j] != null ==> slots[j].configEpoch <= epoch
    }

    /** The checks before a vote that are not about its epoch: this node serves slots; the
        candidate is a slave of a master that has failed, or asks by hand; there was no vote about
        that master for two node timeouts; and no claimed slot is served under a greater epoch. */
    predicate Willing(node: Peer, claimed: nat -> bool, epoch: nat, force: bool, t: Timing)
      reads this, myself, node, node.slaveof, slots
    {
      && myself.isMaster && myself.numslots > 0
      && !node.isMaster && node.slaveof != null && (node.slaveof.failed || force)
      && t.now - node.slaveof.votedTime >= t.nodeTimeout * 2
      && ClaimsOk(claimed, epoch)
    }

    /** The loop over the claimed slots. */
    method CheckClaims(claimed: nat -> bool, epoch: nat) returns (ok: bool)
      ensures ok == ClaimsOk(claimed, epoch)
    {
      for j := 0 to |slots|
        invariant forall i :: 0 <= i < j && claimed(i) && slots[i] != null ==> slots[i].configEpoch <= epoch
      {
        if claimed(j) && slots[j] != null && slots[j].configEpoch > epoch {
          return false;
        }
      }
      return true;
    }

    /** clusterSendFailoverAuthIfNeeded: the ACK that is sent. */
    method SendFailoverAuthIfNeeded(node: Peer, r: Election.Request, claimed: nat -> bool, config: nat, force: bool,
                                    t: Timing) returns (ack: Option<Election.Ack>)
      requires Valid() && node in nodes.Values && r.from == node.name
      modifies `lastVoteEpoch, nodes.Values`votedTime
      ensures Valid() && View() == old(View())
      // A vote is given exactly by a master with slots that has not voted in its epoch, to a request that
      // is not older, of a slave of a master that has failed (or by hand), if there was no vote about that
      // master for two node timeouts and no claimed slot is served under a greater epoch.
      ensures ack.Some? <==> old(
        && myself.isMaster && myself.numslots > 0 && r.epoch >= currentEpoch && lastVoteEpoch != currentEpoch
        && !node.isMaster && node.slaveof != null && (node.slaveof.failed || force)
        && t.now - node.slaveof.votedTime >= 2 * t.nodeTimeout
        && forall j :: 0 <= j < |slots| && claimed(j) && slots[j] != null ==> slots[j].configEpoch <= config)
      ensures ack.Some? ==> ack.value == Election.Ack(myself.name, r.from, currentEpoch)
      ensures ack.Some? ==> lastVoteEpoch == currentEpoch
      ensures if Election.Grants(old(Voter()), r, old(Willing(node, claimed, config, force, t)))
              then Voter() == Election.Voted(old(Voter())) &&
                   ack == Some(Election.Ack(myself.name, r.from, currentEpoch))
              else Voter() == old(Voter()) && ack == None
      ensures forall p :: p in nodes.Values ==>
        p.votedTime == if ack.Some? && p == node.slaveof then t.now else old(p.votedTime)
    {
      if !myself.isMaster || myself.numslots == 0 {
        return None;
      }
      if r.epoch < currentEpoch {
        return None;
      }
      if lastVoteEpoch == currentEpoch {
        return None;
      }
      var master := node.slaveof;
      if node.isMaster || master == null || (!master.failed && !force) {
        return None;
      }
      if t.now - master.votedTime < t.nodeTimeout * 2 {
        return None;
      }
      var ok := CheckClaims(claimed, config);
      if !ok {
        return None;
      }
      ack := Some(Election.Ack(myself.name, r.from, currentEpoch));
      lastVoteEpoch := currentEpoch;
      master.votedTime := t.now;
    }

    /** FAILOVER_AUTH_REQUEST, header included. A node that is not known gets no answer. */
    method ReceiveAuthRequest(m: Msg, claimed: nat -> bool, force: bool, t: Timing) returns (ack: Option<Election.Ack>)
      requires Valid()
      modifies `currentEpoch, `lastVoteEpoch, nodes.Values`configEpoch, nodes.Values`votedTime
      ensures Valid()
      ensures m.sender !in nodes ==> ack == None && View() == old(View()) && Voter() == old(Voter())
      ensures ack.Some? <==> m.sender in nodes && old(
        var node := nodes[m.sender];
        && myself.isMaster && myself.numslots > 0 && m.current >= currentEpoch && lastVoteEpoch != m.current
        && !node.isMaster && node.slaveof != null && (node.slaveof.failed || force)
        && t.now - node.slaveof.votedTime >= 2 * t.nodeTimeout
        && forall j :: 0 <= j < |slots| && claimed(j) && slots[j] != null ==> slots[j].configEpoch <= m.config)
      ensures ack.Some? ==> ack.value == Election.Ack(myself.name, m.sender, m.current) && lastVoteEpoch == m.current
      ensures m.sender in nodes ==> View() == ClusterEpochs.AcceptHeader(old(View()), m)
      ensures m.sender in nodes ==>
        var r, v := Election.Request(m.sender, m.current), Election.Heard(old(Voter()), m.current);
        if Election.Grants(v, r, old(Willing(nodes[m.sender], claimed, m.config, force, t)))
        then Voter() == Election.Voted(v) && ack == Some(Election.Ack(myself.name, m.sender, v.current))
        else Voter() == v && ack == None
      ensures forall p :: p in nodes.Values ==>
        p.votedTime == if ack.Some? && p == nodes[m.sender].slaveof then t.now else old(p.votedTime)
    {
      if m.sender !in nodes {
        return None;
      }
      var sender := nodes[m.sender];
      AcceptHeader(sender, m);
      assert Willing(sender, claimed, m.config, force, t) == old(Willing(nodes[m.sender], claimed, m.config, force, t));
      ack := SendFailoverAuthIfNeeded(sender, Election.Request(m.sender, m.current), claimed, m.config, force, t);
    }

    /** FAILOVER_AUTH_ACK, header included: it counts when it comes from a slot-serving master. */
    method ReceiveAuthAck(m: Msg)
      requires Valid()
      modifies `currentEpoch, `authCount, nodes.Values`configEpoch
      ensures Valid() && View() == if m.sender in nodes then ClusterEpochs.AcceptHeader(old(View()), m) else old(View())
      ensures authCount == old(authCount) + (
        if m.sender in nodes && old(nodes[m.sender].isMaster && nodes[m.sender].numslots > 0) && m.current >= authEpoch
        then 1 else 0)
      ensures Candidate() ==
        if m.sender !in nodes then old(Candidate())
        else Election.AckCounted(old(Candidate()), m.current,
                                 old(nodes[m.sender].isMaster && nodes[m.sender].numslots > 0))
    {
      if m.sender !in nodes {
        return;
      }
      var sender := nodes[m.sender];
      AcceptHeader(sender, m);
      if sender.isMaster && sender.numslots > 0 && m.current >= authEpoch {
        authCount := authCount + 1;
      }
    }

    // ----- failover ------------------------------------------------------------------------

    /** A manual failover that may start. */
    predicate Manual()
      reads this
    {
      manualEnd != 0 && manualCanStart
    }

    /** This node is a slave of a master that serves slots and has failed, and its data is recent
        enough; or it was told to take over. */
    predicate Able(t: Timing, link: Link)
      reads this, myself, myself.slaveof
    {
      && !myself.isMaster && myself.slaveof != null && myself.slaveof.numslots > 0
      && (Manual() || (myself.slaveof.failed && Recent(t, link)))
    }

    /** Data is too old if the link to the master was silent for longer than the ping period and the
        node timeouts that the validity factor allows, one node timeout not counted. */
    lemma AbleExactly(t: Timing, link: Link)
      ensures Able(t, link) <==>
        && !myself.isMaster && myself.slaveof != null && myself.slaveof.numslots > 0
        && ((manualEnd != 0 && manualCanStart) ||
            (myself.slaveof.failed &&
             (link.validityFactor == 0 ||
              link.silent - (if link.silent > t.nodeTimeout then t.nodeTimeout else 0)
                <= 1000 * link.pingPeriod + link.validityFactor * t.nodeTimeout)))
    {}

    /** The view depends on nothing but epochs and peers. */
    twostate lemma SameView()
      requires old(Valid()) && nodes == old(nodes) && currentEpoch == old(currentEpoch) && authEpoch == old(authEpoch)
      requires forall p :: p in nodes.Values ==>
        p.configEpoch == old(p.configEpoch) && p.isMaster == old(p.isMaster) && p.slaveof == old(p.slaveof)
      ensures View() == old(View())
    {}

    /** A new attempt: after a delay of half a second, a random part of another and a second
        for every better slave, or at once when it is manual. */
    method ScheduleElection(t: Timing, manual: bool)
      requires Valid()
      modifies `authCount, `authSent, `authTime, `authRank
      ensures Valid() && View() == old(View())
      ensures Candidate() == Election.Scheduled(old(Candidate())) && Plan() == FirstAttempt(t, manual)
    {
      authTime := t.now + 500 + t.random % 500;
      authCount, authSent, authRank := 0, false, t.rank;
      authTime := authTime + authRank * 1000;
      if manual {
        authTime, authRank := t.now, 0;
      }
      SameView();
    }

    /** A new epoch, and the request for votes in it. */
    method AskForVotes() returns (request: Election.Request)
      requires Valid()
      modifies `currentEpoch, `authEpoch, `authSent
      ensures Valid() && request == Election.Request(myself.name, authEpoch)
      ensures View() == StartElection(old(View())) && Candidate() == Election.Started(old(Candidate()))
    {
      currentEpoch := currentEpoch + 1;
      authEpoch := currentEpoch;
      request := Election.Request(myself.name, authEpoch);
      authSent := true;
    }

    /** A won election: the config epoch of the election, and the role of a master. */
    method TakeOver()
      requires Valid()
      modifies myself`configEpoch, myself`isMaster, myself`slaveof
      ensures Valid() && View() == WinElection(myself.name, old(View()))
      ensures myself.isMaster && myself.slaveof == null && myself.configEpoch >= authEpoch
      ensures myself.configEpoch == if old(myself.configEpoch) < authEpoch then authEpoch else old(myself.configEpoch)
    {
      var epoch := Max(myself.configEpoch, authEpoch);
      if myself.configEpoch < authEpoch {
        SetEpoch(myself, authEpoch);
      }
      assert View().config == old(View()).config[myself.name := epoch];
      SetNodeAsMaster(myself);
    }

    /** The checks at the start of clusterHandleSlaveFailover. */
    method CheckAble(t: Timing, link: Link) returns (able: bool)
      ensures able == Able(t, link)
    {
      var manual := manualEnd != 0 && manualCanStart;
      var master := myself.slaveof;
      if myself.isMaster || master == null || (!master.failed && !manual) || master.numslots == 0 {
        return false;
      }
      return Recent(t, link) || manual;
    }

    method UpdateRank(t: Timing)
      requires Valid()
      modifies `authTime, `authRank
      ensures Valid() && View() == old(View()) && Candidate() == old(Candidate())
      ensures Plan() == Ranked(old(Plan()), t, authSent, manualEnd != 0)
    {
      if !authSent && manualEnd == 0 && t.rank > authRank {
        authTime := authTime + (t.rank - authRank) * 1000;
        authRank := t.rank;
      }
    }

    /** The end of clusterHandleSlaveFailover: votes are asked for once, and counted. */
    method AskOrWin(size: nat) returns (outcome: Outcome)
      requires Valid()
      modifies `currentEpoch, `authEpoch, `authSent, myself`configEpoch, myself`isMaster, myself`slaveof
      ensures Valid() && !outcome.Scheduled? && (outcome.Asked? <==> !old(authSent))
      ensures outcome.Won? <==> old(authSent) && authCount >= size / 2 + 1
      ensures match outcome
        case Asked(r) =>
          && View() == StartElection(old(View())) && Candidate() == Election.Started(old(Candidate()))
          && r == Election.Request(myself.name, authEpoch)
        case Won => View() == WinElection(myself.name, old(View())) && Candidate() == old(Candidate())
        case _ => View() == old(View()) && Candidate() == old(Candidate())
      ensures outcome.Won? ==> myself.isMaster && myself.slaveof == null && myself.configEpoch >= authEpoch
      ensures outcome.Won? ==>
        myself.configEpoch == if old(myself.configEpoch) < authEpoch then authEpoch else old(myself.configEpoch)
      ensures outcome.Asked? ==> authEpoch == currentEpoch == old(currentEpoch) + 1 && authSent
    {
      if !authSent {
        var request := AskForVotes();
        return Asked(request);
      }
      if authCount >= size / 2 + 1 {
        TakeOver();
        return Won;
      }
      return Nothing;
    }

    /** clusterHandleSlaveFailover; `size` is the number of slot-serving masters. */
    method HandleSlaveFailover(t: Timing, link: Link, size: nat) returns (outcome: Outcome)
      requires Valid()
      modifies `currentEpoch, `authEpoch, `authCount, `authSent, `authTime, `authRank
      modifies myself`configEpoch, myself`isMaster, myself`slaveof
      ensures Valid()
      ensures var able, byHand := old(Able(t, link)), old(manualEnd) != 0;
        var verdict := Due(old(Plan()), t, old(authSent), byHand);
        && (outcome.Scheduled? <==> able && verdict.Again?)
        && (outcome.Asked? <==> able && verdict.Open? && !old(authSent))
        && (outcome.Won? <==> able && verdict.Open? && old(authSent) && old(authCount) >= size / 2 + 1)
        && Plan() == if !able then old(Plan()) else if verdict.Again? then FirstAttempt(t, byHand)
                        else Ranked(old(Plan()), t, old(authSent), byHand)
      ensures match outcome
        case Nothing => View() == old(View()) && Candidate() == old(Candidate())
        case Scheduled => View() == old(View()) && Candidate() == Election.Scheduled(old(Candidate()))
        case Asked(r) =>
          && View() == StartElection(old(View())) && Candidate() == Election.Started(old(Candidate()))
          && r == Election.Request(myself.name, authEpoch)
        case Won => View() == WinElection(myself.name, old(View())) && Candidate() == old(Candidate())
      ensures outcome.Won? ==> myself.isMaster && myself.slaveof == null && myself.configEpoch >= authEpoch
      ensures outcome.Won? ==>
        myself.configEpoch == if old(myself.configEpoch) < authEpoch then authEpoch else old(myself.configEpoch)
      ensures outcome.Asked? ==> authEpoch == currentEpoch == old(currentEpoch) + 1 && authSent
      ensures outcome.Scheduled? ==> authCount == 0 && !authSent
    {
      var authAge := t.now - authTime;
      var authTimeout := t.nodeTimeout * 2;
      if authTimeout < 2000 {
        authTimeout := 2000;
      }
      var retry := authTimeout * 2;
      var able := CheckAble(t, link);
      if !able {
        return Nothing;
      }
      if authAge > retry {
        ScheduleElection(t, manualEnd != 0);
        return Scheduled;
      }
      UpdateRank(t);
      if t.now < authTime {
        return Nothing;
      }
      if authAge > authTimeout {
        return Nothing;
      }
      outcome := AskOrWin(size);
    }
  }
}
