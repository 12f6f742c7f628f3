/** Failover elections: slaves ask the slot-serving masters for votes in an epoch, and win
    with a majority of them. */
module ClusterElection {
  import opened Basics

  type Name = nat

  /** A slot-serving master, as a voter. */
  datatype Voter = Voter(current: nat, lastVote: nat)

  /** A slave, as a candidate; `sent` tells that the votes for `authEpoch` were asked for. */
  datatype Candidate = Candidate(current: nat, authEpoch: nat, count: nat, sent: bool)

  datatype Request = Request(from: Name, epoch: nat)
  datatype Ack = Ack(voter: Name, to: Name, epoch: nat)

  /** Requests are broadcast and may arrive at any time; an ACK leaves `acks` when it is
      delivered. `votes`, `stale` and `won` record what has happened: the votes given, the count
      with which a candidate started an election, and the elections won. */
  datatype Cluster = Cluster(voters: map<Name, Voter>, candidates: map<Name, Candidate>,
                             requests: set<Request>, acks: set<Ack>, votes: set<Ack>,
                             stale: map<(Name, nat), nat>, won: set<(Name, nat)>)

  datatype Step =
    | VoterLearns(m: Name, epoch: nat)
    | CandidateLearns(s: Name, epoch: nat)
    | ReceiveRequest(m: Name, r: Request, willing: bool, linked: bool)
    | ReceiveAck(s: Name, a: Ack)
    | Schedule(s: Name)
    | Start(s: Name)
    | Win(s: Name)

  /** clusterSendFailoverAuthIfNeeded after the header was accepted: whether this voter
      votes. `willing` stands for the checks on the failing master, the time since the last
      vote about it and the claimed slots. */
  predicate Grants(v: Voter, r: Request, willing: bool) {
    r.epoch >= v.current && v.lastVote != v.current && willing
  }

  function Quorum(c: Cluster): nat {
    |c.voters| / 2 + 1
  }

  predicate Enabled(c: Cluster, step: Step) {
    match step
    case VoterLearns(m, _) => m in c.voters
    case CandidateLearns(s, _) => s in c.candidates
    case ReceiveRequest(m, r, _, _) => m in c.voters && r in c.requests
    case ReceiveAck(s, a) => s in c.candidates && a in c.acks && a.to == s
    case Schedule(s) => s in c.candidates
    case Start(s) => s in c.candidates && !c.candidates[s].sent
    case Win(s) => s in c.candidates && c.candidates[s].sent && c.candidates[s].count >= Quorum(c)
  }

  /** A voter takes over the epoch of the request, and records its vote. */
  function Heard(v: Voter, epoch: nat): Voter {
    v.(current := Max(v.current, epoch))
  }

  function Voted(v: Voter): Voter {
    v.(lastVote := v.current)
  }

  /** An ACK counts when it comes from a slot-serving master and is not older than the election. */
  function AckCounted(d: Candidate, epoch: nat, fromVoter: bool): Candidate {
    var d1 := d.(current := Max(d.current, epoch));
    if fromVoter && epoch >= d1.authEpoch then d1.(count := d1.count + 1) else d1
  }

  function Scheduled(d: Candidate): Candidate {
    d.(count := 0, sent := false)
  }

  function Started(d: Candidate): Candidate {
    d.(current := d.current + 1, authEpoch := d.current + 1, sent := true)
  }

  function VoteStep(c: Cluster, m: Name, r: Request, willing: bool, linked: bool): Cluster
    requires m in c.voters
  {
    var v := Heard(c.voters[m], r.epoch);
    if Grants(v, r, willing) then
      var a := Ack(m, r.from, v.current);
      c.(voters := c.voters[m := Voted(v)], votes := c.votes + {a},
         acks := if linked then c.acks + {a} else c.acks)
    else c.(voters := c.voters[m := v])
  }

  /** The ACK branch of clusterProcessPacket. */
  function CountStep(c: Cluster, s: Name, a: Ack): Cluster
    requires s in c.candidates
  {
    c.(candidates := c.candidates[s := AckCounted(c.candidates[s], a.epoch, a.voter in c.voters)], acks := c.acks - {a})
  }

  function Do(c: Cluster, step: Step): Cluster
    requires Enabled(c, step)
  {
    match step
    case VoterLearns(m, epoch) =>
      c.(voters := c.voters[m := Heard(c.voters[m], epoch)])
    case CandidateLearns(s, epoch) =>
      c.(candidates := c.candidates[s := c.candidates[s].(current := Max(c.candidates[s].current, epoch))])
    case ReceiveRequest(m, r, willing, linked) => VoteStep(c, m, r, willing, linked)
    case ReceiveAck(s, a) => CountStep(c, s, a)
    case Schedule(s) => c.(candidates := c.candidates[s := Scheduled(c.candidates[s])])
    case Start(s) =>
      var d1 := Started(c.candidates[s]);
      c.(candidates := c.candidates[s := d1], requests := c.requests + {Request(s, d1.authEpoch)},
         stale := c.stale[(s, d1.authEpoch) := d1.count])
    case Win(s) => c.(won := c.won + {(s, c.candidates[s].authEpoch)})
  }

  ghost predicate Initial(c: Cluster) {
    && c.requests == {} && c.acks == {} && c.votes == {} && c.stale == map[] && c.won == {}
    && (forall m :: m in c.voters ==> c.voters[m].lastVote <= c.voters[m].current)
    && (forall s :: s in c.candidates ==>
          c.candidates[s].authEpoch <= c.candidates[s].current && c.candidates[s].count == 0 && !c.candidates[s].sent)
  }

  ghost predicate Run(cs: seq<Cluster>, steps: seq<Step>) {
    && |cs| == |steps| + 1 && Initial(cs[0])
    && forall i :: 0 <= i < |steps| ==> Enabled(cs[i], steps[i]) && cs[i + 1] == Do(cs[i], steps[i])
  }

  // ----- invariants -------------------------------------------------------------------------

  /** A voter votes in strictly increasing epochs, so once per epoch. */
  ghost predicate VotesOk(c: Cluster) {
    && (forall m :: m in c.voters ==> c.voters[m].lastVote <= c.voters[m].current)
    && (forall a :: a in c.votes ==> a.voter in c.voters && a.epoch <= c.voters[a.voter].lastVote)
    && (forall a, b :: a in c.votes && b in c.votes && a.voter == b.voter && a.epoch == b.epoch ==> a == b)
    && c.acks <= c.votes
  }

  /** Votes and requests carry epochs that the candidate has started an election for. */
  ghost predicate EpochsOk(c: Cluster) {
    && (forall s :: s in c.candidates ==> c.candidates[s].authEpoch <= c.candidates[s].current)
    && (forall r :: r in c.requests ==> r.from in c.candidates && r.epoch <= c.candidates[r.from].authEpoch)
    && (forall a :: a in c.votes ==> a.to in c.candidates && a.epoch <= c.candidates[a.to].authEpoch)
  }

  /** The voters of candidate `s` in epoch `e`. */
  ghost function Supporters(c: Cluster, s: Name, e: nat): set<Name> {
    set m | m in c.voters && Ack(m, s, e) in c.votes
  }

  /** Those of them whose ACK is no longer under way. */
  ghost function Counted(c: Cluster, s: Name): set<Name>
    requires s in c.candidates
  {
    set m | m in c.voters && Ack(m, s, c.candidates[s].authEpoch) in c.votes
                          && Ack(m, s, c.candidates[s].authEpoch) !in c.acks
  }

  /** A count is made up of votes for the epoch of the candidate and of the count at its start. */
  ghost predicate CountOk(c: Cluster, s: Name)
    requires s in c.candidates
  {
    var d := c.candidates[s];
    if d.sent then (s, d.authEpoch) in c.stale && d.count <= |Counted(c, s)| + c.stale[(s, d.authEpoch)]
    else d.count <= |Counted(c, s)|
  }

  /** Counts and wins are explained by votes and by the counts that the elections started with. */
  ghost predicate CountsOk(c: Cluster) {
    && (forall x :: x in c.stale ==>
          x.0 in c.candidates && x.1 <= c.candidates[x.0].authEpoch && c.stale[x] <= |c.voters|)
    && (forall s :: s in c.candidates ==> CountOk(c, s))
    && (forall w :: w in c.won ==> w in c.stale && |Supporters(c, w.0, w.1)| + c.stale[w] >= Quorum(c))
  }

  ghost predicate Safe(c: Cluster) {
    VotesOk(c) && EpochsOk(c) && CountsOk(c)
  }

  lemma VoteKeeps(c: Cluster, m: Name, r: Request, willing: bool, linked: bool)
    requires VotesOk(c) && EpochsOk(c) && m in c.voters && r in c.requests
    ensures VotesOk(VoteStep(c, m, r, willing, linked)) && EpochsOk(VoteStep(c, m, r, willing, linked))
  {}

  lemma AckKeeps(c: Cluster, s: Name, a: Ack)
    requires VotesOk(c) && EpochsOk(c) && s in c.candidates
    ensures VotesOk(CountStep(c, s, a)) && EpochsOk(CountStep(c, s, a))
  {}

  /** Votes and epochs under every step, stale ACKs or not. */
  lemma StepVotes(c: Cluster, step: Step)
    requires VotesOk(c) && EpochsOk(c) && Enabled(c, step)
    ensures VotesOk(Do(c, step)) && EpochsOk(Do(c, step)) && Do(c, step).voters.Keys == c.voters.Keys
  {
    if step.ReceiveRequest? {
      VoteKeeps(c, step.m, step.r, step.willing, step.linked);
    } else if step.ReceiveAck? {
      AckKeeps(c, step.s, step.a);
    }
  }

  /** A counted ACK of a running election carries exactly the election's epoch. */
  lemma CountedAckIsCurrent(c: Cluster, s: Name, a: Ack)
    requires VotesOk(c) && EpochsOk(c) && Enabled(c, ReceiveAck(s, a))
    ensures CountStep(c, s, a).candidates[s].count != c.candidates[s].count ==>
              a.epoch == c.candidates[s].authEpoch
  {}

  lemma CountsGrow(c: Cluster, c': Cluster, s: Name)
    requires s in c.candidates && s in c'.candidates && c.voters.Keys == c'.voters.Keys
    requires c'.candidates[s] == c.candidates[s] && c.votes <= c'.votes
    requires forall m :: m in Counted(c, s) ==> Ack(m, s, c.candidates[s].authEpoch) !in c'.acks
    ensures |Counted(c', s)| >= |Counted(c, s)|
  {
    SubsetSize(Counted(c, s), Counted(c', s));
  }

  lemma SupportGrows(c: Cluster, c': Cluster)
    requires c.voters.Keys == c'.voters.Keys && c.votes <= c'.votes
    ensures forall s, e :: |Supporters(c', s, e)| >= |Supporters(c, s, e)|
    ensures Quorum(c') == Quorum(c) && |c'.voters| == |c.voters|
  {
    forall s, e ensures |Supporters(c', s, e)| >= |Supporters(c, s, e)| {
      SubsetSize(Supporters(c, s, e), Supporters(c', s, e));
    }
    assert |c.voters| == |c.voters.Keys| && |c'.voters| == |c'.voters.Keys|;
  }

  lemma VoteCounts(c: Cluster, m: Name, r: Request, willing: bool, linked: bool)
    requires Safe(c) && m in c.voters && r in c.requests
    ensures CountsOk(VoteStep(c, m, r, willing, linked))
  {
    var c' := VoteStep(c, m, r, willing, linked);
    SupportGrows(c, c');
    forall s | s in c.candidates ensures |Counted(c', s)| >= |Counted(c, s)| {
      CountsGrow(c, c', s);
    }
  }

  lemma OwnAck(c: Cluster, s: Name, a: Ack, c': Cluster)
    requires Safe(c) && Enabled(c, ReceiveAck(s, a)) && c' == CountStep(c, s, a)
    ensures CountOk(c', s)
  {
    var before, after := Counted(c, s), Counted(c', s);
    if a.epoch == c.candidates[s].authEpoch {
      assert a.voter !in before && before + {a.voter} <= after;
      SubsetSize(before + {a.voter}, after);
    } else {
      SubsetSize(before, after);
    }
  }

  lemma AckCounts(c: Cluster, s: Name, a: Ack)
    requires Safe(c) && Enabled(c, ReceiveAck(s, a))
    ensures CountsOk(CountStep(c, s, a))
  {
    var c' := CountStep(c, s, a);
    SupportGrows(c, c');
    forall t | t in c.candidates ensures CountOk(c', t) {
      if t == s {
        OwnAck(c, s, a, c');
      } else {
        CountsGrow(c, c', t);
        assert CountOk(c, t);
      }
    }
  }

  /** Steps that leave votes and ACKs alone keep what was counted in a running election. */
  lemma SameCounted(c: Cluster, c': Cluster, s: Name)
    requires s in c.candidates && s in c'.candidates && c.voters.Keys == c'.voters.Keys
    requires c'.acks == c.acks && c'.votes == c.votes && c'.candidates[s].authEpoch == c.candidates[s].authEpoch
    ensures Counted(c', s) == Counted(c, s)
  {}

  lemma CountedAreVoters(c: Cluster, s: Name)
    requires s in c.candidates
    ensures |Counted(c, s)| <= |c.voters|
  {
    SubsetSize(Counted(c, s), c.voters.Keys);
    assert |c.voters| == |c.voters.Keys|;
  }

  lemma StartCounts(c: Cluster, s: Name)
    requires Safe(c) && Enabled(c, Start(s))
    ensures CountsOk(Do(c, Start(s)))
  {
    var c' := Do(c, Start(s));
    SupportGrows(c, c');
    CountedAreVoters(c, s);
    assert CountOk(c, s);
    forall t | t in c.candidates ensures CountOk(c', t) {
      if t != s {
        SameCounted(c, c', t);
        assert CountOk(c, t);
      }
    }
  }

  lemma WinCounts(c: Cluster, s: Name)
    requires Safe(c) && Enabled(c, Win(s))
    ensures CountsOk(Do(c, Win(s)))
  {
    var c' := Do(c, Win(s));
    SupportGrows(c, c');
    SubsetSize(Counted(c, s), Supporters(c, s, c.candidates[s].authEpoch));
    forall t | t in c.candidates ensures Counted(c', t) == Counted(c, t) {
      SameCounted(c, c', t);
    }
  }

  lemma OtherCounts(c: Cluster, step: Step)
    requires Safe(c) && Enabled(c, step) && (step.VoterLearns? || step.CandidateLearns? || step.Schedule?)
    ensures CountsOk(Do(c, step))
  {
    var c' := Do(c, step);
    SupportGrows(c, c');
    forall t | t in c.candidates ensures Counted(c', t) == Counted(c, t) {
      SameCounted(c, c', t);
    }
  }

  lemma StepSafe(c: Cluster, step: Step)
    requires Safe(c) && Enabled(c, step)
    ensures Safe(Do(c, step))
  {
    StepVotes(c, step);
    if step.ReceiveRequest? {
      VoteCounts(c, step.m, step.r, step.willing, step.linked);
    } else if step.ReceiveAck? {
      AckCounts(c, step.s, step.a);
    } else if step.Start? {
      StartCounts(c, step.s);
    } else if step.Win? {
      WinCounts(c, step.s);
    } else {
      OtherCounts(c, step);
    }
  }

  lemma {:induction false} RunSafe(cs: seq<Cluster>, steps: seq<Step>, i: nat)
    requires Run(cs, steps) && i <= |steps|
    ensures Safe(cs[i]) && cs[i].voters.Keys == cs[0].voters.Keys
  {
    if i > 0 {
      RunSafe(cs, steps, i - 1);
      StepSafe(cs[i - 1], steps[i - 1]);
      StepVotes(cs[i - 1], steps[i - 1]);
    }
  }

  /** By how much two majorities of `n` voters exceed the electorate together: one if it is odd,
      two if it is even. */
  function Margin(n: nat): nat {
    2 * (n / 2 + 1) - n
  }

  /** Two sets of voters that together are more than the electorate have one in common. */
  lemma MajoritiesMeet(all: set<Name>, a: set<Name>, b: set<Name>) returns (m: Name)
    requires a <= all && b <= all && |a| + |b| > |all|
    ensures m in a && m in b
  {
    SubsetSize(a + b, all);
    assert |a + b| + |a * b| == |a| + |b|;
    m :| m in a * b;
  }

  lemma OneVote(c: Cluster, m: Name, a: Name, b: Name, e: nat)
    requires VotesOk(c) && m in Supporters(c, a, e) && m in Supporters(c, b, e)
    ensures a == b
  {
    assert Ack(m, a, e) in c.votes && Ack(m, b, e) in c.votes;
  }

  /** Two winners of one epoch started it with stale ACKs that together make up the margin of two
      majorities: with fewer, at most one slave wins. */
  lemma ElectionSafety(cs: seq<Cluster>, steps: seq<Step>, i: nat, a: Name, b: Name, e: nat)
    requires Run(cs, steps) && i <= |steps|
    requires (a, e) in cs[i].won && (b, e) in cs[i].won
    ensures (a, e) in cs[i].stale && (b, e) in cs[i].stale
    ensures cs[i].stale[(a, e)] + cs[i].stale[(b, e)] < Margin(|cs[i].voters|) ==> a == b
  {
    RunSafe(cs, steps, i);
    var c := cs[i];
    assert |c.voters| == |c.voters.Keys|;
    if c.stale[(a, e)] + c.stale[(b, e)] < Margin(|c.voters|) {
      var m := MajoritiesMeet(c.voters.Keys, Supporters(c, a, e), Supporters(c, b, e));
      OneVote(c, m, a, b, e);
    }
  }

  /** No ACK was counted between the reset of the count and the new election epoch. */
  predicate NoStaleAck(c: Cluster, step: Step) {
    step.Start? && step.s in c.candidates ==> c.candidates[step.s].count == 0
  }

  lemma {:induction false} NothingStale(cs: seq<Cluster>, steps: seq<Step>, i: nat)
    requires Run(cs, steps) && i <= |steps|
    requires forall j :: 0 <= j < |steps| ==> NoStaleAck(cs[j], steps[j])
    ensures forall x :: x in cs[i].stale ==> cs[i].stale[x] == 0
  {
    if i > 0 {
      NothingStale(cs, steps, i - 1);
      assert cs[i - 1 + 1] == Do(cs[i - 1], steps[i - 1]) && NoStaleAck(cs[i - 1], steps[i - 1]);
    }
  }

  /** In particular if no ACK is ever counted between the reset and the new epoch. */
  lemma SafeWithoutStaleAcks(cs: seq<Cluster>, steps: seq<Step>, i: nat, a: Name, b: Name, e: nat)
    requires Run(cs, steps) && i <= |steps|
    requires forall j :: 0 <= j < |steps| ==> NoStaleAck(cs[j], steps[j])
    requires (a, e) in cs[i].won && (b, e) in cs[i].won
    ensures a == b
  {
    ElectionSafety(cs, steps, i, a, b, e);
    NothingStale(cs, steps, i);
  }

  // ----- as many stale ACKs are enough ---------------------------------------------------------

  ghost predicate Leads(c: Cluster, step: Step, c': Cluster) {
    Enabled(c, step) && c' == Do(c, step)
  }

  /** The states `cs` lead from one to the next by the steps `steps`. */
  ghost predicate Path(cs: seq<Cluster>, steps: seq<Step>) {
    |cs| == |steps| + 1 && forall i :: 0 <= i < |steps| ==> Leads(cs[i], steps[i], cs[i + 1])
  }

  ghost predicate PathFrom(c: Cluster, c': Cluster, cs: seq<Cluster>, steps: seq<Step>) {
    Path(cs, steps) && cs[0] == c && cs[|steps|] == c'
  }

  /** Some steps lead from `c` to `c'`. */
  ghost predicate Reach(c: Cluster, c': Cluster) {
    exists cs, steps :: PathFrom(c, c', cs, steps)
  }

  lemma Here(c: Cluster)
    ensures Reach(c, c)
  {
    assert PathFrom(c, c, [c], []);
  }

  lemma JoinedPath(cs1: seq<Cluster>, steps1: seq<Step>, cs2: seq<Cluster>, steps2: seq<Step>)
    requires Path(cs1, steps1) && Path(cs2, steps2) && cs1[|steps1|] == cs2[0]
    ensures Path(cs1 + cs2[1..], steps1 + steps2)
    ensures (cs1 + cs2[1..])[|steps1 + steps2|] == cs2[|steps2|] && (cs1 + cs2[1..])[0] == cs1[0]
  {
    var cs, steps, n := cs1 + cs2[1..], steps1 + steps2, |steps1|;
    forall i | 0 <= i < |steps| ensures Leads(cs[i], steps[i], cs[i + 1]) {
      if i < n {
        assert Leads(cs1[i], steps1[i], cs1[i + 1]);
      } else {
        assert cs[i] == cs2[i - n] && cs[i + 1] == cs2[i - n + 1];
        assert Leads(cs2[i - n], steps2[i - n], cs2[i - n + 1]);
      }
    }
  }

  lemma Then(c: Cluster, c1: Cluster, c2: Cluster)
    requires Reach(c, c1) && Reach(c1, c2)
    ensures Reach(c, c2)
  {
    var cs1, steps1 :| PathFrom(c, c1, cs1, steps1);
    var cs2, steps2 :| PathFrom(c1, c2, cs2, steps2);
    JoinedPath(cs1, steps1, cs2, steps2);
    assert PathFrom(c, c2, cs1 + cs2[1..], steps1 + steps2);
  }

  lemma Walk(c: Cluster, c1: Cluster, step: Step)
    requires Reach(c, c1) && Enabled(c1, step)
    ensures Reach(c, Do(c1, step))
  {
    var c2 := Do(c1, step);
    assert Leads(c1, step, c2);
    assert PathFrom(c1, c2, [c1, c2], [step]);
    Then(c, c1, c2);
  }

  predicate Distinct(names: seq<Name>) {
    forall i, j :: 0 <= i < j < |names| ==> names[i] != names[j]
  }

  function AcksOf(names: seq<Name>, s: Name, e: nat): set<Ack> {
    set m | m in names :: Ack(m, s, e)
  }

  /** The same cluster but for voters, ACKs and the votes recorded. */
  ghost predicate OnlyVotes(c: Cluster, c': Cluster) {
    && c'.candidates == c.candidates && c'.requests == c.requests && c'.stale == c.stale && c'.won == c.won
    && c'.voters.Keys == c.voters.Keys
  }

  /** Voters that have not voted in the epoch of a request all grant it. */
  lemma {:induction false} VoteRound(c0: Cluster, c: Cluster, r: Request, names: seq<Name>) returns (c': Cluster)
    requires Reach(c0, c) && r in c.requests && Distinct(names)
    requires forall m :: m in names ==>
               m in c.voters && c.voters[m].current <= r.epoch && c.voters[m].lastVote < r.epoch
    ensures Reach(c0, c') && OnlyVotes(c, c') && c'.acks == c.acks + AcksOf(names, r.from, r.epoch)
    ensures forall m :: m in c.voters ==>
              c'.voters[m] == if m in names then Voter(r.epoch, r.epoch) else c.voters[m]
    decreases |names|
  {
    if names == [] {
      c' := c;
    } else {
      var step := ReceiveRequest(names[0], r, true, true);
      var c1 := Do(c, step);
      Walk(c0, c, step);
      assert c1.voters == c.voters[names[0] := Voter(r.epoch, r.epoch)];
      c' := VoteRound(c0, c1, r, names[1..]);
      assert AcksOf(names, r.from, r.epoch) == {Ack(names[0], r.from, r.epoch)} + AcksOf(names[1..], r.from, r.epoch);
    }
  }

  /** ACKs that are not older than the epoch of the candidate are all counted. */
  lemma {:induction false} AckRound(c0: Cluster, c: Cluster, s: Name, e: nat, names: seq<Name>) returns (c': Cluster)
    requires Reach(c0, c) && Distinct(names) && s in c.candidates
    requires c.candidates[s].authEpoch <= e <= c.candidates[s].current
    requires forall m :: m in names ==> m in c.voters && Ack(m, s, e) in c.acks
    ensures Reach(c0, c')
    ensures c' == c.(acks := c.acks - AcksOf(names, s, e),
                     candidates := c.candidates[s := c.candidates[s].(count := c.candidates[s].count + |names|)])
    decreases |names|
  {
    if names == [] {
      c' := c;
      assert c.candidates == c.candidates[s := c.candidates[s]] && c.acks == c.acks - AcksOf(names, s, e);
    } else {
      var a := Ack(names[0], s, e);
      var c1 := Do(c, ReceiveAck(s, a));
      Walk(c0, c, ReceiveAck(s, a));
      assert forall m :: m in names[1..] ==> Ack(m, s, e) != a;
      c' := AckRound(c0, c1, s, e, names[1..]);
      assert c.acks - {a} - AcksOf(names[1..], s, e) == c.acks - AcksOf(names, s, e);
    }
  }

  /** An attempt that expires before its ACKs arrive, after which they are counted. */
  lemma LateRound(c0: Cluster, c: Cluster, s: Name, e: nat, names: seq<Name>) returns (c': Cluster)
    requires Reach(c0, c) && Distinct(names) && s in c.candidates && e > 0
    requires c.candidates[s] == Candidate(e - 1, c.candidates[s].authEpoch, 0, false)
    requires forall m :: m in c.voters ==> c.voters[m].current < e && c.voters[m].lastVote < e
    requires forall m :: m in names ==> m in c.voters
    ensures Reach(c0, c') && c'.voters.Keys == c.voters.Keys && c'.won == c.won
    ensures c'.candidates == c.candidates[s := Candidate(e, e, |names|, false)]
    ensures forall m :: m in c'.voters ==> c'.voters[m].current <= e && c'.voters[m].lastVote <= e
  {
    Walk(c0, c, Start(s));
    var c1 := Do(c, Start(s));
    var c2 := VoteRound(c0, c1, Request(s, e), names);
    Walk(c0, c2, Schedule(s));
    var c3 := Do(c2, Schedule(s));
    c' := AckRound(c0, c3, s, e, names);
    assert c'.candidates == c.candidates[s := Candidate(e, e, |names|, false)];
  }

  /** Two candidates start in one epoch with the counts `p` and `q`. */
  lemma BothStart(c0: Cluster, c: Cluster, a: Name, b: Name, e: nat, p: nat, q: nat) returns (c': Cluster)
    requires Reach(c0, c) && a != b && a in c.candidates && b in c.candidates && e > 0
    requires c.candidates[a] == Candidate(e - 1, c.candidates[a].authEpoch, p, false)
    requires c.candidates[b] == Candidate(e - 1, c.candidates[b].authEpoch, q, false)
    ensures Reach(c0, c') && c'.voters == c.voters && c'.won == c.won
    ensures c'.candidates == c.candidates[a := Candidate(e, e, p, true)][b := Candidate(e, e, q, true)]
    ensures c'.stale == c.stale[(a, e) := p][(b, e) := q]
    ensures Request(a, e) in c'.requests && Request(b, e) in c'.requests
  {
    Walk(c0, c, Start(a));
    var c1 := Do(c, Start(a));
    Walk(c0, c1, Start(b));
    c' := Do(c1, Start(b));
  }

  /** The voters `va` vote for `a`, the voters `vb` for `b`, and all ACKs are counted. */
  lemma SplitVote(c0: Cluster, c: Cluster, a: Name, b: Name, e: nat, p: nat, q: nat, va: seq<Name>, vb: seq<Name>)
    returns (c': Cluster)
    requires Reach(c0, c) && a != b && Distinct(va + vb) && a in c.candidates && b in c.candidates
    requires c.candidates[a] == Candidate(e, e, p, true) && c.candidates[b] == Candidate(e, e, q, true)
    requires Request(a, e) in c.requests && Request(b, e) in c.requests
    requires forall m :: m in va + vb ==> m in c.voters && c.voters[m].current < e && c.voters[m].lastVote < e
    ensures Reach(c0, c') && c'.voters.Keys == c.voters.Keys && c'.stale == c.stale && c'.won == c.won
    ensures c'.candidates == c.candidates[a := Candidate(e, e, p + |va|, true)][b := Candidate(e, e, q + |vb|, true)]
  {
    PartsDistinct(va, vb);
    var c1 := VoteRound(c0, c, Request(a, e), va);
    var c2 := VoteRound(c0, c1, Request(b, e), vb);
    var c3 := AckRound(c0, c2, a, e, va);
    assert AcksOf(va, a, e) !! AcksOf(vb, b, e);
    c' := AckRound(c0, c3, b, e, vb);
  }

  lemma PartsDistinct(va: seq<Name>, vb: seq<Name>)
    requires Distinct(va + vb)
    ensures Distinct(va) && Distinct(vb) && forall m :: m in va ==> m in va + vb && m !in vb
    ensures forall m :: m in vb ==> m in va + vb
  {
    var all := va + vb;
    assert forall i :: 0 <= i < |va| ==> all[i] == va[i];
    assert forall j :: 0 <= j < |vb| ==> all[|va| + j] == vb[j];
  }

  /** Both candidates have a majority by their counts, and win. */
  lemma BothWin(c0: Cluster, c: Cluster, a: Name, b: Name, e: nat) returns (c': Cluster)
    requires Reach(c0, c) && a in c.candidates && b in c.candidates
    requires c.candidates[a].sent && c.candidates[a].authEpoch == e && c.candidates[a].count >= Quorum(c)
    requires c.candidates[b].sent && c.candidates[b].authEpoch == e && c.candidates[b].count >= Quorum(c)
    ensures Reach(c0, c') && (a, e) in c'.won && (b, e) in c'.won && c'.stale == c.stale && c'.voters == c.voters
  {
    Walk(c0, c, Win(a));
    var c1 := Do(c, Win(a));
    Walk(c0, c1, Win(b));
    c' := Do(c1, Win(b));
  }

  function NamesOf(names: seq<Name>): set<Name> {
    set m | m in names
  }

  lemma {:induction false} SizeOfDistinct(names: seq<Name>)
    requires Distinct(names)
    ensures |NamesOf(names)| == |names|
  {
    if names != [] {
      var first, rest := names[0], names[1..];
      SizeOfDistinct(rest);
      assert first !in rest;
      assert names == [first] + rest;
      assert NamesOf(names) == {first} + NamesOf(rest);
    }
  }

  /** How many voters the first candidate needs beside its stale ACKs; the others are enough for
      the second one. */
  function Share(n: nat, p: nat): nat {
    if p > n / 2 then 0 else n / 2 + 1 - p
  }

  lemma ShareIsRight(n: nat, p: nat, q: nat)
    requires p <= n && q <= n && p + q >= Margin(n) && n > 0
    ensures Share(n, p) <= n && p + Share(n, p) >= n / 2 + 1 && q + (n - Share(n, p)) >= n / 2 + 1
  {}

  /** The run before the election: both candidates have collected their stale ACKs. */
  lemma CollectStale(c0: Cluster, names: seq<Name>, a: Name, b: Name, p: nat, q: nat) returns (c: Cluster)
    requires Distinct(names) && a != b && p <= |names| && q <= |names|
    requires c0 == Fresh(names, a, b)
    ensures Reach(c0, c) && c.voters.Keys == c0.voters.Keys
    ensures c.candidates == map[a := Candidate(2, 1, p, false), b := Candidate(2, 2, q, false)]
    ensures forall m :: m in c.voters ==> c.voters[m].current <= 2 && c.voters[m].lastVote <= 2
  {
    Here(c0);
    var c1 := LateRound(c0, c0, a, 1, names[..p]);
    Walk(c0, c1, CandidateLearns(b, 1));
    var c2 := Do(c1, CandidateLearns(b, 1));
    var c3 := LateRound(c0, c2, b, 2, names[..q]);
    Walk(c0, c3, CandidateLearns(a, 2));
    c := Do(c3, CandidateLearns(a, 2));
  }

  /** No epoch has been used yet. */
  function Fresh(names: seq<Name>, a: Name, b: Name): Cluster {
    Cluster(map m | m in names :: Voter(0, 0), map[a := Candidate(0, 0, 0, false), b := Candidate(0, 0, 0, false)],
            {}, {}, {}, map[], {})
  }

  /** The election itself, once the stale ACKs have been collected. */
  lemma ElectBoth(c0: Cluster, c1: Cluster, va: seq<Name>, vb: seq<Name>, n: nat, a: Name, b: Name, p: nat, q: nat)
    returns (c4: Cluster)
    requires Distinct(va + vb) && a != b && n == |va + vb| && p + |va| >= n / 2 + 1 && q + |vb| >= n / 2 + 1
    requires Reach(c0, c1) && c1.voters.Keys == NamesOf(va + vb)
    requires c1.candidates == map[a := Candidate(2, 1, p, false), b := Candidate(2, 2, q, false)]
    requires forall m :: m in c1.voters ==> c1.voters[m].current <= 2 && c1.voters[m].lastVote <= 2
    ensures Reach(c0, c4) && |c4.voters| == n && BothWon(c4, a, b, 3, p, q)
  {
    var c2 := BothStart(c0, c1, a, b, 3, p, q);
    var c3 := SplitVote(c0, c2, a, b, 3, p, q, va, vb);
    VotersCounted(c3, va + vb);
    c4 := BothWin(c0, c3, a, b, 3);
  }

  lemma VotersCounted(c: Cluster, names: seq<Name>)
    requires Distinct(names) && c.voters.Keys == NamesOf(names)
    ensures |c.voters| == |names|
  {
    SizeOfDistinct(names);
    assert |c.voters| == |c.voters.Keys|;
  }

  lemma RunOfReach(c0: Cluster, c: Cluster) returns (cs: seq<Cluster>, steps: seq<Step>)
    requires Initial(c0) && Reach(c0, c)
    ensures Run(cs, steps) && cs[0] == c0 && cs[|steps|] == c
  {
    cs, steps :| PathFrom(c0, c, cs, steps);
    forall i | 0 <= i < |steps| ensures Enabled(cs[i], steps[i]) && cs[i + 1] == Do(cs[i], steps[i]) {
      assert Leads(cs[i], steps[i], cs[i + 1]);
    }
  }

  /** For every electorate, every two candidates, and all numbers of stale ACKs that make up the
      margin: a run in which the two start an election in one epoch with these numbers, and both
      win it. */
  lemma StaleAcksElectTwo(names: seq<Name>, a: Name, b: Name, p: nat, q: nat)
    returns (cs: seq<Cluster>, steps: seq<Step>)
    requires Distinct(names) && a != b && p <= |names| && q <= |names| && p + q >= Margin(|names|)
    ensures Run(cs, steps) && cs[0].voters.Keys == NamesOf(names)
    ensures TwoWinners(cs[|steps|], |names|, p, q)
  {
    var c0 := Fresh(names, a, b);
    var c1 := CollectStale(c0, names, a, b, p, q);
    var n, x := |names|, Share(|names|, p);
    ShareIsRight(n, p, q);
    assert names[..x] + names[x..] == names;
    var c4 := ElectBoth(c0, c1, names[..x], names[x..], n, a, b, p, q);
    cs, steps := RunOfReach(c0, c4);
  }

  /** An electorate of `n`, and two slaves that have won one epoch, which they started with `p` and
      `q` stale ACKs. */
  ghost predicate TwoWinners(c: Cluster, n: nat, p: nat, q: nat) {
    |c.voters| == n && exists a: Name, b: Name, e: nat :: BothWon(c, a, b, e, p, q)
  }

  ghost predicate BothWon(c: Cluster, a: Name, b: Name, e: nat, p: nat, q: nat) {
    && a != b && (a, e) in c.won && (b, e) in c.won
    && (a, e) in c.stale && (b, e) in c.stale && c.stale[(a, e)] == p && c.stale[(b, e)] == q
  }

  ghost predicate Elects(cs: seq<Cluster>, steps: seq<Step>, n: nat, p: nat, q: nat) {
    Run(cs, steps) && TwoWinners(cs[|steps|], n, p, q)
  }

  function Numbers(n: nat): (names: seq<Name>)
    ensures |names| == n && Distinct(names)
  {
    seq(n, i requires 0 <= i < n => i)
  }

  lemma WinnersMakeMargin(cs: seq<Cluster>, steps: seq<Step>, n: nat, p: nat, q: nat)
    requires Elects(cs, steps, n, p, q)
    ensures p <= n && q <= n && p + q >= Margin(n)
  {
    var a, b, e :| BothWon(cs[|steps|], a, b, e, p, q);
    ElectionSafety(cs, steps, |steps|, a, b, e);
    RunSafe(cs, steps, |steps|);
  }

  /** Exactly when safety can fail: two slaves can win one epoch, started with `p` and `q` stale
      ACKs, if and only if these make up the margin of two majorities, and neither is more than
      there are voters. */
  lemma ElectionExact(n: nat, p: nat, q: nat)
    ensures (exists cs: seq<Cluster>, steps: seq<Step> :: Elects(cs, steps, n, p, q)) <==>
            p <= n && q <= n && p + q >= Margin(n)
  {
    forall cs: seq<Cluster>, steps: seq<Step> | Elects(cs, steps, n, p, q)
      ensures p <= n && q <= n && p + q >= Margin(n)
    {
      WinnersMakeMargin(cs, steps, n, p, q);
    }
    if p <= n && q <= n && p + q >= Margin(n) {
      var cs, steps := StaleAcksElectTwo(Numbers(n), 0, 1, p, q);
      assert Elects(cs, steps, n, p, q);
    }
  }
}
