/** The append-only file of a running server: commands are fed, the buffer is flushed, and a
    child rewrites the file while the parent sends it what is fed in the meantime. In every
    run, loading the file and the buffer gives back the data set. */
module AofServer {
  import opened AofFeed
  import opened AofPrune
  import opened AofSnapshot
  import opened Basics
  import opened Commands
  import opened Database
  import opened Decimal
  import opened Options
  import opened Resp
  import opened Verbs
  import AofFile

  datatype AofState = Off | On | WaitRewrite

  /** The child: it emits its snapshot and reads differences from the pipe; it asks the parent
      to stop, sees it agree, reads the rest, and exits, leaving a file behind or not. */
  datatype Phase = Saving | Asked | Agreed | Exited(tmp: Bytes) | Failed

  datatype Child = NoChild | Child(snapshot: seq<Command>, diff: Bytes, phase: Phase, forkTime: int)

  datatype Server = Server(
    dbs: seq<Db>, state: AofState, selected: int,
    log: AofFile.Log,
    child: Child, rewriteBuf: Bytes, pipe: Bytes, stopSending: bool, ack: bool,
    // What has been written, as commands: into the file and its buffer, and since the fork;
    // and when the file was last rewritten.
    logged: seq<Command>, since: seq<Command>, rewrittenAt: int)

  datatype Event =
    // A command runs in a database at clock reading `now`, and is written at reading `written`.
    | Execute(dictid: nat, argv: Command, now: int, written: int)
    | Flush(n: int, truncated: bool)
    | BgRewrite(orders: seq<Order>, now: int)
    | StartAppendOnly(orders: seq<Order>, now: int)
    | StopAppendOnly(n: int, truncated: bool)
    | ParentWrites(bytes: nat)
    | ChildReads(bytes: nat)
    | ChildAsks
    | ParentAgrees(acked: bool)
    | ChildSeesAck
    | ChildFinishes(bytes: nat)
    | ChildFails
    | RewriteDone(ok: bool)

  // ----- steps ----------------------------------------------------------------------------------

  /** feedAppendOnlyFile, after the command was executed. */
  function Feed(s: Server, cs: seq<Command>, dictid: nat): Server {
    var bytes := EncodeAll(cs);
    var s1 := s.(selected := dictid);
    var s2 := if s.state == On then s1.(log := s.log.(buf := s.log.buf + bytes), logged := s.logged + cs) else s1;
    if s.child.Child? then s2.(rewriteBuf := s.rewriteBuf + bytes, since := s.since + cs) else s2
  }

  function DoExecute(other: Others, s: Server, dictid: nat, argv: Command, now: int, written: int): Server
    requires Fed(argv) && dictid < |s.dbs|
  {
    var s1 := s.(dbs := Step(other, World(s.dbs, dictid), argv, now).dbs);
    if s.state == Off then s1 else Feed(s1, FeedCommands(s.selected, dictid, argv, written), dictid)
  }

  ghost predicate CanFork(s: Server, orders: seq<Order>) {
    |orders| == |s.dbs| && forall i :: 0 <= i < |s.dbs| ==> Orders(s.dbs[i], orders[i]) && WellFormed(s.dbs[i])
  }

  /** rewriteAppendOnlyFileBackground. */
  function Fork(s: Server, orders: seq<Order>, now: int): Server
    requires CanFork(s, orders)
  {
    s.(child := Child(Snapshot(s.dbs, orders, now, 0), [], Saving, now), pipe := [], stopSending := false, ack := false,
       selected := -1, since := [])
  }

  /** The cleanup of backgroundRewriteDoneHandler. */
  function Cleanup(s: Server): Server {
    s.(child := NoChild, rewriteBuf := [], pipe := [], since := [])
  }

  /** backgroundRewriteDoneHandler: the rest of the differences is written after the file of the
      child, which takes the place of the append-only file. */
  function Replace(s: Server): Server
    requires s.child.Child? && s.child.phase.Exited?
  {
    var file := s.child.phase.tmp + s.rewriteBuf;
    if s.state == Off then s.(log := s.log.(file := file))
    else s.(log := s.log.(file := file, buf := [], size := |file|), selected := -1, state := On,
            logged := s.child.snapshot + s.since, rewrittenAt := s.child.forkTime)
  }

  ghost predicate Possible(s: Server, e: Event) {
    match e
    case Execute(dictid, argv, now, written) => Fed(argv) && dictid < |s.dbs|
    case Flush(n, truncated) => -1 <= n <= |s.log.buf| && (s.state == Off ==> n == -1)
    case BgRewrite(orders, now) => CanFork(s, orders) && s.child.NoChild?
    case StartAppendOnly(orders, now) => CanFork(s, orders) && s.state == Off
    case StopAppendOnly(n, truncated) => -1 <= n <= |s.log.buf| && s.state != Off
    case ParentWrites(bytes) => s.child.Child? && !s.stopSending && bytes <= |s.rewriteBuf|
    case ChildReads(bytes) => s.child.Child? && s.child.phase in {Saving, Asked} && bytes <= |s.pipe|
    case ChildAsks => s.child.Child? && s.child.phase == Saving
    case ParentAgrees(acked) => s.child.Child? && s.child.phase == Asked && !s.stopSending
    case ChildSeesAck => s.child.Child? && s.child.phase == Asked && s.ack
    case ChildFinishes(bytes) => s.child.Child? && s.child.phase == Agreed && bytes <= |s.pipe|
    case ChildFails => s.child.Child? && !s.child.phase.Exited?
    case RewriteDone(ok) => s.child.Child? && (s.child.phase.Exited? || (s.child.phase.Failed? && !ok))
  }

  function Next(other: Others, s: Server, e: Event): Server
    requires Possible(s, e)
  {
    match e
    case Execute(dictid, argv, now, written) => DoExecute(other, s, dictid, argv, now, written)
    case Flush(n, truncated) => s.(log := AofFile.Flushed(s.log, n, truncated))
    case BgRewrite(orders, now) => Fork(s, orders, now)
    case StartAppendOnly(orders, now) =>
      // With a child at work the fork is refused, and the state stays as it is.
      if s.child.Child? then s else Fork(s, orders, now).(state := WaitRewrite)
    case StopAppendOnly(n, truncated) =>
      Cleanup(s.(log := AofFile.Flushed(s.log, n, truncated), state := Off, selected := -1))
    case ParentWrites(bytes) => s.(pipe := s.pipe + s.rewriteBuf[..bytes], rewriteBuf := s.rewriteBuf[bytes..])
    case ChildReads(bytes) => s.(child := s.child.(diff := s.child.diff + s.pipe[..bytes]), pipe := s.pipe[bytes..])
    case ChildAsks => s.(child := s.child.(phase := Asked))
    case ParentAgrees(acked) => s.(stopSending := true, ack := acked)
    case ChildSeesAck => s.(child := s.child.(phase := Agreed))
    case ChildFinishes(bytes) =>
      s.(child := s.child.(phase := Exited(EncodeAll(s.child.snapshot) + (s.child.diff + s.pipe[..bytes]))),
         pipe := s.pipe[bytes..])
    case ChildFails => s.(child := s.child.(phase := Failed))
    case RewriteDone(ok) => Cleanup(if ok then Replace(s) else s)
  }

  // ----- what always holds -----------------------------------------------------------------------

  /** Replaying gives, at any time, the data set without the keys whose deadline had passed at time
      `t`, and the database that the next command need not select is selected. */
  ghost predicate Matches(other: Others, cs: seq<Command>, dbs: seq<Db>, t: int, selected: int) {
    var w := Replay(other, Blank(|dbs|), cs, 0);
    && AllTimeless(other, cs)
    && w.dbs == PruneAll(dbs, t) && w.selected < |dbs| && (selected == -1 || selected == w.selected)
  }

  /** Nothing on its way to the child is lost, repeated or out of order. */
  ghost predicate Conserved(s: Server)
    requires s.child.Child?
  {
    match s.child.phase
    case Failed => true
    case Exited(tmp) => tmp + s.rewriteBuf == EncodeAll(s.child.snapshot + s.since)
    case _ => s.child.diff + s.pipe + s.rewriteBuf == EncodeAll(s.since)
  }

  ghost predicate LogOk(other: Others, s: Server) {
    AofFile.Intact(s.log, EncodeAll(s.logged)) && Matches(other, s.logged, s.dbs, s.rewrittenAt, s.selected)
  }

  ghost predicate ChildOk(other: Others, s: Server)
    requires s.child.Child?
  {
    Conserved(s) && Matches(other, s.child.snapshot + s.since, s.dbs, s.child.forkTime, s.selected)
  }

  /** The child only goes on once the parent has stopped sending. */
  ghost predicate Handshake(s: Server) {
    && (s.ack ==> s.stopSending)
    && (s.child.Child? && (s.child.phase.Agreed? || s.child.phase.Exited?) ==> s.stopSending)
  }

  ghost predicate Inv(other: Others, s: Server) {
    && |s.dbs| > 0
    && (s.child.NoChild? ==> s.rewriteBuf == [])
    && (s.state == On ==> LogOk(other, s))
    && (s.state != Off && s.child.Child? ==> ChildOk(other, s))
    && (s.state == Off ==> s.rewriteBuf == [])
    && Handshake(s)
  }

  /** The command makes the same of the databases as of their keys whose deadline had not passed at
      time `t`. Before it touches a key that has expired by the clock of the parent, expireIfNeeded
      deletes it and feeds a DEL; but `t` is a reading of the child, which may be later. */
  ghost predicate Blind(other: Others, dbs: seq<Db>, dictid: nat, argv: Command, now: int, t: int) {
    PruneAll(Step(other, World(dbs, dictid), argv, now).dbs, t) ==
      Step(other, World(PruneAll(dbs, t), dictid), argv, now).dbs
  }

  /** Steps of a run: the child reads the pipe to its end before it finishes; while commands are
      fed, the clock does not come between them and what is written for them, and they do not see
      keys that have expired. */
  ghost predicate Legal(other: Others, s: Server, e: Event) {
    && Possible(s, e)
    && (e.ChildFinishes? ==> e.bytes == |s.pipe|)
    && (e.Execute? && s.state != Off ==> Prompt(other, e.argv, e.now, e.written))
    && (e.Execute? && s.state == On ==> Blind(other, s.dbs, e.dictid, e.argv, e.now, s.rewrittenAt))
    && (e.Execute? && s.state != Off && s.child.Child? ==>
          Blind(other, s.dbs, e.dictid, e.argv, e.now, s.child.forkTime))
  }

  /** A command and what is fed for it. */
  lemma MatchesFeed(other: Others, cs: seq<Command>, dbs: seq<Db>, t: int, selected: int, dictid: nat, argv: Command,
                    now: int, written: int)
    requires Matches(other, cs, dbs, t, selected) && Fed(argv) && dictid < |dbs|
    requires Prompt(other, argv, now, written) && Blind(other, dbs, dictid, argv, now, t)
    ensures Matches(other, cs + FeedCommands(selected, dictid, argv, written),
                    Step(other, World(dbs, dictid), argv, now).dbs, t, dictid)
  {
    var w := Replay(other, Blank(|dbs|), cs, 0);
    var fed := FeedCommands(selected, dictid, argv, written);
    ReplayAppend(other, Blank(|dbs|), cs, fed, 0);
    FeedReplays(other, w, selected, dictid, argv, now, written, 0);
    SelectedStays(other, World(PruneAll(dbs, t), dictid), argv, now);
  }

  lemma PruneOne(dbs: seq<Db>, j: nat, db: Db, t: int)
    requires j < |dbs|
    ensures PruneAll(dbs[j := db], t) == PruneAll(dbs, t)[j := Prune(db, t)]
  {}

  lemma SameOrNot(dbs: seq<Db>, j: nat, a: Db, b: Db)
    requires j < |dbs|
    ensures dbs[j := a] == dbs[j := b] <==> a == b
  {
    assert dbs[j := a][j] == a && dbs[j := b][j] == b;
  }

  /** Exactly when a command in one database meets the condition. */
  lemma LocalBlind(other: Others, dbs: seq<Db>, dictid: nat, argv: Command, now: int, t: int)
    requires dictid < |dbs| && Local(argv) && dbs[dictid].expires.Keys <= dbs[dictid].dict.Keys
    ensures Blind(other, dbs, dictid, argv, now, t) <==> Unseen(dbs[dictid], argv, now, t)
  {
    var db := dbs[dictid];
    ExecPrune(db, argv, now, now, t);
    StepIsExec(other, World(dbs, dictid), argv, now);
    StepIsExec(other, World(PruneAll(dbs, t), dictid), argv, now);
    PruneOne(dbs, dictid, Exec(db, argv, now), t);
    SameOrNot(PruneAll(dbs, t), dictid, Prune(Exec(db, argv, now), t), Exec(Prune(db, t), argv, now));
  }

  /** MOVE takes the key along exactly if it does so when only keys that have not expired are seen. */
  predicate MoveUnseen(dbs: seq<Db>, j: nat, k: Key, target: Option<int>, t: int)
    requires j < |dbs|
  {
    target.Some? && 0 <= target.value < |dbs| && target.value != j ==>
      (k in dbs[j].dict && k !in dbs[target.value].dict <==> Alive(dbs[j], k, t) && !Alive(dbs[target.value], k, t))
  }

  lemma MovePrune(dbs: seq<Db>, j: nat, i: nat, k: Key, t: int)
    requires j < |dbs| && i < |dbs| && i != j && Alive(dbs[j], k, t) && k !in dbs[i].dict && k !in dbs[i].expires
    ensures PruneAll(dbs[i := PutValue(dbs[i], k, dbs[j].dict[k])][j := Without(dbs[j], k)], t) ==
            PruneAll(dbs, t)[i := PutValue(Prune(dbs[i], t), k, dbs[j].dict[k])][j := Without(Prune(dbs[j], t), k)]
  {
    PutPrune(dbs[i], k, dbs[j].dict[k], t);
    WithoutPrune(dbs[j], {k}, t);
    PruneOne(dbs, i, PutValue(dbs[i], k, dbs[j].dict[k]), t);
    PruneOne(dbs[i := PutValue(dbs[i], k, dbs[j].dict[k])], j, Without(dbs[j], k), t);
  }

  lemma MoveSame(dbs: seq<Db>, j: nat, k: Key, target: Option<int>, t: int)
    requires j < |dbs| && (forall i :: 0 <= i < |dbs| ==> dbs[i].expires.Keys <= dbs[i].dict.Keys)
    requires MoveUnseen(dbs, j, k, target, t)
    ensures PruneAll(Move(dbs, j, k, target), t) == Move(PruneAll(dbs, t), j, k, target)
  {
    if target.Some? && 0 <= target.value < |dbs| && target.value != j {
      PruneHas(dbs[j], k, t);
      PruneHas(dbs[target.value], k, t);
      if k in dbs[j].dict && k !in dbs[target.value].dict {
        MovePrune(dbs, j, target.value, k, t);
      }
    }
  }

  lemma MoveDiffers(dbs: seq<Db>, j: nat, k: Key, target: Option<int>, t: int)
    requires j < |dbs| && (forall i :: 0 <= i < |dbs| ==> dbs[i].expires.Keys <= dbs[i].dict.Keys)
    requires !MoveUnseen(dbs, j, k, target, t)
    ensures PruneAll(Move(dbs, j, k, target), t) != Move(PruneAll(dbs, t), j, k, target)
  {
    var i: nat := target.value;
    var moved, pruned := Move(dbs, j, k, target), Move(PruneAll(dbs, t), j, k, target);
    PruneHas(dbs[j], k, t);
    PruneHas(dbs[i], k, t);
    PruneHas(moved[i], k, t);
    assert PruneAll(moved, t)[i] == Prune(moved[i], t);
    assert k in Prune(moved[i], t).dict <==> k !in pruned[i].dict;
  }

  /** Exactly when MOVE meets the condition; FLUSHALL always does. */
  lemma MoveBlind(other: Others, dbs: seq<Db>, dictid: nat, argv: Command, now: int, t: int)
    requires dictid < |dbs| && (forall i :: 0 <= i < |dbs| ==> dbs[i].expires.Keys <= dbs[i].dict.Keys)
    ensures VerbOf(argv).VMove? ==>
              (Blind(other, dbs, dictid, argv, now, t) <==> MoveUnseen(dbs, dictid, argv[1], Number(argv[2]), t))
    ensures VerbOf(argv).VFlushAll? ==> Blind(other, dbs, dictid, argv, now, t)
  {
    if VerbOf(argv).VMove? {
      if MoveUnseen(dbs, dictid, argv[1], Number(argv[2]), t) {
        MoveSame(dbs, dictid, argv[1], Number(argv[2]), t);
      } else {
        MoveDiffers(dbs, dictid, argv[1], Number(argv[2]), t);
      }
    }
    if VerbOf(argv).VFlushAll? {
      assert Prune(EMPTY_DB, t) == EMPTY_DB;
      assert PruneAll(seq(|dbs|, _ => EMPTY_DB), t) == seq(|dbs|, _ => EMPTY_DB);
    }
  }

  lemma SelectedStays(other: Others, w: World, argv: Command, now: int)
    requires !VerbOf(argv).VSelect?
    ensures Step(other, w, argv, now).selected == w.selected
  {}

  lemma ExecuteLog(other: Others, s: Server, e: Event)
    requires e.Execute? && Legal(other, s, e) && s.state == On && LogOk(other, s)
    ensures LogOk(other, Next(other, s, e))
  {
    var fed := FeedCommands(s.selected, e.dictid, e.argv, e.written);
    MatchesFeed(other, s.logged, s.dbs, s.rewrittenAt, s.selected, e.dictid, e.argv, e.now, e.written);
    EncodeAllAppend(s.logged, fed);
    AofFile.FeedKeeps(s.log, EncodeAll(fed), EncodeAll(s.logged));
  }

  lemma ConservedFeed(s: Server, fed: seq<Command>, bytes: Bytes, s': Server)
    requires s.child.Child? && Conserved(s) && bytes == EncodeAll(fed)
    requires s' == s.(rewriteBuf := s.rewriteBuf + bytes, since := s.since + fed)
    ensures Conserved(s')
  {
    match s.child.phase
    case Failed =>
    case Exited(tmp) =>
      EncodeAllAppend(s.child.snapshot + s.since, fed);
      MoreSince(s.child.snapshot, s.since, fed);
      Associate(tmp, s.rewriteBuf, bytes);
    case _ =>
      EncodeAllAppend(s.since, fed);
      Associate(s.child.diff + s.pipe, s.rewriteBuf, bytes);
  }

  lemma MoreSince(a: seq<Command>, b: seq<Command>, c: seq<Command>)
    ensures a + (b + c) == a + b + c
  {}

  lemma ExecuteChild(other: Others, s: Server, e: Event)
    requires e.Execute? && Legal(other, s, e) && s.state != Off && s.child.Child? && ChildOk(other, s)
    ensures ChildOk(other, Next(other, s, e))
  {
    var fed := FeedCommands(s.selected, e.dictid, e.argv, e.written);
    MatchesFeed(other, s.child.snapshot + s.since, s.dbs, s.child.forkTime, s.selected, e.dictid, e.argv, e.now,
                e.written);
    MoreSince(s.child.snapshot, s.since, fed);
    ConservedFeed(s, fed, EncodeAll(fed), s.(rewriteBuf := s.rewriteBuf + EncodeAll(fed), since := s.since + fed));
  }

  lemma ForkStarts(other: Others, s: Server, orders: seq<Order>, now: int)
    requires |s.dbs| > 0 && CanFork(s, orders) && s.rewriteBuf == []
    ensures ChildOk(other, Fork(s, orders, now))
    ensures s.state == On && LogOk(other, s) ==> LogOk(other, Fork(s, orders, now))
  {
    ReplaySnapshot(other, s.dbs, orders, now, 0);
    SnapshotTimeless(other, s.dbs, orders, now, 0);
    var snapshot := Snapshot(s.dbs, orders, now, 0);
    assert snapshot + [] == snapshot;
  }

  /** Moving bytes along the way to the child. */
  lemma BytesMove(a: Bytes, b: Bytes, c: Bytes, n: nat)
    ensures n <= |c| ==> a + (b + c[..n]) + c[n..] == a + b + c
    ensures n <= |b| ==> (a + b[..n]) + b[n..] + c == a + b + c
  {}

  /** The child has read the pipe to its end. */
  lemma Finishing(s: Server)
    requires s.child.Child? && s.child.phase == Agreed && Conserved(s)
    ensures EncodeAll(s.child.snapshot) + (s.child.diff + s.pipe) + s.rewriteBuf ==
            EncodeAll(s.child.snapshot + s.since)
  {
    EncodeAllAppend(s.child.snapshot, s.since);
    var x := EncodeAll(s.child.snapshot);
    assert x + (s.child.diff + s.pipe) + s.rewriteBuf == x + (s.child.diff + s.pipe + s.rewriteBuf);
  }

  /** A rewritten file takes the place of the old one. */
  lemma ReplaceOk(other: Others, s: Server)
    requires s.child.Child? && s.child.phase.Exited? && s.state != Off && ChildOk(other, s)
    ensures LogOk(other, Replace(s))
  {
    var file := s.child.phase.tmp + s.rewriteBuf;
    assert file + [] == file;
  }

  lemma ExecuteKeeps(other: Others, s: Server, e: Event)
    requires Inv(other, s) && Legal(other, s, e) && e.Execute?
    ensures Inv(other, Next(other, s, e))
  {
    if s.state == On { ExecuteLog(other, s, e); }
    if s.state != Off && s.child.Child? { ExecuteChild(other, s, e); }
  }

  /** Every step keeps the invariant. */
  lemma StepKeeps(other: Others, s: Server, e: Event)
    requires Inv(other, s) && Legal(other, s, e)
    ensures Inv(other, Next(other, s, e))
  {
    match e
    case Execute(dictid, argv, now, written) =>
      ExecuteKeeps(other, s, e);
    case Flush(n, truncated) =>
      if s.state == On { AofFile.FlushKeeps(s.log, n, truncated, EncodeAll(s.logged)); }
    case BgRewrite(orders, now) => ForkStarts(other, s, orders, now);
    case StartAppendOnly(orders, now) =>
      if s.child.NoChild? { ForkStarts(other, s, orders, now); }
    case ParentWrites(bytes) =>
      if s.state != Off { BytesMove(s.child.diff, s.pipe, s.rewriteBuf, bytes); }
    case ChildReads(bytes) =>
      if s.state != Off { BytesMove(s.child.diff, s.pipe, s.rewriteBuf, bytes); }
    case ChildFinishes(bytes) =>
      if s.state != Off { Finishing(s); }
      assert s.pipe[..bytes] == s.pipe;
    case RewriteDone(ok) =>
      if ok && s.state != Off { ReplaceOk(other, s); }
    case _ =>
  }

  // ----- runs -------------------------------------------------------------------------------------

  /** A server whose file has been loaded, or that runs without one. */
  ghost predicate Starts(other: Others, s: Server) {
    && |s.dbs| > 0 && s.child.NoChild? && s.rewriteBuf == [] && !s.ack
    && (s.state == Off || (s.state == On && LogOk(other, s)))
  }

  ghost predicate Run(other: Others, ss: seq<Server>, es: seq<Event>) {
    && |ss| == |es| + 1 && Starts(other, ss[0])
    && forall i :: 0 <= i < |es| ==> Legal(other, ss[i], es[i]) && ss[i + 1] == Next(other, ss[i], es[i])
  }

  lemma {:induction false} InvInRun(other: Others, ss: seq<Server>, es: seq<Event>, i: nat)
    requires Run(other, ss, es) && i <= |es|
    ensures Inv(other, ss[i])
  {
    if i > 0 {
      InvInRun(other, ss, es, i - 1);
      StepOfRun(other, ss, es, i - 1, i);
      StepKeeps(other, ss[i - 1], es[i - 1]);
    }
  }

  lemma StepOfRun(other: Others, ss: seq<Server>, es: seq<Event>, i: nat, j: nat)
    requires Run(other, ss, es) && i < |es| && j == i + 1
    ensures Legal(other, ss[i], es[i]) && ss[j] == Next(other, ss[i], es[i])
  {
    assert ss[i + 1] == Next(other, ss[i], es[i]);
  }

  /** Throughout every run, while the append-only file is on: the file followed by the buffer
      is a whole number of commands, and loading them, with whatever clock readings `at`, rebuilds
      the data set, but for keys whose deadline had passed when the file was last rewritten. */
  lemma Durable(other: Others, ss: seq<Server>, es: seq<Event>, i: nat, known: Bytes -> bool, truncated: bool,
                at: seq<int>)
    requires Run(other, ss, es) && i <= |es| && ss[i].state == On && AllLoadable(ss[i].logged, known)
    requires |at| == |ss[i].logged|
    ensures var s := ss[i];
      && s.log.size == |s.log.file|
      && Load(s.log.file + s.log.buf, known, truncated).commands == s.logged
      && ReplayAt(other, Blank(|s.dbs|), s.logged, at).dbs == PruneAll(s.dbs, s.rewrittenAt)
  {
    InvInRun(other, ss, es, i);
    var cs := ss[i].logged;
    LoadUndoesPrint(cs, |EncodeAll(cs)|, known, truncated);
    assert EncodeAll(cs)[..|EncodeAll(cs)|] == EncodeAll(cs);
    AllFit(cs, |EncodeAll(cs)|);
    ClockFree(other, Blank(|ss[i].dbs|), cs, at, 0);
  }

  lemma {:induction false} AllFit(cs: seq<Command>, cut: nat)
    requires cut == |EncodeAll(cs)|
    ensures WholeCommands(cs, cut) == |cs| && cs[..|cs|] == cs
  {
    if cs != [] {
      AllFit(cs[1..], cut - |Encode(cs[0])|);
    }
  }

  /** A rewrite that succeeds leaves exactly the commands of the snapshot followed by those fed
      since the fork, in order, none lost or repeated. */
  lemma RewriteFileIs(other: Others, ss: seq<Server>, es: seq<Event>, i: nat)
    requires Run(other, ss, es) && i < |es| && es[i] == RewriteDone(true) && ss[i].state != Off
    ensures ss[i + 1].state == On && ss[i + 1].log.file == EncodeAll(ss[i].child.snapshot + ss[i].since)
  {
    InvInRun(other, ss, es, i);
    assert ss[i + 1] == Next(other, ss[i], es[i]);
  }

  /** That the child reads the pipe to its end is needed: the rewritten file is right exactly
      when its last read left nothing in the pipe. */
  lemma FinalReadMatters(other: Others, s: Server, bytes: nat)
    requires Inv(other, s) && s.state != Off && Possible(s, ChildFinishes(bytes))
    ensures Possible(Next(other, s, ChildFinishes(bytes)), RewriteDone(true))
    ensures var file := Next(other, Next(other, s, ChildFinishes(bytes)), RewriteDone(true)).log.file;
      file == EncodeAll(s.child.snapshot + s.since) <==> bytes == |s.pipe|
  {
    Finishing(s);
    if bytes == |s.pipe| {
      assert s.pipe[..bytes] == s.pipe;
    } else {
      ghost var file := EncodeAll(s.child.snapshot) + (s.child.diff + s.pipe[..bytes]) + s.rewriteBuf;
      assert |file| < |EncodeAll(s.child.snapshot + s.since)|;
    }
  }

  /** If the server dies, what is on disk is a prefix of what was logged, and loading it with
      aof-load-truncated runs exactly the commands that are wholly in it. */
  lemma CrashRecovery(other: Others, ss: seq<Server>, es: seq<Event>, i: nat, known: Bytes -> bool)
    requires Run(other, ss, es) && i <= |es| && ss[i].state == On && AllLoadable(ss[i].logged, known)
    ensures var s := ss[i];
      var k := WholeCommands(s.logged, |s.log.file|);
      && |EncodeAll(s.logged[..k])| <= |s.log.file|
      && (k < |s.logged| ==> |s.log.file| < |EncodeAll(s.logged[..k + 1])|)
      && Load(s.log.file, known, true).commands == s.logged[..k]
  {
    InvInRun(other, ss, es, i);
    var s := ss[i];
    assert EncodeAll(s.logged)[..|s.log.file|] == s.log.file;
    LoadUndoesPrint(s.logged, |s.log.file|, known, true);
  }

  /** Once the parent has written all that it has, and the child has read it, the child has all that
      was fed since the fork. */
  lemma ChildCatchesUp(other: Others, s: Server)
    requires Inv(other, s) && s.state != Off && s.child.Child? && s.child.phase == Saving && !s.stopSending
    ensures Possible(s, ParentWrites(|s.rewriteBuf|))
    ensures var s1 := Next(other, s, ParentWrites(|s.rewriteBuf|));
      && s1.rewriteBuf == [] && Possible(s1, ChildReads(|s1.pipe|))
      && var s2 := Next(other, s1, ChildReads(|s1.pipe|));
         s2.pipe == [] && s2.child.Child? && s2.child.diff == EncodeAll(s.since) && s2.since == s.since
  {
    var all := s.pipe + s.rewriteBuf;
    assert s.rewriteBuf[..|s.rewriteBuf|] == s.rewriteBuf && s.rewriteBuf[|s.rewriteBuf|..] == [];
    assert all[..|all|] == all && all[|all|..] == [];
    Associate(s.child.diff, s.pipe, s.rewriteBuf);
  }

  /** After a flush that writes everything, also when the append-only file is switched off, the file
      alone holds all commands. */
  lemma FlushedIsSafe(other: Others, ss: seq<Server>, es: seq<Event>, i: nat, j: nat, truncated: bool,
                      known: Bytes -> bool)
    requires Run(other, ss, es) && i < |es| && j == i + 1 && ss[i].state == On && AllLoadable(ss[i].logged, known)
    requires es[i] == Flush(|ss[i].log.buf|, truncated) || es[i] == StopAppendOnly(|ss[i].log.buf|, truncated)
    ensures ss[j].log.buf == [] && ss[j].log.file == EncodeAll(ss[i].logged) && ss[j].dbs == ss[i].dbs
    ensures Load(ss[j].log.file, known, truncated).commands == ss[i].logged
  {
    StepOfRun(other, ss, es, i, j);
    InvInRun(other, ss, es, i);
    var cs := ss[i].logged;
    LoadUndoesPrint(cs, |EncodeAll(cs)|, known, truncated);
    assert EncodeAll(cs)[..|EncodeAll(cs)|] == EncodeAll(cs);
    AllFit(cs, |EncodeAll(cs)|);
  }

  /** A server that has loaded the commands `cs` with the clock at `loaded`, and cut the file back to
      them. */
  function Restarted(other: Others, cs: seq<Command>, n: nat, t: int, loaded: int): (s: Server)
    requires n > 0
    ensures |s.dbs| == n
  {
    ReplaySizes(other, Blank(n), cs, loaded);
    Server(Replay(other, Blank(n), cs, loaded).dbs, On, -1, AofFile.Log(EncodeAll(cs), [], |EncodeAll(cs)|, true),
           NoChild, [], [], false, false, cs, [], t)
  }

  /** A time before every deadline. */
  lemma {:induction false} Earliest(expires: map<Key, int>) returns (t: int)
    ensures forall k :: k in expires ==> expires[k] >= t
    decreases |expires|
  {
    if expires == map[] {
      t := 0;
    } else {
      var k :| k in expires;
      var rest := expires - {k};
      assert rest.Keys == expires.Keys - {k} && |rest| == |rest.Keys| && |expires| == |expires.Keys|;
      var first := Earliest(rest);
      assert forall j :: j in expires && j != k ==> j in rest && rest[j] == expires[j];
      t := if expires[k] < first then expires[k] else first;
    }
  }

  lemma {:induction false} EarliestOfAll(dbs: seq<Db>) returns (t: int)
    ensures PruneAll(dbs, t) == dbs
  {
    t := BeforeAll(dbs);
    forall i | 0 <= i < |dbs| ensures Prune(dbs[i], t) == dbs[i] {
      assert forall k :: k in dbs[i].expires ==> dbs[i].expires[k] >= t;
    }
  }

  lemma {:induction false} BeforeAll(dbs: seq<Db>) returns (t: int)
    ensures forall i, k :: 0 <= i < |dbs| && k in dbs[i].expires ==> dbs[i].expires[k] >= t
  {
    if dbs == [] {
      t := 0;
    } else {
      var rest := dbs[1..];
      var first := Earliest(dbs[0].expires);
      var others := BeforeAll(rest);
      assert forall i :: 0 < i < |dbs| ==> dbs[i] == rest[i - 1];
      t := if first < others then first else others;
    }
  }

  /** From a restarted server runs start again, if the commands in its file do not depend on the
      clock; those of a run never do. */
  lemma RestartOk(other: Others, cs: seq<Command>, n: nat, loaded: int) returns (t: int)
    requires n > 0 && AllTimeless(other, cs)
    ensures Starts(other, Restarted(other, cs, n, t, loaded))
  {
    ReplaySizes(other, Blank(n), cs, loaded);
    t := EarliestOfAll(Replay(other, Blank(n), cs, loaded).dbs);
    SameReading(other, Blank(n), cs, loaded, 0);
    assert EncodeAll(cs) + [] == EncodeAll(cs);
  }

  // ----- exactly when a file agrees with the memory ---------------------------------------------------

  /** The clock reading at which what is written for a command takes effect. */
  function Effective(argv: Command, written: int, loaded: int): int {
    if Translated(VerbOf(argv)) then written else loaded
  }

  /** Loading what is written for a command of one database. */
  lemma ReplayFed(other: Others, w: World, selected: int, dictid: nat, argv: Command, written: int, loaded: int)
    requires Fed(argv) && Local(argv) && dictid < |w.dbs| && w.selected < |w.dbs|
    requires selected == -1 || selected == w.selected
    ensures Replay(other, w, FeedCommands(selected, dictid, argv, written), loaded).dbs ==
            w.dbs[dictid := Exec(w.dbs[dictid], argv, Effective(argv, written, loaded))]
  {
    var cs, w1 := Translate(argv, written), w.(selected := dictid);
    if dictid != selected {
      ExecSelect(other, w, dictid, loaded);
      assert ([SelectCommand(dictid)] + cs)[1..] == cs;
    } else {
      assert [] + cs == cs;
    }
    if Translated(VerbOf(argv)) {
      TranslationKeepsMeaning(w.dbs[dictid], argv, written, loaded);
      ReplayIsExecAll(other, w1, cs, loaded);
    } else {
      assert Replay(other, w1, [argv], loaded) == Replay(other, Step(other, w1, argv, loaded), [], loaded);
      StepIsExec(other, w1, argv, loaded);
    }
  }

  /** Commands that match the memory, followed by what is written for one more. */
  lemma ReplayAgrees(other: Others, cs: seq<Command>, dbs: seq<Db>, t: int, selected: int, dictid: nat, argv: Command,
                     executed: int, written: int, loaded: int)
    requires Matches(other, cs, dbs, t, selected) && Fed(argv) && Local(argv)
    requires dictid < |dbs| && dbs[dictid].expires.Keys <= dbs[dictid].dict.Keys
    ensures Replay(other, Blank(|dbs|), cs + FeedCommands(selected, dictid, argv, written), loaded).dbs ==
            PruneAll(Step(other, World(dbs, dictid), argv, executed).dbs, t) <==>
              Agrees(dbs[dictid], argv, executed, Effective(argv, written, loaded), t)
  {
    var w, db, u := Replay(other, Blank(|dbs|), cs, loaded), dbs[dictid], Effective(argv, written, loaded);
    SameReading(other, Blank(|dbs|), cs, loaded, 0);
    ReplayAppend(other, Blank(|dbs|), cs, FeedCommands(selected, dictid, argv, written), loaded);
    ReplayFed(other, w, selected, dictid, argv, written, loaded);
    StepIsExec(other, World(dbs, dictid), argv, executed);
    PruneOne(dbs, dictid, Exec(db, argv, executed), t);
    SameOrNot(PruneAll(dbs, t), dictid, Prune(Exec(db, argv, executed), t), Exec(Prune(db, t), argv, u));
    ExecPrune(db, argv, executed, u, t);
  }

  /** The command does not see keys that had expired at time `t`, and what is written for it takes
      effect at the reading of its execution, or gives no time to live. */
  predicate Agrees(db: Db, argv: Command, executed: int, effective: int, t: int) {
    Unseen(db, argv, executed, t) && (effective == executed || !SetsTtl(Prune(db, t), argv))
  }

  /** One more command of one database, of any kind, after a run: the file and the buffer, loaded at
      any time, give the memory if and only if the command does not see keys that the last rewrite
      left out, and takes effect at the clock reading of its execution (when it is written, if it is
      translated, and otherwise when it is loaded) or gives no time to live. */
  lemma ReloadAgrees(other: Others, s: Server, dictid: nat, argv: Command, executed: int, written: int, loaded: int)
    requires Inv(other, s) && s.state == On && Possible(s, Execute(dictid, argv, executed, written)) && Local(argv)
    requires s.dbs[dictid].expires.Keys <= s.dbs[dictid].dict.Keys
    ensures var s' := Next(other, s, Execute(dictid, argv, executed, written));
      Replay(other, Blank(|s.dbs|), s'.logged, loaded).dbs == PruneAll(s'.dbs, s'.rewrittenAt) <==>
        Agrees(s.dbs[dictid], argv, executed, Effective(argv, written, loaded), s.rewrittenAt)
  {
    ReplayAgrees(other, s.logged, s.dbs, s.rewrittenAt, s.selected, dictid, argv, executed, written, loaded);
  }

  /** Likewise while a child rewrites the file: the commands that the rewritten file will hold. */
  lemma RewriteAgrees(other: Others, s: Server, dictid: nat, argv: Command, executed: int, written: int, loaded: int)
    requires Inv(other, s) && s.state != Off && s.child.Child?
    requires Possible(s, Execute(dictid, argv, executed, written)) && Local(argv)
    requires s.dbs[dictid].expires.Keys <= s.dbs[dictid].dict.Keys
    ensures var s' := Next(other, s, Execute(dictid, argv, executed, written));
      && s'.child == s.child
      && (Replay(other, Blank(|s.dbs|), s.child.snapshot + s'.since, loaded).dbs ==
            PruneAll(s'.dbs, s.child.forkTime) <==>
          Agrees(s.dbs[dictid], argv, executed, Effective(argv, written, loaded), s.child.forkTime))
  {
    var fed := FeedCommands(s.selected, dictid, argv, written);
    Associate(s.child.snapshot, s.since, fed);
    ReplayAgrees(other, s.child.snapshot + s.since, s.dbs, s.child.forkTime, s.selected, dictid, argv, executed,
                 written, loaded);
  }

  /** PERSIST meets the condition on commands exactly when it is not given a key that is still
      there although its deadline has passed. */
  lemma PersistBlind(other: Others, dbs: seq<Db>, j: nat, k: Key, now: int, t: int)
    requires j < |dbs| && dbs[j].expires.Keys <= dbs[j].dict.Keys
    ensures Blind(other, dbs, j, [PERSIST, k], now, t) <==> !Dead(dbs[j], k, t)
  {
    VerbIs([PERSIST, k], VPersist);
    LocalBlind(other, dbs, j, [PERSIST, k], now, t);
  }

  // ----- runs in which a rewritten file differs -----------------------------------------------------

  /** A run of possible steps, whether or not the commands see expired keys. */
  ghost predicate PossibleRun(other: Others, ss: seq<Server>, es: seq<Event>) {
    && |ss| == |es| + 1
    && forall i :: 0 <= i < |es| ==> Possible(ss[i], es[i]) && ss[i + 1] == Next(other, ss[i], es[i])
  }

  lemma MoreSteps(other: Others, s: Server, e: Event, ss: seq<Server>, es: seq<Event>)
    returns (ss': seq<Server>, es': seq<Event>)
    requires PossibleRun(other, ss, es) && Possible(s, e) && ss[0] == Next(other, s, e)
    ensures PossibleRun(other, ss', es') && ss' == [s] + ss && es' == [e] + es
  {
    ss', es' := [s] + ss, [e] + es;
    forall i | 0 <= i < |es'| ensures Possible(ss'[i], es'[i]) && ss'[i + 1] == Next(other, ss'[i], es'[i]) {
      if i > 0 {
        assert ss'[i] == ss[i - 1] && es'[i] == es[i - 1] && ss'[i + 1] == ss[i - 1 + 1];
      }
    }
  }

  /** The child, which has seen the parent agree, finishes. */
  lemma Finish(other: Others, s: Server) returns (ss: seq<Server>, es: seq<Event>, end: Server)
    requires s.child.Child? && s.child.phase == Agreed && s.state == On
    ensures PossibleRun(other, ss, es) && ss[0] == s && end == ss[|es|]
    ensures end.state == On && end.dbs == s.dbs && end.logged == s.child.snapshot + s.since
  {
    var finish := ChildFinishes(|s.pipe|);
    var exited := Next(other, s, finish);
    end := Next(other, exited, RewriteDone(true));
    ss, es := MoreSteps(other, s, finish, [exited, end], [RewriteDone(true)]);
  }

  /** The child asks, the parent agrees, and the rewrite is done. */
  lemma AskAndFinish(other: Others, s2: Server) returns (ss: seq<Server>, es: seq<Event>, end: Server)
    requires s2.child.Child? && s2.child.phase == Saving && !s2.stopSending && s2.state == On
    ensures PossibleRun(other, ss, es) && ss[0] == s2 && end == ss[|es|]
    ensures end.state == On && end.dbs == s2.dbs && end.logged == s2.child.snapshot + s2.since
  {
    var s3 := s2.(child := s2.child.(phase := Asked));
    var s4 := s3.(stopSending := true, ack := true);
    var s5 := s4.(child := s4.child.(phase := Agreed));
    ss, es, end := Finish(other, s5);
    ss, es := MoreSteps(other, s4, ChildSeesAck, ss, es);
    ss, es := MoreSteps(other, s3, ParentAgrees(true), ss, es);
    ss, es := MoreSteps(other, s2, ChildAsks, ss, es);
  }

  /** A rewrite, the child's clock reading being `childNow`, while the parent executes a command of its
      one database at reading `now`. */
  lemma RewriteDuring(other: Others, s: Server, db: Db, order: Order, childNow: int, c: Command, now: int)
    returns (ss: seq<Server>, es: seq<Event>, end: Server)
    requires WellFormed(db) && Orders(db, order) && Fed(c) && Local(c)
    requires Starts(other, s) && s.state == On && s.dbs == [db]
    ensures PossibleRun(other, ss, es) && ss[0] == s && end == ss[|es|] && end.state == On
    ensures end.dbs == [Exec(db, c, now)]
    ensures forall loaded :: Replay(other, Blank(1), end.logged, loaded).dbs ==
                             [Exec(Prune(db, childNow), c, Effective(c, now, loaded))]
  {
    var s1 := Fork(s, [order], childNow);
    var s2 := DoExecute(other, s1, 0, c, now, now);
    StepIsExec(other, World([db], 0), c, now);
    ss, es, end := AskAndFinish(other, s2);
    var fed := FeedCommands(-1, 0, c, now);
    assert [] + fed == fed;
    ss, es := MoreSteps(other, s1, Execute(0, c, now, now), ss, es);
    ss, es := MoreSteps(other, s, BgRewrite([order], childNow), ss, es);
    forall loaded
      ensures Replay(other, Blank(1), end.logged, loaded).dbs ==
              [Exec(Prune(db, childNow), c, Effective(c, now, loaded))]
    {
      SnapshotAndFed(other, db, order, childNow, c, now, loaded);
    }
  }

  lemma SnapshotAndFed(other: Others, db: Db, order: Order, childNow: int, c: Command, now: int, loaded: int)
    requires WellFormed(db) && Orders(db, order) && Fed(c) && Local(c)
    ensures Replay(other, Blank(1), Snapshot([db], [order], childNow, 0) + FeedCommands(-1, 0, c, now), loaded).dbs ==
            [Exec(Prune(db, childNow), c, Effective(c, now, loaded))]
  {
    var snapshot, fed := Snapshot([db], [order], childNow, 0), FeedCommands(-1, 0, c, now);
    ReplaySnapshot(other, [db], [order], childNow, loaded);
    ReplayAppend(other, Blank(1), snapshot, fed, loaded);
    ReplayFed(other, Replay(other, Blank(1), snapshot, loaded), -1, 0, c, now, loaded);
    assert PruneAll([db], childNow) == [Prune(db, childNow)];
  }

  /** A key whose deadline has passed is left out of a rewrite; PERSIST makes the parent keep it for
      good; the rewritten file has lost it, whenever it is loaded. */
  lemma PersistLosesKey(other: Others, db: Db, k: Key, order: Order, t: int, s: Server)
    returns (ss: seq<Server>, es: seq<Event>, end: Server)
    requires WellFormed(db) && Orders(db, order) && k in db.expires && db.expires[k] < t
    requires Starts(other, s) && s.state == On && s.dbs == [db]
    ensures PossibleRun(other, ss, es) && ss[0] == s && end == ss[|es|] && end.state == On && |end.dbs| == 1
    ensures k in end.dbs[0].dict && k !in end.dbs[0].expires
    ensures forall loaded :: var w := Replay(other, Blank(1), end.logged, loaded);
      |w.dbs| == 1 && k !in w.dbs[0].dict
  {
    VerbIs([PERSIST, k], VPersist);
    ss, es, end := RewriteDuring(other, s, db, order, t, [PERSIST, k], t);
  }

  /** The child reads its clock after the parent. A list whose deadline lies between the two readings
      is left out of the rewrite, but has not expired for the parent, which appends to it with RPUSH
      and keeps its deadline. In the rewritten file, whenever it is loaded, it is a list of the new
      item alone, without a deadline. */
  lemma PushLosesList(other: Others, db: Db, k: Key, x: Bytes, order: Order, now: int, childNow: int, s: Server)
    returns (ss: seq<Server>, es: seq<Event>, end: Server)
    requires WellFormed(db) && Orders(db, order) && k in db.dict && db.dict[k].List?
    requires k in db.expires && now <= db.expires[k] < childNow
    requires Starts(other, s) && s.state == On && s.dbs == [db]
    ensures PossibleRun(other, ss, es) && ss[0] == s && end == ss[|es|] && end.state == On
    ensures end.dbs == [PutValue(db, k, List(db.dict[k].items + [x]))]
    ensures forall loaded :: var w := Replay(other, Blank(1), end.logged, loaded);
      && |w.dbs| == 1 && k in w.dbs[0].dict && w.dbs[0].dict[k] == List([x]) && k !in w.dbs[0].expires
  {
    var c := [RPUSH, k, x];
    VerbIs(c, VPush);
    assert c[2..] == [x];
    ss, es, end := RewriteDuring(other, s, db, order, childNow, c, now);
  }
}
