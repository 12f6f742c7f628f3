/** What feedAppendOnlyFile writes for a command that was executed: a SELECT if the database
    changes, and absolute deadlines in place of relative ones where it knows how. */
module AofFeed {
  import opened AofSnapshot
  import opened Basics
  import opened Commands
  import opened Database
  import opened Decimal
  import opened Options
  import opened Resp
  import opened Verbs

  /** The procedures that are translated; every other command is written as it is. */
  predicate Translated(v: Verb) {
    v.VExpire? || v.VPExpire? || v.VExpireAt? || v.VSetEx? || v.VPSetEx?
  }

  predicate Relative(v: Verb) {
    v.VExpire? || v.VPExpire? || v.VSetEx? || v.VPSetEx?
  }

  predicate InSeconds(v: Verb) {
    v.VExpire? || v.VSetEx? || v.VExpireAt?
  }

  /** A command that was executed and changed something: its numbers were accepted. A client's
      SELECT changes nothing. */
  predicate Fed(argv: Command) {
    var v := VerbOf(argv);
    && argv != [] && !v.VSelect?
    && (Translated(v) ==> Number(argv[2]).Some?)
    && (v.VSetEx? || v.VPSetEx? ==> Number(argv[2]).value > 0)
  }

  /** The absolute deadline in milliseconds. */
  function When(v: Verb, text: Bytes, now: int): int {
    var when := if InSeconds(v) then Atoi(text) * 1000 else Atoi(text);
    if Relative(v) then when + now else when
  }

  function Translate(argv: Command, now: int): seq<Command>
    requires Fed(argv)
  {
    var v := VerbOf(argv);
    if !Translated(v) then [argv]
    else
      var deadline := [PEXPIREAT, argv[1], DecInt(When(v, argv[2], now))];
      if v.VSetEx? || v.VPSetEx? then [[SET, argv[1], argv[3]], deadline] else [deadline]
  }

  /** What is written for a command, spelt out: a deadline that counts from now is written as a point
      in time, a deadline that does not in milliseconds, and everything else as it is. */
  lemma Written(argv: Command, now: int)
    requires Fed(argv)
    ensures var v, cs := VerbOf(argv), Translate(argv, now);
      && (v.VExpire? ==> cs == [[PEXPIREAT, argv[1], DecInt(Number(argv[2]).value * 1000 + now)]])
      && (v.VPExpire? ==> cs == [[PEXPIREAT, argv[1], DecInt(Number(argv[2]).value + now)]])
      && (v.VExpireAt? ==> cs == [[PEXPIREAT, argv[1], DecInt(Number(argv[2]).value * 1000)]])
      && (v.VSetEx? ==>
            cs == [[SET, argv[1], argv[3]], [PEXPIREAT, argv[1], DecInt(Number(argv[2]).value * 1000 + now)]])
      && (v.VPSetEx? ==>
            cs == [[SET, argv[1], argv[3]], [PEXPIREAT, argv[1], DecInt(Number(argv[2]).value + now)]])
      && (!v.VExpire? && !v.VPExpire? && !v.VExpireAt? && !v.VSetEx? && !v.VPSetEx? ==> cs == [argv])
  {}

  function FeedCommands(selected: int, dictid: nat, argv: Command, now: int): seq<Command>
    requires Fed(argv)
  {
    (if dictid != selected then [SelectCommand(dictid)] else []) + Translate(argv, now)
  }

  /** The database is selected exactly if it is not the one that was written to last. */
  lemma SelectWritten(selected: int, dictid: nat, argv: Command, now: int)
    requires Fed(argv)
    ensures var cs := FeedCommands(selected, dictid, argv, now);
      if dictid == selected then cs == Translate(argv, now)
      else cs == [[SELECT, Dec(dictid)]] + Translate(argv, now)
  {
    assert [] + Translate(argv, now) == Translate(argv, now);
  }

  /** catAppendOnlyExpireAtCommand. */
  method CatExpireAt(buf: Bytes, cmd: Verb, key: Key, seconds: Bytes, now: int) returns (r: Bytes)
    ensures r == buf + Encode([PEXPIREAT, key, DecInt(When(cmd, seconds, now))])
  {
    var when := Atoi(seconds);
    if cmd.VExpire? || cmd.VSetEx? || cmd.VExpireAt? {
      when := when * 1000;
    }
    if cmd.VExpire? || cmd.VPExpire? || cmd.VSetEx? || cmd.VPSetEx? {
      when := when + now;
    }
    r := CatCommand(buf, [PEXPIREAT, key, DecInt(when)]);
  }

  /** The translating branches of feedAppendOnlyFile. */
  method CatTranslated(buf: Bytes, argv: Command, now: int) returns (r: Bytes)
    requires Fed(argv)
    ensures r == buf + EncodeAll(Translate(argv, now))
  {
    var cmd := VerbOf(argv);
    if cmd.VExpire? || cmd.VPExpire? || cmd.VExpireAt? {
      r := CatExpireAt(buf, cmd, argv[1], argv[2], now);
      EncodeOne([PEXPIREAT, argv[1], DecInt(When(cmd, argv[2], now))]);
    } else if cmd.VSetEx? || cmd.VPSetEx? {
      r := CatCommand(buf, [SET, argv[1], argv[3]]);
      r := CatExpireAt(r, cmd, argv[1], argv[2], now);
      EncodeTwo([SET, argv[1], argv[3]], [PEXPIREAT, argv[1], DecInt(When(cmd, argv[2], now))], buf);
    } else {
      r := CatCommand(buf, argv);
      EncodeOne(argv);
    }
  }

  /** The bytes that feedAppendOnlyFile appends to its buffers. */
  method FeedBytes(selected: int, dictid: nat, argv: Command, now: int) returns (buf: Bytes)
    requires Fed(argv)
    ensures buf == EncodeAll(FeedCommands(selected, dictid, argv, now))
  {
    buf := [];
    ghost var select := if dictid != selected then [SelectCommand(dictid)] else [];
    if dictid != selected {
      buf := CatCommand(buf, [SELECT, Dec(dictid)]);
      EncodeOne(SelectCommand(dictid));
    }
    EncodeAllAppend(select, Translate(argv, now));
    buf := CatTranslated(buf, argv, now);
  }

  lemma EncodeTwo(a: Command, b: Command, head: Bytes)
    ensures head + Encode(a) + Encode(b) == head + EncodeAll([a, b])
  {
    assert [a, b][1..] == [b];
    EncodeOne(b);
  }

  // ----- what the translation keeps ------------------------------------------------------------

  lemma ExpireTranslated(db: Db, argv: Command, written: int, loaded: int)
    requires Fed(argv) && Translated(VerbOf(argv)) && !VerbOf(argv).VSetEx? && !VerbOf(argv).VPSetEx?
    ensures ExecAll(db, Translate(argv, written), loaded) == Exec(db, argv, written)
  {
    ReplayDeadline(db, argv[1], When(VerbOf(argv), argv[2], written), loaded);
  }

  lemma SetExIs(db: Db, argv: Command, written: int, when: int)
    requires Fed(argv) && (VerbOf(argv).VSetEx? || VerbOf(argv).VPSetEx?) &&
             when == When(VerbOf(argv), argv[2], written)
    ensures Exec(db, argv, written) == ExpireAt(SetKey(db, argv[1], String(argv[3])), argv[1], when)
  {}

  lemma SetAndDeadline(db: Db, k: Key, text: Bytes, when: int, loaded: int)
    ensures ExecAll(db, [[SET, k, text], [PEXPIREAT, k, DecInt(when)]], loaded) ==
            ExpireAt(SetKey(db, k, String(text)), k, when)
  {
    var stored, deadline := [SET, k, text], [PEXPIREAT, k, DecInt(when)];
    PlainSet(db, k, text, loaded);
    ExecAllFirst(db, [stored, deadline], stored, [deadline], loaded);
    ReplayDeadline(SetKey(db, k, String(text)), k, when, loaded);
  }

  lemma SetExTranslated(db: Db, argv: Command, written: int, loaded: int)
    requires Fed(argv) && (VerbOf(argv).VSetEx? || VerbOf(argv).VPSetEx?)
    ensures ExecAll(db, Translate(argv, written), loaded) == Exec(db, argv, written)
  {
    var when := When(VerbOf(argv), argv[2], written);
    SetExIs(db, argv, written, when);
    SetAndDeadline(db, argv[1], argv[3], when, loaded);
  }

  lemma PlainTranslation(db: Db, argv: Command, written: int)
    requires Fed(argv) && Translated(VerbOf(argv))
    ensures Plain(Translate(argv, written))
  {
    ExecDeadline(db, argv[1], When(VerbOf(argv), argv[2], written), written);
    if VerbOf(argv).VSetEx? || VerbOf(argv).VPSetEx? {
      PlainSet(db, argv[1], argv[3], written);
    }
  }

  /** What is written for a translated command does, whenever it is loaded, what the command did
      at the clock reading of the translation. */
  lemma TranslationKeepsMeaning(db: Db, argv: Command, written: int, loaded: int)
    requires Fed(argv) && Translated(VerbOf(argv))
    ensures ExecAll(db, Translate(argv, written), loaded) == Exec(db, argv, written)
    ensures Plain(Translate(argv, written))
  {
    PlainTranslation(db, argv, written);
    if VerbOf(argv).VSetEx? || VerbOf(argv).VPSetEx? {
      SetExTranslated(db, argv, written, loaded);
    } else {
      ExpireTranslated(db, argv, written, loaded);
    }
  }

  /** The clock is read again for the file. What is written agrees with what was executed if and
      only if the clock has not moved in between, or the command gives no time to live; otherwise
      the deadline in the file is later by as much as the clock has moved. */
  lemma DeadlineDrift(db: Db, argv: Command, executed: int, written: int, loaded: int)
    requires Fed(argv) && Translated(VerbOf(argv))
    ensures ExecAll(db, Translate(argv, written), loaded) == Exec(db, argv, executed) <==>
            written == executed || !SetsTtl(db, argv)
    ensures var inFile, inMemory := ExecAll(db, Translate(argv, written), loaded), Exec(db, argv, executed);
      SetsTtl(db, argv) ==>
        && argv[1] in inMemory.expires && argv[1] in inFile.expires
        && inFile.expires[argv[1]] == inMemory.expires[argv[1]] + (written - executed)
  {
    TranslationKeepsMeaning(db, argv, written, loaded);
    ClockMatters(db, argv, written, executed);
    if SetsTtl(db, argv) {
      DeadlineFromNow(db, argv, written);
      DeadlineFromNow(db, argv, executed);
    }
  }

  /** A command that is written as it is, like SET with EX or PX and RESTORE, is executed again
      when it is loaded. It agrees with what was executed if and only if it is loaded at the same
      clock reading, or gives no time to live; otherwise the deadline moves with the time of
      loading. */
  lemma VerbatimDrift(db: Db, argv: Command, executed: int, written: int, loaded: int)
    requires Fed(argv) && Local(argv) && !Translated(VerbOf(argv))
    ensures ExecAll(db, Translate(argv, written), loaded) == Exec(db, argv, executed) <==>
            loaded == executed || !SetsTtl(db, argv)
    ensures var inFile, inMemory := ExecAll(db, Translate(argv, written), loaded), Exec(db, argv, executed);
      SetsTtl(db, argv) ==>
        && argv[1] in inMemory.expires && argv[1] in inFile.expires
        && inFile.expires[argv[1]] == inMemory.expires[argv[1]] + (loaded - executed)
  {
    ExecAllFirst(db, [argv], argv, [], loaded);
    ClockMatters(db, argv, loaded, executed);
    if SetsTtl(db, argv) {
      DeadlineFromNow(db, argv, loaded);
      DeadlineFromNow(db, argv, executed);
    }
  }

  const EX: Bytes := [69, 88]
  const PX: Bytes := [80, 88]

  lemma SetOptionTtl(k: Key, text: Bytes, option: Bytes, amount: Bytes, unit: nat)
    requires (option == EX && unit == 1000) || (option == PX && unit == 1)
    requires Ttl(amount, unit).Some?
    ensures VerbOf([SET, k, text, option, amount]) == VSet
    ensures SetArgs([SET, k, text, option, amount]) == Put(false, false, Ttl(amount, unit))
  {
    var c := [SET, k, text, option, amount];
    VerbIs(c, VSet);
    assert c[3..] == [option, amount] && [option, amount][2..] == [];
    var o := SetOptions(false, false, Some(amount), unit);
    assert ParseSet([], o) == Some(o);
    assert ParseSet([option, amount], SetOptions(false, false, None, 1000)) == Some(o);
  }

  /** For example: SET with EX 10, executed at time 0 and loaded at time 1, expires a millisecond
      later than it did; with PX 10 likewise. */
  lemma SetWithExMoves(db: Db, k: Key, text: Bytes, option: Bytes, written: int)
    requires option == EX || option == PX
    ensures var argv := [SET, k, text, option, [49, 48]];
      && Fed(argv) && Translate(argv, written) == [argv]
      && k in Exec(db, argv, 0).expires && k in ExecAll(db, [argv], 1).expires
      && Exec(db, argv, 0).expires[k] == (if option == EX then 10000 else 10)
      && ExecAll(db, [argv], 1).expires[k] == (if option == EX then 10001 else 11)
  {
    var argv := [SET, k, text, option, [49, 48]];
    assert Number([49, 48]) == Some(10) by {
      assert Dec(10) == Dec(1) + [48] && Dec(1) == [49];
      NumberOfDecInt(10);
    }
    SetOptionTtl(k, text, option, [49, 48], if option == EX then 1000 else 1);
    VerbatimDrift(db, argv, 0, written, 1);
  }

  // ----- replaying what was fed ----------------------------------------------------------------

  /** Feeding did not lose time: the clock did not move between the execution and the writing of
      a relative deadline, and a command that is written as it is does not look at the clock. */
  ghost predicate Prompt(other: Others, argv: Command, executed: int, written: int)
    requires Fed(argv)
  {
    if Translated(VerbOf(argv)) then written == executed || !Relative(VerbOf(argv)) else Timeless(other, argv)
  }

  /** Replaying what was fed, at any time, runs the command in the database it was executed in. */
  lemma FeedReplays(other: Others, w: World, selected: int, dictid: nat, argv: Command, executed: int, written: int,
                    loaded: int)
    requires Fed(argv) && dictid < |w.dbs| && w.selected < |w.dbs| && Prompt(other, argv, executed, written)
    requires selected == -1 || selected == w.selected
    ensures Replay(other, w, FeedCommands(selected, dictid, argv, written), loaded) ==
            Step(other, w.(selected := dictid), argv, executed)
    ensures AllTimeless(other, FeedCommands(selected, dictid, argv, written))
  {
    var cs, w1 := Translate(argv, written), w.(selected := dictid);
    ReplayTranslated(other, w1, argv, executed, written, loaded);
    VerbIs(SelectCommand(dictid), VSelect);
    TimelessExactly(other, SelectCommand(dictid));
    if dictid != selected {
      ExecSelect(other, w, dictid, loaded);
      assert ([SelectCommand(dictid)] + cs)[1..] == cs;
    } else {
      assert [] + cs == cs;
    }
  }

  lemma ReplayTranslated(other: Others, w: World, argv: Command, executed: int, written: int, loaded: int)
    requires Fed(argv) && w.selected < |w.dbs| && Prompt(other, argv, executed, written)
    ensures Replay(other, w, Translate(argv, written), loaded) == Step(other, w, argv, executed)
    ensures AllTimeless(other, Translate(argv, written))
  {
    var cs, db := Translate(argv, written), w.dbs[w.selected];
    if Translated(VerbOf(argv)) {
      TranslationKeepsMeaning(db, argv, written, loaded);
      ReplayIsExecAll(other, w, cs, loaded);
      ClockMatters(db, argv, written, executed);
      forall c | c in cs ensures Timeless(other, c) {
        TimelessExactly(other, c);
      }
    } else {
      assert Replay(other, w, [argv], loaded) == Replay(other, Step(other, w, argv, loaded), [], loaded);
    }
  }
}
