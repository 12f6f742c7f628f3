/** Files that are damaged otherwise than by being cut off: the loader runs the commands before the
    damage and refuses the rest, whether or not truncated files are accepted. */
module AofCorrupt {
  import opened Basics
  import opened Decimal
  import opened Resp
  import opened Verbs

  /** Whole commands, and then bytes that no command can start with: the commands are run, and the
      loader exits. */
  lemma {:induction false} RefusedAfter(cs: seq<Command>, bad: Bytes, size: nat, known: Bytes -> bool, truncated: bool)
    requires AllLoadable(cs, known) && |EncodeAll(cs) + bad| <= size
    requires LoadFrom(bad, size, known, truncated) == LoadResult([], Fatal)
    ensures LoadFrom(EncodeAll(cs) + bad, size, known, truncated) == LoadResult(cs, Fatal)
  {
    if cs == [] {
      assert EncodeAll(cs) + bad == bad;
    } else {
      var more := EncodeAll(cs[1..]) + bad;
      Associate(Encode(cs[0]), EncodeAll(cs[1..]), bad);
      RefusedAfter(cs[1..], bad, size, known, truncated);
      ReadCommandWhole(cs[0], more);
      assert [cs[0]] + cs[1..] == cs;
    }
  }

  lemma Refused(cs: seq<Command>, bad: Bytes, known: Bytes -> bool, truncated: bool)
    requires AllLoadable(cs, known) && bad != []
    requires forall size :: size >= |bad| ==> LoadFrom(bad, size, known, truncated) == LoadResult([], Fatal)
    ensures Load(EncodeAll(cs) + bad, known, truncated) == LoadResult(cs, Fatal)
  {
    RefusedAfter(cs, bad, |EncodeAll(cs) + bad|, known, truncated);
  }

  /** Where the `$` of argument `i` stands, or, for -1, the `*` of the command. */
  function Marker(c: Command, i: int): nat
    requires -1 <= i < |c|
  {
    if i == -1 then 0 else |Header(STAR, |c|)| + |EncodeArgs(c[..i])|
  }

  lemma MarkerIs(c: Command, i: int)
    requires -1 <= i < |c|
    ensures Marker(c, i) < |Encode(c)| && Encode(c)[Marker(c, i)] == if i == -1 then STAR else DOLLAR
  {
    if i >= 0 {
      SplitAt(c, i);
    }
  }

  /** The text of a command around the marker of an argument. */
  lemma SplitAt(c: Command, i: nat)
    requires i < |c|
    ensures Encode(c) == Header(STAR, |c|) + EncodeArgs(c[..i]) + (EncodeArg(c[i]) + EncodeArgs(c[i + 1..]))
  {
    assert c == c[..i] + c[i..] && c[i..][0] == c[i] && c[i..][1..] == c[i + 1..];
    EncodeArgsAppend(c[..i], c[i..]);
    Associate(Header(STAR, |c|), EncodeArgs(c[..i]), EncodeArgs(c[i..]));
  }

  lemma NoDollar(s: Bytes)
    requires s != [] && s[0] != DOLLAR
    ensures ReadArg(s) == FormatError
  {
    assert Fgets(s).0[0] == s[0];
  }

  lemma ErrorFirst(s: Bytes, n: nat)
    requires n > 0 && s != [] && s[0] != DOLLAR
    ensures ReadArgs(s, n) == FormatError
  {
    NoDollar(s);
  }

  lemma ErrorLater(s: Bytes, n: nat, m: nat, a: Bytes, more: Bytes)
    requires n == m + 1 && ReadArg(s) == Ok(a, more) && ReadArgs(more, m) == FormatError
    ensures ReadArgs(s, n) == FormatError
  {}

  lemma FirstArg(args: seq<Bytes>, first: Bytes, rest: seq<Bytes>, s: Bytes, more: Bytes)
    requires args != [] && first == args[0] && rest == args[1..] && |first| < 0x8000_0000_0000_0000
    requires more == EncodeArgs(rest) + s
    ensures ReadArg(EncodeArgs(args) + s) == Ok(first, more)
  {
    Associate(EncodeArg(first), EncodeArgs(rest), s);
    ReadArgWhole(first, more);
  }

  /** Arguments that are whole, before one that does not start with a `$`. */
  lemma {:induction false} NoDollarAfter(args: seq<Bytes>, n: nat, s: Bytes)
    requires (forall i :: 0 <= i < |args| ==> |args[i]| < 0x8000_0000_0000_0000) && n > |args|
    requires s != [] && s[0] != DOLLAR
    ensures ReadArgs(EncodeArgs(args) + s, n) == FormatError
    decreases |args|
  {
    var whole := EncodeArgs(args) + s;
    if args == [] {
      assert whole == s;
      ErrorFirst(whole, n);
    } else {
      var first, rest, m := args[0], args[1..], n - 1;
      var more := EncodeArgs(rest) + s;
      NoDollarAfter(rest, m, s);
      FirstArg(args, first, rest, s, more);
      ErrorLater(whole, n, m, first, more);
    }
  }

  lemma NoStar(s: Bytes)
    requires s != [] && s[0] != STAR
    ensures ReadCommand(s) == FormatError
  {
    assert Fgets(s).0[0] == s[0];
  }

  /** The text of a command whose argument `i` does not start with a `$`. */
  lemma WithoutDollar(c: Command, i: nat, x: Byte, rest: Bytes) returns (s: Bytes)
    requires i < |c| && x != DOLLAR
    ensures Marker(c, i) < |Encode(c)| && s != [] && s[0] == x
    ensures Encode(c)[Marker(c, i) := x] + rest == Header(STAR, |c|) + (EncodeArgs(c[..i]) + s)
  {
    var tail := EncodeArg(c[i]) + EncodeArgs(c[i + 1..]);
    s := tail[0 := x] + rest;
    SplitAt(c, i);
  }

  lemma NoMarker(c: Command, i: int, x: Byte, rest: Bytes)
    requires Printable(c) && -1 <= i < |c| && x != (if i == -1 then STAR else DOLLAR)
    ensures Marker(c, i) < |Encode(c)| && ReadCommand(Encode(c)[Marker(c, i) := x] + rest) == FormatError
  {
    MarkerIs(c, i);
    if i == -1 {
      NoStar(Encode(c)[0 := x] + rest);
    } else {
      var s := WithoutDollar(c, i, x, rest);
      HeaderIsLine(STAR, |c|, EncodeArgs(c[..i]) + s);
      HeaderNumber(STAR, |c|);
      NoDollarAfter(c[..i], |c|, s);
    }
  }

  /** The byte that marks a command or one of its arguments has become another one: exactly the
      commands before it are run, and the loader exits, whatever follows. */
  lemma MarkerLost(cs: seq<Command>, c: Command, i: int, x: Byte, rest: Bytes, known: Bytes -> bool, truncated: bool)
    requires AllLoadable(cs, known) && Printable(c) && -1 <= i < |c|
    requires x != (if i == -1 then STAR else DOLLAR)
    ensures Marker(c, i) < |Encode(c)| && Encode(c)[Marker(c, i)] == if i == -1 then STAR else DOLLAR
    ensures Load(EncodeAll(cs) + (Encode(c)[Marker(c, i) := x] + rest), known, truncated) == LoadResult(cs, Fatal)
  {
    MarkerIs(c, i);
    NoMarker(c, i, x, rest);
    Refused(cs, Encode(c)[Marker(c, i) := x] + rest, known, truncated);
  }

  lemma NumberRead(n: int, text: Bytes)
    requires n < 1 && text == DecInt(n) + CRLF
    ensures Atoi(text) == n
  {
    if n < 0 {
      AtoiOfDec(-n, CRLF);
      assert text[1..] == Dec(-n) + CRLF;
    } else {
      AtoiOfDec(n, CRLF);
    }
  }

  lemma NumberLine(n: int, line: Bytes, rest: Bytes)
    requires -0x8000_0000_0000_0000 < n < 1 && line == [STAR] + (DecInt(n) + CRLF)
    ensures Fgets(line + rest) == (line, rest)
    ensures |line| > 1 && line[0] == STAR && line[1] != 0 && line[1..] == DecInt(n) + CRLF
  {
    LongDigits(-n);
    LineEndsAt(line + rest, |line| - 1, LINE_MAX);
  }

  /** So too for a command that announces fewer than one argument. */
  lemma NoArguments(cs: seq<Command>, n: int, rest: Bytes, known: Bytes -> bool, truncated: bool)
    requires AllLoadable(cs, known) && -0x8000_0000_0000_0000 < n < 1
    ensures Load(EncodeAll(cs) + ([STAR] + (DecInt(n) + CRLF) + rest), known, truncated) == LoadResult(cs, Fatal)
  {
    var line := [STAR] + (DecInt(n) + CRLF);
    NumberLine(n, line, rest);
    NumberRead(n, line[1..]);
    Refused(cs, line + rest, known, truncated);
  }

  /** So too for a zero byte in the place of the number of arguments, if the line is ended: only at the
      end of the file does it count as a file that was cut off. */
  lemma ZeroAfterStar(cs: seq<Command>, text: Bytes, rest: Bytes, known: Bytes -> bool, truncated: bool)
    requires AllLoadable(cs, known) && |text| < 120 && forall i :: 0 <= i < |text| ==> text[i] != LF
    ensures Load(EncodeAll(cs) + ([STAR, 0] + text + [LF] + rest), known, truncated) == LoadResult(cs, Fatal)
  {
    var line := [STAR, 0] + text + [LF];
    LineEndsAt(line + rest, |line| - 1, LINE_MAX);
    assert Fgets(line + rest) == (line, rest);
    Refused(cs, line + rest, known, truncated);
  }

  /** So too for a command that is not in the command table. */
  lemma UnknownCommand(cs: seq<Command>, c: Command, rest: Bytes, known: Bytes -> bool, truncated: bool)
    requires AllLoadable(cs, known) && Printable(c) && !known(c[0])
    ensures Load(EncodeAll(cs) + (Encode(c) + rest), known, truncated) == LoadResult(cs, Fatal)
  {
    ReadCommandWhole(c, rest);
    Refused(cs, Encode(c) + rest, known, truncated);
  }
}
