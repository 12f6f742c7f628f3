/** Commands in the append-only file: printing them, and loading a file that may have been
    cut off anywhere. */
module Resp {
  import opened Basics
  import opened Decimal

  const CR: Byte := 13
  const LF: Byte := 10
  const STAR: Byte := 42
  const DOLLAR: Byte := 36
  const CRLF: Bytes := [CR, LF]

  /** A command is its name and arguments, any bytes. */
  type Command = seq<Bytes>

  // ----- printing -------------------------------------------------------------------------

  function EncodeArg(a: Bytes): Bytes {
    [DOLLAR] + Dec(|a|) + CRLF + a + CRLF
  }

  function EncodeArgs(args: seq<Bytes>): Bytes {
    if args == [] then [] else EncodeArg(args[0]) + EncodeArgs(args[1..])
  }

  function Encode(c: Command): Bytes {
    [STAR] + Dec(|c|) + CRLF + EncodeArgs(c)
  }

  function EncodeAll(cs: seq<Command>): Bytes {
    if cs == [] then [] else Encode(cs[0]) + EncodeAll(cs[1..])
  }

  lemma {:induction false} EncodeArgsAppend(a: seq<Bytes>, b: seq<Bytes>)
    ensures EncodeArgs(a + b) == EncodeArgs(a) + EncodeArgs(b)
  {
    if a == [] {
      assert a + b == b;
    } else {
      assert (a + b)[1..] == a[1..] + b;
      EncodeArgsAppend(a[1..], b);
    }
  }

  lemma {:induction false} EncodeAllAppend(a: seq<Command>, b: seq<Command>)
    ensures EncodeAll(a + b) == EncodeAll(a) + EncodeAll(b)
  {
    if a == [] {
      assert a + b == b;
    } else {
      assert (a + b)[1..] == a[1..] + b;
      EncodeAllAppend(a[1..], b);
    }
  }

  lemma EncodeSnoc(args: seq<Bytes>, j: nat)
    requires j < |args|
    ensures EncodeArgs(args[..j + 1]) == EncodeArgs(args[..j]) + EncodeArg(args[j])
  {
    assert args[..j + 1] == args[..j] + [args[j]];
    EncodeArgsAppend(args[..j], [args[j]]);
    assert EncodeArgs([args[j]]) == EncodeArg(args[j]) + EncodeArgs([]);
  }

  /** The `*` or `$` line: a marker and a number. */
  function Header(marker: Byte, n: nat): Bytes {
    [marker] + Dec(n) + CRLF
  }

  /** catAppendOnlyGenericCommand. */
  method CatCommand(dst: Bytes, argv: Command) returns (r: Bytes)
    ensures r == dst + Encode(argv)
  {
    r := dst + Header(STAR, |argv|);
    ghost var head := r;
    for j := 0 to |argv|
      invariant r == head + EncodeArgs(argv[..j])
    {
      EncodeSnoc(argv, j);
      ghost var before := r;
      r := r + Header(DOLLAR, |argv[j]|);
      r := r + argv[j];
      r := r + CRLF;
      assert r == before + EncodeArg(argv[j]);
    }
    assert argv[..|argv|] == argv;
  }

  // ----- reading ----------------------------------------------------------------------------

  /** Size of the line buffer of the loader, without the terminating zero. */
  const LINE_MAX: nat := 127

  /** How many bytes fgets takes from `s`: up to a newline, `limit` bytes, or the end. */
  function LineLength(s: Bytes, limit: nat): (n: nat)
    ensures n <= |s| && n <= limit
    ensures s != [] && limit > 0 ==> n > 0
  {
    if s == [] || limit == 0 then 0 else if s[0] == LF then 1 else 1 + LineLength(s[1..], limit - 1)
  }

  /** fgets on the bytes that remain: the line, and what remains after it. */
  function Fgets(s: Bytes): (r: (Bytes, Bytes))
    ensures r.0 + r.1 == s
  {
    var n := LineLength(s, LINE_MAX);
    (s[..n], s[n..])
  }

  /** A line ends with the first newline, after 127 bytes, or at the end of the file. */
  lemma LineExactly(s: Bytes)
    ensures var line := Fgets(s).0;
      && line <= s && |line| <= 127 && (forall i :: 0 <= i < |line| - 1 ==> line[i] != LF)
      && (|line| == 127 || line == s || (line != [] && line[|line| - 1] == LF))
  {
    LengthExactly(s, LINE_MAX);
  }

  lemma {:induction false} LengthExactly(s: Bytes, limit: nat)
    ensures var n := LineLength(s, limit);
      && (forall i :: 0 <= i < n - 1 ==> s[i] != LF) && (n == limit || n == |s| || (n > 0 && s[n - 1] == LF))
  {
    if s != [] && limit > 0 && s[0] != LF {
      LengthExactly(s[1..], limit - 1);
    }
  }

  /** fgets met the end of the file. */
  predicate HitEof(s: Bytes) {
    var line := Fgets(s).0;
    Fgets(s).1 == [] && |line| < LINE_MAX && (line == [] || line[|line| - 1] != LF)
  }

  datatype Read<T> = Ok(value: T, rest: Bytes) | AtEof | ReadError(eof: bool) | FormatError | BadLength

  /** One argument: the `$` line, the bytes, and two bytes that are discarded. */
  function ReadArg(s: Bytes): Read<Bytes> {
    if s == [] then ReadError(true)
    else
      var (line, rest) := Fgets(s);
      if line[0] != DOLLAR then FormatError
      else
        var len := Atoi(line[1..]);
        if len < 0 then BadLength
        else if len > |rest| || len + 2 > |rest| then ReadError(true)
        else Ok(rest[..len], rest[len + 2..])
  }

  function ReadArgs(s: Bytes, n: nat): Read<seq<Bytes>> {
    if n == 0 then Ok([], s)
    else
      match ReadArg(s)
      case Ok(a, rest) =>
        (match ReadArgs(rest, n - 1)
         case Ok(args, rest') => Ok([a] + args, rest')
         case AtEof => AtEof
         case ReadError(eof) => ReadError(eof)
         case FormatError => FormatError
         case BadLength => BadLength)
      case AtEof => AtEof
      case ReadError(eof) => ReadError(eof)
      case FormatError => FormatError
      case BadLength => BadLength
  }

  /** One turn of the loop of loadAppendOnlyFile, up to the command look-up. */
  function ReadCommand(s: Bytes): Read<Command> {
    if s == [] then AtEof
    else
      var (line, rest) := Fgets(s);
      if line[0] != STAR then FormatError
      else if |line| == 1 || line[1] == 0 then ReadError(HitEof(s))
      else if Atoi(line[1..]) < 1 then FormatError
      else ReadArgs(rest, Atoi(line[1..]))
  }

  datatype Outcome =
    | Loaded                      // the whole file
    | TruncatedAt(offset: nat)    // the file was cut back and loaded
    | EmptyFile
    | Fatal                       // an error message and exit

  /** The commands run, and how loading ends. `valid` is the offset after the last command. */
  datatype LoadResult = LoadResult(commands: seq<Command>, outcome: Outcome)

  lemma {:induction false} ReadArgsRest(s: Bytes, n: nat)
    requires ReadArgs(s, n).Ok?
    ensures |ReadArgs(s, n).rest| <= |s| && |ReadArgs(s, n).value| == n
  {
    if n > 0 {
      ReadArgsRest(ReadArg(s).rest, n - 1);
    }
  }

  lemma ReadCommandRest(s: Bytes)
    requires ReadCommand(s).Ok?
    ensures |ReadCommand(s).rest| < |s| && |ReadCommand(s).value| > 0
  {
    var (line, rest) := Fgets(s);
    ReadArgsRest(rest, Atoi(line[1..]));
  }

  /** The loop of loadAppendOnlyFile from the bytes `s` that remain of a file of `size` bytes.
      `known` is the command table, `truncated` the aof-load-truncated setting. */
  function LoadFrom(s: Bytes, size: nat, known: Bytes -> bool, truncated: bool): LoadResult
    requires |s| <= size
    decreases |s|
  {
    match ReadCommand(s)
    case AtEof => LoadResult([], Loaded)
    case ReadError(eof) => LoadResult([], if eof && truncated then TruncatedAt(size - |s|) else Fatal)
    case FormatError => LoadResult([], Fatal)
    case BadLength => LoadResult([], Fatal)
    case Ok(c, rest) =>
      ReadCommandRest(s);
      if !known(c[0]) then LoadResult([], Fatal)
      else
        var more := LoadFrom(rest, size, known, truncated);
        LoadResult([c] + more.commands, more.outcome)
  }

  function Load(file: Bytes, known: Bytes -> bool, truncated: bool): LoadResult {
    if file == [] then LoadResult([], EmptyFile) else LoadFrom(file, |file|, known, truncated)
  }

  // ----- loading undoes printing -----------------------------------------------------------

  /** Counts and lengths fit the types that hold them: an int and a long. */
  predicate Printable(c: Command) {
    1 <= |c| < 0x8000_0000 && forall i :: 0 <= i < |c| ==> |c[i]| < 0x8000_0000_0000_0000
  }

  /** Commands that can be printed, with names that the command table knows. */
  ghost predicate AllLoadable(cs: seq<Command>, known: Bytes -> bool) {
    forall c :: c in cs ==> Printable(c) && known(c[0])
  }

  lemma {:induction false} LineEndsAt(s: Bytes, k: nat, limit: nat)
    requires k < |s| && k < limit && s[k] == LF && forall i :: 0 <= i < k ==> s[i] != LF
    ensures LineLength(s, limit) == k + 1
  {
    if k > 0 {
      LineEndsAt(s[1..], k - 1, limit - 1);
    }
  }

  lemma {:induction false} LineWithoutEnd(s: Bytes, limit: nat)
    requires |s| < limit && forall i :: 0 <= i < |s| ==> s[i] != LF
    ensures LineLength(s, limit) == |s|
  {
    if s != [] {
      LineWithoutEnd(s[1..], limit - 1);
    }
  }

  lemma LongDigits(n: nat)
    requires n < 0x8000_0000_0000_0000
    ensures |Dec(n)| <= 20
  {
    assert Pow10(4) == 10000 && Pow10(1) == 10;
    Pow10Sum(4, 4);
    Pow10Sum(8, 8);
    Pow10Sum(16, 4);
    DecLength(n, 20, Pow10(20));
  }

  /** A printed header is one line. */
  lemma HeaderIsLine(marker: Byte, n: nat, rest: Bytes)
    requires marker != LF && n < 0x8000_0000_0000_0000
    ensures Fgets(Header(marker, n) + rest) == (Header(marker, n), rest)
  {
    var h := Header(marker, n);
    LongDigits(n);
    LineEndsAt(h + rest, |h| - 1, LINE_MAX);
  }

  lemma HeaderNumber(marker: Byte, n: nat)
    ensures Atoi(Header(marker, n)[1..]) == n
  {
    AtoiOfDec(n, CRLF);
    assert Header(marker, n)[1..] == Dec(n) + CRLF;
  }

  lemma {:induction false} DigitsGrow(s: Bytes, acc: nat)
    ensures Digits(s, acc) >= acc
  {
    if s != [] && IsDigit(s[0]) {
      DigitsGrow(s[1..], acc * 10 + (s[0] - 48));
    }
  }

  lemma {:induction false} FirstDigit(n: nat)
    ensures n > 0 ==> Dec(n)[0] != ZERO
  {
    if n >= 10 {
      FirstDigit(n / 10);
    }
  }

  /** The number in a header that was cut off: still a number, and at least one if a digit
      is left and the whole number is. */
  lemma CutNumber(marker: Byte, n: nat, k: nat)
    requires 1 <= k < |Header(marker, n)|
    ensures Atoi(Header(marker, n)[..k][1..]) >= 0
    ensures k > 1 ==> IsDigit(Header(marker, n)[..k][1])
    ensures k > 1 && n > 0 ==> Atoi(Header(marker, n)[..k][1..]) >= 1
  {
    var t := Header(marker, n)[..k][1..];
    FirstDigit(n);
    if k > 1 {
      assert t[0] == Dec(n)[0];
      DigitsGrow(t[1..], t[0] - 48);
    }
  }

  /** A header that was cut off is read to the end of the file. */
  lemma CutHeader(marker: Byte, n: nat, k: nat)
    requires marker != LF && n < 0x8000_0000_0000_0000 && 1 <= k < |Header(marker, n)|
    ensures var t := Header(marker, n)[..k];
      Fgets(t) == (t, []) && HitEof(t)
  {
    var t := Header(marker, n)[..k];
    LongDigits(n);
    LineWithoutEnd(t, LINE_MAX);
    assert t[..|t|] == t && t[|t|..] == [];
  }

  lemma ReadArgWhole(a: Bytes, rest: Bytes)
    requires |a| < 0x8000_0000_0000_0000
    ensures ReadArg(EncodeArg(a) + rest) == Ok(a, rest)
  {
    var s, h, body := EncodeArg(a) + rest, Header(DOLLAR, |a|), a + CRLF + rest;
    assert s == h + body;
    HeaderIsLine(DOLLAR, |a|, body);
    HeaderNumber(DOLLAR, |a|);
    assert body[..|a|] == a && body[|a| + 2..] == rest;
  }

  lemma ReadArgCut(a: Bytes, k: nat)
    requires |a| < 0x8000_0000_0000_0000 && k < |EncodeArg(a)|
    ensures ReadArg(EncodeArg(a)[..k]) == ReadError(true)
  {
    var t, h := EncodeArg(a)[..k], Header(DOLLAR, |a|);
    assert EncodeArg(a) == h + (a + CRLF);
    if k == 0 {
    } else if k < |h| {
      assert t == h[..k];
      CutHeader(DOLLAR, |a|, k);
      CutNumber(DOLLAR, |a|, k);
    } else {
      var body := (a + CRLF)[..k - |h|];
      assert t == h + body;
      HeaderIsLine(DOLLAR, |a|, body);
      HeaderNumber(DOLLAR, |a|);
    }
  }

  lemma {:induction false} ReadArgsWhole(args: seq<Bytes>, n: nat, rest: Bytes)
    requires forall i :: 0 <= i < |args| ==> |args[i]| < 0x8000_0000_0000_0000
    requires n == |args|
    ensures ReadArgs(EncodeArgs(args) + rest, n) == Ok(args, rest)
  {
    if args == [] {
      assert EncodeArgs(args) + rest == rest;
    } else {
      var more := EncodeArgs(args[1..]) + rest;
      Associate(EncodeArg(args[0]), EncodeArgs(args[1..]), rest);
      ReadArgWhole(args[0], more);
      ReadArgsWhole(args[1..], n - 1, rest);
      ReadArgsStep(EncodeArg(args[0]) + more, n, args[0], more, args[1..], rest);
      assert args == [args[0]] + args[1..];
    }
  }

  lemma ReadArgsStep(s: Bytes, n: nat, a: Bytes, more: Bytes, args: seq<Bytes>, rest: Bytes)
    requires n > 0 && ReadArg(s) == Ok(a, more) && ReadArgs(more, n - 1) == Ok(args, rest)
    ensures ReadArgs(s, n) == Ok([a] + args, rest)
  {}

  lemma {:induction false} ReadArgsCut(args: seq<Bytes>, k: nat)
    requires forall i :: 0 <= i < |args| ==> |args[i]| < 0x8000_0000_0000_0000
    requires k < |EncodeArgs(args)|
    ensures ReadArgs(EncodeArgs(args)[..k], |args|) == ReadError(true)
  {
    var first := EncodeArg(args[0]);
    if k < |first| {
      assert EncodeArgs(args)[..k] == first[..k];
      ReadArgCut(args[0], k);
    } else {
      var rest := EncodeArgs(args[1..])[..k - |first|];
      assert EncodeArgs(args)[..k] == first + rest;
      ReadArgWhole(args[0], rest);
      ReadArgsCut(args[1..], k - |first|);
    }
  }

  /** A whole command is read back, whatever follows it. */
  lemma ReadCommandWhole(c: Command, rest: Bytes)
    requires Printable(c)
    ensures ReadCommand(Encode(c) + rest) == Ok(c, rest)
  {
    var s, body := Encode(c) + rest, EncodeArgs(c) + rest;
    assert s == Header(STAR, |c|) + body;
    HeaderIsLine(STAR, |c|, body);
    HeaderNumber(STAR, |c|);
    ReadArgsWhole(c, |c|, rest);
  }

  /** A command that was cut off anywhere is a read error at the end of the file. */
  lemma ReadCommandCut(c: Command, k: nat)
    requires Printable(c) && 0 < k < |Encode(c)|
    ensures ReadCommand(Encode(c)[..k]) == ReadError(true)
  {
    var t, h := Encode(c)[..k], Header(STAR, |c|);
    if k < |h| {
      assert t == h[..k];
      CutHeader(STAR, |c|, k);
      CutNumber(STAR, |c|, k);
    } else {
      var body := EncodeArgs(c)[..k - |h|];
      assert t == h + body;
      HeaderIsLine(STAR, |c|, body);
      HeaderNumber(STAR, |c|);
      ReadArgsCut(c, k - |h|);
    }
  }

  /** How many whole commands the first `cut` bytes hold. */
  function WholeCommands(cs: seq<Command>, cut: nat): (k: nat)
    ensures k <= |cs|
  {
    if cs == [] || cut < |Encode(cs[0])| then 0 else 1 + WholeCommands(cs[1..], cut - |Encode(cs[0])|)
  }

  /** It is the longest prefix of whole commands that fits. */
  lemma {:induction false} WholeCommandsLongest(cs: seq<Command>, cut: nat)
    ensures var k := WholeCommands(cs, cut);
      |EncodeAll(cs[..k])| <= cut && (k < |cs| ==> cut < |EncodeAll(cs[..k + 1])|)
  {
    if cs != [] {
      var k := WholeCommands(cs, cut);
      if cut >= |Encode(cs[0])| {
        WholeCommandsLongest(cs[1..], cut - |Encode(cs[0])|);
        PrefixLength(cs, k, k - 1);
        if k < |cs| {
          PrefixLength(cs, k + 1, k);
        }
      } else {
        PrefixLength(cs, 1, 0);
      }
    }
  }

  lemma PrefixLength(cs: seq<Command>, k: nat, j: nat)
    requires k <= |cs| && k == j + 1
    ensures |EncodeAll(cs[..k])| == |Encode(cs[0])| + |EncodeAll(cs[1..][..j])|
  {
    assert cs[..k][0] == cs[0] && cs[..k][1..] == cs[1..][..j];
  }

  /** What loading the first `cut` bytes must give, where `size - cut` bytes came before. */
  function CutResult(cs: seq<Command>, cut: nat, size: nat, truncated: bool): LoadResult
    requires cut <= size
  {
    var k := WholeCommands(cs, cut);
    LoadResult(cs[..k], if |EncodeAll(cs[..k])| == cut then Loaded
                        else if truncated then TruncatedAt(size - cut + |EncodeAll(cs[..k])|) else Fatal)
  }

  lemma CutResultStep(cs: seq<Command>, cut: nat, left: nat, size: nat, truncated: bool)
    requires cs != [] && cut == |Encode(cs[0])| + left <= size
    ensures var more := CutResult(cs[1..], left, size, truncated);
      CutResult(cs, cut, size, truncated) == LoadResult([cs[0]] + more.commands, more.outcome)
  {
    var k := WholeCommands(cs, cut);
    assert cs[..k] == [cs[0]] + cs[1..][..k - 1];
  }

  lemma {:induction false} LoadFromCut(cs: seq<Command>, cut: nat, size: nat, known: Bytes -> bool, truncated: bool)
    requires AllLoadable(cs, known)
    requires cut <= |EncodeAll(cs)| && cut <= size
    ensures LoadFrom(EncodeAll(cs)[..cut], size, known, truncated) == CutResult(cs, cut, size, truncated)
  {
    if cs == [] || cut == 0 {
      NothingLeft(cs, cut, size, known, truncated);
    } else if cut < |Encode(cs[0])| {
      CutInFirst(cs, cut, size, known, truncated);
    } else {
      var left := cut - |Encode(cs[0])|;
      LoadFromCut(cs[1..], left, size, known, truncated);
      FirstCommand(cs, cut, left, size, known, truncated);
      CutResultStep(cs, cut, left, size, truncated);
    }
  }

  lemma NothingLeft(cs: seq<Command>, cut: nat, size: nat, known: Bytes -> bool, truncated: bool)
    requires (cs == [] || cut == 0) && cut <= |EncodeAll(cs)| && cut <= size
    ensures LoadFrom(EncodeAll(cs)[..cut], size, known, truncated) == CutResult(cs, cut, size, truncated)
  {
    assert EncodeAll(cs)[..cut] == [] && (cs == [] || |Encode(cs[0])| > 0);
  }

  lemma CutInFirst(cs: seq<Command>, cut: nat, size: nat, known: Bytes -> bool, truncated: bool)
    requires cs != [] && Printable(cs[0]) && 0 < cut < |Encode(cs[0])| && cut <= size
    ensures LoadFrom(EncodeAll(cs)[..cut], size, known, truncated) == CutResult(cs, cut, size, truncated)
  {
    assert EncodeAll(cs)[..cut] == Encode(cs[0])[..cut];
    ReadCommandCut(cs[0], cut);
  }

  /** The first command is whole: it is run, and the rest is loaded as if it were alone. */
  lemma FirstCommand(cs: seq<Command>, cut: nat, left: nat, size: nat, known: Bytes -> bool, truncated: bool)
    requires cs != [] && Printable(cs[0]) && known(cs[0][0])
    requires cut == |Encode(cs[0])| + left && left <= |EncodeAll(cs[1..])| && cut <= size
    ensures cut <= |EncodeAll(cs)|
    ensures var more := LoadFrom(EncodeAll(cs[1..])[..left], size, known, truncated);
      LoadFrom(EncodeAll(cs)[..cut], size, known, truncated) == LoadResult([cs[0]] + more.commands, more.outcome)
  {
    var rest := EncodeAll(cs[1..])[..left];
    assert EncodeAll(cs)[..cut] == Encode(cs[0]) + rest;
    ReadCommandWhole(cs[0], rest);
  }

  /** Loading undoes printing. For any commands and any cut of their encoding, the loader runs
      exactly the longest prefix of whole commands; with aof-load-truncated it cuts the file
      back to the length of that prefix, without it it refuses a file that ends mid-command. */
  lemma LoadUndoesPrint(cs: seq<Command>, cut: nat, known: Bytes -> bool, truncated: bool)
    requires AllLoadable(cs, known)
    requires cut <= |EncodeAll(cs)|
    ensures var k := WholeCommands(cs, cut);
      && |EncodeAll(cs[..k])| <= cut && (k < |cs| ==> cut < |EncodeAll(cs[..k + 1])|)
      && Load(EncodeAll(cs)[..cut], known, truncated) ==
         LoadResult(cs[..k], if cut == 0 then EmptyFile
                             else if |EncodeAll(cs[..k])| == cut then Loaded
                             else if truncated then TruncatedAt(|EncodeAll(cs[..k])|) else Fatal)
  {
    WholeCommandsLongest(cs, cut);
    if cut > 0 {
      LoadFromCut(cs, cut, cut, known, truncated);
    } else {
      assert EncodeAll(cs)[..0] == [];
      assert cs == [] || |Encode(cs[0])| > 0;
    }
  }
}
