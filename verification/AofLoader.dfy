/** The loader of the append-only file as the loops that read it. */
module AofLoader {
  import opened Decimal
  import opened Resp

  /** fgets: bytes are taken up to a newline, while the buffer and the file have room. */
  method ReadLine(file: Bytes, pos: nat) returns (line: Bytes, next: nat)
    requires pos <= |file|
    ensures pos <= next <= |file| && (line, file[next..]) == Fgets(file[pos..])
    ensures pos < |file| ==> next > pos && line != []
  {
    next := pos;
    var room := LINE_MAX;
    var ended := false;
    ghost var s := file[pos..];
    while !ended && room > 0 && next < |file|
      invariant pos <= next <= |file| && (next - pos) + room == LINE_MAX
      invariant LineLength(s, LINE_MAX) == (next - pos) + if ended then 0 else LineLength(file[next..], room)
      invariant ended ==> next > pos
      decreases room
    {
      assert file[next..][0] == file[next] && file[next..][1..] == file[next + 1..];
      ended := file[next] == LF;
      next, room := next + 1, room - 1;
    }
    line := file[pos..next];
    assert s[..next - pos] == line && s[next - pos..] == file[next..];
  }

  /** One turn of the loop over arguments. */
  method LoadArg(file: Bytes, pos: nat) returns (r: Read<Bytes>, next: nat)
    requires pos <= |file|
    ensures r == ReadArg(file[pos..]) && next <= |file| && (r.Ok? ==> r.rest == file[next..])
  {
    if pos == |file| {
      return ReadError(true), pos;
    }
    var line;
    line, next := ReadLine(file, pos);
    if line[0] != DOLLAR {
      return FormatError, next;
    }
    var len := Atoi(line[1..]);
    if len < 0 {
      return BadLength, next;
    }
    ghost var rest := file[next..];
    if len > |file| - next || len + 2 > |file| - next {
      return ReadError(true), next;
    }
    assert rest[..len] == file[next..next + len] && rest[len + 2..] == file[next + len + 2..];
    r := Ok(file[next..next + len], file[next + len + 2..]);
    next := next + len + 2;
  }

  function Failed<T, U>(r: Read<T>): Read<U>
    requires !r.Ok?
  {
    match r
    case AtEof => AtEof
    case ReadError(eof) => ReadError(eof)
    case FormatError => FormatError
    case BadLength => BadLength
  }

  /** The arguments read so far, and what reading the others gives. */
  function After(args: seq<Bytes>, r: Read<seq<Bytes>>): Read<seq<Bytes>> {
    match r
    case Ok(more, rest) => Ok(args + more, rest)
    case AtEof => AtEof
    case ReadError(eof) => ReadError(eof)
    case FormatError => FormatError
    case BadLength => BadLength
  }

  lemma AfterNothing(r: Read<seq<Bytes>>)
    ensures After([], r) == r
  {
    if r.Ok? {
      assert [] + r.value == r.value;
    }
  }

  lemma AfterMore(args: seq<Bytes>, a: Bytes, more: Read<seq<Bytes>>)
    ensures After(args, After([a], more)) == After(args + [a], more)
  {
    if more.Ok? {
      assert args + ([a] + more.value) == args + [a] + more.value;
    }
  }

  lemma OneArg(s: Bytes, n: nat, m: nat, arg: Read<Bytes>)
    requires n == m + 1 && arg == ReadArg(s)
    ensures ReadArgs(s, n) == if arg.Ok? then After([arg.value], ReadArgs(arg.rest, m)) else Failed(arg)
  {}

  lemma AfterOne(s: Bytes, n: nat, m: nat, args: seq<Bytes>, arg: Read<Bytes>)
    requires n == m + 1 && arg == ReadArg(s)
    ensures After(args, ReadArgs(s, n)) ==
            if arg.Ok? then After(args + [arg.value], ReadArgs(arg.rest, m)) else Failed(arg)
  {
    OneArg(s, n, m, arg);
    if arg.Ok? {
      AfterMore(args, arg.value, ReadArgs(arg.rest, m));
    }
  }

  /** The loop over arguments. */
  method LoadArgs(file: Bytes, pos: nat, argc: nat) returns (r: Read<seq<Bytes>>, next: nat)
    requires pos <= |file|
    ensures r == ReadArgs(file[pos..], argc) && next <= |file| && (r.Ok? ==> r.rest == file[next..])
  {
    next := pos;
    var argv: seq<Bytes> := [];
    ghost var whole := ReadArgs(file[pos..], argc);
    AfterNothing(whole);
    for j := 0 to argc
      invariant next <= |file| && whole == After(argv, ReadArgs(file[next..], argc - j))
    {
      ghost var s := file[next..];
      var arg;
      arg, next := LoadArg(file, next);
      AfterOne(s, argc - j, argc - j - 1, argv, arg);
      if !arg.Ok? {
        return Failed(arg), next;
      }
      argv := argv + [arg.value];
    }
    assert argv + [] == argv;
    r := Ok(argv, file[next..]);
  }

  /** The body of the main loop, up to the command look-up. */
  method LoadCommand(file: Bytes, pos: nat) returns (r: Read<Command>, next: nat)
    requires pos <= |file|
    ensures r == ReadCommand(file[pos..]) && next <= |file| && (r.Ok? ==> r.rest == file[next..])
  {
    if pos == |file| {
      return AtEof, pos;
    }
    var line;
    line, next := ReadLine(file, pos);
    if line[0] != STAR {
      return FormatError, next;
    }
    if |line| == 1 || line[1] == 0 {
      return ReadError(next == |file| && |line| < LINE_MAX && line[|line| - 1] != LF), next;
    }
    var argc := Atoi(line[1..]);
    if argc < 1 {
      return FormatError, next;
    }
    r, next := LoadArgs(file, next, argc);
  }

  function AfterCommands(cs: seq<Command>, r: LoadResult): LoadResult {
    LoadResult(cs + r.commands, r.outcome)
  }

  /** loadAppendOnlyFile: the commands that are run, and how it ends. */
  method LoadAppendOnlyFile(file: Bytes, known: Bytes -> bool, truncated: bool) returns (r: LoadResult)
    ensures r == Load(file, known, truncated)
  {
    if file == [] {
      return LoadResult([], EmptyFile);
    }
    var pos, validUpTo: nat := 0, 0;
    var run: seq<Command> := [];
    ghost var whole := LoadFrom(file, |file|, known, truncated);
    assert file[0..] == file && whole == AfterCommands([], whole);
    while true
      invariant pos <= |file| && (truncated ==> validUpTo == pos)
      invariant whole == AfterCommands(run, LoadFrom(file[pos..], |file|, known, truncated))
      decreases |file| - pos
    {
      var command, next := LoadCommand(file, pos);
      assert run + [] == run;
      match command {
        case AtEof => return LoadResult(run, Loaded);
        case ReadError(eof) => return LoadResult(run, if eof && truncated then TruncatedAt(validUpTo) else Fatal);
        case FormatError => return LoadResult(run, Fatal);
        case BadLength => return LoadResult(run, Fatal);
        case Ok(argv, _) =>
          ReadCommandRest(file[pos..]);
          if !known(argv[0]) {
            return LoadResult(run, Fatal);
          }
          ghost var more := LoadFrom(file[next..], |file|, known, truncated);
          assert run + ([argv] + more.commands) == run + [argv] + more.commands;
          run := run + [argv];
          pos := next;
          if truncated {
            validUpTo := pos;
          }
      }
    }
  }
}
