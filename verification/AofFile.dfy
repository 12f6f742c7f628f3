/** Flushing the buffer of the append-only file, whatever the writes do. */
module AofFile {
  import opened Decimal

  /** The file, the buffer that waits to be written to it, the size that the server believes
      the file to have, and whether the last write went well. */
  datatype Log = Log(file: Bytes, buf: Bytes, size: nat, ok: bool)

  /** ftruncate: the file is cut, or filled up with zeros. */
  function Truncated(file: Bytes, size: nat): Bytes {
    if size <= |file| then file[..size] else file + seq(size - |file|, _ => 0)
  }

  /** A flush whose write returned `n`, where -1 is an error; `truncated` tells whether the
      ftruncate after a short write succeeded. */
  function Flushed(l: Log, n: int, truncated: bool): Log
    requires -1 <= n <= |l.buf|
  {
    if n == |l.buf| then Log(l.file + l.buf, [], l.size + n, true)
    else if n == -1 then l.(ok := false)
    else if truncated then l.(file := Truncated(l.file + l.buf[..n], l.size), ok := false)
    else if n > 0 then Log(l.file + l.buf[..n], l.buf[n..], l.size + n, false)
    else l.(ok := false)
  }

  /** A flush whose write took everything leaves no buffer. After a short one, or an error, the bytes
      that were not written stay in the buffer, in order; those that were are cut off again and stay
      there too, if ftruncate works. */
  lemma FlushOutcome(l: Log, n: int, truncated: bool)
    requires -1 <= n <= |l.buf| && l.size == |l.file|
    ensures var l', kept := Flushed(l, n, truncated), if n == |l.buf| || (n > 0 && !truncated) then n else 0;
      && l'.file == l.file + l.buf[..kept] && l'.buf == l.buf[kept..] && l'.size == |l'.file|
      && (l'.ok <==> n == |l.buf|)
  {
    assert l.buf[..0] == [] && l.buf[0..] == l.buf && l.file + [] == l.file;
    assert l.buf[..|l.buf|] == l.buf && l.buf[|l.buf|..] == [];
    if n > 0 {
      assert (l.file + l.buf[..n])[..l.size] == l.file;
    }
  }

  /** Between flushes: nothing has been lost or written twice, and the size is right. */
  ghost predicate Intact(l: Log, fed: Bytes) {
    l.file + l.buf == fed && l.size == |l.file|
  }

  lemma FlushKeeps(l: Log, n: int, truncated: bool, fed: Bytes)
    requires -1 <= n <= |l.buf| && Intact(l, fed)
    ensures Intact(Flushed(l, n, truncated), fed)
    ensures Flushed(l, n, truncated).file <= fed
  {
    if 0 <= n < |l.buf| {
      assert (l.file + l.buf[..n])[..l.size] == l.file;
      assert l.buf == l.buf[..n] + l.buf[n..];
    }
  }

  lemma FeedKeeps(l: Log, s: Bytes, fed: Bytes)
    requires Intact(l, fed)
    ensures Intact(l.(buf := l.buf + s), fed + s)
  {}

  datatype Event = Feed(s: Bytes) | Flush(n: int, truncated: bool)

  ghost predicate Possible(l: Log, e: Event) {
    e.Flush? ==> -1 <= e.n <= |l.buf|
  }

  function Next(l: Log, e: Event): Log
    requires Possible(l, e)
  {
    match e
    case Feed(s) => l.(buf := l.buf + s)
    case Flush(n, truncated) => Flushed(l, n, truncated)
  }

  function FedBytes(events: seq<Event>): Bytes {
    if events == [] then []
    else FedBytes(events[..|events| - 1]) + (if events[|events| - 1].Feed? then events[|events| - 1].s else [])
  }

  /** Over any sequence of feeds and of full, short and failed writes, whether or not ftruncate
      works: the file followed by the buffer is everything that was fed, and the size is that of
      the file. */
  lemma {:induction false} NothingLost(logs: seq<Log>, events: seq<Event>, start: Bytes)
    requires |logs| == |events| + 1 && logs[0].file + logs[0].buf == start && logs[0].size == |logs[0].file|
    requires forall i :: 0 <= i < |events| ==> Possible(logs[i], events[i]) && logs[i + 1] == Next(logs[i], events[i])
    ensures Intact(logs[|events|], start + FedBytes(events))
  {
    if events == [] {
      assert start + [] == start;
    } else {
      var i := |events| - 1;
      NothingLost(logs[..|events|], events[..i], start);
      var fed := start + FedBytes(events[..i]);
      assert logs[i + 1] == Next(logs[i], events[i]);
      match events[i]
      case Feed(s) =>
        FeedKeeps(logs[i], s, fed);
        assert fed + s == start + FedBytes(events);
      case Flush(n, truncated) =>
        FlushKeeps(logs[i], n, truncated, fed);
        assert FedBytes(events[..i]) + [] == FedBytes(events[..i]);
    }
  }

  datatype Fsync = Always | EverySec | No

  /** The file as the operating system offers it: a write takes what it can. */
  class Fd {
    var contents: Bytes
    /** The writes so far: what was offered and what was taken, -1 being an error. */
    ghost var writes: seq<(Bytes, int)>

    constructor (initial: Bytes)
      ensures contents == initial && writes == []
    {
      contents, writes := initial, [];
    }

    method Write(data: Bytes) returns (n: int)
      modifies this
      ensures -1 <= n <= |data|
      ensures contents == old(contents) + if n >= 0 then data[..n] else []
      ensures writes == old(writes) + [(data, n)]
    {
      n :| -1 <= n <= |data|;
      writes := writes + [(data, n)];
      if n >= 0 {
        contents := contents + data[..n];
      }
    }

    method Ftruncate(size: nat) returns (done: bool)
      modifies `contents
      ensures contents == if done then Truncated(old(contents), size) else old(contents)
    {
      done :| done || !done;
      if done {
        contents := Truncated(contents, size);
      }
    }
  }

  class AppendOnlyFile {
    const fd: Fd
    var buf: Bytes
    var currentSize: nat
    var lastWriteOk: bool
    var postponedStart: nat

    constructor (f: Fd)
      ensures fd == f && buf == [] && currentSize == |f.contents| && lastWriteOk && postponedStart == 0
    {
      fd, buf, currentSize, lastWriteOk, postponedStart := f, [], |f.contents|, true, 0;
    }

    ghost function State(): Log
      reads this, fd
    {
      Log(fd.contents, buf, currentSize, lastWriteOk)
    }

    /** The end of feedAppendOnlyFile. */
    method Append(s: Bytes)
      modifies `buf
      ensures State() == Next(old(State()), Feed(s))
    {
      buf := buf + s;
    }

    /** flushAppendOnlyFile. `pending` tells whether a background fsync is in progress. A write
        error ends the server if every write must be synced (`exited`). Otherwise the file ends
        up as after a write that returned `n`, or, with `waits`, was put off: only without
        `force`, and for less than two seconds. */
    method Flush(force: bool, policy: Fsync, pending: bool, unixtime: nat)
      returns (exited: bool, waits: bool, ghost n: int, ghost truncated: bool)
      modifies this, fd
      ensures -1 <= n <= |old(buf)|
      ensures waits <==> old(buf != [] && policy == EverySec && !force && pending &&
                             (postponedStart == 0 || unixtime - postponedStart < 2))
      ensures exited <==> policy == Always && !waits && old(buf) != [] && n != |old(buf)|
      // Everything is offered to one write, unless there is nothing, or the flush waits.
      ensures fd.writes == if waits || old(buf) == [] then old(fd.writes) else old(fd.writes) + [(old(buf), n)]
      ensures waits ==> State() == old(State())
      ensures waits ==> (postponedStart == unixtime || unixtime - postponedStart < 2)
      ensures !waits && !exited && old(buf) != [] ==>
                State() == Flushed(old(State()), n, truncated) && postponedStart == 0
      ensures old(buf) == [] ==> !exited && State() == old(State())
      ensures exited && old(currentSize == |fd.contents|) ==>
                old(fd.contents) <= fd.contents <= old(fd.contents) + old(buf)
    {
      exited, waits, n, truncated := false, false, 0, false;
      if buf == [] {
        return;
      }
      if policy == EverySec && !force && pending {
        if postponedStart == 0 {
          postponedStart := unixtime;
          waits := true;
          return;
        } else if unixtime - postponedStart < 2 {
          waits := true;
          return;
        }
      }
      var nwritten := fd.Write(buf);
      n := nwritten;
      postponedStart := 0;
      if nwritten != |buf| {
        if nwritten != -1 {
          var done := fd.Ftruncate(currentSize);
          truncated := done;
          if done {
            nwritten := -1;
          }
        }
        if policy == Always {
          exited := true;
          return;
        }
        lastWriteOk := false;
        if nwritten > 0 {
          currentSize := currentSize + nwritten;
          buf := buf[nwritten..];
        }
        assert old(buf)[..0] == [] && old(fd.contents) + [] == old(fd.contents);
        return;
      }
      assert old(buf)[..n] == old(buf);
      lastWriteOk := true;
      currentSize := currentSize + nwritten;
      buf := [];
    }
  }
}
