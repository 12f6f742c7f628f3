/** The buffer in which the parent keeps what was fed since the rewriting child was forked: a
    list of blocks of fixed size. */
module AofRewriteBuffer {
  import opened Basics
  import opened Decimal
  import AofFile

  const BLOCK_SIZE: nat := 10485760

  /** The used bytes of a block, and how many are free at its end. */
  datatype Block = Block(used: Bytes, free: nat)

  function Joined(blocks: seq<Block>): Bytes {
    if blocks == [] then [] else blocks[0].used + Joined(blocks[1..])
  }

  lemma {:induction false} JoinedAppend(a: seq<Block>, b: seq<Block>)
    ensures Joined(a + b) == Joined(a) + Joined(b)
  {
    if a == [] {
      assert a + b == b;
    } else {
      assert (a + b)[1..] == a[1..] + b;
      JoinedAppend(a[1..], b);
    }
  }

  lemma JoinedLast(blocks: seq<Block>, last: Block)
    ensures Joined(blocks + [last]) == Joined(blocks) + last.used
  {
    JoinedAppend(blocks, [last]);
    assert Joined([last]) == last.used + Joined([]);
  }

  /** No block is empty, and none holds or promises more than it has room for. */
  predicate BlocksOk(blocks: seq<Block>) {
    forall b :: b in blocks ==> 0 < |b.used| && |b.used| + b.free <= BLOCK_SIZE
  }

  /** The last block has just been added. */
  predicate FreshLast(blocks: seq<Block>) {
    blocks != [] && blocks[|blocks| - 1] == Block([], BLOCK_SIZE) && BlocksOk(blocks[..|blocks| - 1])
  }

  class RewriteBuffer {
    var blocks: seq<Block>

    ghost predicate Valid()
      reads this
    {
      BlocksOk(blocks)
    }

    /** The bytes still to be sent or written. */
    ghost function Contents(): Bytes
      reads this
    {
      Joined(blocks)
    }

    constructor ()
      ensures Valid() && Contents() == []
    {
      blocks := [];
    }

    /** aofRewriteBufferReset. */
    method Reset()
      modifies this
      ensures Valid() && Contents() == []
    {
      blocks := [];
    }

    /** aofRewriteBufferSize. */
    method Size() returns (size: nat)
      requires Valid()
      ensures size == |Contents()|
    {
      size := 0;
      for i := 0 to |blocks|
        invariant size == |Joined(blocks[..i])|
      {
        JoinedLast(blocks[..i], blocks[i]);
        assert blocks[..i + 1] == blocks[..i] + [blocks[i]];
        size := size + |blocks[i].used|;
      }
      assert blocks[..|blocks|] == blocks;
    }

    /** As much of `s` as the last block has room for. */
    method FillLast(s: Bytes) returns (thislen: nat)
      requires blocks != []
      modifies this
      ensures var last := old(blocks[|blocks| - 1]);
        && thislen == (if last.free < |s| then last.free else |s|)
        && blocks == old(blocks[..|blocks| - 1]) + [Block(last.used + s[..thislen], last.free - thislen)]
      ensures Contents() == old(Contents()) + s[..thislen]
    {
      var block := blocks[|blocks| - 1];
      thislen := if block.free < |s| then block.free else |s|;
      JoinedLast(blocks[..|blocks| - 1], block);
      assert blocks == blocks[..|blocks| - 1] + [block];
      JoinedLast(blocks[..|blocks| - 1], Block(block.used + s[..thislen], block.free - thislen));
      blocks := blocks[..|blocks| - 1] + [Block(block.used + s[..thislen], block.free - thislen)];
    }

    method AddBlock()
      modifies this
      ensures blocks == old(blocks) + [Block([], BLOCK_SIZE)] && Contents() == old(Contents())
    {
      JoinedLast(blocks, Block([], BLOCK_SIZE));
      blocks := blocks + [Block([], BLOCK_SIZE)];
    }

    /** aofRewriteBufferAppend: the last block is filled before new ones are added. */
    method Append(s: Bytes)
      requires Valid()
      modifies this
      ensures Valid() && Contents() == old(Contents()) + s
    {
      var rest := s;
      while rest != []
        invariant Contents() + rest == old(Contents()) + s
        invariant rest == [] ==> BlocksOk(blocks)
        invariant BlocksOk(blocks) || FreshLast(blocks)
        decreases |rest|, !FreshLast(blocks)
      {
        ghost var before := Contents();
        if blocks != [] {
          var thislen := FillLast(rest);
          Associate(before, rest[..thislen], rest[thislen..]);
          assert rest == rest[..thislen] + rest[thislen..];
          rest := rest[thislen..];
        }
        if rest != [] {
          AddBlock();
        }
      }
    }

    /** One turn of the loop of aofChildWriteDiffData, which ends when the pipe takes nothing. */
    method SendBlock(pipe: AofFile.Fd) returns (more: bool)
      requires Valid() && blocks != [] && pipe as object != this
      modifies this, pipe
      ensures Valid() && pipe.contents + Contents() == old(pipe.contents) + old(Contents())
      ensures if more then |Contents()| < |old(Contents())| else pipe.contents == old(pipe.contents)
      ensures |old(pipe.contents)| <= |pipe.contents|
      ensures |pipe.writes| == |old(pipe.writes)| + 1 && (more <==> pipe.writes[|pipe.writes| - 1].1 > 0)
    {
      var block := blocks[0];
      var nwritten := pipe.Write(block.used);
      if nwritten <= 0 {
        assert block.used[..0] == [] && old(pipe.contents) + [] == old(pipe.contents);
        return false;
      }
      SentFrom(blocks, block, blocks[1..], nwritten);
      Associate(old(pipe.contents), block.used[..nwritten], Joined(blocks)[nwritten..]);
      if nwritten == |block.used| {
        blocks := blocks[1..];
      } else {
        blocks := [block.(used := block.used[nwritten..])] + blocks[1..];
      }
      return true;
    }

    /** aofChildWriteDiffData: blocks are written to the pipe while it takes bytes. What the
        pipe got and what remains are what was there, in order. */
    method SendToChild(pipe: AofFile.Fd, stopSending: bool)
      requires Valid() && pipe as object != this
      modifies this, pipe
      ensures Valid() && pipe.contents + Contents() == old(pipe.contents) + old(Contents())
      ensures |old(pipe.contents)| <= |pipe.contents|
      ensures stopSending ==> pipe.contents == old(pipe.contents) && Contents() == old(Contents())
      // It goes on until the buffer is empty or the pipe takes nothing.
      ensures !stopSending ==> Contents() == [] ||
                               (|pipe.writes| > |old(pipe.writes)| && pipe.writes[|pipe.writes| - 1].1 <= 0)
    {
      while !stopSending && blocks != []
        invariant Valid() && pipe.contents + Contents() == old(pipe.contents) + old(Contents())
        invariant |old(pipe.contents)| <= |pipe.contents| && |old(pipe.writes)| <= |pipe.writes|
        invariant stopSending ==> pipe.contents == old(pipe.contents) && Contents() == old(Contents())
        decreases |Contents()|
      {
        var more := SendBlock(pipe);
        if !more {
          return;
        }
      }
    }

    /** aofRewriteBufferWrite: the rest is written after the file of the child. */
    method WriteTo(fd: AofFile.Fd) returns (count: int)
      requires Valid() && fd as object != this
      modifies fd
      ensures count >= 0 ==> fd.contents == old(fd.contents) + Contents() && count == |Contents()|
      ensures count < 0 ==> count == -1 && old(fd.contents) <= fd.contents < old(fd.contents) + Contents()
    {
      count := 0;
      for i := 0 to |blocks|
        invariant fd.contents == old(fd.contents) + Joined(blocks[..i]) && count == |Joined(blocks[..i])|
      {
        WrittenTo(blocks, i, i + 1);
        var nwritten := fd.Write(blocks[i].used);
        if nwritten != |blocks[i].used| {
          return -1;
        }
        count := count + nwritten;
      }
      assert blocks[..|blocks|] == blocks;
    }
  }

  lemma WrittenTo(blocks: seq<Block>, i: nat, j: nat)
    requires i < |blocks| && j == i + 1
    ensures Joined(blocks[..j]) == Joined(blocks[..i]) + blocks[i].used <= Joined(blocks)
  {
    SplitAfter(blocks, i, j);
    OneMoreBlock(blocks, blocks[..i], blocks[i], blocks[..j], blocks[j..]);
  }

  lemma SplitAfter(blocks: seq<Block>, i: nat, j: nat)
    requires i < |blocks| && j == i + 1
    ensures blocks[..j] == blocks[..i] + [blocks[i]] && blocks == blocks[..j] + blocks[j..]
  {}

  lemma OneMoreBlock(blocks: seq<Block>, before: seq<Block>, block: Block, written: seq<Block>, rest: seq<Block>)
    requires written == before + [block] && blocks == written + rest
    ensures Joined(written) == Joined(before) + block.used <= Joined(blocks)
  {
    JoinedLast(before, block);
    JoinedAppend(written, rest);
  }

  lemma JoinedFirst(block: Block, rest: seq<Block>)
    ensures Joined([block] + rest) == block.used + Joined(rest)
  {
    assert ([block] + rest)[1..] == rest;
  }

  lemma SentFrom(blocks: seq<Block>, block: Block, rest: seq<Block>, n: nat)
    requires blocks == [block] + rest && 0 < n <= |block.used|
    ensures Joined(blocks) == block.used[..n] + Joined([block.(used := block.used[n..])] + rest)
    ensures n == |block.used| ==> Joined(blocks) == block.used[..n] + Joined(rest)
  {
    JoinedFirst(block, rest);
    JoinedFirst(block.(used := block.used[n..]), rest);
    assert block.used == block.used[..n] + block.used[n..];
    Associate(block.used[..n], block.used[n..], Joined(rest));
  }
}
