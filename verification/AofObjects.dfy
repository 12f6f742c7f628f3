/** Re-emitting a value as commands of at most 64 items each. */
module AofObjects {
  import opened Basics
  import opened Decimal
  import opened Resp
  import opened Database

  /** The limit of 64. (A type with one value keeps the verifier from computing with it.) */
  type Limit = n: nat | n == 64 witness 64
  const ITEMS_PER_CMD: Limit

  /** What one item contributes to a command: an element, or a pair of arguments. */
  type Item = seq<Bytes>

  function Flat(items: seq<Item>): seq<Bytes> {
    if items == [] then [] else items[0] + Flat(items[1..])
  }

  /** How many items go into the next command. */
  function FirstChunk(items: seq<Item>): nat {
    if |items| > ITEMS_PER_CMD then ITEMS_PER_CMD else |items|
  }

  function ChunkCommand(name: Bytes, key: Key, items: seq<Item>): Command {
    [name, key] + Flat(items)
  }

  /** The commands that rebuild a value. */
  function Chunks(name: Bytes, key: Key, items: seq<Item>): seq<Command>
    decreases |items|
  {
    if items == [] then []
    else
      var n := FirstChunk(items);
      [ChunkCommand(name, key, items[..n])] + Chunks(name, key, items[n..])
  }

  /** A command for a number of items that are `width` arguments each. */
  ghost predicate CommandFor(c: Command, name: Bytes, key: Key, width: nat, n: nat) {
    |c| == 2 + n * width && c[0] == name && c[1] == key
  }

  /** Every command is for `limit` items, but the last, which is for no more, and for one at least. */
  ghost predicate Full(cs: seq<Command>, name: Bytes, key: Key, width: nat, limit: nat) {
    if cs == [] then true
    else if |cs| == 1 then exists n: nat :: 0 < n <= limit && CommandFor(cs[0], name, key, width, n)
    else CommandFor(cs[0], name, key, width, limit) && Full(cs[1..], name, key, width, limit)
  }

  lemma ChunkSize(name: Bytes, key: Key, items: seq<Item>, width: nat, n: nat)
    requires (forall i :: i in items ==> |i| == width) && n <= |items|
    ensures CommandFor(ChunkCommand(name, key, items[..n]), name, key, width, n)
  {
    FlatLength(items[..n], width);
  }

  lemma {:induction false} ChunkSizes(name: Bytes, key: Key, items: seq<Item>, width: nat)
    requires forall i :: i in items ==> |i| == width
    ensures Full(Chunks(name, key, items), name, key, width, 64) && (Chunks(name, key, items) == [] <==> items == [])
    decreases |items|
  {
    if items != [] {
      var n := FirstChunk(items);
      var first, rest := ChunkCommand(name, key, items[..n]), items[n..];
      ChunkSize(name, key, items, width, n);
      ChunkSizes(name, key, rest, width);
      FullFirst(first, Chunks(name, key, rest), name, key, width, n, 64, Chunks(name, key, items));
    }
  }

  lemma FullFirst(first: Command, more: seq<Command>, name: Bytes, key: Key, width: nat, n: nat, limit: nat,
                  cs: seq<Command>)
    requires CommandFor(first, name, key, width, n) && 0 < n <= limit && (more != [] ==> n == limit)
    requires Full(more, name, key, width, limit) && cs == [first] + more
    ensures Full(cs, name, key, width, limit)
  {
    assert cs[1..] == more && CommandFor(cs[0], name, key, width, n);
  }

  // ----- a loop that writes a head before every 64 items -----------------------------------

  function Bodies(body: Item -> Bytes, items: seq<Item>): Bytes {
    if items == [] then [] else body(items[0]) + Bodies(body, items[1..])
  }

  lemma {:induction false} BodiesSnoc(body: Item -> Bytes, items: seq<Item>, i: nat)
    requires i < |items|
    ensures Bodies(body, items[..i + 1]) == Bodies(body, items[..i]) + body(items[i])
  {
    if i == 0 {
      assert items[..1][1..] == [] && items[..0] == [];
    } else {
      BodiesSnoc(body, items[1..], i - 1);
      assert items[..i + 1][1..] == items[1..][..i] && items[..i][1..] == items[1..][..i - 1];
    }
  }

  /** What has been written before item `i`. */
  function Emitted(head: nat -> Bytes, body: Item -> Bytes, items: seq<Item>, i: nat): Bytes
    requires i <= |items|
    decreases i
  {
    if i == 0 then []
    else if i <= ITEMS_PER_CMD then head(FirstChunk(items)) + Bodies(body, items[..i])
    else head(ITEMS_PER_CMD) + Bodies(body, items[..ITEMS_PER_CMD]) +
         Emitted(head, body, items[ITEMS_PER_CMD..], i - ITEMS_PER_CMD)
  }

  /** How many items of the current command have been written before item `i`. */
  function Count(i: nat): nat {
    if i < ITEMS_PER_CMD then i else Count(i - ITEMS_PER_CMD)
  }

  lemma {:induction false} CountStep(i: nat, j: nat)
    requires j == i + 1
    ensures Count(j) == if Count(i) + 1 == ITEMS_PER_CMD then 0 else Count(i) + 1
    ensures Count(i) < ITEMS_PER_CMD
  {
    if i >= ITEMS_PER_CMD {
      CountStep(i - ITEMS_PER_CMD, j - ITEMS_PER_CMD);
    }
  }

  /** What is written for item `i`. */
  function ItemBytes(head: nat -> Bytes, body: Item -> Bytes, items: seq<Item>, i: nat): Bytes
    requires i < |items|
  {
    if Count(i) == 0 then head(FirstChunk(items[i..])) + body(items[i]) else body(items[i])
  }

  lemma EmittedFirst(head: nat -> Bytes, body: Item -> Bytes, items: seq<Item>, i: nat)
    requires i < |items| && i < ITEMS_PER_CMD
    ensures Emitted(head, body, items, i + 1) == Emitted(head, body, items, i) + ItemBytes(head, body, items, i)
  {
    BodiesSnoc(body, items, i);
    assert items[0..] == items && items[..0] == [];
  }

  /** Past the first command, everything is as for the items after it. */
  lemma EmittedLater(head: nat -> Bytes, body: Item -> Bytes, items: seq<Item>, i: nat, rest: seq<Item>, j: nat)
    requires ITEMS_PER_CMD <= i <= |items| && rest == items[ITEMS_PER_CMD..] && i == j + ITEMS_PER_CMD
    ensures Emitted(head, body, items, i) ==
            head(ITEMS_PER_CMD) + Bodies(body, items[..ITEMS_PER_CMD]) + Emitted(head, body, rest, j)
  {
    if j == 0 {
      assert Emitted(head, body, rest, j) == [];
    }
  }

  lemma {:induction false} EmittedStep(head: nat -> Bytes, body: Item -> Bytes, items: seq<Item>, i: nat, k: nat)
    requires i < |items| && k == i + 1
    ensures Emitted(head, body, items, k) == Emitted(head, body, items, i) + ItemBytes(head, body, items, i)
    decreases i
  {
    if i < ITEMS_PER_CMD {
      EmittedFirst(head, body, items, i);
    } else {
      var rest, j := items[ITEMS_PER_CMD..], i - ITEMS_PER_CMD;
      EmittedStep(head, body, rest, j, k - ITEMS_PER_CMD);
      EmittedLater(head, body, items, i, rest, j);
      EmittedLater(head, body, items, k, rest, k - ITEMS_PER_CMD);
      assert rest[j..] == items[i..];
      Associate(head(ITEMS_PER_CMD) + Bodies(body, items[..ITEMS_PER_CMD]), Emitted(head, body, rest, j),
                ItemBytes(head, body, rest, j));
    }
  }

  // ----- the heads and items are commands ------------------------------------------------------

  /** The start of a command for `n` items: the count, the name and the key. */
  function Head(name: Bytes, key: Key, width: nat, n: nat): Bytes {
    Header(STAR, 2 + n * width) + EncodeArgs([name, key])
  }

  lemma {:induction false} FlatLength(items: seq<Item>, width: nat)
    requires forall i :: i in items ==> |i| == width
    ensures |Flat(items)| == |items| * width
  {
    if items != [] {
      FlatLength(items[1..], width);
      OneMore(|items[1..]|, |items|, width);
    }
  }

  lemma OneMore(n: nat, m: nat, width: nat)
    requires m == n + 1
    ensures m * width == n * width + width
  {}

  lemma {:induction false} BodiesAreFlat(body: Item -> Bytes, items: seq<Item>)
    requires forall i :: body(i) == EncodeArgs(i)
    ensures Bodies(body, items) == EncodeArgs(Flat(items))
  {
    if items != [] {
      BodiesAreFlat(body, items[1..]);
      EncodeArgsAppend(items[0], Flat(items[1..]));
    }
  }

  /** The argument count in the head is the number of arguments that follow. */
  lemma ChunkIsCommand(name: Bytes, key: Key, items: seq<Item>, width: nat, flat: seq<Bytes>)
    requires forall i :: i in items ==> |i| == width
    requires flat == Flat(items)
    ensures Head(name, key, width, |items|) + EncodeArgs(flat) == Encode(ChunkCommand(name, key, items))
  {
    FlatLength(items, width);
    EncodeArgsAppend([name, key], flat);
    Associate(Header(STAR, 2 + |items| * width), EncodeArgs([name, key]), EncodeArgs(flat));
  }

  lemma EmittedAtEnd(head: nat -> Bytes, body: Item -> Bytes, items: seq<Item>)
    requires 0 < |items| <= ITEMS_PER_CMD
    ensures Emitted(head, body, items, |items|) == head(|items|) + Bodies(body, items)
  {
    assert items[..|items|] == items;
  }

  lemma ChunksFirst(name: Bytes, key: Key, items: seq<Item>, n: nat)
    requires items != [] && n == FirstChunk(items)
    ensures EncodeAll(Chunks(name, key, items)) ==
            Encode(ChunkCommand(name, key, items[..n])) + EncodeAll(Chunks(name, key, items[n..]))
  {
    assert Chunks(name, key, items)[1..] == Chunks(name, key, items[n..]);
  }

  /** A head for `n` items and the items make the command for them. */
  ghost predicate Makes(head: nat -> Bytes, body: Item -> Bytes, name: Bytes, key: Key, items: seq<Item>) {
    head(|items|) + Bodies(body, items) == Encode(ChunkCommand(name, key, items))
  }

  /** A head and the items of any size make a command. */
  ghost predicate MakesAll(head: nat -> Bytes, body: Item -> Bytes, name: Bytes, key: Key, width: nat) {
    forall some: seq<Item> :: (forall i :: i in some ==> |i| == width) ==> Makes(head, body, name, key, some)
  }

  lemma EmittedShort(name: Bytes, key: Key, items: seq<Item>, head: nat -> Bytes, body: Item -> Bytes)
    requires 0 < |items| <= ITEMS_PER_CMD && Makes(head, body, name, key, items)
    ensures Emitted(head, body, items, |items|) == EncodeAll(Chunks(name, key, items))
  {
    EmittedAtEnd(head, body, items);
    ChunksFirst(name, key, items, |items|);
    assert items[|items|..] == [] && items[..|items|] == items;
  }

  lemma EmittedLong(name: Bytes, key: Key, items: seq<Item>, rest: seq<Item>, head: nat -> Bytes, body: Item -> Bytes)
    requires |items| > ITEMS_PER_CMD && rest == items[ITEMS_PER_CMD..] &&
             Makes(head, body, name, key, items[..ITEMS_PER_CMD])
    requires Emitted(head, body, rest, |rest|) == EncodeAll(Chunks(name, key, rest))
    ensures Emitted(head, body, items, |items|) == EncodeAll(Chunks(name, key, items))
  {
    EmittedLater(head, body, items, |items|, rest, |rest|);
    ChunksFirst(name, key, items, ITEMS_PER_CMD);
  }

  /** In the end the loop has written the whole of the commands. */
  lemma {:induction false} EmittedAll(name: Bytes, key: Key, items: seq<Item>, width: nat, head: nat -> Bytes,
                                      body: Item -> Bytes)
    requires MakesAll(head, body, name, key, width) && forall i :: i in items ==> |i| == width
    ensures Emitted(head, body, items, |items|) == EncodeAll(Chunks(name, key, items))
    decreases |items|
  {
    if items == [] {
    } else if |items| <= ITEMS_PER_CMD {
      MakesSome(name, key, items, width, head, body);
      EmittedShort(name, key, items, head, body);
    } else {
      var first, rest := items[..ITEMS_PER_CMD], items[ITEMS_PER_CMD..];
      EmittedAll(name, key, rest, width, head, body);
      MakesSome(name, key, first, width, head, body);
      EmittedLong(name, key, items, rest, head, body);
    }
  }

  lemma MakesSome(name: Bytes, key: Key, some: seq<Item>, width: nat, head: nat -> Bytes, body: Item -> Bytes)
    requires MakesAll(head, body, name, key, width) && forall i :: i in some ==> |i| == width
    ensures Makes(head, body, name, key, some)
  {}

  lemma HeadsAndItemsMakeCommands(name: Bytes, key: Key, width: nat, head: nat -> Bytes, body: Item -> Bytes)
    requires (forall i :: body(i) == EncodeArgs(i)) && forall n :: head(n) == Head(name, key, width, n)
    ensures MakesAll(head, body, name, key, width)
  {
    forall some: seq<Item> | forall i :: i in some ==> |i| == width ensures Makes(head, body, name, key, some) {
      BodiesAreFlat(body, some);
      ChunkIsCommand(name, key, some, width, Flat(some));
    }
  }

  /** The loop over items: a head before every 64 of them. */
  method EmitLoop(head: nat -> Bytes, body: Item -> Bytes, items: seq<Item>) returns (out: Bytes)
    ensures out == Emitted(head, body, items, |items|)
  {
    out := [];
    var count, left := 0, |items|;
    for i := 0 to |items|
      invariant count == Count(i) && left == |items| - i
      invariant out == Emitted(head, body, items, i)
    {
      EmittedStep(head, body, items, i, i + 1);
      CountStep(i, i + 1);
      if count == 0 {
        var cmdItems := if left > ITEMS_PER_CMD then ITEMS_PER_CMD else left;
        out := out + head(cmdItems);
      }
      out := out + body(items[i]);
      count := count + 1;
      if count == ITEMS_PER_CMD {
        count := 0;
      }
      left := left - 1;
    }
  }

  /** The loop that rewriteListObject, rewriteSetObject, rewriteSortedSetObject and
      rewriteHashObject share; `width` is the number of arguments that an item takes. */
  method EmitItems(name: Bytes, key: Key, items: seq<Item>, width: nat) returns (out: Bytes)
    requires forall i :: i in items ==> |i| == width
    ensures out == EncodeAll(Chunks(name, key, items))
  {
    var head := (n: nat) => Head(name, key, width, n);
    var body := (i: Item) => EncodeArgs(i);
    out := EmitLoop(head, body, items);
    HeadsAndItemsMakeCommands(name, key, width, head, body);
    EmittedAll(name, key, items, width, head, body);
  }
}
