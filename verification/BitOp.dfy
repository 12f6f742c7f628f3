/** BITOP: byte strings combined bit by bit, four words at a time as far as all of them go. */
module BitOp {
  import opened Words

  // The operators have names, so that whoever combines strings need not look at their bits.

  function AndBytes(x: Octet, y: Octet): Octet { x & y }

  function OrBytes(x: Octet, y: Octet): Octet { x | y }

  function XorBytes(x: Octet, y: Octet): Octet { x ^ y }

  function NotByte(x: Octet): Octet { !x }

  function AndWords(x: Word, y: Word): Word { x & y }

  function OrWords(x: Word, y: Word): Word { x | y }

  function NotWord(x: Word): Word { !x }

  datatype Op = OpAnd | OpOr | OpXor | OpNot

  function ByteAt(s: seq<Octet>, p: nat): Octet {
    if p < |s| then s[p] else 0
  }

  function Combine(op: Op, x: Octet, y: Octet): Octet {
    match op
    case OpAnd => AndBytes(x, y)
    case OpOr => OrBytes(x, y)
    case OpXor => XorBytes(x, y)
    case OpNot => x
  }

  /** What the first `n` strings make of position `p`. */
  function Combined(op: Op, srcs: seq<seq<Octet>>, n: nat, p: nat): Octet
    requires 1 <= n <= |srcs|
  {
    if n == 1 then if op.OpNot? then NotByte(ByteAt(srcs[0], p)) else ByteAt(srcs[0], p)
    else Combine(op, Combined(op, srcs, n - 1, p), ByteAt(srcs[n - 1], p))
  }

  function MaxLength(srcs: seq<seq<Octet>>): nat {
    if srcs == [] then 0 else
      var m := MaxLength(srcs[1..]);
      if |srcs[0]| > m then |srcs[0]| else m
  }

  // ----- what it means for single bits ---------------------------------------------------------

  function Bit(k: nat): Octet
    requires k < 8
  {
    match k
    case 0 => 0x01
    case 1 => 0x02
    case 2 => 0x04
    case 3 => 0x08
    case 4 => 0x10
    case 5 => 0x20
    case 6 => 0x40
    case 7 => 0x80
  }

  function BitOf(x: Octet, k: nat): bool
    requires k < 8
  {
    AndBytes(x, Bit(k)) != 0
  }

  predicate Single(b: Octet) {
    b == 0x01 || b == 0x02 || b == 0x04 || b == 0x08 || b == 0x10 || b == 0x20 || b == 0x40 || b == 0x80
  }

  lemma AndBit(x: Octet, y: Octet, b: Octet)
    requires Single(b)
    ensures AndBytes(AndBytes(x, y), b) != 0 <==> AndBytes(x, b) != 0 && AndBytes(y, b) != 0
  {}

  lemma OrBit(x: Octet, y: Octet, b: Octet)
    ensures AndBytes(OrBytes(x, y), b) != 0 <==> AndBytes(x, b) != 0 || AndBytes(y, b) != 0
  {}

  lemma XorBit(x: Octet, y: Octet, b: Octet)
    requires Single(b)
    ensures AndBytes(XorBytes(x, y), b) != 0 <==> !(AndBytes(x, b) != 0 <==> AndBytes(y, b) != 0)
  {}

  lemma NotBit(x: Octet, b: Octet)
    requires Single(b)
    ensures AndBytes(NotByte(x), b) != 0 <==> AndBytes(x, b) == 0
  {}

  lemma BitOfCombine(op: Op, x: Octet, y: Octet, k: nat)
    requires k < 8
    ensures match op
      case OpAnd => BitOf(Combine(op, x, y), k) <==> BitOf(x, k) && BitOf(y, k)
      case OpOr => BitOf(Combine(op, x, y), k) <==> BitOf(x, k) || BitOf(y, k)
      case OpXor => BitOf(Combine(op, x, y), k) <==> BitOf(x, k) != BitOf(y, k)
      case OpNot => BitOf(NotByte(x), k) <==> !BitOf(x, k)
  {
    match op
    case OpAnd => AndBit(x, y, Bit(k));
    case OpOr => OrBit(x, y, Bit(k));
    case OpXor => XorBit(x, y, Bit(k));
    case OpNot => NotBit(x, Bit(k));
  }

  /** How many of the first `n` strings have bit `k` of position `p`. */
  function Having(srcs: seq<seq<Octet>>, n: nat, p: nat, k: nat): (h: nat)
    requires n <= |srcs| && k < 8
    ensures h <= n
  {
    if n == 0 then 0
    else Having(srcs, n - 1, p, k) + if p < |srcs[n - 1]| && BitOf(srcs[n - 1][p], k) then 1 else 0
  }

  lemma BitOfPadded(s: seq<Octet>, p: nat, k: nat)
    requires k < 8
    ensures BitOf(ByteAt(s, p), k) <==> p < |s| && BitOf(s[p], k)
  {
    ZeroBit(Bit(k));
  }

  lemma ZeroBit(b: Octet)
    ensures AndBytes(0, b) == 0
  {}

  /** AND asks for a bit of all the strings, OR for one of some, XOR for one of an odd number of
      them, where a string that has ended goes on with zeros; NOT turns every bit over. */
  lemma {:induction false} CombinedBits(op: Op, srcs: seq<seq<Octet>>, n: nat, p: nat, k: nat)
    requires 1 <= n <= |srcs| && k < 8 && (op.OpNot? ==> n == 1)
    ensures var r, h := BitOf(Combined(op, srcs, n, p), k), Having(srcs, n, p, k);
      match op
      case OpAnd => r <==> h == n
      case OpOr => r <==> h > 0
      case OpXor => r <==> h % 2 == 1
      case OpNot => r <==> h == 0
  {
    if n == 1 {
      BitOfCombine(op, ByteAt(srcs[0], p), 0, k);
      BitOfPadded(srcs[0], p, k);
      assert Having(srcs, 0, p, k) == 0;
    } else {
      CombinedBits(op, srcs, n - 1, p, k);
      BitOfPadded(srcs[n - 1], p, k);
      BitOfCombine(op, Combined(op, srcs, n - 1, p), ByteAt(srcs[n - 1], p), k);
    }
  }

  // ----- words ---------------------------------------------------------------------------------

  function CombineWords(op: Op, x: Word, y: Word): Word {
    match op
    case OpAnd => AndWords(x, y)
    case OpOr => OrWords(x, y)
    case OpXor => Plus(x, y)
    case OpNot => x
  }

  /** Byte `i` of a word as it lies in memory, lowest first. */
  function ByteNo(i: nat, w: Word): Octet
    requires i < 8
  {
    match i
    case 0 => (w & 0xff) as Octet
    case 1 => ((w >> 8) & 0xff) as Octet
    case 2 => ((w >> 16) & 0xff) as Octet
    case 3 => ((w >> 24) & 0xff) as Octet
    case 4 => ((w >> 32) & 0xff) as Octet
    case 5 => ((w >> 40) & 0xff) as Octet
    case 6 => ((w >> 48) & 0xff) as Octet
    case 7 => ((w >> 56) & 0xff) as Octet
  }

  function JoinBytes(b0: Octet, b1: Octet, b2: Octet, b3: Octet, b4: Octet, b5: Octet, b6: Octet, b7: Octet): Word {
    (b0 as Word) | ((b1 as Word) << 8) | ((b2 as Word) << 16) | ((b3 as Word) << 24) |
    ((b4 as Word) << 32) | ((b5 as Word) << 40) | ((b6 as Word) << 48) | ((b7 as Word) << 56)
  }

  /** An unsigned long as it is loaded from memory. */
  function Load(s: seq<Octet>): Word
    requires |s| == 8
  {
    JoinBytes(s[0], s[1], s[2], s[3], s[4], s[5], s[6], s[7])
  }

  lemma JoinedLow(b0: Octet, b1: Octet, b2: Octet, b3: Octet, b4: Octet, b5: Octet, b6: Octet, b7: Octet)
    ensures var w := JoinBytes(b0, b1, b2, b3, b4, b5, b6, b7);
      ByteNo(0, w) == b0 && ByteNo(1, w) == b1 && ByteNo(2, w) == b2 && ByteNo(3, w) == b3
  {}

  lemma JoinedHigh(b0: Octet, b1: Octet, b2: Octet, b3: Octet, b4: Octet, b5: Octet, b6: Octet, b7: Octet)
    ensures var w := JoinBytes(b0, b1, b2, b3, b4, b5, b6, b7);
      ByteNo(4, w) == b4 && ByteNo(5, w) == b5 && ByteNo(6, w) == b6 && ByteNo(7, w) == b7
  {}

  /** The bytes of a word as it lies in memory. */
  function Stored(w: Word): (s: seq<Octet>)
    ensures |s| == 8
  {
    [ByteNo(0, w), ByteNo(1, w), ByteNo(2, w), ByteNo(3, w), ByteNo(4, w), ByteNo(5, w), ByteNo(6, w), ByteNo(7, w)]
  }

  lemma AndJoined(a0: Octet, a1: Octet, a2: Octet, a3: Octet, a4: Octet, a5: Octet, a6: Octet, a7: Octet,
      b0: Octet, b1: Octet, b2: Octet, b3: Octet, b4: Octet, b5: Octet, b6: Octet, b7: Octet)
    ensures AndWords(JoinBytes(a0, a1, a2, a3, a4, a5, a6, a7), JoinBytes(b0, b1, b2, b3, b4, b5, b6, b7)) ==
            JoinBytes(AndBytes(a0, b0), AndBytes(a1, b1), AndBytes(a2, b2), AndBytes(a3, b3),
                      AndBytes(a4, b4), AndBytes(a5, b5), AndBytes(a6, b6), AndBytes(a7, b7))
  {}

  lemma OrJoined(a0: Octet, a1: Octet, a2: Octet, a3: Octet, a4: Octet, a5: Octet, a6: Octet, a7: Octet,
      b0: Octet, b1: Octet, b2: Octet, b3: Octet, b4: Octet, b5: Octet, b6: Octet, b7: Octet)
    ensures OrWords(JoinBytes(a0, a1, a2, a3, a4, a5, a6, a7), JoinBytes(b0, b1, b2, b3, b4, b5, b6, b7)) ==
            JoinBytes(OrBytes(a0, b0), OrBytes(a1, b1), OrBytes(a2, b2), OrBytes(a3, b3),
                      OrBytes(a4, b4), OrBytes(a5, b5), OrBytes(a6, b6), OrBytes(a7, b7))
  {}

  lemma XorJoined(a0: Octet, a1: Octet, a2: Octet, a3: Octet, a4: Octet, a5: Octet, a6: Octet, a7: Octet,
      b0: Octet, b1: Octet, b2: Octet, b3: Octet, b4: Octet, b5: Octet, b6: Octet, b7: Octet)
    ensures Plus(JoinBytes(a0, a1, a2, a3, a4, a5, a6, a7), JoinBytes(b0, b1, b2, b3, b4, b5, b6, b7)) ==
            JoinBytes(XorBytes(a0, b0), XorBytes(a1, b1), XorBytes(a2, b2), XorBytes(a3, b3),
                      XorBytes(a4, b4), XorBytes(a5, b5), XorBytes(a6, b6), XorBytes(a7, b7))
  {}

  lemma NotBits(a0: Octet, a1: Octet, a2: Octet, a3: Octet, a4: Octet, a5: Octet, a6: Octet, a7: Octet)
    ensures !JoinBytes(a0, a1, a2, a3, a4, a5, a6, a7) == JoinBytes(!a0, !a1, !a2, !a3, !a4, !a5, !a6, !a7)
  {}

  lemma NotJoined(a0: Octet, a1: Octet, a2: Octet, a3: Octet, a4: Octet, a5: Octet, a6: Octet, a7: Octet)
    ensures NotWord(JoinBytes(a0, a1, a2, a3, a4, a5, a6, a7)) ==
            JoinBytes(NotByte(a0), NotByte(a1), NotByte(a2), NotByte(a3),
                      NotByte(a4), NotByte(a5), NotByte(a6), NotByte(a7))
  {
    NotBits(a0, a1, a2, a3, a4, a5, a6, a7);
  }

  /** A word operation works byte by byte. */
  lemma CombineLoads(op: Op, s: seq<Octet>, t: seq<Octet>)
    requires |s| == |t| == 8
    ensures CombineWords(op, Load(s), Load(t)) == Load(seq(8, i requires 0 <= i < 8 => Combine(op, s[i], t[i])))
  {
    match op
    case OpAnd => AndJoined(s[0], s[1], s[2], s[3], s[4], s[5], s[6], s[7],
                            t[0], t[1], t[2], t[3], t[4], t[5], t[6], t[7]);
    case OpOr => OrJoined(s[0], s[1], s[2], s[3], s[4], s[5], s[6], s[7],
                          t[0], t[1], t[2], t[3], t[4], t[5], t[6], t[7]);
    case OpXor => XorJoined(s[0], s[1], s[2], s[3], s[4], s[5], s[6], s[7],
                            t[0], t[1], t[2], t[3], t[4], t[5], t[6], t[7]);
    case OpNot =>
  }

  lemma NotLoads(s: seq<Octet>)
    requires |s| == 8
    ensures NotWord(Load(s)) == Load(seq(8, i requires 0 <= i < 8 => NotByte(s[i])))
  {
    NotJoined(s[0], s[1], s[2], s[3], s[4], s[5], s[6], s[7]);
  }

  /** What is loaded is stored again. */
  lemma StoredLoaded(s: seq<Octet>)
    requires |s| == 8
    ensures Stored(Load(s)) == s
  {
    JoinedLow(s[0], s[1], s[2], s[3], s[4], s[5], s[6], s[7]);
    JoinedHigh(s[0], s[1], s[2], s[3], s[4], s[5], s[6], s[7]);
  }

  lemma CombineStored(op: Op, s: seq<Octet>, t: seq<Octet>, i: nat)
    requires |s| == |t| == 8 && i < 8
    ensures Stored(CombineWords(op, Load(s), Load(t)))[i] == Combine(op, s[i], t[i])
  {
    CombineLoads(op, s, t);
    StoredLoaded(seq(8, k requires 0 <= k < 8 => Combine(op, s[k], t[k])));
  }

  lemma NotStored(s: seq<Octet>, i: nat)
    requires |s| == 8 && i < 8
    ensures Stored(NotWord(Load(s)))[i] == NotByte(s[i])
  {
    NotLoads(s);
    StoredLoaded(seq(8, k requires 0 <= k < 8 => NotByte(s[k])));
  }

  /** A word is stored. */
  method StoreWord(res: array<Octet>, q: nat, word: Word)
    requires q + 8 <= res.Length
    modifies res
    ensures forall p :: 0 <= p < res.Length ==>
              res[p] == if q <= p < q + 8 then Stored(word)[p - q] else old(res[p])
  {
    var bytes := Stored(word);
    forall p | q <= p < q + 8 {
      res[p] := bytes[p - q];
    }
  }

  method CombineWord(op: Op, res: array<Octet>, q: nat, src: seq<Octet>)
    requires q + 8 <= res.Length && q + 8 <= |src|
    modifies res
    ensures forall p :: 0 <= p < res.Length ==>
              res[p] == if q <= p < q + 8 then Combine(op, old(res[p]), src[p]) else old(res[p])
  {
    var x, y := res[q..q + 8], src[q..q + 8];
    forall i | 0 <= i < 8 ensures Stored(CombineWords(op, Load(x), Load(y)))[i] == Combine(op, x[i], y[i]) {
      CombineStored(op, x, y, i);
    }
    StoreWord(res, q, CombineWords(op, Load(x), Load(y)));
  }

  method NegateWord(res: array<Octet>, q: nat)
    requires q + 8 <= res.Length
    modifies res
    ensures forall p :: 0 <= p < res.Length ==> res[p] == if q <= p < q + 8 then NotByte(old(res[p])) else old(res[p])
  {
    var x := res[q..q + 8];
    forall i | 0 <= i < 8 ensures Stored(NotWord(Load(x)))[i] == NotByte(x[i]) {
      NotStored(x, i);
    }
    StoreWord(res, q, NotWord(Load(x)));
  }

  /** One turn of the fast path: four words. */
  method FourWords(op: Op, srcs: seq<seq<Octet>>, res: array<Octet>, j: nat)
    requires |srcs| > 0 && (op.OpNot? ==> |srcs| == 1) && j + 32 <= res.Length
    requires forall i :: 0 <= i < |srcs| ==> j + 32 <= |srcs[i]|
    requires forall p :: j <= p < j + 32 ==> res[p] == srcs[0][p]
    modifies res
    ensures forall p :: 0 <= p < res.Length ==>
              res[p] == if j <= p < j + 32 then Combined(op, srcs, |srcs|, p) else old(res[p])
  {
    if op.OpNot? {
      NegateWord(res, j);
      NegateWord(res, j + 8);
      NegateWord(res, j + 16);
      NegateWord(res, j + 24);
    } else {
      for i := 1 to |srcs|
        invariant forall p :: 0 <= p < res.Length ==>
          res[p] == if j <= p < j + 32 then Combined(op, srcs, i, p) else old(res[p])
      {
        CombineWord(op, res, j, srcs[i]);
        CombineWord(op, res, j + 8, srcs[i]);
        CombineWord(op, res, j + 16, srcs[i]);
        CombineWord(op, res, j + 24, srcs[i]);
      }
    }
  }

  /** The fast path, as far as all the strings go; the rest is left to the loop over bytes. */
  method FastPath(op: Op, srcs: seq<seq<Octet>>, res: array<Octet>, minlen: nat) returns (j: nat)
    requires |srcs| > 0 && (op.OpNot? ==> |srcs| == 1) && minlen <= res.Length
    requires forall i :: 0 <= i < |srcs| ==> minlen <= |srcs[i]|
    modifies res
    ensures j <= minlen && forall p :: 0 <= p < j ==> res[p] == Combined(op, srcs, |srcs|, p)
  {
    j := 0;
    var left := minlen;
    forall p | 0 <= p < minlen {
      res[p] := srcs[0][p];
    }
    while left >= 32
      invariant j + left == minlen
      invariant forall p :: 0 <= p < j ==> res[p] == Combined(op, srcs, |srcs|, p)
      invariant forall p :: j <= p < minlen ==> res[p] == srcs[0][p]
    {
      FourWords(op, srcs, res, j);
      j, left := j + 32, left - 32;
    }
  }

  lemma {:induction false} MaxLengthIs(srcs: seq<seq<Octet>>)
    ensures forall i :: 0 <= i < |srcs| ==> |srcs[i]| <= MaxLength(srcs)
  {
    if srcs != [] {
      MaxLengthIs(srcs[1..]);
      forall i | 0 <= i < |srcs| ensures |srcs[i]| <= MaxLength(srcs) {
        if i > 0 {
          assert srcs[i] == srcs[1..][i - 1];
        }
      }
    }
  }

  lemma {:induction false} MaxLengthNext(srcs: seq<seq<Octet>>, n: nat)
    requires n < |srcs|
    ensures MaxLength(srcs[..n + 1]) == if |srcs[n]| > MaxLength(srcs[..n]) then |srcs[n]| else MaxLength(srcs[..n])
  {
    if n == 0 {
      assert srcs[..1] == [srcs[0]] && srcs[..1][1..] == [];
    } else {
      assert srcs[..n + 1][1..] == srcs[1..][..n] && srcs[..n][1..] == srcs[1..][..n - 1];
      MaxLengthNext(srcs[1..], n - 1);
    }
  }

  /** The lengths of the longest and the shortest string. */
  method Lengths(srcs: seq<seq<Octet>>) returns (minlen: nat, maxlen: nat)
    requires |srcs| > 0
    ensures maxlen == MaxLength(srcs) && forall i :: 0 <= i < |srcs| ==> minlen <= |srcs[i]|
    ensures exists i :: 0 <= i < |srcs| && minlen == |srcs[i]|
    ensures (exists i :: 0 <= i < |srcs| && maxlen == |srcs[i]|) && forall i :: 0 <= i < |srcs| ==> |srcs[i]| <= maxlen
  {
    minlen, maxlen := 0, 0;
    assert srcs[..0] == [];
    for j := 0 to |srcs|
      invariant maxlen == MaxLength(srcs[..j])
      invariant forall i :: 0 <= i < j ==> minlen <= |srcs[i]|
      invariant j > 0 ==> exists i :: 0 <= i < j && minlen == |srcs[i]|
      invariant forall i :: 0 <= i < j ==> |srcs[i]| <= maxlen
      invariant j > 0 ==> exists i :: 0 <= i < j && maxlen == |srcs[i]|
    {
      MaxLengthNext(srcs, j);
      if j == 0 || |srcs[j]| > maxlen {
        maxlen := |srcs[j]|;
      }
      if j == 0 || |srcs[j]| < minlen {
        minlen := |srcs[j]|;
      }
    }
    assert srcs[..|srcs|] == srcs;
  }

  /** The byte at position `p`, in the loop over bytes. */
  method CombineAt(op: Op, srcs: seq<seq<Octet>>, p: nat) returns (output: Octet)
    requires |srcs| > 0
    ensures output == Combined(op, srcs, |srcs|, p)
  {
    output := if |srcs[0]| <= p then 0 else srcs[0][p];
    if op.OpNot? {
      output := NotByte(output);
    }
    for i := 1 to |srcs|
      invariant output == Combined(op, srcs, i, p)
    {
      var byte := if |srcs[i]| <= p then 0 else srcs[i][p];
      output := Combine(op, output, byte);
    }
  }

  /** The heart of bitopCommand: with the fast path or without it, every byte of the result is
      made of the bytes at its place. */
  method BitOp(op: Op, srcs: seq<seq<Octet>>) returns (r: seq<Octet>)
    requires |srcs| > 0 && (op.OpNot? ==> |srcs| == 1)
    ensures |r| == MaxLength(srcs) && forall p :: 0 <= p < |r| ==> r[p] == Combined(op, srcs, |srcs|, p)
    ensures (exists i :: 0 <= i < |srcs| && |r| == |srcs[i]|) && forall i :: 0 <= i < |srcs| ==> |srcs[i]| <= |r|
  {
    var minlen, maxlen := Lengths(srcs);
    MaxLengthIs(srcs);
    if maxlen == 0 {
      return [];
    }
    var res := new Octet[maxlen];
    var j := 0;
    if minlen >= 32 && |srcs| <= 16 {
      j := FastPath(op, srcs, res, minlen);
    }
    while j < maxlen
      invariant j <= maxlen
      invariant forall p :: 0 <= p < j ==> res[p] == Combined(op, srcs, |srcs|, p)
    {
      res[j] := CombineAt(op, srcs, j);
      j := j + 1;
    }
    r := res[..];
  }
}
