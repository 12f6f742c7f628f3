/** Finding the first bit, skipping bytes and words that do not have it. */
module BitPos {
  import opened Decimal
  import opened Binary
  import opened DictScan
  import opened ScanWords

  /** The bit at a position, bytes read from their highest bit down; the string is followed by
      zeros. */
  predicate BitOf(s: Bytes, pos: nat) {
    pos / 8 < |s| && BitAt(s[pos / 8], 7 - pos % 8)
  }

  /** No position from `from` up to `to` has the bit. */
  ghost predicate NoneIn(s: Bytes, from: nat, to: nat, bit: bool) {
    forall p :: from <= p < to ==> BitOf(s, p) != bit
  }

  function Skip(bit: bool): Byte {
    if bit then 0 else 255
  }

  lemma {:induction false} AllOnes(k: nat, n: nat, b: nat)
    requires k < n && b == Pow2(n) - 1
    ensures BitAt(b, k)
  {
    if k > 0 {
      assert b / 2 == Pow2(n - 1) - 1;
      AllOnes(k - 1, n - 1, b / 2);
    }
  }

  lemma PowersOfBytes()
    ensures Pow2(8) == 256
  {
    assert Pow2(4) == 16;
  }

  /** A byte that is skipped has only the other bit. */
  lemma SkippedByte(s: Bytes, i: nat, bit: bool)
    requires i < |s| && s[i] == Skip(bit)
    ensures NoneIn(s, 8 * i, 8 * i + 8, bit)
  {
    forall p | 8 * i <= p < 8 * i + 8 ensures BitOf(s, p) != bit {
      assert p / 8 == i && p % 8 == p - 8 * i;
      if bit {
        HighOfZero(7 - p % 8);
      } else {
        PowersOfBytes();
        AllOnes(7 - p % 8, 8, 255);
      }
    }
  }

  lemma NoneTogether(s: Bytes, a: nat, b: nat, c: nat, bit: bool)
    requires NoneIn(s, a, b, bit) && NoneIn(s, b, c, bit)
    ensures NoneIn(s, a, c, bit)
  {}

  // ----- whole words ------------------------------------------------------------------------------

  function Long(b0: nat, b1: nat, b2: nat, b3: nat, b4: nat, b5: nat, b6: nat, b7: nat): nat {
    b0 + 256 * (b1 + 256 * (b2 + 256 * (b3 + 256 * (b4 + 256 * (b5 + 256 * (b6 + 256 * b7))))))
  }

  /** Eight bytes as an unsigned long, lowest byte first. */
  function LoadLong(s: Bytes, i: nat): nat
    requires i + 8 <= |s|
  {
    Long(s[i], s[i + 1], s[i + 2], s[i + 3], s[i + 4], s[i + 5], s[i + 6], s[i + 7])
  }

  function SkipLong(bit: bool): nat {
    if bit then 0 else 0xffff_ffff_ffff_ffff
  }

  lemma LongIsSkipped(s: Bytes, i: nat, bit: bool)
    requires i + 8 <= |s|
    ensures LoadLong(s, i) == SkipLong(bit) <==> forall j :: i <= j < i + 8 ==> s[j] == Skip(bit)
  {
    if LoadLong(s, i) == SkipLong(bit) {
      forall j | i <= j < i + 8 ensures s[j] == Skip(bit) {}
    }
  }

  lemma SkippedLong(s: Bytes, i: nat, bit: bool)
    requires i + 8 <= |s| && LoadLong(s, i) == SkipLong(bit)
    ensures NoneIn(s, 8 * i, 8 * i + 64, bit)
  {
    LongIsSkipped(s, i, bit);
    forall j | i <= j < i + 8 ensures NoneIn(s, 8 * j, 8 * j + 8, bit) {
      SkippedByte(s, j, bit);
    }
    forall p | 8 * i <= p < 8 * i + 64 ensures BitOf(s, p) != bit {
      assert i <= p / 8 < i + 8 && NoneIn(s, 8 * (p / 8), 8 * (p / 8) + 8, bit);
    }
  }

  // ----- the last word ----------------------------------------------------------------------------

  /** Bytes read as one number, highest first. */
  function Big(s: Bytes): nat {
    if s == [] then 0 else 256 * Big(s[..|s| - 1]) + s[|s| - 1]
  }

  lemma {:induction false} BigBound(s: Bytes, n: nat)
    requires n == 8 * |s|
    ensures Big(s) < Pow2(n)
  {
    if s == [] {
      assert Pow2(0) == 1;
    } else {
      BigBound(s[..|s| - 1], n - 8);
      PowersOfBytes();
      UpPow2(8, n - 8, n);
      UpIsProduct(8, Pow2(n - 8));
    }
  }

  lemma LastByte(x: nat, b: nat, v: nat, j: nat)
    requires b < 256 && v == 256 * x + b
    ensures j < 8 ==> BitAt(v, j) == BitAt(b, j)
    ensures BitAt(v, j + 8) == BitAt(x, j)
  {
    PowersOfBytes();
    UpIsProduct(8, x);
    Compose(8, x, b, v);
    HighHigh(j, 8, v);
    if j < 8 {
      HighBelow(j, 8, x, b, v);
    }
  }

  /** Bit `k` from the top of the number is bit `k` of the string. */
  lemma {:induction false} BitOfBig(s: Bytes, n: nat, k: nat)
    requires n == 8 * |s| && k < n
    ensures BitAt(Big(s), n - 1 - k) == BitOf(s, k)
  {
    var m := |s| - 1;
    if k >= 8 * m {
      LastByte(Big(s[..m]), s[m], Big(s), n - 1 - k);
      assert k / 8 == m && k % 8 == k - 8 * m;
    } else {
      LastByte(Big(s[..m]), s[m], Big(s), n - 9 - k);
      BitOfBig(s[..m], n - 8, k);
      assert k / 8 < m;
    }
  }

  /** `one & word`, where `one` has a single bit. */
  lemma {:induction false} AndOneBit(n: nat, m: nat, w: nat)
    requires m < n
    ensures And(n, Pow2(m), w) != 0 <==> BitAt(w, m)
  {
    if m == 0 {
      OpsWithZero(n - 1, w / 2);
      AndZero(n - 1, w / 2);
    } else {
      assert Pow2(m) / 2 == Pow2(m - 1) && Pow2(m) % 2 == 0;
      AndOneBit(n - 1, m - 1, w / 2);
    }
  }

  lemma {:induction false} AndZero(n: nat, w: nat)
    ensures And(n, 0, w) == 0
  {
    if n > 0 {
      AndZero(n - 1, w / 2);
    }
  }

  /** The bytes from `i` on, filled up with zeros to eight. */
  function Padded(s: Bytes, i: nat): (r: Bytes)
    requires i <= |s|
    ensures |r| == 8
  {
    if i + 8 <= |s| then s[i..i + 8] else s[i..] + seq(8 - (|s| - i), _ => 0)
  }

  lemma PaddedBits(s: Bytes, i: nat, k: nat)
    requires i <= |s| && k < 64
    ensures BitOf(Padded(s, i), k) == BitOf(s, 8 * i + k)
  {
    assert (8 * i + k) / 8 == i + k / 8 && (8 * i + k) % 8 == k % 8;
    if i + k / 8 < |s| {
      assert Padded(s, i)[k / 8] == s[i + k / 8];
    } else {
      HighOfZero(7 - k % 8);
    }
  }

  /** The loop that loads the last word, highest byte first. */
  method LoadLast(s: Bytes, i: nat) returns (word: nat)
    requires i <= |s|
    ensures word == Big(Padded(s, i))
  {
    word := 0;
    ghost var bytes := Padded(s, i);
    var c, count := i, |s| - i;
    for j := 0 to 8
      invariant word == Big(bytes[..j]) && c + count == |s| && i <= c && (count > 0 ==> c == i + j) && count >= 0
      invariant count == 0 ==> |s| <= i + j
    {
      word := word * 256;
      assert bytes[..j + 1][..j] == bytes[..j];
      if count > 0 {
        assert bytes[j] == s[c];
        word := word + s[c];
        c, count := c + 1, count - 1;
      }
    }
    assert bytes[..8] == bytes;
  }

  /** If none of its bits is one the word is zero. */
  lemma NoOnes(s: Bytes, n: nat, word: nat)
    requires n == 64 && |s| == 8 && word == Big(s) && forall k :: 0 <= k < n ==> !BitOf(s, k)
    ensures word == 0
  {
    forall j | 0 <= j < n ensures BitAt(word, j) == BitAt(0, j) {
      HighOfZero(j);
      BitOfBig(s, n, n - 1 - j);
    }
    SameBits(n, word, 0);
    BigBound(s, n);
    LowBound(n, word);
    LowBound(n, 0);
  }

  lemma HasZero(b: Byte, n: nat, m: nat)
    requires b != 255 && n == 8 && m == 255
    ensures exists k :: 0 <= k < n && !BitAt(b, k)
  {
    if forall k :: 0 <= k < n ==> BitAt(b, k) {
      PowersOfBytes();
      forall k | 0 <= k < n ensures BitAt(b, k) == BitAt(m, k) {
        AllOnes(k, n, m);
      }
      SameBits(n, b, m);
      LowBound(n, b);
      LowBound(n, m);
    }
  }

  /** A byte that is not all ones has a zero. */
  lemma ZeroInside(s: Bytes, j: nat) returns (k: nat)
    requires j < |s| && s[j] != 255
    ensures 8 * j <= k < 8 * j + 8 && !BitOf(s, k)
  {
    HasZero(s[j], 8, 255);
    var m :| 0 <= m < 8 && !BitAt(s[j], m);
    k := 8 * j + 7 - m;
    assert k / 8 == j && k % 8 == 7 - m;
  }

  lemma {:induction false} BigOfZeros(s: Bytes)
    requires Big(s) == 0
    ensures forall j :: 0 <= j < |s| ==> s[j] == 0
  {
    if s != [] {
      BigOfZeros(s[..|s| - 1]);
    }
  }

  /** The last word is zero: there is no one in the string. */
  lemma NothingLeft(s: Bytes, i: nat, n: nat)
    requires i <= |s| && Big(Padded(s, i)) == 0 && NoneIn(s, 0, 8 * i, true) && n == 64
    requires i + 8 <= |s| ==> LoadLong(s, i) != SkipLong(true)
    ensures NoneIn(s, 0, 8 * |s|, true)
  {
    BigOfZeros(Padded(s, i));
    if i + 8 <= |s| {
      forall j | i <= j < i + 8 ensures s[j] == 0 {
        assert Padded(s, i)[j - i] == s[j];
      }
      LongIsSkipped(s, i, true);
    } else {
      forall p | 8 * i <= p < 8 * |s| ensures !BitOf(s, p) {
        HighOfZero(n - 1 - (p - 8 * i));
        BitOfBig(Padded(s, i), n, p - 8 * i);
        PaddedBits(s, i, p - 8 * i);
      }
    }
  }

  /** The last word has the bit. */
  lemma FoundInLast(s: Bytes, i: nat, bit: bool, n: nat) returns (k: nat)
    requires i <= |s| && n == 64 && (bit ==> Big(Padded(s, i)) != 0)
    requires !bit && i + 8 <= |s| ==> LoadLong(s, i) != SkipLong(bit)
    ensures k < n && BitOf(s, 8 * i + k) == bit
  {
    var bytes := Padded(s, i);
    if bit {
      if forall j :: 0 <= j < n ==> !BitOf(bytes, j) {
        NoOnes(bytes, n, Big(bytes));
      }
      k :| 0 <= k < n && BitOf(bytes, k);
    } else {
      var j := NotAllOnes(s, i);
      k := ZeroInside(bytes, j);
    }
    PaddedBits(s, i, k);
  }

  lemma NotAllOnes(s: Bytes, i: nat) returns (j: nat)
    requires i <= |s| && (i + 8 <= |s| ==> LoadLong(s, i) != SkipLong(false))
    ensures j < 8 && Padded(s, i)[j] != 255
  {
    if i + 8 <= |s| {
      LongIsSkipped(s, i, false);
      var m :| i <= m < i + 8 && s[m] != 255;
      j := m - i;
    } else {
      j := 7;
    }
  }

  lemma TestBit(s: Bytes, i: nat, k: nat, m: nat, n: nat, p: nat)
    requires i <= |s| && n == 64 && m + k + 1 == n && p == 8 * i + k
    ensures And(n, Pow2(m), Big(Padded(s, i))) != 0 <==> BitOf(s, p)
  {
    AndOneBit(n, m, Big(Padded(s, i)));
    BitOfBig(Padded(s, i), n, k);
    PaddedBits(s, i, k);
  }

  /** The loop over the bits of the last word, which always finds one (at or before bit
      `found`). */
  method ScanLast(s: Bytes, ghost i: nat, start: nat, bit: bool, word: nat, ghost found: nat) returns (pos: nat)
    requires i <= |s| && start == 8 * i && word == Big(Padded(s, i)) && NoneIn(s, 0, start, bit)
    requires found < 64 && BitOf(s, start + found) == bit
    ensures BitOf(s, pos) == bit && NoneIn(s, 0, pos, bit)
  {
    var one := Pow2(W - 1);
    pos := start;
    ghost var k: nat, m: nat := 0, W - 1;
    while one != 0
      invariant k <= found && k + m + 1 == W && pos == start + k && one == Pow2(m) && NoneIn(s, 0, pos, bit)
      decreases m
    {
      TestBit(s, i, k, m, W, pos);
      if (And(W, one, word) != 0) == bit {
        return;
      }
      pos, one := pos + 1, one / 2;
      k, m := k + 1, m - 1;
    }
    assert false;
  }

  lemma ByteSkipped(s: Bytes, i: nat, bit: bool, p: nat, q: nat)
    requires i < |s| && s[i] == Skip(bit) && p == 8 * i && q == p + 8 && NoneIn(s, 0, p, bit)
    ensures NoneIn(s, 0, q, bit)
  {
    SkippedByte(s, i, bit);
    NoneTogether(s, 0, p, q, bit);
  }

  lemma LongSkipped(s: Bytes, i: nat, bit: bool, p: nat, q: nat)
    requires i + 8 <= |s| && LoadLong(s, i) == SkipLong(bit) && p == 8 * i && q == p + 64 && NoneIn(s, 0, p, bit)
    ensures NoneIn(s, 0, q, bit)
  {
    SkippedLong(s, i, bit);
    NoneTogether(s, 0, p, q, bit);
  }

  /** redisBitpos, for a string that starts at the given address. The position of the first
      bit; -1 for a one that is not there, and the length in bits for a zero that is not
      there. */
  method RedisBitpos(s: Bytes, address: nat, bit: bool) returns (pos: int)
    ensures pos == -1 ==> bit && NoneIn(s, 0, 8 * |s|, bit)
    ensures pos != -1 ==> 0 <= pos && BitOf(s, pos) == bit && NoneIn(s, 0, pos, bit)
    ensures pos != -1 ==> if bit then pos < 8 * |s| else pos <= 8 * |s|
  {
    var i: nat, count: nat := 0, |s|;
    pos := 0;
    while (address + i) % 8 != 0 && count > 0 && s[i] == Skip(bit)
      invariant i + count == |s| && pos == 8 * i && NoneIn(s, 0, pos, bit)
      decreases count
    {
      ByteSkipped(s, i, bit, pos, pos + 8);
      i, count, pos := i + 1, count - 1, pos + 8;
    }
    while count >= 8 && LoadLong(s, i) == SkipLong(bit)
      invariant i + count == |s| && pos == 8 * i && NoneIn(s, 0, pos, bit)
      decreases count
    {
      LongSkipped(s, i, bit, pos, pos + 64);
      i, count, pos := i + 8, count - 8, pos + 64;
    }
    var word := LoadLast(s, i);
    if bit && word == 0 {
      NothingLeft(s, i, 64);
      return -1;
    }
    ghost var k := FoundInLast(s, i, bit, 64);
    pos := ScanLast(s, i, pos, bit, word, k);
    assert !BitOf(s, 8 * |s|);
  }
}
