/** 64-bit words taken apart into a low byte and the bytes above it. The bit operators have
    names here, so that whoever reasons about words need not look at their bits. */
module Words {
  type Octet = bv8
  type Word = bv64

  /** `x ^ y`. */
  function Plus(x: Word, y: Word): Word {
    x ^ y
  }

  /** The byte `l` below the bytes of `h`. */
  function Join(l: Word, h: Word): Word {
    l ^ (h << 8)
  }

  function Low(x: Word): Word {
    x & 0xff
  }

  /** `x >> 8`. */
  function High(x: Word): Word {
    x >> 8
  }

  function Wide(b: Octet): Word {
    b as Word
  }

  /** `(uint8_t)x`. */
  function Byte(x: Word): Octet {
    (x & 0xff) as Octet
  }

  function Top(x: Word): Octet {
    (x >> 56) as Octet
  }

  /** Words that leave room for one more byte. */
  predicate Small(h: Word) {
    h < 0x100_0000_0000_0000
  }

  lemma Halves(x: Word)
    ensures Join(Low(x), High(x)) == x && Small(High(x))
  {}

  lemma ByteIsLow(x: Word)
    ensures Wide(Byte(x)) == Low(x)
  {}

  lemma HalvesOfSum(c: Word, b: Octet, i: Octet)
    requires i == Byte(c) ^ b
    ensures Low(Plus(c, Wide(b))) == Wide(i) && High(Plus(c, Wide(b))) == High(c)
  {}

  lemma TopOfSum(f: Word, h: Word)
    requires Small(h)
    ensures Top(Plus(f, h)) == Top(f)
  {}

  lemma PlusInjective(c: Word, l: Word, m: Word)
    requires Plus(c, l) == Plus(c, m)
    ensures l == m
  {}

  lemma PlusCommutes(c: Word, d: Word)
    ensures Plus(c, d) == Plus(d, c)
  {}

  lemma PlusZero(c: Word, d: Word)
    ensures Plus(c, d) == 0 <==> c == d
  {}

  lemma XorAssociates(c: Word, l: Word, k: Word)
    ensures c ^ (l ^ k) == (c ^ l) ^ k
  {}

  lemma PlusJoin(c: Word, l: Word, h: Word)
    ensures Plus(c, Join(l, h)) == Join(Plus(c, l), h)
  {
    XorAssociates(c, l, h << 8);
  }

  lemma JoinInjective(b: Octet, h: Word, c: Octet, k: Word)
    requires Small(h) && Small(k) && Join(Wide(b), h) == Join(Wide(c), k)
    ensures b == c && h == k
  {}

  // ----- strings of bytes ---------------------------------------------------------------------

  /** Bytes as a little-endian word. */
  function Little(s: seq<Octet>): Word {
    if s == [] then 0 else Join(Wide(s[0]), Little(s[1..]))
  }

  /** The low `n` bytes of a word, lowest first. */
  function Bytes(n: nat, w: Word): (s: seq<Octet>)
    ensures |s| == n
  {
    if n == 0 then [] else [Byte(w)] + Bytes(n - 1, High(w))
  }

  /** Words that `n` bytes can hold. */
  predicate Below(n: nat, w: Word) {
    match n
    case 0 => w == 0
    case 1 => w < 0x100
    case 2 => w < 0x1_0000
    case 3 => w < 0x100_0000
    case 4 => w < 0x1_0000_0000
    case 5 => w < 0x100_0000_0000
    case 6 => w < 0x1_0000_0000_0000
    case 7 => w < 0x100_0000_0000_0000
    case _ => true
  }

  lemma BelowNext(n: nat, m: nat, b: Octet, w: Word)
    requires Below(n, w) && m == n + 1
    ensures Below(m, Join(Wide(b), w))
  {}

  lemma BelowPrevious(n: nat, m: nat, w: Word)
    requires m == n + 1 && m <= 8 && Below(m, w)
    ensures Below(n, High(w))
  {}

  lemma {:induction false} LittleBelow(s: seq<Octet>, n: nat)
    requires |s| == n
    ensures Below(n, Little(s))
  {
    if s != [] {
      LittleBelow(s[1..], n - 1);
      BelowNext(n - 1, n, s[0], Little(s[1..]));
    }
  }

  lemma SmallLittle(s: seq<Octet>)
    requires |s| < 8
    ensures Small(Little(s))
  {
    LittleBelow(s, |s|);
  }

  lemma {:induction false} LittleOfBytes(n: nat, w: Word)
    requires n <= 8 && Below(n, w)
    ensures Little(Bytes(n, w)) == w
  {
    if n > 0 {
      BelowPrevious(n - 1, n, w);
      LittleOfBytes(n - 1, High(w));
      ByteIsLow(w);
      Halves(w);
    }
  }

  lemma {:induction false} LittleInjective(s: seq<Octet>, t: seq<Octet>)
    requires |s| == |t| <= 8 && Little(s) == Little(t)
    ensures s == t
  {
    if s != [] {
      SmallLittle(s[1..]);
      SmallLittle(t[1..]);
      JoinInjective(s[0], Little(s[1..]), t[0], Little(t[1..]));
      LittleInjective(s[1..], t[1..]);
    }
  }
}
