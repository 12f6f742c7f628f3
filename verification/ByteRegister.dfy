/** Checksums kept in a register that takes in one byte at a time: what holds when a step can
    be undone and the register is as wide as the bytes it has taken in. */
module ByteRegister {

  /** The register after a string, where `step` takes in one byte. */
  function Crc<W, B>(step: (W, B) -> W, c: W, s: seq<B>): W
    decreases |s|
  {
    if s == [] then c else Crc(step, step(c, s[0]), s[1..])
  }

  /** The checksum of a concatenation is the chained call. */
  lemma {:induction false} CrcConcat<W, B>(step: (W, B) -> W, c: W, a: seq<B>, b: seq<B>)
    ensures Crc(step, c, a + b) == Crc(step, Crc(step, c, a), b)
    decreases |a|
  {
    if a == [] {
      assert a + b == b;
    } else {
      assert (a + b)[1..] == a[1..] + b;
      CrcConcat(step, step(c, a[0]), a[1..], b);
    }
  }

  /** No two states are brought together by taking in the same byte. */
  ghost predicate StepInjective<W(!new), B(!new)>(step: (W, B) -> W) {
    forall c, d, b :: step(c, b) == step(d, b) ==> c == d
  }

  lemma {:induction false} CrcInjective<W(!new), B(!new)>(step: (W, B) -> W, c: W, d: W, s: seq<B>)
    requires StepInjective(step) && Crc(step, c, s) == Crc(step, d, s)
    ensures c == d
    decreases |s|
  {
    if s != [] {
      CrcInjective(step, step(c, s[0]), step(d, s[0]), s[1..]);
    }
  }

  /** `n` steps of the bare register. */
  function Steps<W>(f: W -> W, n: nat, x: W): W {
    if n == 0 then x else Steps(f, n - 1, f(x))
  }

  ghost predicate Injective<W(!new)>(f: W -> W) {
    forall x, y :: f(x) == f(y) ==> x == y
  }

  lemma {:induction false} StepsInjective<W(!new)>(f: W -> W, n: nat, x: W, y: W)
    requires Injective(f) && Steps(f, n, x) == Steps(f, n, y)
    ensures x == y
  {
    if n > 0 {
      StepsInjective(f, n - 1, f(x), f(y));
    }
  }

  lemma {:induction false} StepsOfFixed<W>(f: W -> W, n: nat, x: W)
    requires f(x) == x
    ensures Steps(f, n, x) == x
  {
    if n > 0 {
      StepsOfFixed(f, n - 1, x);
    }
  }

  /** A string no longer than `width` can be loaded into the register at once: taking in its
      first byte is a step of the loaded register. */
  ghost predicate Loads<W(!new), B(!new)>(step: (W, B) -> W, f: W -> W, load: (W, seq<B>) -> W, width: nat) {
    && (forall c :: load(c, []) == c)
    && forall c, s :: 0 < |s| <= width ==> f(load(c, s)) == load(step(c, s[0]), s[1..])
  }

  lemma {:induction false} CrcOfShort<W(!new), B(!new)>(
      step: (W, B) -> W, f: W -> W, load: (W, seq<B>) -> W, width: nat, c: W, s: seq<B>)
    requires Loads(step, f, load, width) && |s| <= width
    ensures Crc(step, c, s) == Steps(f, |s|, load(c, s))
    decreases |s|
  {
    if s != [] {
      CrcOfShort(step, f, load, width, step(c, s[0]), s[1..]);
    }
  }
}
