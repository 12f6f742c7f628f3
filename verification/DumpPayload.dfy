/** The footer of DUMP payloads: two bytes of version and eight of checksum. */
module DumpPayload {
  import opened ByteRegister
  import opened Crc64
  import opened Words

  const REDIS_RDB_VERSION: bv16 := 6

  function VersionBytes(): seq<Octet> {
    [(REDIS_RDB_VERSION & 0xff) as Octet, ((REDIS_RDB_VERSION >> 8) & 0xff) as Octet]
  }

  function Checksum(s: seq<Octet>): Word {
    Crc(Step, 0, s)
  }

  /** A payload for the serialized object `body`. */
  function Payload(body: seq<Octet>): seq<Octet> {
    body + VersionBytes() + Bytes(8, Checksum(body + VersionBytes()))
  }

  lemma BytesNext(n: nat, m: nat, s: seq<Octet>, w: Word)
    requires n == m + 1
    ensures s + Bytes(n, w) == s + [Byte(w)] + Bytes(m, High(w))
  {}

  /** A number of memory as it lies there, lowest byte first. */
  method WordBytes(w: Word) returns (s: seq<Octet>)
    ensures s == Bytes(8, w)
  {
    s := [];
    var rest := w;
    for i := 0 to 8
      invariant s + Bytes(8 - i, rest) == Bytes(8, w)
    {
      BytesNext(8 - i, 7 - i, s, rest);
      s := s + [(rest & 0xff) as Octet];
      rest := rest >> 8;
    }
  }

  /** createDumpPayload, from the serialized type and object. */
  method CreateDumpPayload(body: seq<Octet>) returns (payload: seq<Octet>)
    ensures payload == Payload(body)
  {
    payload := body + [(REDIS_RDB_VERSION & 0xff) as Octet, ((REDIS_RDB_VERSION >> 8) & 0xff) as Octet];
    var crc := Crc64.Crc64(0, payload);
    var footer := WordBytes(crc);
    payload := payload + footer;
  }

  /** The payloads that createDumpPayload can make. */
  ghost predicate Created(p: seq<Octet>) {
    exists body :: p == Payload(body)
  }

  lemma VersionIs(lo: Octet, hi: Octet)
    ensures (((hi as bv16) << 8) | (lo as bv16)) == REDIS_RDB_VERSION <==> [lo, hi] == VersionBytes()
  {
    assert VersionBytes() == [6, 0];
  }

  lemma CreatedParts(p: seq<Octet>)
    ensures Created(p) <==>
            |p| >= 10 && p[|p| - 10..|p| - 8] == VersionBytes() && p[|p| - 8..] == Bytes(8, Checksum(p[..|p| - 8]))
  {
    if Created(p) {
      var body :| p == Payload(body);
      assert p[..|p| - 8] == body + VersionBytes();
    }
    if |p| >= 10 && p[|p| - 10..|p| - 8] == VersionBytes() && p[|p| - 8..] == Bytes(8, Checksum(p[..|p| - 8])) {
      var body := p[..|p| - 10];
      assert p[..|p| - 8] == body + VersionBytes();
      assert p == Payload(body);
    }
  }

  /** verifyDumpPayload accepts exactly what createDumpPayload makes. */
  method VerifyDumpPayload(p: seq<Octet>) returns (ok: bool)
    ensures ok <==> Created(p)
  {
    CreatedParts(p);
    if |p| < 10 {
      return false;
    }
    var footer := p[|p| - 10..];
    VersionIs(footer[0], footer[1]);
    assert p[|p| - 10..|p| - 8] == [footer[0], footer[1]];
    var rdbver := ((footer[1] as bv16) << 8) | (footer[0] as bv16);
    if rdbver != REDIS_RDB_VERSION {
      return false;
    }
    var crc := Crc64.Crc64(0, p[..|p| - 8]);
    var bytes := WordBytes(crc);
    return bytes == footer[2..];
  }

  // ----- error detection ----------------------------------------------------------------------

  /** After its own checksum the register is zero, and after no other eight bytes. */
  lemma ZeroAfterChecksum(c: Word, s: seq<Octet>)
    requires |s| == 8
    ensures Crc(Step, c, s) == 0 <==> s == Bytes(8, c)
  {
    EightBytesLoad();
    ShiftsCanBeUndone();
    EightOfZero();
    CrcOfShort(Step, Eight, Load, 8, c, s);
    StepsOfFixed(Eight, 8, 0);
    if Crc(Step, c, s) == 0 {
      StepsInjective(Eight, 8, Load(c, s), 0);
    }
    PlusZero(c, Little(s));
    LittleOfBytes(8, c);
    if c == Little(s) {
      LittleInjective(s, Bytes(8, c));
    }
  }

  /** A payload is one that createDumpPayload can make exactly when the version is right and
      the checksum of the whole of it is zero. */
  lemma CreatedIffZero(p: seq<Octet>)
    ensures Created(p) <==> |p| >= 10 && p[|p| - 10..|p| - 8] == VersionBytes() && Checksum(p) == 0
  {
    CreatedParts(p);
    if |p| >= 8 {
      var x, f := p[..|p| - 8], p[|p| - 8..];
      assert p == x + f;
      CrcConcat(Step, 0, x, f);
      ZeroAfterChecksum(Checksum(x), f);
    }
  }

  /** Up to eight bytes: different strings bring one state to different states. */
  lemma ShortInjective(c: Word, s: seq<Octet>, t: seq<Octet>)
    requires |s| == |t| <= 8 && Crc(Step, c, s) == Crc(Step, c, t)
    ensures s == t
  {
    EightBytesLoad();
    ShiftsCanBeUndone();
    CrcOfShort(Step, Eight, Load, 8, c, s);
    CrcOfShort(Step, Eight, Load, 8, c, t);
    StepsInjective(Eight, |s|, Load(c, s), Load(c, t));
    PlusInjective(c, Little(s), Little(t));
    LittleInjective(s, t);
  }

  /** A change confined to eight neighbouring bytes changes the checksum. */
  lemma WindowChangesChecksum(a: seq<Octet>, s: seq<Octet>, t: seq<Octet>, z: seq<Octet>)
    requires |s| == |t| <= 8 && s != t
    ensures Checksum(a + s + z) != Checksum(a + t + z)
  {
    var c := Crc(Step, 0, a);
    CrcConcat(Step, 0, a + s, z);
    CrcConcat(Step, 0, a, s);
    CrcConcat(Step, 0, a + t, z);
    CrcConcat(Step, 0, a, t);
    StepCanBeUndone();
    if Checksum(a + s + z) == Checksum(a + t + z) {
      CrcInjective(Step, Crc(Step, c, s), Crc(Step, c, t), z);
      ShortInjective(c, s, t);
    }
  }

  /** verifyDumpPayload rejects a payload in which anything was changed within eight
      neighbouring bytes, wherever they are, so in particular any one byte. */
  lemma WindowRejected(p: seq<Octet>, q: seq<Octet>, i: nat, j: nat)
    requires Created(p) && |q| == |p| && q != p
    requires i <= j <= |p| && j <= i + 8 && p[..i] == q[..i] && p[j..] == q[j..]
    ensures !Created(q)
  {
    CreatedIffZero(p);
    CreatedIffZero(q);
    assert p == p[..i] + p[i..j] + p[j..];
    assert q == p[..i] + q[i..j] + p[j..];
    WindowChangesChecksum(p[..i], p[i..j], q[i..j], p[j..]);
  }
}
