/** The names of commands, and the numbers in their arguments. */
module Verbs {
  import opened Decimal
  import opened Options
  import opened Resp

  const SELECT: Bytes := [83, 69, 76, 69, 67, 84]
  const SET: Bytes := [83, 69, 84]
  const SETEX: Bytes := [83, 69, 84, 69, 88]
  const PSETEX: Bytes := [80, 83, 69, 84, 69, 88]
  const EXPIRE: Bytes := [69, 88, 80, 73, 82, 69]
  const PEXPIRE: Bytes := [80, 69, 88, 80, 73, 82, 69]
  const EXPIREAT: Bytes := [69, 88, 80, 73, 82, 69, 65, 84]
  const PEXPIREAT: Bytes := [80, 69, 88, 80, 73, 82, 69, 65, 84]
  const PERSIST: Bytes := [80, 69, 82, 83, 73, 83, 84]
  const DEL: Bytes := [68, 69, 76]
  const RESTORE: Bytes := [82, 69, 83, 84, 79, 82, 69]
  const RPUSH: Bytes := [82, 80, 85, 83, 72]
  const SADD: Bytes := [83, 65, 68, 68]
  const ZADD: Bytes := [90, 65, 68, 68]
  const HMSET: Bytes := [72, 77, 83, 69, 84]
  const MOVE: Bytes := [77, 79, 86, 69]
  const FLUSHDB: Bytes := [70, 76, 85, 83, 72, 68, 66]
  const FLUSHALL: Bytes := [70, 76, 85, 83, 72, 65, 76, 76]

  /** The commands that are spelt out here; `VOther` is any other. */
  datatype Verb =
    | VSelect | VSet | VSetEx | VPSetEx | VExpire | VPExpire | VExpireAt | VPExpireAt | VPersist | VDel | VRestore
    | VPush | VAddMembers | VAddScores | VSetFields | VMove | VFlushDb | VFlushAll | VOther

  function Upper(b: Byte): Byte {
    if 97 <= b <= 122 then b - 32 else b
  }

  /** The command table does not distinguish upper and lower case. */
  function UpperAll(s: Bytes): (r: Bytes)
    ensures |r| == |s|
  {
    seq(|s|, i requires 0 <= i < |s| => Upper(s[i]))
  }

  function VerbNamed(name: Bytes): Verb {
    if name == SELECT then VSelect
    else if name == SET then VSet
    else if name == SETEX then VSetEx
    else if name == PSETEX then VPSetEx
    else if name == EXPIRE then VExpire
    else if name == PEXPIRE then VPExpire
    else if name == EXPIREAT then VExpireAt
    else if name == PEXPIREAT then VPExpireAt
    else if name == PERSIST then VPersist
    else if name == DEL then VDel
    else if name == RESTORE then VRestore
    else if name == RPUSH then VPush
    else if name == SADD then VAddMembers
    else if name == ZADD then VAddScores
    else if name == HMSET then VSetFields
    else if name == MOVE then VMove
    else if name == FLUSHDB then VFlushDb
    else if name == FLUSHALL then VFlushAll
    else VOther
  }

  /** The arity in the command table, the name included; scores and fields come in pairs. */
  predicate Arity(v: Verb, n: nat) {
    match v
    case VSelect => n == 2
    case VSet => n >= 3
    case VSetEx => n == 4
    case VPSetEx => n == 4
    case VExpire => n == 3
    case VPExpire => n == 3
    case VExpireAt => n == 3
    case VPExpireAt => n == 3
    case VPersist => n == 2
    case VDel => n >= 2
    case VRestore => n >= 4
    case VPush => n >= 3
    case VAddMembers => n >= 3
    case VAddScores => n >= 4 && n % 2 == 0
    case VSetFields => n >= 4 && n % 2 == 0
    case VMove => n == 3
    case VFlushDb => n == 1
    case VFlushAll => n == 1
    case VOther => true
  }

  function VerbOf(c: Command): (v: Verb)
    ensures Arity(v, |c|)
  {
    if c == [] then VOther
    else
      var v := VerbNamed(UpperAll(c[0]));
      if Arity(v, |c|) then v else VOther
  }

  lemma AlreadyUpper(name: Bytes)
    requires forall i :: 0 <= i < |name| ==> name[i] < 97
    ensures UpperAll(name) == name
  {}

  /** A command with a name of the table in capitals and the right number of arguments. */
  lemma VerbIs(c: Command, v: Verb)
    requires c != [] && (forall i :: 0 <= i < |c[0]| ==> c[0][i] < 97) && v == VerbNamed(c[0]) && Arity(v, |c|)
    ensures VerbOf(c) == v
  {
    AlreadyUpper(c[0]);
  }

  /** getLongLongFromObject: no leading space, a sign, digits and nothing else up to the end (or
      to a zero byte). */
  function Number(s: Bytes): Option<int> {
    if s != [] && IsSpace(s[0]) then None
    else
      var t := if s != [] && (s[0] == MINUS || s[0] == PLUS) then s[1..] else s;
      var rest := AfterDigits(t);
      if rest != [] && rest[0] != 0 then None
      else if t != s && rest == t then None
      else Some(Atoi(s))
  }

  /** A number in text: a sign or none, digits, and nothing more, or a zero byte and whatever follows. */
  ghost predicate Numeral(s: Bytes, sign: Bytes, digits: Bytes, tail: Bytes) {
    && s == sign + digits + tail && (sign == [] || sign == [MINUS] || sign == [PLUS])
    && (forall i :: 0 <= i < |digits| ==> IsDigit(digits[i])) && (tail == [] || tail[0] == 0)
    && (sign != [] ==> digits != [])
  }

  lemma {:induction false} DigitsFirst(digits: Bytes, tail: Bytes)
    requires (forall i :: 0 <= i < |digits| ==> IsDigit(digits[i])) && (tail == [] || !IsDigit(tail[0]))
    ensures AfterDigits(digits + tail) == tail
  {
    if digits == [] {
      assert digits + tail == tail;
    } else {
      assert (digits + tail)[1..] == digits[1..] + tail;
      DigitsFirst(digits[1..], tail);
    }
  }

  lemma {:induction false} SplitDigits(s: Bytes) returns (digits: Bytes)
    ensures s == digits + AfterDigits(s) && forall i :: 0 <= i < |digits| ==> IsDigit(digits[i])
    ensures AfterDigits(s) == [] || !IsDigit(AfterDigits(s)[0])
  {
    if s == [] || !IsDigit(s[0]) {
      digits := [];
    } else {
      digits := SplitDigits(s[1..]);
      digits := [s[0]] + digits;
    }
  }

  /** Exactly such texts are read, as the number that the digits spell. */
  lemma NumeralRead(s: Bytes, sign: Bytes, digits: Bytes, tail: Bytes)
    requires Numeral(s, sign, digits, tail)
    ensures Number(s) == Some(if sign == [MINUS] then -(Digits(digits, 0) as int) else Digits(digits, 0))
  {
    var t := digits + tail;
    assert s == sign + t;
    DigitsFirst(digits, tail);
    DigitsOfAppend(digits, tail, 0);
    assert Digits(t, 0) == Digits(digits, 0);
    if sign == [] {
      assert s == t;
      assert t != [] ==> !IsSpace(t[0]) && t[0] != MINUS && t[0] != PLUS;
    } else {
      assert s[0] == sign[0] && s[1..] == t && t[0] == digits[0];
    }
  }

  lemma NumberIsNumeral(s: Bytes) returns (sign: Bytes, digits: Bytes, tail: Bytes)
    requires Number(s).Some?
    ensures Numeral(s, sign, digits, tail)
  {
    sign := if s != [] && (s[0] == MINUS || s[0] == PLUS) then [s[0]] else [];
    var t := if sign == [] then s else s[1..];
    digits := SplitDigits(t);
    tail := AfterDigits(t);
    assert s == sign + t;
  }

  function AfterDigits(s: Bytes): Bytes {
    if s == [] || !IsDigit(s[0]) then s else AfterDigits(s[1..])
  }

  lemma {:induction false} NothingAfterDigits(s: Bytes)
    requires forall i :: 0 <= i < |s| ==> IsDigit(s[i])
    ensures AfterDigits(s) == []
  {
    if s != [] {
      NothingAfterDigits(s[1..]);
    }
  }

  /** createStringObjectFromLongLong and the %d format. */
  function DecInt(n: int): Bytes {
    if n < 0 then [MINUS] + Dec(-n) else Dec(n)
  }

  lemma AtoiOfDecInt(n: int)
    ensures Atoi(DecInt(n)) == n
  {
    if n < 0 {
      DigitsOfDec(-n);
      assert DecInt(n)[1..] == Dec(-n);
    } else {
      AtoiOfDec(n, []);
      assert Dec(n) + [] == Dec(n);
    }
  }

  /** A printed number is read back. */
  lemma NumberOfDecInt(n: int)
    ensures Number(DecInt(n)) == Some(n)
  {
    AtoiOfDecInt(n);
    if n < 0 {
      assert DecInt(n)[1..] == Dec(-n);
      NothingAfterDigits(Dec(-n));
    } else {
      NothingAfterDigits(Dec(n));
    }
  }
}
