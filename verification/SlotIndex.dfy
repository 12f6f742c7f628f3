/** The index from hash slots to keys: a list of (slot, key) pairs in order. */
module SlotIndex {
  import opened Database

  type Slot = s: nat | s < 16384

  /** KEY_HASH_SLOT. */
  const KEY_HASH_SLOT: Key -> Slot

  type Element = (Slot, Key)

  /** compareStringObjects: as memcmp, then the shorter one first. */
  predicate Less(a: Key, b: Key) {
    if b == [] then false
    else if a == [] then true
    else a[0] < b[0] || (a[0] == b[0] && Less(a[1..], b[1..]))
  }

  lemma {:induction false} LessTotal(a: Key, b: Key)
    ensures a == b || Less(a, b) || Less(b, a)
    ensures !(Less(a, b) && Less(b, a))
    ensures !Less(a, a)
  {
    if a != [] && b != [] {
      LessTotal(a[1..], b[1..]);
      if a[0] == b[0] && a[1..] == b[1..] {
        assert a == [a[0]] + a[1..] && b == [b[0]] + b[1..];
      }
    }
    if a != [] {
      LessTotal(a[1..], a[1..]);
    }
  }

  /** At position `i` the first byte differs, and is smaller. */
  predicate Decides(a: Key, b: Key, i: int) {
    0 <= i < |a| && i < |b| && a[..i] == b[..i] && a[i] < b[i]
  }

  lemma DecidesLater(a: Key, b: Key, i: nat, j: nat)
    requires a != [] && b != [] && a[0] == b[0] && j == i + 1
    ensures Decides(a[1..], b[1..], i) <==> Decides(a, b, j)
  {
    if j < |a| && j < |b| {
      assert a[..j] == [a[0]] + a[1..][..i] && b[..j] == [b[0]] + b[1..][..i];
      assert a[..j][1..] == a[1..][..i] && b[..j][1..] == b[1..][..i];
    }
  }

  lemma FirstDecides(a: Key, b: Key)
    requires a != [] && b != [] && a[0] != b[0]
    ensures Decides(a, b, 0) <==> a[0] < b[0]
    ensures forall i :: i > 0 ==> !Decides(a, b, i)
  {
    assert a[..0] == b[..0];
    forall i | i > 0 ensures !Decides(a, b, i) {
      if i < |a| && i < |b| {
        assert a[..i][0] != b[..i][0];
      }
    }
  }

  /** The first byte that differs decides; without one the shorter key comes first. */
  lemma {:induction false} LessExactly(a: Key, b: Key)
    ensures Less(a, b) <==> a < b || exists i :: Decides(a, b, i)
  {
    if a != [] && b != [] {
      if a[0] == b[0] {
        LessExactly(a[1..], b[1..]);
        if i :| Decides(a, b, i) {
          DecidesLater(a, b, i - 1, i);
        }
        if i :| Decides(a[1..], b[1..], i) {
          DecidesLater(a, b, i, i + 1);
        }
        assert a == [a[0]] + a[1..] && b == [b[0]] + b[1..];
      } else {
        FirstDecides(a, b);
      }
    }
  }

  lemma {:induction false} LessTransitive(a: Key, b: Key, c: Key)
    requires Less(a, b) && Less(b, c)
    ensures Less(a, c)
  {
    if a != [] && a[0] == b[0] && b[0] == c[0] {
      LessTransitive(a[1..], b[1..], c[1..]);
    }
  }

  /** The order of the skip list: by score, then by object. */
  predicate Before(d: Element, e: Element) {
    d.0 < e.0 || (d.0 == e.0 && Less(d.1, e.1))
  }

  lemma BeforeTotal(d: Element, e: Element)
    ensures d == e || Before(d, e) || Before(e, d)
    ensures !(Before(d, e) && Before(e, d)) && !Before(d, d)
  {
    LessTotal(d.1, e.1);
    LessTotal(d.1, d.1);
  }

  lemma BeforeTransitive(d: Element, e: Element, f: Element)
    requires Before(d, e) && Before(e, f)
    ensures Before(d, f)
  {
    if d.0 == e.0 && e.0 == f.0 {
      LessTransitive(d.1, e.1, f.1);
    }
  }

  ghost predicate Sorted(ix: seq<Element>) {
    forall i, j :: 0 <= i < j < |ix| ==> Before(ix[i], ix[j])
  }

  /** The index lists exactly the keys, each under its slot, in order. */
  ghost predicate Indexes(ix: seq<Element>, keys: set<Key>) {
    && Sorted(ix)
    && (forall e :: e in ix ==> e.1 in keys && e.0 == KEY_HASH_SLOT(e.1))
    && forall k :: k in keys ==> (KEY_HASH_SLOT(k), k) in ix
  }

  /** zslInsert, for an element that is not there. */
  method Insert(ix: seq<Element>, e: Element) returns (r: seq<Element>)
    requires Sorted(ix) && e !in ix
    ensures Sorted(r) && forall d :: d in r <==> d in ix || d == e
  {
    var i := 0;
    while i < |ix| && Before(ix[i], e)
      invariant 0 <= i <= |ix| && forall j :: 0 <= j < i ==> Before(ix[j], e)
    {
      i := i + 1;
    }
    r := ix[..i] + [e] + ix[i..];
    InsertSorted(ix, i, e);
    assert ix == ix[..i] + ix[i..];
  }

  lemma InsertSorted(ix: seq<Element>, i: nat, e: Element)
    requires Sorted(ix) && e !in ix && i <= |ix| && (forall j :: 0 <= j < i ==> Before(ix[j], e))
    requires i < |ix| ==> !Before(ix[i], e)
    ensures Sorted(ix[..i] + [e] + ix[i..])
  {
    forall j | i <= j < |ix| ensures Before(e, ix[j]) {
      BeforeTotal(ix[i], e);
      if i < j {
        BeforeTransitive(e, ix[i], ix[j]);
      }
    }
  }

  /** zslDelete, for an element that is there. */
  method Remove(ix: seq<Element>, e: Element) returns (r: seq<Element>, ghost at: nat)
    requires Sorted(ix) && e in ix
    ensures Sorted(r) && (forall d :: d in r <==> d in ix && d != e)
    ensures at < |ix| && ix[at] == e && r == ix[..at] + ix[at + 1..]
  {
    var i := 0;
    while ix[i] != e
      invariant 0 <= i < |ix| && e !in ix[..i]
      decreases |ix| - i
    {
      i := i + 1;
    }
    at := i;
    r := ix[..i] + ix[i + 1..];
    RemoveOk(ix, i);
  }

  lemma RemoveOk(ix: seq<Element>, i: nat)
    requires Sorted(ix) && i < |ix|
    ensures var r := ix[..i] + ix[i + 1..];
      Sorted(r) && forall d :: d in r <==> d in ix && d != ix[i]
  {
    var r := ix[..i] + ix[i + 1..];
    forall d ensures d in r <==> d in ix && d != ix[i] {
      if d in r {
        var j :| 0 <= j < |r| && r[j] == d;
        assert d == ix[if j < i then j else j + 1];
        BeforeTotal(d, d);
      }
      if d in ix && d != ix[i] {
        var j :| 0 <= j < |ix| && ix[j] == d;
        assert d == r[if j < i then j else j - 1];
      }
    }
  }

  /** zslFirstInRange for a single slot: the position, or the length if there is none. */
  method FirstInSlot(ix: seq<Element>, slot: Slot) returns (i: nat)
    requires Sorted(ix)
    ensures i <= |ix| && (forall j :: 0 <= j < i ==> ix[j].0 < slot) && (i < |ix| ==> ix[i].0 >= slot)
  {
    i := 0;
    while i < |ix| && ix[i].0 < slot
      invariant i <= |ix| && forall j :: 0 <= j < i ==> ix[j].0 < slot
    {
      i := i + 1;
    }
  }
}
