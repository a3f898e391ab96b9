/** Bytes, fixed-width integer encodings and the sequence helpers the protocol modules share. */
module Bytes {
  type Byte = x: int | 0 <= x < 256

  type U16 = x: int | 0 <= x < 0x1_0000

  type U32 = x: int | 0 <= x < 0x1_0000_0000

  datatype Option<+T> = None | Some(value: T)

  // Little-endian encodings (htol16, htol32).
  function Le16(v: U16): (b: seq<Byte>)
    ensures |b| == 2
  {
    [v % 256, v / 256]
  }

  function FromLe16(b: seq<Byte>): U16
    requires |b| >= 2
  {
    b[0] as int + 256 * (b[1] as int)
  }

  function Le32(v: U32): (b: seq<Byte>)
    ensures |b| == 4
  {
    Le16(v % 0x1_0000) + Le16(v / 0x1_0000)
  }

  function FromLe32(b: seq<Byte>): U32
    requires |b| >= 4
  {
    FromLe16(b[..2]) as int + 0x1_0000 * (FromLe16(b[2..4]) as int)
  }

  // Big-endian 16-bit encoding (binary.BigEndian).
  function Be16(v: U16): (b: seq<Byte>)
    ensures |b| == 2
  {
    [v / 256, v % 256]
  }

  function FromBe16(b: seq<Byte>): U16
    requires |b| >= 2
  {
    256 * (b[0] as int) + b[1] as int
  }

  // memcpy: the bytes from position at on are replaced.
  function Overwrite(b: seq<Byte>, at: nat, data: seq<Byte>): (r: seq<Byte>)
    requires at + |data| <= |b|
    ensures |r| == |b|
  {
    b[..at] + data + b[at + |data|..]
  }

  method CopyInto(buf: array<Byte>, at: nat, data: seq<Byte>)
    requires at + |data| <= buf.Length
    modifies buf
    ensures buf[..] == Overwrite(old(buf[..]), at, data)
    ensures buf[..at + |data|] == old(buf[..at]) + data
  {
    forall i | 0 <= i < |data| {
      buf[at + i] := data[i];
    }
  }

  lemma Le16Onto(b: seq<Byte>)
    requires |b| >= 2
    ensures Le16(FromLe16(b)) == b[..2]
  {
  }

  lemma Halves(lo: U16, hi: U16)
    ensures (lo + 0x1_0000 * hi) % 0x1_0000 == lo && (lo + 0x1_0000 * hi) / 0x1_0000 == hi
  {
  }

  lemma Le32Onto(b: seq<Byte>)
    requires |b| >= 4
    ensures Le32(FromLe32(b)) == b[..4]
  {
    Halves(FromLe16(b[..2]), FromLe16(b[2..4]));
    Le16Onto(b[..2]);
    Le16Onto(b[2..4]);
    assert b[..4] == b[..2][..2] + b[2..4][..2];
  }

  lemma Le32RoundTrip(v: U32, rest: seq<Byte>)
    ensures FromLe32(Le32(v) + rest) == v
  {
    var b := Le32(v) + rest;
    assert b[..2] == Le16(v % 0x1_0000);
    assert b[2..4] == Le16(v / 0x1_0000);
  }
}

/** Sequences that stand for the linked lists of the source. */
module Lists {
  predicate NoDup<T(==)>(s: seq<T>) {
    forall i, j :: 0 <= i < j < |s| ==> s[i] != s[j]
  }

  // Unlinking one node by its position.
  function RemoveAt<T>(s: seq<T>, i: nat): (r: seq<T>)
    requires i < |s|
    ensures |r| == |s| - 1
  {
    s[..i] + s[i + 1..]
  }

  // The position of an element, or the length when it is absent.
  function IndexOf<T(==)>(s: seq<T>, x: T): (i: nat)
    ensures i <= |s|
    ensures i < |s| ==> s[i] == x
    ensures i == |s| <==> x !in s
    ensures forall k :: 0 <= k < i ==> s[k] != x
  {
    if s == [] then 0 else if s[0] == x then 0 else 1 + IndexOf(s[1..], x)
  }

  // Unlinking a node given by its element.
  function Remove<T(==)>(s: seq<T>, x: T): seq<T> {
    var i := IndexOf(s, x);
    if i < |s| then RemoveAt(s, i) else s
  }

  lemma RemoveContents<T>(s: seq<T>, x: T)
    requires NoDup(s)
    ensures NoDup(Remove(s, x))
    ensures forall y :: y in Remove(s, x) <==> y in s && y != x
    ensures |Remove(s, x)| == |s| - (if x in s then 1 else 0)
  {
    var i := IndexOf(s, x);
    var r := Remove(s, x);
    if i < |s| {
      forall y | y in s && y != x ensures y in r {
        var k :| 0 <= k < |s| && s[k] == y;
        if k < i { assert r[k] == y; } else { assert r[k - 1] == y; }
      }
    }
  }

  lemma ConcatDistinct<T>(a: seq<T>, b: seq<T>)
    requires NoDup(a) && NoDup(b) && forall x :: x in a ==> x !in b
    ensures NoDup(a + b) && forall x :: x in a + b <==> x in a || x in b
  {
    var c := a + b;
    forall i, j | 0 <= i < j < |c| ensures c[i] != c[j] {
      if i < |a| && |a| <= j {
        assert a[i] in a && b[j - |a|] in b;
      }
    }
  }

  lemma Assoc<T>(a: seq<T>, b: seq<T>, c: seq<T>)
    ensures (a + b) + c == a + (b + c)
  {
  }

  lemma EmptyUnits<T>(a: seq<T>, b: seq<T>)
    ensures (a + b) + [] == a + b && (a + []) + b == a + b && a + [] == a
  {
  }

  lemma NoDupOnce<T>(s: seq<T>, x: T)
    requires NoDup(s)
    ensures multiset(s)[x] == if x in s then 1 else 0
  {
    if s != [] {
      assert s == s[..|s| - 1] + [s[|s| - 1]];
      NoDupOnce(s[..|s| - 1], x);
    }
  }

  // A rearrangement of a list without duplicates has none either.
  lemma PermutationNoDup<T>(s: seq<T>, t: seq<T>)
    requires NoDup(s) && multiset(s) == multiset(t)
    ensures NoDup(t)
    ensures forall x :: x in s <==> x in t
    ensures |s| == |t|
  {
    forall i, j | 0 <= i < j < |t| ensures t[i] != t[j] {
      if t[i] == t[j] {
        assert t == t[..j] + t[j..];
        assert t[..j][i] == t[i] && t[j..][0] == t[j];
        assert multiset(t)[t[i]] >= 2;
        NoDupOnce(s, t[i]);
      }
    }
    forall x ensures x in s <==> x in t {
      assert x in s <==> x in multiset(s);
      assert x in t <==> x in multiset(t);
    }
    assert |multiset(s)| == |s| && |multiset(t)| == |t|;
  }
}
