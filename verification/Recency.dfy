/**
  Pools in which what was used last is listed last, and the first makes way when the
  pool is full: whether an element is still there, from what has been used after it.
 */
module Recency {
  import opened Bytes
  import opened Lists

  // Room for one more: the first goes if there is none.
  function Room<T>(s: seq<T>, max: nat): (r: seq<T>)
    requires max > 0
    ensures |s| <= max ==> |r| < max
  {
    if |s| < max || s == [] then s else s[1..]
  }

  function Renewed<T(==)>(list: seq<T>, x: T, max: nat): seq<T>
    requires max > 0
  {
    (if x in list then Remove(list, x) else Room(list, max)) + [x]
  }

  function Elems<T(==)>(s: seq<T>): set<T> {
    set n | n in s
  }

  lemma ElemsConcat<T>(a: seq<T>, b: seq<T>)
    ensures Elems(a + b) == Elems(a) + Elems(b)
  {
  }

  lemma ElemsBut<T>(a: seq<T>, x: T, b: seq<T>)
    requires NoDup(a + [x] + b)
    ensures Elems(a + b) == Elems(a + [x] + b) - {x}
  {
    var all := a + [x] + b;
    assert all[|a|] == x;
    assert forall i :: 0 <= i < |a| ==> a[i] == all[i];
    assert forall i :: 0 <= i < |b| ==> b[i] == all[|a| + 1 + i];
    ElemsConcat(a, b);
    ElemsConcat(a + [x], b);
    ElemsConcat(a, [x]);
  }

  // What a list has after one of its elements.
  function Follow<T(==)>(list: seq<T>, m: T): Option<set<T>> {
    if m in list then Some(Elems(list[IndexOf(list, m) + 1..])) else None
  }

  lemma FollowAt<T>(list: seq<T>, i: nat)
    requires NoDup(list) && i < |list|
    ensures Follow(list, list[i]) == Some(Elems(list[i + 1..]))
  {
    assert IndexOf(list, list[i]) == i;
  }

  lemma FollowThen<T>(rest: seq<T>, n: T, m: T)
    requires n != m
    ensures Follow(rest + [n], m) == if m in rest then Some(Follow(rest, m).value + {n}) else None
  {
    if m in rest {
      var i := IndexOf(rest, m);
      IndexInPrefix(rest, n, m);
      assert (rest + [n])[i + 1..] == rest[i + 1..] + [n];
      ElemsConcat(rest[i + 1..], [n]);
      assert Elems([n]) == {n};
    }
  }

  lemma IndexInPrefix<T>(rest: seq<T>, n: T, m: T)
    requires m in rest
    ensures IndexOf(rest + [n], m) == IndexOf(rest, m)
  {
    var i := IndexOf(rest, m);
    assert (rest + [n])[i] == m;
    assert forall k :: 0 <= k < i ==> (rest + [n])[k] == rest[k];
  }

  lemma FollowLast<T>(rest: seq<T>, m: T)
    requires m !in rest
    ensures Follow(rest + [m], m) == Some({})
  {
    var list := rest + [m];
    assert list[|rest|] == m;
    assert forall k :: 0 <= k < |rest| ==> list[k] == rest[k];
    assert IndexOf(list, m) == |rest|;
    assert list[|rest| + 1..] == [];
    assert Elems(list[|rest| + 1..]) == {};
  }

  lemma FollowWithout<T>(list: seq<T>, n: T, m: T)
    requires NoDup(list) && n != m
    ensures Follow(Remove(list, n), m) == if m in list then Some(Follow(list, m).value - {n}) else None
  {
    RemoveContents(list, n);
    if m in list {
      var i := IndexOf(list, m);
      if n in list {
        FollowButOne(list, i, IndexOf(list, n));
      } else {
        assert n !in list[i + 1..];
        assert Elems(list[i + 1..]) - {n} == Elems(list[i + 1..]);
      }
    }
  }

  lemma FollowButOne<T>(list: seq<T>, i: nat, j: nat)
    requires i < |list| && j < |list| && i != j && NoDup(list) && NoDup(RemoveAt(list, j))
    ensures Follow(RemoveAt(list, j), list[i]) == Some(Elems(list[i + 1..]) - {list[j]})
  {
    var r := RemoveAt(list, j);
    if j < i {
      assert r[i - 1] == list[i] && r[i..] == list[i + 1..];
      FollowAt(r, i - 1);
      assert list[j] !in list[i + 1..];
      assert Elems(list[i + 1..]) - {list[j]} == Elems(list[i + 1..]);
    } else {
      assert r[i] == list[i];
      FollowAt(r, i);
      assert list[i + 1..] == list[i + 1..j] + [list[j]] + list[j + 1..];
      assert r[i + 1..] == list[i + 1..j] + list[j + 1..];
      ElemsBut(list[i + 1..j], list[j], list[j + 1..]);
    }
  }

  lemma FollowTail<T>(list: seq<T>, m: T)
    requires NoDup(list) && list != []
    ensures Follow(list[1..], m) == if m == list[0] then None else Follow(list, m)
  {
    if m != list[0] && m in list {
      var i := IndexOf(list, m);
      assert list[1..][i - 1] == m;
      FollowAt(list[1..], i - 1);
      assert list[1..][i..] == list[i + 1..];
    }
  }

  lemma {:induction false} DistinctCount<T>(s: seq<T>)
    requires NoDup(s)
    ensures |Elems(s)| == |s|
  {
    if s != [] {
      var front, x := s[..|s| - 1], s[|s| - 1];
      DistinctCount(front);
      assert s == front + [x];
      ElemsConcat(front, [x]);
      assert x !in front && Elems([x]) == {x};
    }
  }

  lemma FollowCount<T>(list: seq<T>, m: T)
    requires NoDup(list) && m in list
    ensures |Follow(list, m).value| == |list| - 1 - IndexOf(list, m)
    ensures forall n :: n in Follow(list, m).value ==> n in list && n != m
  {
    DistinctCount(list[IndexOf(list, m) + 1..]);
  }

  // Another element is used: what happens to this one.
  lemma FollowLearned<T>(list: seq<T>, n: T, m: T, max: nat)
    requires NoDup(list) && |list| <= max && max > 0 && n != m
    ensures var f := Follow(list, m);
      Follow(Renewed(list, n, max), m) == if f.Some? && |f.value + {n}| < max then Some(f.value + {n}) else None
  {
    if m in list {
      FollowCount(list, m);
    }
    if n in list {
      FollowWithout(list, n, m);
      RemoveContents(list, n);
      FollowThen(Remove(list, n), n, m);
      if m in list {
        FollowOwn(list, n, m);
      }
    } else {
      FollowThen(Room(list, max), n, m);
      if |list| == max {
        FollowTail(list, m);
      }
    }
  }

  lemma FollowOwn<T>(list: seq<T>, n: T, m: T)
    requires NoDup(list) && m in list && n in list && n != m
    ensures |Follow(list, m).value + {n}| < |list|
    ensures Follow(list, m).value - {n} + {n} == Follow(list, m).value + {n}
  {
    FollowCount(list, m);
    var f := Follow(list, m).value;
    var all := Elems(list);
    DistinctCount(list);
    assert f + {n} <= all - {m};
    SubsetSize(f + {n}, all - {m});
  }

  lemma SubsetSize<T>(a: set<T>, b: set<T>)
    requires a <= b
    ensures |a| <= |b|
  {
    assert b == a + (b - a);
  }

  // An element that has just been used has nothing after it.
  lemma FollowRenewed<T>(list: seq<T>, x: T, max: nat)
    requires NoDup(list) && max > 0
    ensures Follow(Renewed(list, x, max), x) == Some({})
  {
    RemoveContents(list, x);
    FollowLast(if x in list then Remove(list, x) else Room(list, max), x);
  }

  // Nothing comes after what is not there.
  lemma FollowGone<T>(list: seq<T>, x: T)
    requires NoDup(list)
    ensures Follow(Remove(list, x), x) == None
  {
    RemoveContents(list, x);
  }
}
