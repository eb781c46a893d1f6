/** Optional values, standing in for Python's `None`-or-object results, and
    the reading of a sequence of optional values as the list of those
    present. */
module Results {

  datatype Option<T> = None | Some(value: T)

  /** The values present in `os` from position `i` on, in order. */
  function Somes<T>(os: seq<Option<T>>, i: nat): (r: seq<T>)
    requires i <= |os|
    ensures |r| <= |os| - i
    decreases |os| - i
  {
    if i == |os| then []
    else if os[i].Some? then [os[i].value] + Somes(os, i + 1)
    else Somes(os, i + 1)
  }

  /** The positions, from `i` on, that hold a value, in increasing order. */
  function SomePositions<T>(os: seq<Option<T>>, i: nat): (r: seq<nat>)
    requires i <= |os|
    ensures forall k :: 0 <= k < |r| ==> i <= r[k] < |os| && os[r[k]].Some?
    ensures forall k, m :: 0 <= k < m < |r| ==> r[k] < r[m]
    decreases |os| - i
  {
    if i == |os| then []
    else if os[i].Some? then
      var rest := SomePositions(os, i + 1);
      var r := [i] + rest;
      assert forall k :: 1 <= k < |r| ==> r[k] == rest[k - 1];
      r
    else SomePositions(os, i + 1)
  }

  /** The `k`-th value present is the one at the `k`-th position holding one. */
  lemma {:induction false} SomesAtPositions<T>(os: seq<Option<T>>, i: nat)
    requires i <= |os|
    ensures |Somes(os, i)| == |SomePositions(os, i)|
    ensures forall k :: 0 <= k < |SomePositions(os, i)| ==>
      os[SomePositions(os, i)[k]] == Some(Somes(os, i)[k])
    decreases |os| - i
  {
    if i < |os| {
      SomesAtPositions(os, i + 1);
      var ps, vs := SomePositions(os, i + 1), Somes(os, i + 1);
      if os[i].Some? {
        var ps', vs' := SomePositions(os, i), Somes(os, i);
        assert ps' == [i] + ps && vs' == [os[i].value] + vs;
        forall k | 1 <= k < |ps'|
          ensures os[ps'[k]] == Some(vs'[k])
        {
          assert ps'[k] == ps[k - 1] && vs'[k] == vs[k - 1];
        }
      } else {
        assert SomePositions(os, i) == ps && Somes(os, i) == vs;
      }
    }
  }

  /** A value is present from `i` on exactly when some position there holds it. */
  lemma {:induction false} SomesMembership<T>(os: seq<Option<T>>, i: nat, x: T)
    requires i <= |os|
    ensures x in Somes(os, i) <==> exists h :: i <= h < |os| && os[h] == Some(x)
    decreases |os| - i
  {
    if i < |os| {
      SomesMembership(os, i + 1, x);
    }
  }

  /** Positions holding no value contribute nothing. */
  lemma {:induction false} SomesSkipNone<T>(os: seq<Option<T>>, i: nat, j: nat)
    requires i <= j <= |os|
    requires forall h :: i <= h < j ==> os[h].None?
    ensures Somes(os, i) == Somes(os, j)
    decreases j - i
  {
    if i < j {
      SomesSkipNone(os, i + 1, j);
    }
  }

  /** Reading past the end of `a` continues into `b`. */
  lemma {:induction false} SomesConcat<T>(a: seq<Option<T>>, b: seq<Option<T>>, i: nat)
    requires i <= |a|
    ensures Somes(a + b, i) == Somes(a, i) + Somes(b, 0)
    decreases |a| - i
  {
    if i < |a| {
      SomesConcat(a, b, i + 1);
      assert (a + b)[i] == a[i];
      if a[i].Some? {
        assert Somes(a + b, i) == [a[i].value] + Somes(a + b, i + 1);
        assert Somes(a, i) == [a[i].value] + Somes(a, i + 1);
      }
    } else {
      SomesShift(a, b, 0);
    }
  }

  lemma {:induction false} SomesShift<T>(a: seq<Option<T>>, b: seq<Option<T>>, i: nat)
    requires i <= |b|
    ensures Somes(a + b, |a| + i) == Somes(b, i)
    decreases |b| - i
  {
    if i < |b| {
      SomesShift(a, b, i + 1);
      assert (a + b)[|a| + i] == b[i];
    }
  }

  /** Leading positions that hold no value can be dropped. */
  lemma SomesAfterNones<T>(os: seq<Option<T>>, n: nat)
    requires n <= |os|
    requires forall h :: 0 <= h < n ==> os[h].None?
    ensures Somes(os, 0) == Somes(os[n..], 0)
  {
    SomesSkipNone(os, 0, n);
    assert os == os[..n] + os[n..];
    SomesShift(os[..n], os[n..], 0);
  }
}
