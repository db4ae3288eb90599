/** Facts about plain sequences shared by the syntax tree (node identities)
    and the driver (its frontier and the keys it writes). */
module Seqs {

  /** No element occurs twice. */
  predicate Distinct<T(==)>(xs: seq<T>)
  {
    forall i, j :: 0 <= i < j < |xs| ==> xs[i] != xs[j]
  }

  lemma {:induction false} DistinctSplit<T>(a: seq<T>, b: seq<T>)
    requires Distinct(a + b)
    ensures Distinct(a) && Distinct(b)
    ensures forall x :: x in a ==> x !in b
  {
    forall i, j | 0 <= i < j < |a|
      ensures a[i] != a[j]
    {
      assert (a + b)[i] == a[i] && (a + b)[j] == a[j];
    }
    forall i, j | 0 <= i < j < |b|
      ensures b[i] != b[j]
    {
      assert (a + b)[|a| + i] == b[i];
      assert (a + b)[|a| + j] == b[j];
    }
    forall x | x in a
      ensures x !in b
    {
      var i :| 0 <= i < |a| && a[i] == x;
      if j :| 0 <= j < |b| && b[j] == x {
        assert (a + b)[i] == x && (a + b)[|a| + j] == x;
      }
    }
  }

  /** Appending a new element keeps the elements distinct. */
  lemma DistinctSnoc<T>(a: seq<T>, x: T)
    requires Distinct(a) && x !in a
    ensures Distinct(a + [x])
  {
    forall i, j | 0 <= i < j < |a + [x]|
      ensures (a + [x])[i] != (a + [x])[j]
    {
      assert (a + [x])[i] == a[i];
      if j < |a| {
        assert (a + [x])[j] == a[j];
      }
    }
  }
}
