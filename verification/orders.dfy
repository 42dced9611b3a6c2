/** Strict total orders on dictionary keys, and the two concrete key orders
    the dictionaries are sorted and searched by. */
module Orders {

  import opened Int32

  ghost predicate Irreflexive<T(!new)>(less: (T, T) -> bool) {
    forall x :: !less(x, x)
  }

  ghost predicate Transitive<T(!new)>(less: (T, T) -> bool) {
    forall x, y, z :: less(x, y) && less(y, z) ==> less(x, z)
  }

  /** Any two keys are equal or ordered one way or the other. */
  ghost predicate Trichotomous<T(!new)>(less: (T, T) -> bool) {
    forall x, y :: x == y || less(x, y) || less(y, x)
  }

  /** What a comparator must provide so that sorting and binary search agree. */
  ghost predicate StrictTotalOrder<T(!new)>(less: (T, T) -> bool) {
    && Irreflexive(less)
    && Transitive(less)
    && Trichotomous(less)
  }

  /** Term order: Java's `String.compareTo(a, b) < 0`. Characters are
      compared left to right; when one string is a proper prefix of the
      other, the shorter comes first. */
  predicate StringLess(a: string, b: string): (r: bool)
    ensures |a| < |b| && a == b[..|a|] ==> r
    ensures |b| <= |a| && b == a[..|b|] ==> !r
    decreases |a|
  {
    if |a| == 0 then |b| > 0
    else if |b| == 0 then false
    else if a[0] != b[0] then a[0] < b[0]
    else
      assert |a| < |b| && a == b[..|a|] ==> a[1..] == b[1..][..|a| - 1] by {
        if |a| < |b| && a == b[..|a|] {
          assert a[1..] == b[..|a|][1..];
        }
      }
      assert |b| <= |a| && b == a[..|b|] ==> b[1..] == a[1..][..|b| - 1];
      StringLess(a[1..], b[1..])
  }

  /** At the first index where two strings differ, the smaller character
      decides the term order. */
  lemma {:induction false} StringLessFirstDifference(a: string, b: string, i: nat)
    requires i < |a| && i < |b| && a[..i] == b[..i] && a[i] != b[i]
    ensures StringLess(a, b) <==> a[i] < b[i]
    decreases i
  {
    if i > 0 {
      assert a[0] == a[..i][0] && b[0] == b[..i][0];
      assert a[1..][..i - 1] == a[..i][1..] && b[1..][..i - 1] == b[..i][1..];
      StringLessFirstDifference(a[1..], b[1..], i - 1);
    }
  }

  /** `Integer.compareTo`, the natural order of boxed vertex ids. */
  function IntegerCompare(a: int32, b: int32): int32 {
    if a < b then -1 else if a == b then 0 else 1
  }

  /** Vertex order: `compareTo(a, b) < 0`, which is numeric order. */
  predicate VertexLess(a: int32, b: int32): (r: bool)
    ensures r <==> a < b
  {
    IntegerCompare(a, b) < 0
  }

  lemma {:induction false} StringLessIrreflexive(a: string)
    ensures !StringLess(a, a)
    decreases |a|
  {
    if |a| > 0 {
      StringLessIrreflexive(a[1..]);
    }
  }

  lemma {:induction false} StringLessTransitive(a: string, b: string, c: string)
    requires StringLess(a, b) && StringLess(b, c)
    ensures StringLess(a, c)
    decreases |a|
  {
    if |a| > 0 && a[0] == b[0] && b[0] == c[0] {
      StringLessTransitive(a[1..], b[1..], c[1..]);
    }
  }

  lemma {:induction false} StringLessTrichotomous(a: string, b: string)
    ensures a == b || StringLess(a, b) || StringLess(b, a)
    decreases |a|
  {
    if |a| > 0 && |b| > 0 && a[0] == b[0] {
      StringLessTrichotomous(a[1..], b[1..]);
      if a[1..] == b[1..] {
        assert a == [a[0]] + a[1..] && b == [b[0]] + b[1..];
      }
    }
  }

  /** The term comparator is a valid sort and search order. */
  lemma StringLessIsStrictTotalOrder()
    ensures StrictTotalOrder(StringLess)
  {
    forall a: string
      ensures !StringLess(a, a)
    {
      StringLessIrreflexive(a);
    }
    forall a: string, b: string, c: string | StringLess(a, b) && StringLess(b, c)
      ensures StringLess(a, c)
    {
      StringLessTransitive(a, b, c);
    }
    forall a: string, b: string
      ensures a == b || StringLess(a, b) || StringLess(b, a)
    {
      StringLessTrichotomous(a, b);
    }
  }

  /** The vertex comparator is a valid sort and search order. */
  lemma VertexLessIsStrictTotalOrder()
    ensures StrictTotalOrder(VertexLess)
  {
  }
}
