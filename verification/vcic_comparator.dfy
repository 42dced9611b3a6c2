/** The comparator for vertex-to-category coverage records: the Java `int`
    difference of the two records' vertex ids. */
module VCICComparator {

  import opened Int32

  /** A vertex-to-category coverage record. Only its vertex id matters to
      the comparator; its other fields are the opaque `payload`. */
  datatype Coverage<P> = Coverage(vertex: int32, payload: P) {

    function GetVertex(): int32 {
      vertex
    }
  }

  /** `compare(a, b)`: `a.getVertex() - b.getVertex()` in 32-bit
      arithmetic, so the result is the true difference wrapped into range. */
  function Compare<P>(a: Coverage<P>, b: Coverage<P>): (r: int32)
    ensures (r - (a.GetVertex() - b.GetVertex())) % MODULUS == 0
    ensures InRange(a.GetVertex() - b.GetVertex()) ==> r == a.GetVertex() - b.GetVertex()
  {
    Wrap(a.vertex - b.vertex)
  }

  /** Every record compares equal to itself. */
  lemma CompareSelf<P>(a: Coverage<P>)
    ensures Compare(a, a) == 0
  {
  }

  /** The comparison looks at the vertex ids alone: records that differ
      only in their other fields compare the same way. */
  lemma CompareIgnoresPayload<P>(a: Coverage<P>, b: Coverage<P>, p: P, q: P)
    ensures Compare(a, b) == Compare(a.(payload := p), b.(payload := q))
  {
  }

  /** The difference of two vertex ids does not overflow. */
  predicate NoOverflow<P>(a: Coverage<P>, b: Coverage<P>) {
    InRange(a.GetVertex() - b.GetVertex())
  }

  /** Non-negative vertex ids never overflow. */
  lemma NonNegativeNoOverflow<P>(a: Coverage<P>, b: Coverage<P>)
    requires a.GetVertex() >= 0 && b.GetVertex() >= 0
    ensures NoOverflow(a, b) && NoOverflow(b, a)
  {
  }

  /** Without overflow the sign of the result is the numeric order of the
      vertex ids. */
  lemma CompareSign<P>(a: Coverage<P>, b: Coverage<P>)
    requires NoOverflow(a, b)
    ensures Compare(a, b) < 0 <==> a.GetVertex() < b.GetVertex()
    ensures Compare(a, b) == 0 <==> a.GetVertex() == b.GetVertex()
    ensures Compare(a, b) > 0 <==> a.GetVertex() > b.GetVertex()
  {
  }

  /** Among records whose pairwise differences do not overflow, the
      comparator satisfies Java's `Comparator` contract: it is antisymmetric
      in sign and transitive, for both `<` and `==`. */
  lemma CompareIsOrderWithoutOverflow<P>(a: Coverage<P>, b: Coverage<P>, c: Coverage<P>)
    requires NoOverflow(a, b) && NoOverflow(b, a) && NoOverflow(b, c) && NoOverflow(a, c)
    ensures Compare(a, b) < 0 <==> Compare(b, a) > 0
    ensures Compare(a, b) == 0 <==> Compare(b, a) == 0
    ensures Compare(a, b) < 0 && Compare(b, c) < 0 ==> Compare(a, c) < 0
    ensures Compare(a, b) == 0 && Compare(b, c) == 0 ==> Compare(a, c) == 0
  {
  }

  /** With overflow the sign is wrong: `MIN_VALUE` compares above 1. */
  lemma OverflowMisorders()
    ensures var a, b := Coverage(MIN, ()), Coverage(1, ());
      a.GetVertex() < b.GetVertex() && Compare(a, b) > 0
  {
    var a, b := Coverage(MIN, ()), Coverage(1, ());
    assert Compare(a, b) == MAX;
  }

  /** With overflow the comparator is not transitive:
      `MIN_VALUE < 0` and `0 < 1`, yet `MIN_VALUE > 1`. */
  lemma OverflowBreaksTransitivity()
    ensures var a, b, c := Coverage(MIN, ()), Coverage(0, ()), Coverage(1, ());
      Compare(a, b) < 0 && Compare(b, c) < 0 && Compare(a, c) > 0
  {
    var a, b, c := Coverage(MIN, ()), Coverage(0, ()), Coverage(1, ());
    assert Compare(a, b) == MIN;
    assert Compare(b, c) == -1;
    assert Compare(a, c) == MAX;
  }

  /** The numeric comparison of vertex ids (`Integer.compare`): -1, 0 or 1 by the numeric order, for every pair of ids. */
  function CompareVertices<P>(a: Coverage<P>, b: Coverage<P>): (r: int32)
    ensures r < 0 <==> a.GetVertex() < b.GetVertex()
    ensures r == 0 <==> a.GetVertex() == b.GetVertex()
    ensures r > 0 <==> a.GetVertex() > b.GetVertex()
  {
    if a.vertex < b.vertex then -1
    else if a.vertex == b.vertex then 0
    else 1
  }

  /** The corrected comparator satisfies the `Comparator` contract for all
      vertex ids, including the ones where the subtraction overflows. */
  lemma CompareVerticesIsOrder<P>(a: Coverage<P>, b: Coverage<P>, c: Coverage<P>)
    ensures CompareVertices(a, b) < 0 <==> CompareVertices(b, a) > 0
    ensures CompareVertices(a, b) == 0 <==> CompareVertices(b, a) == 0
    ensures CompareVertices(a, b) < 0 && CompareVertices(b, c) < 0 ==> CompareVertices(a, c) < 0
    ensures CompareVertices(a, b) == 0 && CompareVertices(b, c) == 0 ==> CompareVertices(a, c) == 0
  {
  }

  /** Where the subtraction does not overflow, both comparators order
      records the same way. */
  lemma CompareAgreesWithoutOverflow<P>(a: Coverage<P>, b: Coverage<P>)
    requires NoOverflow(a, b)
    ensures (Compare(a, b) < 0 <==> CompareVertices(a, b) < 0)
    ensures (Compare(a, b) == 0 <==> CompareVertices(a, b) == 0)
  {
  }
}
