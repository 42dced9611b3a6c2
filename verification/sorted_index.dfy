/** The sorted keyed collection both dictionaries are built on: an array of
    records, one per distinct key, strictly increasing by key, each record
    accumulating the counterparts observed with its key. */
module SortedIndex {

  import opened Orders

  /** One dictionary entry: a key and the counterparts recorded for it. The
      multiplicity of a counterpart is its occurrence count (the record's
      list of (counterpart, count) entries). */
  datatype Record<K, C> = Record(key: K, entries: multiset<C>)

  function Elements<K>(ks: seq<K>): set<K> {
    set k | k in ks
  }

  /** The keys held by an array of records. */
  function KeySet<K, C>(rs: seq<Record<K, C>>): set<K> {
    set i | 0 <= i < |rs| :: rs[i].key
  }

  ghost predicate IncreasingKeys<K>(ks: seq<K>, less: (K, K) -> bool) {
    forall i, j :: 0 <= i < j < |ks| ==> less(ks[i], ks[j])
  }

  /** Records strictly increasing by key under `less`: no duplicate keys. */
  ghost predicate Sorted<K, C>(rs: seq<Record<K, C>>, less: (K, K) -> bool) {
    forall i, j :: 0 <= i < j < |rs| ==> less(rs[i].key, rs[j].key)
  }

  // ---------------------------------------------------------------------
  // Step 1: distinct-key discovery (a TreeSet filled from the stream)
  // ---------------------------------------------------------------------

  /** Adds `k` to the sorted distinct-key sequence `ks`, as `TreeSet.add`. */
  function Insert<K(==, !new)>(ks: seq<K>, k: K, less: (K, K) -> bool): (r: seq<K>)
    requires StrictTotalOrder(less)
    requires IncreasingKeys(ks, less)
    ensures IncreasingKeys(r, less)
    ensures Elements(r) == Elements(ks) + {k}
  {
    if |ks| == 0 then [k]
    else if ks[0] == k then ks
    else if less(k, ks[0]) then [k] + ks
    else
      var tail := Insert(ks[1..], k, less);
      assert Elements(ks) == {ks[0]} + Elements(ks[1..]) by {
        assert ks == [ks[0]] + ks[1..];
      }
      assert forall j :: 0 <= j < |tail| ==> less(ks[0], tail[j]) by {
        forall j | 0 <= j < |tail|
          ensures less(ks[0], tail[j])
        {
          assert tail[j] in Elements(tail);
        }
      }
      assert Elements([ks[0]] + tail) == {ks[0]} + Elements(tail);
      [ks[0]] + tail
  }

  /** The keys of every pair of `stream`, as `keyOf` maps pairs to keys. */
  function StreamKeys<P, K>(stream: seq<P>, keyOf: P -> K): set<K> {
    if |stream| == 0 then {}
    else StreamKeys(stream[..|stream| - 1], keyOf) + {keyOf(stream[|stream| - 1])}
  }

  /** Pass 1: reads the stream to its end, adding each pair's key to the
      distinct-key set; the result is that set in ascending order. */
  function Discover<P, K(==, !new)>(stream: seq<P>, keyOf: P -> K, less: (K, K) -> bool): (ks: seq<K>)
    requires StrictTotalOrder(less)
    ensures IncreasingKeys(ks, less)
    ensures Elements(ks) == StreamKeys(stream, keyOf)
  {
    if |stream| == 0 then []
    else Insert(Discover(stream[..|stream| - 1], keyOf, less), keyOf(stream[|stream| - 1]), less)
  }

  /** A strictly increasing sequence has no repeated key, so its length is
      the number of distinct keys it holds. */
  lemma {:induction false} IncreasingLength<K(!new)>(ks: seq<K>, less: (K, K) -> bool)
    requires StrictTotalOrder(less)
    requires IncreasingKeys(ks, less)
    ensures |Elements(ks)| == |ks|
  {
    if |ks| > 0 {
      var tail := ks[1..];
      IncreasingLength(tail, less);
      assert Elements(ks) == {ks[0]} + Elements(tail) by {
        assert ks == [ks[0]] + tail;
      }
      assert ks[0] !in Elements(tail) by {
        forall j | 0 <= j < |tail|
          ensures tail[j] != ks[0]
        {
          assert less(ks[0], tail[j]);
        }
      }
    }
  }

  // ---------------------------------------------------------------------
  // Step 2: allocation and sort
  // ---------------------------------------------------------------------

  /** Creates one empty record per key, in the distinct-key set's ascending
      iteration order. */
  method Allocate<K(==, !new), C>(ks: seq<K>, less: (K, K) -> bool) returns (rs: seq<Record<K, C>>)
    requires IncreasingKeys(ks, less)
    ensures Sorted(rs, less)
    ensures |rs| == |ks|
    ensures KeySet(rs) == Elements(ks)
    ensures forall i :: 0 <= i < |rs| ==> rs[i].entries == multiset{}
  {
    rs := [];
    var i := 0;
    while i < |ks|
      invariant 0 <= i <= |ks|
      invariant |rs| == i
      invariant forall j :: 0 <= j < i ==> rs[j] == Record(ks[j], multiset{})
    {
      rs := rs + [Record(ks[i], multiset{})];
      i := i + 1;
    }
    assert KeySet(rs) == Elements(ks) by {
      forall k | k in Elements(ks)
        ensures k in KeySet(rs)
      {
        var j :| 0 <= j < |ks| && ks[j] == k;
        assert rs[j].key == k;
      }
    }
  }

  /** What `Arrays.sort` promises of its output: no record is followed by
      one whose key the comparator puts strictly before it. */
  ghost predicate NonDecreasing<K, C>(rs: seq<Record<K, C>>, less: (K, K) -> bool) {
    forall i, j :: 0 <= i < j < |rs| ==> !less(rs[j].key, rs[i].key)
  }

  /** A non-decreasing permutation of a strictly sorted array starts with
      the same record. */
  lemma HeadsAgree<K(!new), C>(rs: seq<Record<K, C>>, sorted: seq<Record<K, C>>, less: (K, K) -> bool)
    requires Sorted(rs, less)
    requires NonDecreasing(sorted, less)
    requires multiset(sorted) == multiset(rs)
    requires 0 < |rs|
    ensures 0 < |sorted| && sorted[0] == rs[0]
  {
    assert |sorted| == |multiset(sorted)| == |rs|;
    assert sorted[0] in multiset(rs);
    assert rs[0] in multiset(sorted);
    var i :| 0 <= i < |rs| && rs[i] == sorted[0];
    var j :| 0 <= j < |sorted| && sorted[j] == rs[0];
    // Were `sorted[0]` a later record of `rs`, its key would be above
    // `rs[0]`'s; were `rs[0]` a later record of `sorted`, it would not be.
    var first, other := rs[0].key, sorted[0].key;
    assert i == 0 || less(first, other);
    assert j == 0 || !less(first, other);
  }

  /** Sorting an array that is already strictly sorted leaves it unchanged:
      the only non-decreasing permutation of distinct keys is the array
      itself. */
  lemma {:induction false} SortedPermutationUnique<K(!new), C>(rs: seq<Record<K, C>>, sorted: seq<Record<K, C>>, less: (K, K) -> bool)
    requires Sorted(rs, less)
    requires NonDecreasing(sorted, less)
    requires multiset(sorted) == multiset(rs)
    ensures sorted == rs
  {
    if |rs| == 0 {
      assert |sorted| == |multiset(sorted)| == 0;
    } else {
      HeadsAgree(rs, sorted, less);
      assert rs == [rs[0]] + rs[1..];
      assert sorted == [sorted[0]] + sorted[1..];
      assert multiset(sorted[1..]) == multiset(rs[1..]) by {
        calc {
          multiset{sorted[0]} + multiset(sorted[1..]);
          multiset([sorted[0]] + sorted[1..]);
          multiset(sorted);
          multiset(rs);
          multiset([rs[0]] + rs[1..]);
          multiset{rs[0]} + multiset(rs[1..]);
        }
        assert multiset(sorted[1..]) == (multiset{sorted[0]} + multiset(sorted[1..])) - multiset{sorted[0]};
        assert multiset(rs[1..]) == (multiset{rs[0]} + multiset(rs[1..])) - multiset{rs[0]};
      }
      SortedPermutationUnique(rs[1..], sorted[1..], less);
    }
  }

  // ---------------------------------------------------------------------
  // Step 3: binary search and accumulation
  // ---------------------------------------------------------------------

  /** `Arrays.binarySearch(a, key, comparator)`: the index of the record
      with key `key`, or `-(insertion point) - 1` when there is none. */
  method BinarySearch<K(==, !new), C>(rs: seq<Record<K, C>>, key: K, less: (K, K) -> bool) returns (pos: int)
    requires StrictTotalOrder(less)
    requires Sorted(rs, less)
    ensures 0 <= pos ==> pos < |rs| && rs[pos].key == key
    ensures 0 <= pos <==> key in KeySet(rs)
    ensures pos < 0 ==> forall i :: 0 <= i < |rs| ==> rs[i].key != key
    ensures pos < 0 ==> -(pos + 1) <= |rs|
    ensures pos < 0 ==> forall i :: 0 <= i < -(pos + 1) ==> less(rs[i].key, key)
    ensures pos < 0 ==> forall i :: -(pos + 1) <= i < |rs| ==> less(key, rs[i].key)
  {
    var low, high := 0, |rs| - 1;
    while low <= high
      invariant 0 <= low <= high + 1 <= |rs|
      invariant forall i :: 0 <= i < low ==> less(rs[i].key, key)
      invariant forall i :: high < i < |rs| ==> less(key, rs[i].key)
    {
      var mid := (low + high) / 2;
      if less(rs[mid].key, key) {
        low := mid + 1;
      } else if less(key, rs[mid].key) {
        high := mid - 1;
      } else {
        return mid;
      }
    }
    pos := -(low + 1);
    assert key !in KeySet(rs) by {
      forall i | 0 <= i < |rs|
        ensures rs[i].key != key
      {
        if i < low {
          assert less(rs[i].key, key);
        } else {
          assert less(key, rs[i].key);
        }
      }
    }
  }

  /** Records one occurrence of `c` in the record at `pos` (`addID` /
      `addWord`); no other record and no key changes. */
  function AddOccurrence<K, C>(rs: seq<Record<K, C>>, pos: nat, c: C): (r: seq<Record<K, C>>)
    requires pos < |rs|
    ensures |r| == |rs|
    ensures r[pos].key == rs[pos].key
    ensures r[pos].entries == rs[pos].entries + multiset{c}
    ensures forall i :: 0 <= i < |r| && i != pos ==> r[i] == rs[i]
  {
    rs[pos := rs[pos].(entries := rs[pos].entries + multiset{c})]
  }

  /** The counterparts of all pairs of `stream` whose key is `k`, with
      multiplicity. */
  function Counterparts<P, K(==), C>(stream: seq<P>, keyOf: P -> K, counterpartOf: P -> C, k: K): multiset<C> {
    if |stream| == 0 then multiset{}
    else
      var last := stream[|stream| - 1];
      Counterparts(stream[..|stream| - 1], keyOf, counterpartOf, k)
        + (if keyOf(last) == k then multiset{counterpartOf(last)} else multiset{})
  }

  /** The number of pairs of `stream` whose key is not in `keys`. */
  function Misses<P, K>(stream: seq<P>, keyOf: P -> K, keys: set<K>): nat {
    if |stream| == 0 then 0
    else Misses(stream[..|stream| - 1], keyOf, keys) + (if keyOf(stream[|stream| - 1]) in keys then 0 else 1)
  }

  lemma CounterpartsStep<P, K, C>(stream: seq<P>, n: nat, keyOf: P -> K, counterpartOf: P -> C, k: K)
    requires n < |stream|
    ensures Counterparts(stream[..n + 1], keyOf, counterpartOf, k)
      == Counterparts(stream[..n], keyOf, counterpartOf, k)
         + (if keyOf(stream[n]) == k then multiset{counterpartOf(stream[n])} else multiset{})
  {
    assert stream[..n + 1][..n] == stream[..n];
  }

  lemma MissesStep<P, K>(stream: seq<P>, n: nat, keyOf: P -> K, keys: set<K>)
    requires n < |stream|
    ensures Misses(stream[..n + 1], keyOf, keys) == Misses(stream[..n], keyOf, keys) + (if keyOf(stream[n]) in keys then 0 else 1)
  {
    assert stream[..n + 1][..n] == stream[..n];
  }

  /** In a sorted array the record at `pos` is the only one with its key. */
  lemma SortedKeysDistinct<K(!new), C>(rs: seq<Record<K, C>>, pos: nat, less: (K, K) -> bool)
    requires StrictTotalOrder(less)
    requires Sorted(rs, less)
    requires pos < |rs|
    ensures forall i :: 0 <= i < |rs| && i != pos ==> rs[i].key != rs[pos].key
  {
  }

  /** Two record arrays with the same keys in the same places hold the same
      key set, and are sorted alike. */
  lemma SameKeys<K(!new), C>(rs: seq<Record<K, C>>, out: seq<Record<K, C>>, less: (K, K) -> bool)
    requires |out| == |rs|
    requires forall i :: 0 <= i < |rs| ==> out[i].key == rs[i].key
    ensures KeySet(out) == KeySet(rs)
    ensures Sorted(rs, less) ==> Sorted(out, less)
  {
    assert forall i :: 0 <= i < |rs| ==> rs[i].key in KeySet(out);
  }

  /** The search result tells whether the pair's key is one of the keys
      discovered in pass 1. */
  lemma FoundIffKnown<K, C>(rs: seq<Record<K, C>>, before: seq<Record<K, C>>, k: K, pos: int)
    requires |before| == |rs|
    requires forall i :: 0 <= i < |rs| ==> before[i].key == rs[i].key
    requires 0 <= pos ==> pos < |rs| && before[pos].key == k
    requires pos < 0 ==> forall i :: 0 <= i < |rs| ==> before[i].key != k
    ensures k in KeySet(rs) <==> 0 <= pos
  {
  }

  /** One step of pass 3 keeps the entries invariant: the record with the
      pair's key (if any) gains its counterpart, and no other record
      changes. */
  lemma EntriesStep<P, K, C>(rs: seq<Record<K, C>>, before: seq<Record<K, C>>, after: seq<Record<K, C>>,
                             stream: seq<P>, n: nat, keyOf: P -> K, counterpartOf: P -> C, pos: int)
    requires n < |stream|
    requires |before| == |rs|
    requires forall i :: 0 <= i < |rs| ==> before[i].key == rs[i].key
    requires forall i :: 0 <= i < |rs| ==>
      before[i].entries == rs[i].entries + Counterparts(stream[..n], keyOf, counterpartOf, rs[i].key)
    requires forall i :: 0 <= i < |rs| && i != pos ==> before[i].key != keyOf(stream[n])
    requires 0 <= pos ==> pos < |rs| && before[pos].key == keyOf(stream[n])
                          && after == AddOccurrence(before, pos, counterpartOf(stream[n]))
    requires pos < 0 ==> after == before
    ensures |after| == |rs|
    ensures forall i :: 0 <= i < |rs| ==>
      after[i].entries == rs[i].entries + Counterparts(stream[..n + 1], keyOf, counterpartOf, rs[i].key)
  {
    forall i | 0 <= i < |rs|
      ensures after[i].entries == rs[i].entries + Counterparts(stream[..n + 1], keyOf, counterpartOf, rs[i].key)
    {
      CounterpartsStep(stream, n, keyOf, counterpartOf, rs[i].key);
      if pos >= 0 && i == pos {
        assert after[i].entries == before[i].entries + multiset{counterpartOf(stream[n])};
      } else {
        assert after[i] == before[i];
      }
    }
  }

  /** One pair of pass 3: if the pair's key is found, its counterpart joins
      that key's record; otherwise the pair is counted as dropped. */
  method AccumulateOne<P, K(==, !new), C>(rs: seq<Record<K, C>>, out: seq<Record<K, C>>, dropped: nat,
                                          stream: seq<P>, n: nat, keyOf: P -> K, counterpartOf: P -> C,
                                          less: (K, K) -> bool)
    returns (out': seq<Record<K, C>>, dropped': nat)
    requires StrictTotalOrder(less)
    requires Sorted(rs, less)
    requires n < |stream|
    requires |out| == |rs|
    requires forall i :: 0 <= i < |out| ==> out[i].key == rs[i].key
    requires forall i :: 0 <= i < |out| ==>
      out[i].entries == rs[i].entries + Counterparts(stream[..n], keyOf, counterpartOf, rs[i].key)
    requires dropped == Misses(stream[..n], keyOf, KeySet(rs))
    ensures |out'| == |rs|
    ensures forall i :: 0 <= i < |out'| ==> out'[i].key == rs[i].key
    ensures forall i :: 0 <= i < |out'| ==>
      out'[i].entries == rs[i].entries + Counterparts(stream[..n + 1], keyOf, counterpartOf, rs[i].key)
    ensures dropped' == Misses(stream[..n + 1], keyOf, KeySet(rs))
  {
    var k, c := keyOf(stream[n]), counterpartOf(stream[n]);
    SameKeys(rs, out, less);
    var pos := BinarySearch(out, k, less);
    if pos >= 0 {
      SortedKeysDistinct(out, pos, less);
      out', dropped' := AddOccurrence(out, pos, c), dropped;
    } else {
      out', dropped' := out, dropped + 1;
    }
    FoundIffKnown(rs, out, k, pos);
    MissesStep(stream, n, keyOf, KeySet(rs));
    EntriesStep(rs, out, out', stream, n, keyOf, counterpartOf, pos);
  }

  /** Pass 3: re-reads the stream; each pair whose key is found adds its
      counterpart to that key's record, each pair whose key is not found is
      reported (counted in `dropped`) and skipped. */
  method Accumulate<P, K(==, !new), C>(rs: seq<Record<K, C>>, stream: seq<P>, keyOf: P -> K, counterpartOf: P -> C, less: (K, K) -> bool)
    returns (out: seq<Record<K, C>>, dropped: nat)
    requires StrictTotalOrder(less)
    requires Sorted(rs, less)
    ensures |out| == |rs|
    ensures forall i :: 0 <= i < |out| ==> out[i].key == rs[i].key
    ensures forall i :: 0 <= i < |out| ==>
      out[i].entries == rs[i].entries + Counterparts(stream, keyOf, counterpartOf, rs[i].key)
    ensures dropped == Misses(stream, keyOf, KeySet(rs))
  {
    out, dropped := rs, 0;
    var n := 0;
    while n < |stream|
      invariant 0 <= n <= |stream|
      invariant |out| == |rs|
      invariant forall i :: 0 <= i < |out| ==> out[i].key == rs[i].key
      invariant forall i :: 0 <= i < |out| ==>
        out[i].entries == rs[i].entries + Counterparts(stream[..n], keyOf, counterpartOf, rs[i].key)
      invariant dropped == Misses(stream[..n], keyOf, KeySet(rs))
    {
      out, dropped := AccumulateOne(rs, out, dropped, stream, n, keyOf, counterpartOf, less);
      n := n + 1;
    }
    assert stream[..n] == stream;
  }

  /** When every key of the stream was discovered, no pair is dropped. */
  lemma {:induction false} NoMissesWhenKeysCovered<P, K>(stream: seq<P>, keyOf: P -> K, keys: set<K>)
    requires StreamKeys(stream, keyOf) <= keys
    ensures Misses(stream, keyOf, keys) == 0
  {
    if |stream| > 0 {
      NoMissesWhenKeysCovered(stream[..|stream| - 1], keyOf, keys);
    }
  }
}
