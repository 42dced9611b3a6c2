/** The two-pass build of the word-to-vertex (`.wic`) and vertex-to-word
    (`.iwc`) dictionaries from a stream of (word, vertex) pairs. */
module CreateMappings {

  import opened Wrappers
  import opened Int32
  import opened Orders
  import opened SortedIndex
  import opened DictionaryFile

  /** One (word, vertex) pair of the temporary `.titlewordmap` stream. */
  datatype Pair = Pair(word: string, vertex: int32)

  /** A `WordToIDCount`: a word and the vertices seen with it. */
  type WordRecord = Record<string, int32>

  /** An `IDToWordCount`: a vertex and the raw words seen with it. */
  type VertexRecord = Record<int32, string>

  /** The key a word is indexed under: its stem when stemming is enabled,
      the word itself otherwise. Both passes of the word index use it. */
  function WordKey(stem: bool, normalize: string -> string, word: string): string
  {
    if stem then normalize(word) else word
  }

  function WordKeyOf(stem: bool, normalize: string -> string): Pair -> string {
    (p: Pair) => WordKey(stem, normalize, p.word)
  }

  function VertexOf(p: Pair): int32 {
    p.vertex
  }

  function WordOf(p: Pair): string {
    p.word
  }

  /** One index build: discover the distinct keys (pass 1), allocate one
      empty record per key in ascending order (the sort leaves that order
      unchanged), then accumulate every pair's counterpart into its key's
      record (pass 3). The index holds exactly the stream's keys, each with
      exactly the counterparts paired with it, and no pair is dropped. */
  method BuildIndex<K(==, !new), C>(stream: seq<Pair>, keyOf: Pair -> K, counterpartOf: Pair -> C, less: (K, K) -> bool)
    returns (index: seq<Record<K, C>>, dropped: nat)
    requires StrictTotalOrder(less)
    ensures Sorted(index, less)
    ensures KeySet(index) == StreamKeys(stream, keyOf)
    ensures |index| == |StreamKeys(stream, keyOf)|
    ensures forall i :: 0 <= i < |index| ==>
      index[i].entries == Counterparts(stream, keyOf, counterpartOf, index[i].key)
    ensures dropped == 0
  {
    // Step 1: the distinct keys, in the order a TreeSet iterates them.
    var keys := Discover(stream, keyOf, less);
    IncreasingLength(keys, less);
    // Step 2: one empty record per key. Every sorted permutation of this
    // array is the array itself, so `Arrays.sort` leaves it as it is.
    var empty := Allocate<K, C>(keys, less);
    forall sorted | NonDecreasing(sorted, less) && multiset(sorted) == multiset(empty)
      ensures sorted == empty
    {
      SortedPermutationUnique(empty, sorted, less);
    }
    // Step 3: re-read the stream and accumulate.
    index, dropped := Accumulate(empty, stream, keyOf, counterpartOf, less);
    NoMissesWhenKeysCovered(stream, keyOf, KeySet(empty));
    SameKeys(empty, index, less);
  }

  /** Steps 1-3: the word-keyed index, with stemmed (or raw) words as keys
      and vertices as counterparts. */
  method BuildWordIndex(stream: seq<Pair>, stem: bool, normalize: string -> string)
    returns (words: seq<WordRecord>, invalid: nat)
    ensures Sorted(words, StringLess)
    ensures KeySet(words) == StreamKeys(stream, WordKeyOf(stem, normalize))
    ensures |words| == |StreamKeys(stream, WordKeyOf(stem, normalize))|
    ensures forall i :: 0 <= i < |words| ==>
      words[i].entries == Counterparts(stream, WordKeyOf(stem, normalize), VertexOf, words[i].key)
    ensures invalid == 0
  {
    StringLessIsStrictTotalOrder();
    words, invalid := BuildIndex(stream, WordKeyOf(stem, normalize), VertexOf, StringLess);
  }

  /** Steps 5-7: the vertex-keyed index, with vertices as keys and the raw,
      unstemmed words as counterparts. */
  method BuildVertexIndex(stream: seq<Pair>) returns (ids: seq<VertexRecord>, invalid: nat)
    ensures Sorted(ids, VertexLess)
    ensures KeySet(ids) == StreamKeys(stream, VertexOf)
    ensures |ids| == |StreamKeys(stream, VertexOf)|
    ensures forall i :: 0 <= i < |ids| ==>
      ids[i].entries == Counterparts(stream, VertexOf, WordOf, ids[i].key)
    ensures invalid == 0
  {
    VertexLessIsStrictTotalOrder();
    ids, invalid := BuildIndex(stream, VertexOf, WordOf, VertexLess);
  }

  /** With stemming off, the two dictionaries are transposes of each
      other: vertex `v` occurs with word `w` in the `.wic` as often as word
      `w` occurs with vertex `v` in the `.iwc`. */
  lemma {:induction false} IndexesTranspose(stream: seq<Pair>, normalize: string -> string, w: string, v: int32)
    ensures Counterparts(stream, WordKeyOf(false, normalize), VertexOf, w)[v]
         == Counterparts(stream, VertexOf, WordOf, v)[w]
  {
    if |stream| > 0 {
      IndexesTranspose(stream[..|stream| - 1], normalize, w, v);
    }
  }

  /** The whole program: both indexes built and written as count-prefixed
      record streams (steps 4 and 8). `warnings` counts the "Invalid ...
      Found" reports. */
  method CreateMappings(stream: seq<Pair>, stem: bool, normalize: string -> string)
    returns (words: seq<WordRecord>, ids: seq<VertexRecord>,
             wic: seq<Token<WordRecord>>, iwc: seq<Token<VertexRecord>>, warnings: nat)
    requires |StreamKeys(stream, WordKeyOf(stem, normalize))| <= MAX
    requires |StreamKeys(stream, VertexOf)| <= MAX
    ensures |words| <= MAX && |ids| <= MAX
    ensures wic == Write(words) && iwc == Write(ids)
    ensures Load(wic) == Success(words) && Load(iwc) == Success(ids)
    ensures Sorted(words, StringLess)
    ensures KeySet(words) == StreamKeys(stream, WordKeyOf(stem, normalize))
    ensures forall i :: 0 <= i < |words| ==>
      words[i].entries == Counterparts(stream, WordKeyOf(stem, normalize), VertexOf, words[i].key)
    ensures Sorted(ids, VertexLess)
    ensures KeySet(ids) == StreamKeys(stream, VertexOf)
    ensures forall i :: 0 <= i < |ids| ==>
      ids[i].entries == Counterparts(stream, VertexOf, WordOf, ids[i].key)
    ensures warnings == 0
  {
    var invalidWords, invalidIds;
    words, invalidWords := BuildWordIndex(stream, stem, normalize);
    wic := Write(words);
    LoadWrite(words, []);
    assert wic + [] == wic;
    ids, invalidIds := BuildVertexIndex(stream);
    iwc := Write(ids);
    LoadWrite(ids, []);
    assert iwc + [] == iwc;
    warnings := invalidWords + invalidIds;
  }
}
