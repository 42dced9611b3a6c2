# Word/vertex dictionaries: a Dafny model

This project models the dictionary build of the SWWR relatedness toolkit
(`CreateMappings.main`) and the pieces around it. The build reads a stream of
(word, vertex) pairs twice for each of two indexes. The first pass collects the
distinct keys into a sorted set. The program then allocates one empty record per
key and sorts the array. The second pass binary-searches each pair's key and adds
the counterpart to that record. Finally the array is written as a count followed
by the records. The word-keyed index (`.wic`) maps stemmed or raw words to
vertices. The vertex-keyed index (`.iwc`) maps vertices to raw words. The model
also covers the `.iwc` lookup class `IDToWordMapping`, the `TermVertexCount`
triple with its serialisation, and the subtraction comparator `VCICComparator`.

Layout, one module per file:

- `int32.dfy` (`Int32`): Java `int` range and wrap-around.
- `wrappers.dfy` (`Wrappers`): `Option` (Java `null`) and `Result` (exceptions).
- `orders.dfy` (`Orders`): strict total orders, the word order (`String.compareTo`) and the vertex order.
- `sorted_index.dfy` (`SortedIndex`): the generic sorted keyed collection. It covers key discovery, allocation, `Arrays.binarySearch` and accumulation.
- `dictionary_file.dfy` (`DictionaryFile`): count-prefixed writing and loading of record arrays.
- `create_mappings.dfy` (`CreateMappings`): the two index builds and the whole program.
- `id_to_word_mapping.dfy` (`IDToWordMapping`): loading and lookup.
- `term_vertex_count.dfy` (`TermVertexCount`): the triple and its field-level serialisation.
- `vcic_comparator.dfy` (`VCICComparator`): the subtraction comparator.

The build is modelled as follows:

- The input is a finite `seq<Pair>`. End of stream ends each pass, so a pass visits every pair once, in order.
- The Porter stemmer is a parameter `normalize: string -> string`, applied when `stem` is set.
- Line 200 calls `porter.stem(word)` on a field that is never initialised. `stem` is a static method of the LingPipe factory, and Java evaluates and discards the receiver of a static call. So there is no null dereference, and both word passes use the same stemmer. The model uses one `WordKey` for both passes.
- A record's counterparts are a `multiset`: the multiplicity of a counterpart is its occurrence count. This is the abstract form of the (counterpart, count) lists kept by `addID` and `addWord`.
- Object streams are token sequences. There is one `Token` per `writeInt` or `writeObject` call.
- All operations are pure functions or methods over immutable values. Lookup therefore cannot modify the loaded array.

Two behaviours of the code worth stating:

- The build does not reject an empty stream: it writes a count of 0 (`CreateMappings.BuildIndex` gives an empty index).
- The loader reads exactly the declared number of records and ignores anything after them (`DictionaryFile.LoadWrite` holds for any trailing tokens).

## Model

| member | source | states |
|---|---|---|
| `Int32.Wrap` | src/main/java/edu/osu/slate/relatedness/swwr/data/category/VCICComparator.java:33 | Java `int` arithmetic: the result is in range, congruent to the true value modulo 2^32, and equal to it when no overflow occurs |
| `Orders.StringLess` | src/main/java/edu/osu/slate/relatedness/swwr/setup/wordmapping/CreateMappings.java:153 | the word order `String.compareTo(a, b) < 0`: a proper prefix comes before the longer string, and never after it |
| `Orders.StringLessFirstDifference` | src/main/java/edu/osu/slate/relatedness/swwr/setup/wordmapping/CreateMappings.java:153 | at the first index where two words differ, the smaller character decides the word order |
| `Orders.VertexLess` | src/main/java/edu/osu/slate/relatedness/swwr/setup/wordmapping/CreateMappings.java:235 | the natural `Integer` order of the vertex set: holds exactly when the first id is numerically smaller |
| `Orders.StringLessIsStrictTotalOrder` | src/main/java/edu/osu/slate/relatedness/swwr/setup/wordmapping/CreateMappings.java:184 | the word order used to sort and search the word array is irreflexive, transitive and trichotomous, so sorting and binary search agree |
| `Orders.VertexLessIsStrictTotalOrder` | src/main/java/edu/osu/slate/relatedness/swwr/setup/wordmapping/CreateMappings.java:258 | the numeric vertex order used for the vertex array is a strict total order |
| `SortedIndex.Insert` | src/main/java/edu/osu/slate/relatedness/swwr/setup/wordmapping/CreateMappings.java:153-163 | `TreeSet.add`: the sorted key sequence stays strictly increasing and gains exactly the new key |
| `SortedIndex.Discover` | src/main/java/edu/osu/slate/relatedness/swwr/setup/wordmapping/CreateMappings.java:153-168 | pass 1 yields a strictly increasing sequence whose elements are exactly the keys of the stream's pairs |
| `SortedIndex.IncreasingLength` | src/main/java/edu/osu/slate/relatedness/swwr/setup/wordmapping/CreateMappings.java:177 | a strictly increasing key sequence has no repeats, so the array length `ts.size()` is the number of distinct keys |
| `SortedIndex.Allocate` | src/main/java/edu/osu/slate/relatedness/swwr/setup/wordmapping/CreateMappings.java:177-183 | one record per discovered key, strictly increasing by key, holding exactly the discovered keys, every record empty |
| `SortedIndex.HeadsAgree` | src/main/java/edu/osu/slate/relatedness/swwr/setup/wordmapping/CreateMappings.java:184 | a strictly sorted array and any non-decreasing permutation of it (what `Arrays.sort` promises) start with the same record |
| `SortedIndex.SortedPermutationUnique` | src/main/java/edu/osu/slate/relatedness/swwr/setup/wordmapping/CreateMappings.java:184 | any non-decreasing permutation of an already strictly sorted record array equals it, so `Arrays.sort`, whatever its algorithm, leaves the allocated array unchanged |
| `SortedIndex.BinarySearch` | src/main/java/edu/osu/slate/relatedness/swwr/setup/wordmapping/CreateMappings.java:203 | on a sorted array: a non-negative result is an index holding the key; the result is non-negative exactly when the key is present; otherwise it encodes the insertion point, with every key before it smaller and every key from it on larger |
| `SortedIndex.SortedKeysDistinct` | src/main/java/edu/osu/slate/relatedness/swwr/setup/wordmapping/CreateMappings.java:203-205 | in a sorted array the found position is the only record with that key |
| `SortedIndex.AddOccurrence` | src/main/java/edu/osu/slate/relatedness/swwr/setup/wordmapping/CreateMappings.java:204-205 | a found pair adds its counterpart once to the record at the found position; that record's key and every other record are unchanged |
| `SortedIndex.AccumulateOne` | src/main/java/edu/osu/slate/relatedness/swwr/setup/wordmapping/CreateMappings.java:196-208 | one pair of pass 3 keeps the invariant: keys in place, each record holding the counterparts of the pairs read so far with its key, and the reported pairs being those with an undiscovered key |
| `SortedIndex.Accumulate` | src/main/java/edu/osu/slate/relatedness/swwr/setup/wordmapping/CreateMappings.java:194-211 | pass 3 keeps every key in place and adds to each record exactly the counterparts of the pairs with its key; pairs whose key is absent are counted as reported and skipped |
| `SortedIndex.SameKeys` | src/main/java/edu/osu/slate/relatedness/swwr/setup/wordmapping/CreateMappings.java:203-205 | adding occurrences leaves the keys in place, so the array stays sorted with the same key set and the search of the next pair stays valid |
| `SortedIndex.FoundIffKnown` | src/main/java/edu/osu/slate/relatedness/swwr/setup/wordmapping/CreateMappings.java:203-208 | the search finds the pair's key exactly when that key was discovered in pass 1 |
| `SortedIndex.NoMissesWhenKeysCovered` | src/main/java/edu/osu/slate/relatedness/swwr/setup/wordmapping/CreateMappings.java:204-208 | when every key of the stream is in the array, no pair takes the "Invalid Word Found" branch |
| `CreateMappings.BuildIndex` | src/main/java/edu/osu/slate/relatedness/swwr/setup/wordmapping/CreateMappings.java:153-211 | one index build: the array is strictly sorted, its key set is the stream's key set, its length is the number of distinct keys, each record holds exactly its pairs' counterparts, and nothing is dropped |
| `CreateMappings.BuildWordIndex` | src/main/java/edu/osu/slate/relatedness/swwr/setup/wordmapping/CreateMappings.java:147-211 | the word array: keys are the distinct stemmed (or raw) words in word order, and each word's record holds the vertices paired with it, with multiplicity |
| `CreateMappings.BuildVertexIndex` | src/main/java/edu/osu/slate/relatedness/swwr/setup/wordmapping/CreateMappings.java:227-279 | the vertex array: keys are the distinct vertices in numeric order, and each record holds the raw, unstemmed words paired with it |
| `CreateMappings.IndexesTranspose` | src/main/java/edu/osu/slate/relatedness/swwr/setup/wordmapping/CreateMappings.java:196-275 | with stemming off the two dictionaries are transposes: a vertex occurs with a word in the word index exactly as often as that word occurs with the vertex in the vertex index |
| `CreateMappings.CreateMappings` | src/main/java/edu/osu/slate/relatedness/swwr/setup/wordmapping/CreateMappings.java:135-297 | the two arrays are sorted and hold exactly the stream's keys, each with exactly its pairs' counterparts; each output stream is exactly the array length followed by the records in order, and loads back to its array; no warning is reported |
| `DictionaryFile.Write` | src/main/java/edu/osu/slate/relatedness/swwr/setup/wordmapping/CreateMappings.java:219-224 | the output is the array length followed by exactly that many records in array order |
| `DictionaryFile.ReadObjects` | src/main/java/edu/osu/slate/relatedness/swwr/data/mapping/IDToWordMapping.java:48-51 | reading `n` records succeeds exactly when `n` record tokens are present, and returns them in stream order; running out of stream is an end-of-stream error, and a string at any record position reached after only records is a class-cast error |
| `DictionaryFile.Load` | src/main/java/edu/osu/slate/relatedness/swwr/data/mapping/IDToWordMapping.java:44-60 | a loaded array has the declared length and the file's records in order; an empty stream, a negative length or too few records is an error, never a partial array |
| `DictionaryFile.LoadWrite` | src/main/java/edu/osu/slate/relatedness/swwr/data/mapping/IDToWordMapping.java:44-51 | loading what the build wrote returns the same array, whatever follows it |
| `DictionaryFile.TruncatedLoadFails` | src/main/java/edu/osu/slate/relatedness/swwr/data/mapping/IDToWordMapping.java:48-60 | a stream that declares more records than it holds fails with end-of-stream |
| `IDToWordMapping.New` | src/main/java/edu/osu/slate/relatedness/swwr/data/mapping/IDToWordMapping.java:38-67 | the constructor succeeds exactly when the file loads; its array then has the declared length and the file's records in order; a short file fails |
| `IDToWordMapping.GetWordMappings` | src/main/java/edu/osu/slate/relatedness/swwr/data/mapping/IDToWordMapping.java:77-86 | on a sorted array: returns the words of the record whose id equals `id` when one exists, and `null` (`None`) exactly when none does |
| `IDToWordMapping.LookupAfterBuild` | src/main/java/edu/osu/slate/relatedness/swwr/data/mapping/IDToWordMapping.java:77-86 | build, write, load, then query: every vertex of the stream answers with exactly the words paired with it, and any other vertex answers `null` |
| `TermVertexCount.New` | src/main/java/edu/osu/slate/relatedness/swwr/data/mapping/TermVertexCount.java:48-82 | the getters return the term, vertex and count given to the constructor |
| `TermVertexCount.SetCount` | src/main/java/edu/osu/slate/relatedness/swwr/data/mapping/TermVertexCount.java:89-92 | after `setCount(c)`, `getCount()` is `c`, and term and vertex are unchanged |
| `TermVertexCount.Serialize` | src/main/java/edu/osu/slate/relatedness/swwr/data/mapping/TermVertexCount.java:100-104 | serialisation emits the term, then the vertex, then the count |
| `TermVertexCount.ReadString` | src/main/java/edu/osu/slate/relatedness/swwr/data/mapping/TermVertexCount.java:114 | reading the term succeeds exactly on a string token, and consumes it |
| `TermVertexCount.ReadInt` | src/main/java/edu/osu/slate/relatedness/swwr/data/mapping/TermVertexCount.java:115-116 | reading an `int` succeeds exactly on an int token, and consumes it |
| `TermVertexCount.Deserialize` | src/main/java/edu/osu/slate/relatedness/swwr/data/mapping/TermVertexCount.java:113-117 | deserialisation succeeds exactly on a string and two ints, which it reads as term, vertex and count, in that order |
| `TermVertexCount.SerializeRoundTrip` | src/main/java/edu/osu/slate/relatedness/swwr/data/mapping/TermVertexCount.java:100-117 | deserialising a serialised triple gives back the same triple and leaves the rest of the stream unread |
| `VCICComparator.Compare` | src/main/java/edu/osu/slate/relatedness/swwr/data/category/VCICComparator.java:31-34 | the result is the 32-bit wrapped difference of the vertex ids: congruent to it modulo 2^32, and equal to it when it fits |
| `VCICComparator.CompareSelf` | src/main/java/edu/osu/slate/relatedness/swwr/data/category/VCICComparator.java:33 | a record compares equal to itself |
| `VCICComparator.CompareIgnoresPayload` | src/main/java/edu/osu/slate/relatedness/swwr/data/category/VCICComparator.java:20-33 | the order depends on the vertex id alone, whatever the class comment says about category ids |
| `VCICComparator.NonNegativeNoOverflow` | src/main/java/edu/osu/slate/relatedness/swwr/data/category/VCICComparator.java:33 | with non-negative vertex ids the subtraction cannot overflow |
| `VCICComparator.CompareSign` | src/main/java/edu/osu/slate/relatedness/swwr/data/category/VCICComparator.java:33 | without overflow the result is negative, zero or positive exactly when the first vertex is smaller, equal or larger |
| `VCICComparator.CompareIsOrderWithoutOverflow` | src/main/java/edu/osu/slate/relatedness/swwr/data/category/VCICComparator.java:33 | without overflow the comparator is sign-antisymmetric and transitive, so it is a valid sort and search order |
| `VCICComparator.OverflowMisorders` | src/main/java/edu/osu/slate/relatedness/swwr/data/category/VCICComparator.java:33 | with `MIN_VALUE` against 1 the subtraction overflows and the smaller vertex compares as larger |
| `VCICComparator.OverflowBreaksTransitivity` | src/main/java/edu/osu/slate/relatedness/swwr/data/category/VCICComparator.java:33 | with overflow the comparator is not transitive (`MIN_VALUE`, 0, 1) |
| `VCICComparator.CompareVertices` | src/main/java/edu/osu/slate/relatedness/swwr/data/category/VCICComparator.java:33 | the corrected comparator: its sign is the numeric order of the vertex ids for all ids |
| `VCICComparator.CompareVerticesIsOrder` | src/main/java/edu/osu/slate/relatedness/swwr/data/category/VCICComparator.java:33 | the corrected comparator is sign-antisymmetric and transitive for all vertex ids |
| `VCICComparator.CompareAgreesWithoutOverflow` | src/main/java/edu/osu/slate/relatedness/swwr/data/category/VCICComparator.java:33 | where the subtraction does not overflow, the original and the corrected comparator order records alike |

## Left out

- File I/O, file names and configuration parsing (`parseConfigurationFile`, the hard-coded configuration path): the stream is the input sequence, and the outputs are returned token sequences.
- Java object-stream framing (headers, block data, class descriptors): each `writeInt` or `writeObject` is one token. A string where a record is expected fails as `NotARecord` (the loader's `ClassCastException`). An object of some other record class cannot be represented in the typed token, so that case is not modelled.
- Read faults inside a pass: every pass catches any `IOException` and treats it as end of stream. The model's stream is a whole sequence of pairs, so a pass always reads every pair. A stream cut off after a word, before its vertex, is not modelled. In the word index, pass 1 adds that word to the set before its `readInt` fails, and pass 3 reads the word and the int before searching, so it stops first. The `.wic` then holds a record for that word with no vertices, which the model, where every key has at least one counterpart, cannot produce. The vertex index is unaffected: its pass 1 adds a vertex only after reading it.
- `System.exit`, `printStackTrace` and console messages: load failures are `Failure` results, and "Invalid Word/ID Found" reports are the `dropped`/`warnings` counts.
- The Porter stemmer's internals: `normalize` is an arbitrary deterministic function.
- The internals of `WordToIDCount`, `IDToWordCount` and their comparators, which are not part of this model. Records are a key with a multiset of counterparts; the list layout and entry order are not modelled. The word comparator is taken to be `String.compareTo` and the vertex comparator numeric order.
- `Orders.StringLess`: compares Dafny characters (Unicode scalar values), where Java compares UTF-16 code units. The two orders differ only between supplementary characters and U+E000–U+FFFF.
- `VertexToCategoryIDCoverage` is not part of this model: its fields other than the vertex are an opaque payload.
- `SortedIndex.BinarySearch`: computes the midpoint as `(low + high) / 2`, where Java uses `(low + high) >>> 1`; they agree for the non-negative indices involved.
- `SortedIndex.SortedPermutationUnique`: `Arrays.sort` itself is not modelled, only its specification (a permutation that the comparator never puts out of order); the lemma shows that on the allocated array that specification allows only the array itself.
- `CreateMappings.IndexesTranspose`: stated for stemming off only; with stemming on, the word index is keyed by stems while the vertex index keeps the raw words, so the two are transposes only up to grouping words by stem.
- `CreateMappings.CreateMappings`: requires at most `Integer.MAX_VALUE` distinct words and distinct vertices, because a Java array, and the `writeInt` of its length, cannot go beyond that.
- `IDToWordMapping.GetWordMappings`: lookup is modelled only on a strictly sorted, duplicate-free array, such as the build writes (see `IDToWordMapping.LookupAfterBuild`). The Java method binary-searches whatever file was loaded, and `Arrays.binarySearch` leaves its result undefined on unsorted input.
- Null terms in `TermVertexCount` and null records in the arrays are not modelled.
- `WordToIDMapping`, the `.wic` lookup class, is not part of this model; its file is produced by `CreateMappings.CreateMappings` and has the same format.
- `WikipediaLinkRelatedness`: a wrapper over an external Wiktionary API that only prints and returns constants.

## Findings

| source | as written | input that shows it | evidently intended | confidence | as-written member | corrected member |
|---|---|---|---|---|---|---|
| src/main/java/edu/osu/slate/relatedness/swwr/data/category/VCICComparator.java:33 | `compare` returns `getVertex()` difference in 32-bit `int`, which overflows | vertices `Integer.MIN_VALUE` and `1` compare as larger/smaller the wrong way round; `MIN_VALUE`, `0`, `1` break transitivity | a numeric comparison of the vertex ids (`Integer.compare`) | low: vertex ids are non-negative in practice, where the two agree; not executed | `VCICComparator.OverflowMisorders` | `VCICComparator.CompareVertices` |

No other part of this model compares coverage records, so the corrected comparator is used only by `VCICComparator.CompareVerticesIsOrder` and `VCICComparator.CompareAgreesWithoutOverflow`.
