/** The vertex-to-word lookup structure loaded from an `.iwc` dictionary. */
module IDToWordMapping {

  import opened Wrappers
  import opened Int32
  import opened Orders
  import opened SortedIndex
  import opened DictionaryFile
  import opened CreateMappings

  /** The loaded array of `IDToWordCount` records. */
  datatype Mapping = Mapping(ids: seq<VertexRecord>)

  /** The constructor: reads the record count, then exactly that many
      records, in file order; a short or malformed file is an error. */
  function New(file: seq<Token<VertexRecord>>): (r: Result<Mapping, ReadError>)
    ensures r.Success? <==> Load(file).Success?
    ensures r.Success? ==> 1 <= |file| && file[0].IntTok? && |r.value.ids| == file[0].i < |file|
    ensures r.Success? ==> forall i :: 0 <= i < |r.value.ids| ==> file[i + 1] == ObjTok(r.value.ids[i])
    ensures 1 <= |file| && file[0].IntTok? && |file| < 1 + file[0].i ==> r.Failure?
  {
    match Load(file)
    case Success(ids) => Success(Mapping(ids))
    case Failure(e) => Failure(e)
  }

  /** The words recorded for vertex `id`, or `None` (Java's `null`) when no
      record has that id. */
  method GetWordMappings(m: Mapping, id: int32) returns (r: Option<multiset<string>>)
    requires Sorted(m.ids, VertexLess)
    ensures r.Some? <==> id in KeySet(m.ids)
    ensures forall i :: 0 <= i < |m.ids| && m.ids[i].key == id ==> r == Some(m.ids[i].entries)
  {
    VertexLessIsStrictTotalOrder();
    var pos := BinarySearch(m.ids, id, VertexLess);
    if pos >= 0 {
      SortedKeysDistinct(m.ids, pos, VertexLess);
      r := Some(m.ids[pos].entries);
    } else {
      r := None;
    }
  }

  /** Building the vertex index, writing it, loading it and querying it
      answers every vertex of the stream with exactly the words paired with
      it (with multiplicity), and every other vertex with `None`. */
  method LookupAfterBuild(stream: seq<Pair>, id: int32) returns (r: Option<multiset<string>>)
    requires |StreamKeys(stream, VertexOf)| <= MAX
    ensures id in StreamKeys(stream, VertexOf) ==> r == Some(Counterparts(stream, VertexOf, WordOf, id))
    ensures id !in StreamKeys(stream, VertexOf) ==> r == None
  {
    var ids, _ := BuildVertexIndex(stream);
    var file := Write(ids);
    LoadWrite(ids, []);
    assert file + [] == file;
    var m := New(file);
    r := GetWordMappings(m.value, id);
  }
}
