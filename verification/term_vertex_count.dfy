/** The (term, vertex, count) triple and its custom serialisation. */
module TermVertexCount {

  import opened Wrappers
  import opened Int32
  import opened DictionaryFile

  datatype TermVertexCount = TermVertexCount(term: string, vertex: int32, count: int32) {

    function GetTerm(): string {
      term
    }

    function GetVertex(): int32 {
      vertex
    }

    function GetCount(): int32 {
      count
    }
  }

  /** The constructor: the getters return exactly the given fields. */
  function New(t: string, v: int32, c: int32): (r: TermVertexCount)
    ensures r.GetTerm() == t && r.GetVertex() == v && r.GetCount() == c
  {
    TermVertexCount(t, v, c)
  }

  /** Replaces the count; term and vertex are kept. */
  function SetCount(x: TermVertexCount, c: int32): (r: TermVertexCount)
    ensures r.GetCount() == c
    ensures r.GetTerm() == x.GetTerm() && r.GetVertex() == x.GetVertex()
  {
    x.(count := c)
  }

  /** `writeObject`: the term, then the vertex, then the count. */
  function Serialize(x: TermVertexCount): (ts: seq<Token<TermVertexCount>>)
    ensures |ts| == 3
    ensures ts[0] == StrTok(x.GetTerm()) && ts[1] == IntTok(x.GetVertex()) && ts[2] == IntTok(x.GetCount())
  {
    [StrTok(x.term), IntTok(x.vertex), IntTok(x.count)]
  }

  /** `in.readObject()` cast to `String`. */
  function ReadString<R>(ts: seq<Token<R>>): (r: Result<(string, seq<Token<R>>), ReadError>)
    ensures r.Success? <==> |ts| > 0 && ts[0].StrTok?
    ensures r.Success? ==> r.value == (ts[0].s, ts[1..])
  {
    if |ts| == 0 then Failure(EndOfStream)
    else match ts[0]
      case StrTok(s) => Success((s, ts[1..]))
      case ObjTok(_) => Failure(NotAString)
      case IntTok(_) => Failure(NotAnObject)
  }

  /** `in.readInt()`. */
  function ReadInt<R>(ts: seq<Token<R>>): (r: Result<(int32, seq<Token<R>>), ReadError>)
    ensures r.Success? <==> |ts| > 0 && ts[0].IntTok?
    ensures r.Success? ==> r.value == (ts[0].i, ts[1..])
  {
    if |ts| == 0 then Failure(EndOfStream)
    else if ts[0].IntTok? then Success((ts[0].i, ts[1..]))
    else Failure(NotAnInt)
  }

  /** `readObject`: reads the term, the vertex and the count, in that
      order, and returns the triple with the unread rest of the stream. */
  function Deserialize<R>(ts: seq<Token<R>>): (r: Result<(TermVertexCount, seq<Token<R>>), ReadError>)
    ensures r.Success? <==> |ts| >= 3 && ts[0].StrTok? && ts[1].IntTok? && ts[2].IntTok?
    ensures r.Success? ==> r.value.0 == New(ts[0].s, ts[1].i, ts[2].i) && r.value.1 == ts[3..]
    ensures |ts| == 0 ==> r == Failure(EndOfStream)
  {
    match ReadString(ts)
    case Failure(e) => Failure(e)
    case Success((t, ts1)) =>
      match ReadInt(ts1)
      case Failure(e) => Failure(e)
      case Success((v, ts2)) =>
        match ReadInt(ts2)
        case Failure(e) => Failure(e)
        case Success((c, ts3)) => Success((TermVertexCount(t, v, c), ts3))
  }

  /** Deserialising a serialised triple restores it and consumes exactly
      its three tokens. */
  lemma SerializeRoundTrip(x: TermVertexCount, rest: seq<Token<TermVertexCount>>)
    ensures Deserialize(Serialize(x) + rest) == Success((x, rest))
  {
    var ts := Serialize(x) + rest;
    assert ts[1..][1..][1..] == rest;
  }
}
