/** The persisted dictionary: a Java object stream holding the array length
    followed by the records. The stream is modelled as a sequence of
    tokens, one per `writeInt` / `writeObject` call. */
module DictionaryFile {

  import opened Wrappers
  import opened Int32

  /** One item of an object stream: an `int` written by `writeInt`, a
      `String` written by `writeObject`, or a serialised record. */
  datatype Token<R> = IntTok(i: int32) | StrTok(s: string) | ObjTok(obj: R)

  /** Why reading a stream fails. `EndOfStream`, `NotAnInt` and
      `NotAnObject` (primitive data where an object is expected) are
      IOExceptions, on which the loader exits the process;
      `NegativeLength` is Java's NegativeArraySizeException; `NotAString`
      and `NotARecord` are the ClassCastExceptions of a `(String)` or a
      record cast applied to an object of another class. */
  datatype ReadError = EndOfStream | NotAnInt | NotAnObject | NotAString | NotARecord | NegativeLength

  /** Writes the array length, then each record in array order. */
  function Write<R>(rs: seq<R>): (ts: seq<Token<R>>)
    requires |rs| <= MAX
    ensures |ts| == |rs| + 1
    ensures ts[0] == IntTok(|rs|)
    ensures forall i :: 0 <= i < |rs| ==> ts[i + 1] == ObjTok(rs[i])
  {
    [IntTok(|rs|)] + seq(|rs|, i requires 0 <= i < |rs| => ObjTok(rs[i]))
  }

  /** Reads `n` records from the front of `ts` (`readObject` `n` times). */
  function ReadObjects<R>(ts: seq<Token<R>>, n: nat): (r: Result<seq<R>, ReadError>)
    ensures r.Success? <==> n <= |ts| && forall i :: 0 <= i < n ==> ts[i].ObjTok?
    ensures r.Success? ==> |r.value| == n && forall i :: 0 <= i < n ==> ts[i] == ObjTok(r.value[i])
    ensures r == Failure(EndOfStream) <==> |ts| < n && forall i :: 0 <= i < |ts| ==> ts[i].ObjTok?
    ensures forall k :: 0 <= k < n && k < |ts| && ts[k].StrTok? && (forall j :: 0 <= j < k ==> ts[j].ObjTok?) ==> r == Failure(NotARecord)
  {
    if n == 0 then Success([])
    else if |ts| == 0 then Failure(EndOfStream)
    else if ts[0].IntTok? then Failure(NotAnObject)
    else if ts[0].StrTok? then Failure(NotARecord)
    else
      match ReadObjects(ts[1..], n - 1)
      case Success(rest) => Success([ts[0].obj] + rest)
      case Failure(e) => Failure(e)
  }

  /** Loads a dictionary: reads the length `len`, then exactly `len`
      records into an array of that size. Anything after the last record
      is not read. */
  function Load<R>(ts: seq<Token<R>>): (r: Result<seq<R>, ReadError>)
    ensures r.Success? ==> 1 <= |ts| && ts[0].IntTok? && |r.value| == ts[0].i < |ts|
    ensures r.Success? ==> forall i :: 0 <= i < |r.value| ==> ts[i + 1] == ObjTok(r.value[i])
    ensures r.Success? <==> 1 <= |ts| && ts[0].IntTok? && 0 <= ts[0].i < |ts|
                            && forall i :: 1 <= i <= ts[0].i ==> ts[i].ObjTok?
    ensures |ts| == 0 ==> r == Failure(EndOfStream)
    ensures 1 <= |ts| && !ts[0].IntTok? ==> r == Failure(NotAnInt)
    ensures 1 <= |ts| && ts[0].IntTok? && ts[0].i < 0 ==> r == Failure(NegativeLength)
    ensures 1 <= |ts| && ts[0].IntTok? && |ts| < 1 + ts[0].i ==> r.Failure?
  {
    if |ts| == 0 then Failure(EndOfStream)
    else if !ts[0].IntTok? then Failure(NotAnInt)
    else if ts[0].i < 0 then Failure(NegativeLength)
    else ReadObjects(ts[1..], ts[0].i)
  }

  /** Loading what was written gives back the same array, whatever follows
      the written records in the stream. */
  lemma {:induction false} LoadWrite<R>(rs: seq<R>, trailing: seq<Token<R>>)
    requires |rs| <= MAX
    ensures Load(Write(rs) + trailing) == Success(rs)
  {
    var ts := Write(rs) + trailing;
    var r := ReadObjects(ts[1..], |rs|);
    assert forall i :: 0 <= i < |rs| ==> ts[1..][i] == ObjTok(rs[i]);
    assert r.Success?;
    assert r.value == rs;
  }

  /** A stream that declares more records than it holds fails to load. */
  lemma {:induction false} TruncatedLoadFails<R>(rs: seq<R>, missing: nat)
    requires 0 < missing && |rs| + missing <= MAX
    ensures Load([IntTok(|rs| + missing)] + Write(rs)[1..]) == Failure(EndOfStream)
  {
  }
}
