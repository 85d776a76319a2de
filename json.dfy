/**
 * Decoded JSON values and the handful of typed decodings the schema code
 * asks of the JSON library (a JSON value read into a Go string, int64, bool,
 * slice or map). Byte-level decoding is not modelled: every value here has
 * already been decoded.
 */
module JsonModel {
  import opened Wrappers

  /**
   * A decoded JSON value. Numbers are integers. An object is the list of its
   * members in the order an iteration over the decoded map visits them; the
   * decoder gives each key once. An array element keeps the raw text it was
   * decoded from, which is what the uniqueness check compares.
   */
  datatype Json =
    | Null
    | Bool(b: bool)
    | Num(n: int)
    | Str(s: string)
    | Arr(elems: seq<Elem>)
    | Obj(members: seq<Member>)

  /**
   * An array element: its raw text as it appeared in the document, kept for
   * the uniqueness check, and its decoded value. The two are not tied
   * together: equal values may carry different raw texts (`{"a":1}` and
   * `{"a": 1}`, `{"a":1,"b":2}` and `{"b":2,"a":1}`), and such elements count
   * as distinct.
   */
  datatype Elem = Elem(raw: string, value: Json)

  datatype Member = Member(key: string, value: Json)

  /** The index of the member with the given key; a later member wins, as in a decoded map. */
  function Find(ms: seq<Member>, key: string): (r: Option<nat>)
    ensures r.Some? ==> r.value < |ms| && ms[r.value].key == key
    ensures r.Some? ==> forall j :: r.value < j < |ms| ==> ms[j].key != key
    ensures r.None? <==> forall j :: 0 <= j < |ms| ==> ms[j].key != key
    decreases |ms|
  {
    if |ms| == 0 then None
    else if ms[|ms| - 1].key == key then Some(|ms| - 1)
    else Find(ms[..|ms| - 1], key)
  }

  /** True when the object has a member with this key. */
  predicate Has(ms: seq<Member>, key: string) {
    exists j :: 0 <= j < |ms| && ms[j].key == key
  }

  /** The value of the member with the given key, if any (a lookup in the decoded map). */
  function Get(ms: seq<Member>, key: string): (r: Option<Json>)
    ensures r.Some? <==> Has(ms, key)
    ensures r.Some? ==> exists j :: 0 <= j < |ms| && ms[j].key == key && ms[j].value == r.value
  {
    match Find(ms, key)
    case None => None
    case Some(i) => Some(ms[i].value)
  }

  // Decoding into typed Go targets. A JSON null leaves a plain (non-reference) target
  // at its zero value and sets a slice or map to nil.

  /** A value read into a Go string: strings decode, null leaves "". */
  function DecodeString(j: Json): (r: Option<string>)
    ensures r.Some? <==> j.Str? || j.Null?
    ensures j.Str? ==> r == Some(j.s)
    ensures j.Null? ==> r == Some("")
  {
    match j
    case Str(s) => Some(s)
    case Null => Some("")
    case _ => None
  }

  /** A value read into a Go int64: integers decode, null leaves 0. */
  function DecodeInt(j: Json): (r: Option<int>)
    ensures r.Some? <==> j.Num? || j.Null?
    ensures j.Num? ==> r == Some(j.n)
  {
    match j
    case Num(n) => Some(n)
    case Null => Some(0)
    case _ => None
  }

  /** A value read into a Go bool: booleans decode, null leaves false. */
  function DecodeBool(j: Json): (r: Option<bool>)
    ensures r.Some? <==> j.Bool? || j.Null?
    ensures j.Bool? ==> r == Some(j.b)
  {
    match j
    case Bool(b) => Some(b)
    case Null => Some(false)
    case _ => None
  }

  /** A value read into a Go []string: null gives nil, an array decodes element by element. */
  function DecodeStrings(j: Json): (r: Option<seq<string>>)
    ensures j.Null? ==> r == Some([])
    ensures j.Arr? ==> (r.Some? <==> forall i :: 0 <= i < |j.elems| ==> DecodeString(j.elems[i].value).Some?)
    ensures r.Some? && j.Arr? ==>
      |r.value| == |j.elems| && forall i :: 0 <= i < |j.elems| ==> DecodeString(j.elems[i].value) == Some(r.value[i])
    ensures !j.Null? && !j.Arr? ==> r.None?
  {
    match j
    case Null => Some([])
    case Arr(es) => DecodeStringElems(es)
    case _ => None
  }

  function DecodeStringElems(es: seq<Elem>): (r: Option<seq<string>>)
    ensures r.Some? <==> forall i :: 0 <= i < |es| ==> DecodeString(es[i].value).Some?
    ensures r.Some? ==> |r.value| == |es| && forall i :: 0 <= i < |es| ==> DecodeString(es[i].value) == Some(r.value[i])
  {
    if es == [] then Some([])
    else
      match (DecodeString(es[0].value), DecodeStringElems(es[1..]))
      case (Some(s), Some(rest)) => Some([s] + rest)
      case _ => None
  }

  /** A value read into a Go []int64. */
  function DecodeInts(j: Json): (r: Option<seq<int>>)
    ensures j.Null? ==> r == Some([])
    ensures j.Arr? ==> (r.Some? <==> forall i :: 0 <= i < |j.elems| ==> DecodeInt(j.elems[i].value).Some?)
    ensures r.Some? && j.Arr? ==>
      |r.value| == |j.elems| && forall i :: 0 <= i < |j.elems| ==> DecodeInt(j.elems[i].value) == Some(r.value[i])
    ensures !j.Null? && !j.Arr? ==> r.None?
  {
    match j
    case Null => Some([])
    case Arr(es) => DecodeIntElems(es)
    case _ => None
  }

  function DecodeIntElems(es: seq<Elem>): (r: Option<seq<int>>)
    ensures r.Some? <==> forall i :: 0 <= i < |es| ==> DecodeInt(es[i].value).Some?
    ensures r.Some? ==> |r.value| == |es| && forall i :: 0 <= i < |es| ==> DecodeInt(es[i].value) == Some(r.value[i])
  {
    if es == [] then Some([])
    else
      match (DecodeInt(es[0].value), DecodeIntElems(es[1..]))
      case (Some(n), Some(rest)) => Some([n] + rest)
      case _ => None
  }

  /** A value read into a Go [][]string: null gives nil, each element must read as a []string. */
  function DecodeStringLists(j: Json): (r: Option<seq<seq<string>>>)
    ensures j.Null? ==> r == Some([])
    ensures j.Arr? ==> (r.Some? <==> forall i :: 0 <= i < |j.elems| ==> DecodeStrings(j.elems[i].value).Some?)
    ensures r.Some? && j.Arr? ==>
      |r.value| == |j.elems| && forall i :: 0 <= i < |j.elems| ==> DecodeStrings(j.elems[i].value) == Some(r.value[i])
    ensures !j.Null? && !j.Arr? ==> r.None?
  {
    match j
    case Null => Some([])
    case Arr(es) => DecodeStringListElems(es)
    case _ => None
  }

  function DecodeStringListElems(es: seq<Elem>): (r: Option<seq<seq<string>>>)
    ensures r.Some? <==> forall i :: 0 <= i < |es| ==> DecodeStrings(es[i].value).Some?
    ensures r.Some? ==> |r.value| == |es| && forall i :: 0 <= i < |es| ==> DecodeStrings(es[i].value) == Some(r.value[i])
  {
    if es == [] then Some([])
    else
      match (DecodeStrings(es[0].value), DecodeStringListElems(es[1..]))
      case (Some(l), Some(rest)) => Some([l] + rest)
      case _ => None
  }
}
