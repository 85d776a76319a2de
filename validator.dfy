/**
 * Validation of a decoded document against a compiled node: each kind's
 * Validate method and validateNumber (aspects/schema.go). A node's failure
 * has an empty path; a map or array puts the failing member's key or the
 * failing element's index in front of the path its child reported.
 */
module Validator {
  import opened Wrappers
  import opened JsonModel
  import opened Nodes

  /** 1 for a container (object or array), 0 for a scalar: a key is validated as a string scalar. */
  function Container(doc: Json): nat {
    if doc.Obj? || doc.Arr? then 1 else 0
  }

  /** mapSchema.Validate and the other kinds' Validate, by the node's kind. */
  function Validate(g: Regexps, store: Store, n: Node, doc: Json): (r: Outcome<ValidationError>)
    decreases Container(doc), doc, 2 + Rank(n), 0
  {
    match n
    case Ref(u) =>
      if u.target in store && !store[u.target].Ref? then Validate(g, store, store[u.target], doc)
      else TopLevel(Missing)
    case MapNode(_, _, _, _, _) => ValidateMap(g, store, n, doc)
    case StringNode(pattern, choices) => ValidateString(g, pattern, choices, doc)
    case IntNode(c) => ValidateInt(IntKind, c, doc)
    case NumberNode(c) => ValidateInt(NumberKind, c, doc)
    case BoolNode =>
      (match doc
       case Null => TopLevel(NullValue(BoolKind))
       case Bool(_) => Pass
       case _ => TopLevel(WrongType(BoolKind)))
    case AnyNode => if doc.Null? then TopLevel(NullValue(AnyKind)) else Pass
    case ArrayNode(_, _) => ValidateArray(g, store, n, doc)
  }

  /** The first key not among the exact schema's entries. */
  function FirstUnexpectedKey(ms: seq<Member>, entries: map<string, Node>): (r: Option<string>)
    ensures r.None? <==> forall i :: 0 <= i < |ms| ==> ms[i].key in entries
    ensures r.Some? ==> r.value !in entries && exists i :: 0 <= i < |ms| && ms[i].key == r.value
  {
    if ms == [] then None
    else if ms[0].key !in entries then Some(ms[0].key)
    else FirstUnexpectedKey(ms[1..], entries)
  }

  /** The required check: no requirement, or some combination whose keys are all present. */
  predicate RequiredSatisfied(combs: seq<seq<string>>, ms: seq<Member>) {
    |combs| == 0 || exists i :: 0 <= i < |combs| && AllPresent(combs[i], ms)
  }

  predicate AllPresent(keys: seq<string>, ms: seq<Member>) {
    forall j :: 0 <= j < |keys| ==> Has(ms, keys[j])
  }

  function ValidateMap(g: Regexps, store: Store, n: Node, doc: Json): (r: Outcome<ValidationError>)
    requires n.MapNode?
    decreases Container(doc), doc, 1, 0
  {
    match doc
    case Null => TopLevel(NullValue(MapKind))
    case Obj(ms) =>
      (match FirstInvalidKey(g, ms)
       case Some(k) => TopLevel(InvalidKey(k))
       case None =>
         var unexpected := if n.exact then FirstUnexpectedKey(ms, n.entries) else None;
         if unexpected.Some? then TopLevel(UnexpectedKey(unexpected.value))
         else if !RequiredSatisfied(n.required, ms) then TopLevel(MissingRequired)
         else if n.exact then ValidateEntries(g, store, n.entries, doc, 0)
         else
           var keys := if n.keys.Some? then ValidateKeys(g, store, n.keys.value, doc, 0) else Pass;
           if keys.Fail? then keys
           else if n.values.Some? then ValidateValues(g, store, n.values.value, doc, 0)
           else Pass)
    case _ => TopLevel(WrongType(MapKind))
  }

  /** Each member from index i whose key has an entry schema, validated against it. */
  function ValidateEntries(g: Regexps, store: Store, entries: map<string, Node>, doc: Json, i: nat): (r: Outcome<ValidationError>)
    requires doc.Obj? && i <= |doc.members|
    decreases Container(doc), doc, 0, |doc.members| - i
  {
    var ms := doc.members;
    if i == |ms| then Pass
    else if ms[i].key in entries then
      var r := Validate(g, store, entries[ms[i].key], ms[i].value);
      if r.Fail? then Fail(Prefix(Key(ms[i].key), r.error))
      else ValidateEntries(g, store, entries, doc, i + 1)
    else ValidateEntries(g, store, entries, doc, i + 1)
  }

  /** Each key from index i, as a JSON string, validated against the key schema. */
  function ValidateKeys(g: Regexps, store: Store, keys: Node, doc: Json, i: nat): (r: Outcome<ValidationError>)
    requires doc.Obj? && i <= |doc.members|
    decreases Container(doc), doc, 0, |doc.members| - i
  {
    var ms := doc.members;
    if i == |ms| then Pass
    else
      var r := Validate(g, store, keys, Str(ms[i].key));
      if r.Fail? then Fail(Prefix(Key(ms[i].key), r.error))
      else ValidateKeys(g, store, keys, doc, i + 1)
  }

  /** Each value from index i validated against the value schema. */
  function ValidateValues(g: Regexps, store: Store, values: Node, doc: Json, i: nat): (r: Outcome<ValidationError>)
    requires doc.Obj? && i <= |doc.members|
    decreases Container(doc), doc, 0, |doc.members| - i
  {
    var ms := doc.members;
    if i == |ms| then Pass
    else
      var r := Validate(g, store, values, ms[i].value);
      if r.Fail? then Fail(Prefix(Key(ms[i].key), r.error))
      else ValidateValues(g, store, values, doc, i + 1)
  }

  /** Two elements whose raw encodings are identical. */
  predicate HasDuplicate(es: seq<Elem>) {
    exists i, j :: 0 <= i < j < |es| && es[i].raw == es[j].raw
  }

  function ValidateArray(g: Regexps, store: Store, n: Node, doc: Json): (r: Outcome<ValidationError>)
    requires n.ArrayNode?
    decreases Container(doc), doc, 1, 0
  {
    match doc
    case Null => TopLevel(NullValue(ArrayKind))
    case Arr(es) =>
      if n.element.None? then TopLevel(Missing)
      else
        var r := ValidateElements(g, store, n.element.value, doc, 0);
        if r.Fail? then r
        else if n.unique && HasDuplicate(es) then TopLevel(Duplicate)
        else Pass
    case _ => TopLevel(WrongType(ArrayKind))
  }

  /** Each element from index i, in index order, validated against the element type. */
  function ValidateElements(g: Regexps, store: Store, element: Node, doc: Json, i: nat): (r: Outcome<ValidationError>)
    requires doc.Arr? && i <= |doc.elems|
    decreases Container(doc), doc, 0, |doc.elems| - i
  {
    var es := doc.elems;
    if i == |es| then Pass
    else
      var r := Validate(g, store, element, es[i].value);
      if r.Fail? then Fail(Prefix(Index(i), r.error))
      else ValidateElements(g, store, element, doc, i + 1)
  }

  function ValidateString(g: Regexps, pattern: Option<string>, choices: seq<string>, doc: Json): (r: Outcome<ValidationError>)
  {
    match doc
    case Null => TopLevel(NullValue(StringKind))
    case Str(s) =>
      if |choices| != 0 && s !in choices then TopLevel(NotAChoice)
      else if pattern.Some? && !g.matches(pattern.value, s) then TopLevel(PatternMismatch)
      else Pass
    case _ => TopLevel(WrongType(StringKind))
  }

  /** intSchema.Validate (and numberSchema's, over integers). */
  function ValidateInt(kind: Kind, c: Numeric, doc: Json): (r: Outcome<ValidationError>)
  {
    match doc
    case Null => TopLevel(NullValue(kind))
    case Num(x) =>
      (match CheckNumber(x, c)
       case Pass => Pass
       case Fail(cause) => TopLevel(cause))
    case _ => TopLevel(WrongType(kind))
  }

  /** validateNumber: choices first, then the inclusive minimum, then the inclusive maximum. */
  function CheckNumber(x: int, c: Numeric): (r: Outcome<Cause>)
  {
    if |c.choices| != 0 && x !in c.choices then Fail(NotAChoice)
    else if c.min.Some? && x < c.min.value then Fail(BelowMin)
    else if c.max.Some? && x > c.max.value then Fail(AboveMax)
    else Pass
  }

  // The loops of the source, each proved against the function above that specifies it.

  /** The `missing` flag loop over the required combinations; a matching combination stops it. */
  method RequiredMissing(combs: seq<seq<string>>, ms: seq<Member>) returns (missing: bool)
    ensures missing <==> !RequiredSatisfied(combs, ms)
  {
    missing := false;
    var c := 0;
    while c < |combs|
      invariant 0 <= c <= |combs|
      invariant forall j :: 0 <= j < c ==> !AllPresent(combs[j], ms)
      invariant missing <==> c > 0
    {
      missing := false;
      var k := 0;
      while k < |combs[c]|
        invariant 0 <= k <= |combs[c]|
        invariant !missing
        invariant forall j :: 0 <= j < k ==> Has(ms, combs[c][j])
      {
        if !Has(ms, combs[c][k]) {
          missing := true;
          assert !AllPresent(combs[c], ms);
          break;
        }
        k := k + 1;
      }
      if !missing {
        assert AllPresent(combs[c], ms);
        break;
      }
      c := c + 1;
    }
  }

  /** The `valSet` loop of the unique check: the first raw encoding seen twice stops it. */
  method ContainsDuplicate(es: seq<Elem>) returns (dup: bool)
    ensures dup <==> HasDuplicate(es)
  {
    var valSet: set<string> := {};
    var i := 0;
    while i < |es|
      invariant 0 <= i <= |es|
      invariant valSet == set j | 0 <= j < i :: es[j].raw
      invariant forall a, b :: 0 <= a < b < i ==> es[a].raw != es[b].raw
    {
      if es[i].raw in valSet {
        return true;
      }
      valSet := valSet + {es[i].raw};
      i := i + 1;
    }
    return false;
  }

  /** validateNumber: a `found` loop over the choices, then the two bounds. */
  method ValidateNumber(x: int, c: Numeric) returns (r: Outcome<Cause>)
    ensures r == CheckNumber(x, c)
  {
    if |c.choices| != 0 {
      var found := false;
      var k := 0;
      while k < |c.choices|
        invariant 0 <= k <= |c.choices|
        invariant !found ==> forall j :: 0 <= j < k ==> c.choices[j] != x
        invariant found ==> x in c.choices
      {
        if x == c.choices[k] {
          found := true;
          break;
        }
        k := k + 1;
      }
      if !found {
        return Fail(NotAChoice);
      }
    }
    if c.min.Some? && x < c.min.value {
      return Fail(BelowMin);
    }
    if c.max.Some? && x > c.max.value {
      return Fail(AboveMax);
    }
    return Pass;
  }
}
