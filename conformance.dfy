/**
 * What it means for a document to conform to a compiled node, stated
 * declaratively and independently of the order in which the validator
 * visits members and elements; and where a reported failure lies.
 */
module Conformance {
  import opened Wrappers
  import opened JsonModel
  import opened Nodes
  import opened Validator

  /** An integer the numeric constraints admit: a listed choice, within whichever bounds are set. */
  predicate NumberAllowed(x: int, c: Numeric) {
    (|c.choices| == 0 || x in c.choices) &&
    (c.min.Some? ==> c.min.value <= x) &&
    (c.max.Some? ==> x <= c.max.value)
  }

  /** The document satisfies the node and everything it contains. */
  predicate Conforms(g: Regexps, store: Store, n: Node, doc: Json)
    decreases Container(doc), doc, 2 + Rank(n)
  {
    match n
    case Ref(u) =>
      u.target in store && !store[u.target].Ref? && Conforms(g, store, store[u.target], doc)
    case MapNode(exact, entries, keys, values, required) =>
      doc.Obj? &&
      (forall i :: 0 <= i < |doc.members| ==> g.validSubkey(doc.members[i].key)) &&
      RequiredSatisfied(required, doc.members) &&
      (if exact then
         forall i :: 0 <= i < |doc.members| ==>
           doc.members[i].key in entries &&
           Conforms(g, store, entries[doc.members[i].key], doc.members[i].value)
       else
         (keys.Some? ==> forall i :: 0 <= i < |doc.members| ==> Conforms(g, store, keys.value, Str(doc.members[i].key))) &&
         (values.Some? ==> forall i :: 0 <= i < |doc.members| ==> Conforms(g, store, values.value, doc.members[i].value)))
    case StringNode(pattern, choices) =>
      doc.Str? && (|choices| == 0 || doc.s in choices) && (pattern.Some? ==> g.matches(pattern.value, doc.s))
    case IntNode(c) => doc.Num? && NumberAllowed(doc.n, c)
    case NumberNode(c) => doc.Num? && NumberAllowed(doc.n, c)
    case BoolNode => doc.Bool?
    case AnyNode => !doc.Null?
    case ArrayNode(element, unique) =>
      doc.Arr? && element.Some? &&
      (forall i :: 0 <= i < |doc.elems| ==> Conforms(g, store, element.value, doc.elems[i].value)) &&
      (unique ==> !HasDuplicate(doc.elems))
  }

  lemma CheckNumberAllowed(x: int, c: Numeric)
    ensures CheckNumber(x, c).Pass? <==> NumberAllowed(x, c)
  {}

  /** The validator accepts exactly the conforming documents. */
  lemma {:induction false} ValidateConforms(g: Regexps, store: Store, n: Node, doc: Json)
    ensures Validate(g, store, n, doc).Pass? <==> Conforms(g, store, n, doc)
    decreases Container(doc), doc, 2 + Rank(n), 0
  {
    match n
    case Ref(u) =>
      if u.target in store && !store[u.target].Ref? {
        ValidateConforms(g, store, store[u.target], doc);
      }
    case MapNode(_, _, _, _, _) => ValidateMapConforms(g, store, n, doc);
    case StringNode(_, _) =>
    case IntNode(c) => if doc.Num? { CheckNumberAllowed(doc.n, c); }
    case NumberNode(c) => if doc.Num? { CheckNumberAllowed(doc.n, c); }
    case BoolNode =>
    case AnyNode =>
    case ArrayNode(_, _) => ValidateArrayConforms(g, store, n, doc);
  }

  lemma {:induction false} ValidateMapConforms(g: Regexps, store: Store, n: Node, doc: Json)
    requires n.MapNode?
    ensures ValidateMap(g, store, n, doc).Pass? <==> Conforms(g, store, n, doc)
    decreases Container(doc), doc, 1, 0
  {
    if doc.Obj? {
      if n.exact {
        ValidateEntriesConforms(g, store, n.entries, doc, 0);
      } else {
        if n.keys.Some? {
          ValidateKeysConforms(g, store, n.keys.value, doc, 0);
        }
        if n.values.Some? {
          ValidateValuesConforms(g, store, n.values.value, doc, 0);
        }
      }
    }
  }

  lemma {:induction false} ValidateEntriesConforms(g: Regexps, store: Store, entries: map<string, Node>, doc: Json, i: nat)
    requires doc.Obj? && i <= |doc.members|
    ensures ValidateEntries(g, store, entries, doc, i).Pass? <==>
      forall j :: i <= j < |doc.members| && doc.members[j].key in entries ==>
        Conforms(g, store, entries[doc.members[j].key], doc.members[j].value)
    decreases Container(doc), doc, 0, |doc.members| - i
  {
    var ms := doc.members;
    if i < |ms| {
      if ms[i].key in entries {
        ValidateConforms(g, store, entries[ms[i].key], ms[i].value);
      }
      ValidateEntriesConforms(g, store, entries, doc, i + 1);
    }
  }

  lemma {:induction false} ValidateKeysConforms(g: Regexps, store: Store, keys: Node, doc: Json, i: nat)
    requires doc.Obj? && i <= |doc.members|
    ensures ValidateKeys(g, store, keys, doc, i).Pass? <==>
      forall j :: i <= j < |doc.members| ==> Conforms(g, store, keys, Str(doc.members[j].key))
    decreases Container(doc), doc, 0, |doc.members| - i
  {
    var ms := doc.members;
    if i < |ms| {
      ValidateConforms(g, store, keys, Str(ms[i].key));
      ValidateKeysConforms(g, store, keys, doc, i + 1);
    }
  }

  lemma {:induction false} ValidateValuesConforms(g: Regexps, store: Store, values: Node, doc: Json, i: nat)
    requires doc.Obj? && i <= |doc.members|
    ensures ValidateValues(g, store, values, doc, i).Pass? <==>
      forall j :: i <= j < |doc.members| ==> Conforms(g, store, values, doc.members[j].value)
    decreases Container(doc), doc, 0, |doc.members| - i
  {
    var ms := doc.members;
    if i < |ms| {
      ValidateConforms(g, store, values, ms[i].value);
      ValidateValuesConforms(g, store, values, doc, i + 1);
    }
  }

  lemma {:induction false} ValidateArrayConforms(g: Regexps, store: Store, n: Node, doc: Json)
    requires n.ArrayNode?
    ensures ValidateArray(g, store, n, doc).Pass? <==> Conforms(g, store, n, doc)
    decreases Container(doc), doc, 1, 0
  {
    if doc.Arr? && n.element.Some? {
      ValidateElementsConforms(g, store, n.element.value, doc, 0);
    }
  }

  lemma {:induction false} ValidateElementsConforms(g: Regexps, store: Store, element: Node, doc: Json, i: nat)
    requires doc.Arr? && i <= |doc.elems|
    ensures ValidateElements(g, store, element, doc, i).Pass? <==>
      forall j :: i <= j < |doc.elems| ==> Conforms(g, store, element, doc.elems[j].value)
    decreases Container(doc), doc, 0, |doc.elems| - i
  {
    var es := doc.elems;
    if i < |es| {
      ValidateConforms(g, store, element, es[i].value);
      ValidateElementsConforms(g, store, element, doc, i + 1);
    }
  }

  /**
   * The path leads, key by key and index by index, from the document to a
   * value that does not conform to the node that governs it there.
   */
  predicate FailsAt(g: Regexps, store: Store, n: Node, doc: Json, path: seq<Segment>)
    decreases Container(doc), doc, 2 + Rank(n)
  {
    if |path| == 0 then !Conforms(g, store, n, doc)
    else
      match n
      case Ref(u) =>
        u.target in store && !store[u.target].Ref? && FailsAt(g, store, store[u.target], doc, path)
      case MapNode(exact, entries, keys, values, _) =>
        doc.Obj? && path[0].Key? &&
        exists i :: 0 <= i < |doc.members| && doc.members[i].key == path[0].name &&
          if exact then
            path[0].name in entries &&
            FailsAt(g, store, entries[path[0].name], doc.members[i].value, path[1..])
          else
            (keys.Some? && FailsAt(g, store, keys.value, Str(path[0].name), path[1..])) ||
            (values.Some? && FailsAt(g, store, values.value, doc.members[i].value, path[1..]))
      case ArrayNode(element, _) =>
        doc.Arr? && path[0].Index? && path[0].i < |doc.elems| && element.Some? &&
        FailsAt(g, store, element.value, doc.elems[path[0].i].value, path[1..])
      case _ => false
  }

  /** Every reported path leads to a value that fails its own node. */
  lemma {:induction false} ValidateFailsAt(g: Regexps, store: Store, n: Node, doc: Json)
    ensures Validate(g, store, n, doc).Fail? ==> FailsAt(g, store, n, doc, Validate(g, store, n, doc).error.path)
    decreases Container(doc), doc, 2 + Rank(n), 0
  {
    var r := Validate(g, store, n, doc);
    if r.Fail? {
      if |r.error.path| == 0 {
        ValidateConforms(g, store, n, doc);
      } else {
        match n
        case Ref(u) => ValidateFailsAt(g, store, store[u.target], doc);
        case MapNode(_, _, _, _, _) => ValidateMapFailsAt(g, store, n, doc);
        case ArrayNode(_, _) => ValidateArrayFailsAt(g, store, n, doc);
      }
    }
  }

  lemma {:induction false} ValidateMapFailsAt(g: Regexps, store: Store, n: Node, doc: Json)
    requires n.MapNode?
    ensures ValidateMap(g, store, n, doc).Fail? && |ValidateMap(g, store, n, doc).error.path| > 0 ==>
      FailsAt(g, store, n, doc, ValidateMap(g, store, n, doc).error.path)
    decreases Container(doc), doc, 1, 0
  {
    var r := ValidateMap(g, store, n, doc);
    if r.Fail? && |r.error.path| > 0 {
      if n.exact {
        ValidateEntriesFailsAt(g, store, n.entries, doc, 0);
      } else {
        if n.keys.Some? {
          ValidateKeysFailsAt(g, store, n.keys.value, doc, 0);
        }
        if n.values.Some? {
          ValidateValuesFailsAt(g, store, n.values.value, doc, 0);
        }
      }
    }
  }

  lemma {:induction false} ValidateEntriesFailsAt(g: Regexps, store: Store, entries: map<string, Node>, doc: Json, i: nat)
    requires doc.Obj? && i <= |doc.members|
    ensures var r := ValidateEntries(g, store, entries, doc, i);
      r.Fail? ==>
        |r.error.path| > 0 && r.error.path[0].Key? &&
        exists j :: i <= j < |doc.members| && doc.members[j].key == r.error.path[0].name &&
          doc.members[j].key in entries &&
          FailsAt(g, store, entries[doc.members[j].key], doc.members[j].value, r.error.path[1..])
    decreases Container(doc), doc, 0, |doc.members| - i
  {
    var ms := doc.members;
    if i < |ms| {
      if ms[i].key in entries {
        ValidateFailsAt(g, store, entries[ms[i].key], ms[i].value);
      }
      ValidateEntriesFailsAt(g, store, entries, doc, i + 1);
    }
  }

  lemma {:induction false} ValidateKeysFailsAt(g: Regexps, store: Store, keys: Node, doc: Json, i: nat)
    requires doc.Obj? && i <= |doc.members|
    ensures var r := ValidateKeys(g, store, keys, doc, i);
      r.Fail? ==>
        |r.error.path| > 0 && r.error.path[0].Key? &&
        exists j :: i <= j < |doc.members| && doc.members[j].key == r.error.path[0].name &&
          FailsAt(g, store, keys, Str(doc.members[j].key), r.error.path[1..])
    decreases Container(doc), doc, 0, |doc.members| - i
  {
    var ms := doc.members;
    if i < |ms| {
      ValidateFailsAt(g, store, keys, Str(ms[i].key));
      ValidateKeysFailsAt(g, store, keys, doc, i + 1);
    }
  }

  lemma {:induction false} ValidateValuesFailsAt(g: Regexps, store: Store, values: Node, doc: Json, i: nat)
    requires doc.Obj? && i <= |doc.members|
    ensures var r := ValidateValues(g, store, values, doc, i);
      r.Fail? ==>
        |r.error.path| > 0 && r.error.path[0].Key? &&
        exists j :: i <= j < |doc.members| && doc.members[j].key == r.error.path[0].name &&
          FailsAt(g, store, values, doc.members[j].value, r.error.path[1..])
    decreases Container(doc), doc, 0, |doc.members| - i
  {
    var ms := doc.members;
    if i < |ms| {
      ValidateFailsAt(g, store, values, ms[i].value);
      ValidateValuesFailsAt(g, store, values, doc, i + 1);
    }
  }

  lemma {:induction false} ValidateArrayFailsAt(g: Regexps, store: Store, n: Node, doc: Json)
    requires n.ArrayNode?
    ensures ValidateArray(g, store, n, doc).Fail? && |ValidateArray(g, store, n, doc).error.path| > 0 ==>
      FailsAt(g, store, n, doc, ValidateArray(g, store, n, doc).error.path)
    decreases Container(doc), doc, 1, 0
  {
    if doc.Arr? && n.element.Some? {
      ValidateElementsFailsAt(g, store, n.element.value, doc, 0);
    }
  }

  /**
   * Elements are checked in index order: the reported index is the first
   * element that fails, and its own error follows the index in the path.
   */
  lemma {:induction false} ValidateElementsFailsAt(g: Regexps, store: Store, element: Node, doc: Json, i: nat)
    requires doc.Arr? && i <= |doc.elems|
    ensures var r := ValidateElements(g, store, element, doc, i);
      r.Fail? ==>
        |r.error.path| > 0 && r.error.path[0].Index? &&
        var j := r.error.path[0].i;
        i <= j < |doc.elems| &&
        (forall k :: i <= k < j ==> Validate(g, store, element, doc.elems[k].value).Pass?) &&
        Validate(g, store, element, doc.elems[j].value) == Fail(ValidationError(r.error.path[1..], r.error.cause)) &&
        FailsAt(g, store, element, doc.elems[j].value, r.error.path[1..])
    decreases Container(doc), doc, 0, |doc.elems| - i
  {
    var es := doc.elems;
    if i < |es| {
      ValidateFailsAt(g, store, element, es[i].value);
      ValidateElementsFailsAt(g, store, element, doc, i + 1);
    }
  }
}
