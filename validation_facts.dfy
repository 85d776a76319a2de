/**
 * Particular promises of the validator: null is never accepted, an exact
 * schema refuses keys it does not list and ignores key and value types,
 * required combinations are alternatives, uniqueness compares raw
 * encodings, and integers are checked against choices and inclusive bounds.
 */
module ValidationFacts {
  import opened Wrappers
  import opened JsonModel
  import opened Nodes
  import opened Validator
  import opened Conformance

  /** Every kind refuses a JSON null, reporting it at the element itself. */
  lemma NullRejected(g: Regexps, store: Store, n: Node)
    ensures Validate(g, store, n, Null).Fail?
    ensures Validate(g, store, n, Null).error.path == []
    ensures !n.Ref? ==> Validate(g, store, n, Null).error.cause == NullValue(KindOf(n))
    decreases Rank(n)
  {
    if n.Ref? && n.ref.target in store && !store[n.ref.target].Ref? {
      NullRejected(g, store, store[n.ref.target]);
    }
  }

  /** An exact schema refuses a key it has no entry for, however valid the other values are. */
  lemma UnexpectedKeyRejected(g: Regexps, store: Store, n: Node, ms: seq<Member>, i: nat)
    requires n.MapNode? && n.exact
    requires forall j :: 0 <= j < |ms| ==> g.validSubkey(ms[j].key)
    requires i < |ms| && ms[i].key !in n.entries
    ensures var r := Validate(g, store, n, Obj(ms));
      r.Fail? && r.error.path == [] && r.error.cause.UnexpectedKey? && r.error.cause.key !in n.entries
  {}

  /** With exact entries, the key type and the value type play no part. */
  lemma ExactIgnoresKeysAndValues(g: Regexps, store: Store, entries: map<string, Node>,
                                  keys1: Option<Node>, values1: Option<Node>,
                                  keys2: Option<Node>, values2: Option<Node>,
                                  required: seq<seq<string>>, doc: Json)
    ensures Validate(g, store, MapNode(true, entries, keys1, values1, required), doc)
         == Validate(g, store, MapNode(true, entries, keys2, values2, required), doc)
  {}

  /**
   * An exact map whose keys are valid, listed and complete enough for the
   * required check passes iff every value conforms to its entry node.
   */
  lemma ExactEntriesDecide(g: Regexps, store: Store, n: Node, ms: seq<Member>)
    requires n.MapNode? && n.exact
    requires forall j :: 0 <= j < |ms| ==> g.validSubkey(ms[j].key) && ms[j].key in n.entries
    requires RequiredSatisfied(n.required, ms)
    ensures Validate(g, store, n, Obj(ms)).Pass? <==>
      forall j :: 0 <= j < |ms| ==> Conforms(g, store, n.entries[ms[j].key], ms[j].value)
  {
    ValidateConforms(g, store, n, Obj(ms));
  }

  /** The node of the documented example: entries A, B and C; either A alone, or B with C, is required. */
  const AlternativesNode: Node :=
    MapNode(true, map["A" := AnyNode, "B" := AnyNode, "C" := AnyNode], None, None, [["A"], ["B", "C"]])

  /**
   * The documented example of alternatives, validated: {A} and {B, C} are
   * accepted, while {B} and {} are refused at the object itself as missing
   * a required combination.
   */
  lemma RequiredAlternativesExample(g: Regexps, store: Store)
    requires g.validSubkey("A") && g.validSubkey("B") && g.validSubkey("C")
    ensures Validate(g, store, AlternativesNode, Obj([Member("A", Num(1))])) == Pass
    ensures Validate(g, store, AlternativesNode, Obj([Member("B", Num(1)), Member("C", Num(1))])) == Pass
    ensures Validate(g, store, AlternativesNode, Obj([Member("B", Num(1))])) == TopLevel(MissingRequired)
    ensures Validate(g, store, AlternativesNode, Obj([])) == TopLevel(MissingRequired)
  {
    AlternativeA(g, store);
    AlternativeBC(g, store);
    AlternativeMissing(g, store, [Member("B", Num(1))]);
    AlternativeMissing(g, store, []);
  }

  lemma AlternativeA(g: Regexps, store: Store)
    requires g.validSubkey("A")
    ensures Validate(g, store, AlternativesNode, Obj([Member("A", Num(1))])) == Pass
  {
    var a := [Member("A", Num(1))];
    assert AllPresent(AlternativesNode.required[0], a) by { assert a[0].key == "A"; }
    assert FirstUnexpectedKey(a, AlternativesNode.entries) == None;
  }

  lemma AlternativeBC(g: Regexps, store: Store)
    requires g.validSubkey("B") && g.validSubkey("C")
    ensures Validate(g, store, AlternativesNode, Obj([Member("B", Num(1)), Member("C", Num(1))])) == Pass
  {
    var bc := [Member("B", Num(1)), Member("C", Num(1))];
    assert AllPresent(AlternativesNode.required[1], bc) by { assert bc[0].key == "B" && bc[1].key == "C"; }
    assert FirstUnexpectedKey(bc, AlternativesNode.entries) == None;
    assert ValidateEntries(g, store, AlternativesNode.entries, Obj(bc), 1) == Pass;
  }

  /** An object whose keys, all valid and listed, include neither A nor C lacks both alternatives. */
  lemma AlternativeMissing(g: Regexps, store: Store, ms: seq<Member>)
    requires forall j :: 0 <= j < |ms| ==> g.validSubkey(ms[j].key) && ms[j].key in AlternativesNode.entries
    requires !Has(ms, "A") && !Has(ms, "C")
    ensures Validate(g, store, AlternativesNode, Obj(ms)) == TopLevel(MissingRequired)
  {
    var combs := AlternativesNode.required;
    assert !AllPresent(combs[0], ms) by { assert combs[0][0] == "A"; }
    assert !AllPresent(combs[1], ms) by { assert combs[1][1] == "C"; }
  }

  /**
   * No requirement: a map node whose list of combinations is empty never
   * refuses a document as missing a required combination.
   */
  lemma NoRequirement(g: Regexps, store: Store, n: Node, doc: Json)
    requires n.MapNode? && n.required == []
    ensures Validate(g, store, n, doc) != TopLevel(MissingRequired)
  {
    if doc.Obj? {
      if n.exact {
        ValidateEntriesFailsAt(g, store, n.entries, doc, 0);
      } else {
        if n.keys.Some? {
          ValidateKeysFailsAt(g, store, n.keys.value, doc, 0);
        }
        if n.values.Some? {
          ValidateValuesFailsAt(g, store, n.values.value, doc, 0);
        }
      }
    }
  }

  /**
   * A unique array whose elements each pass is refused exactly when two
   * elements have the same raw encoding.
   */
  lemma UniqueDecidedByRaw(g: Regexps, store: Store, element: Node, es: seq<Elem>)
    requires forall i :: 0 <= i < |es| ==> Validate(g, store, element, es[i].value).Pass?
    ensures Validate(g, store, ArrayNode(Some(element), true), Arr(es))
         == (if HasDuplicate(es) then TopLevel(Duplicate) else Pass)
  {
    forall i | 0 <= i < |es| ensures Conforms(g, store, element, es[i].value) {
      ValidateConforms(g, store, element, es[i].value);
    }
    ValidateElementsConforms(g, store, element, Arr(es), 0);
  }

  /** An integer passes an int node iff it is an allowed choice within the inclusive bounds. */
  lemma IntAcceptedIff(g: Regexps, store: Store, c: Numeric, x: int)
    ensures Validate(g, store, IntNode(c), Num(x)).Pass? <==> NumberAllowed(x, c)
    ensures Validate(g, store, NumberNode(c), Num(x)).Pass? <==> NumberAllowed(x, c)
  {
    CheckNumberAllowed(x, c);
  }

  /** An int or number node whose bounds are both m accepts the integer m and no other. */
  lemma EqualBoundsAdmitOneValue(g: Regexps, store: Store, x: int, m: int)
    ensures Validate(g, store, IntNode(Numeric(Some(m), Some(m), [])), Num(x)).Pass? <==> x == m
    ensures Validate(g, store, NumberNode(Numeric(Some(m), Some(m), [])), Num(x)).Pass? <==> x == m
  {
    IntAcceptedIff(g, store, Numeric(Some(m), Some(m), []), x);
  }
}
