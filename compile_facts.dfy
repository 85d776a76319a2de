/**
 * Promises of the schema compiler: how a definition is dispatched on its
 * declared type, which constraint combinations are refused, what a key
 * type must be, and what the accepted scalar constraints mean.
 */
module CompileFacts {
  import opened Wrappers
  import opened JsonModel
  import opened Nodes
  import opened Compiler

  // Dispatch on the declared type.

  /** An object definition without "type" is a map definition. */
  lemma UntypedObjectIsMap(g: Regexps, types: Types, store: Store, ms: seq<Member>)
    requires !Has(ms, "type")
    ensures Parse(g, types, store, Obj(ms)) == ParseMapConstraints(g, types, store, FreshMap, Obj(ms))
  {}

  /** An object definition is parsed as the kind its "type" names. */
  lemma TypedObjectKind(g: Regexps, types: Types, store: Store, ms: seq<Member>)
    requires Parse(g, types, store, Obj(ms)).Success?
    ensures TypeName(ms).Success? && NewTypeSchema(types, TypeName(ms).value).Success?
    ensures KindOf(Parse(g, types, store, Obj(ms)).value.0) == KindOf(NewTypeSchema(types, TypeName(ms).value).value)
  {}

  /**
   * A bare string is a type name. It compiles exactly when it names a kind
   * that needs no constraints or a declared user type, and then leaves the
   * store as it was.
   */
  lemma BareNameCompiles(g: Regexps, types: Types, store: Store, typ: string)
    ensures Parse(g, types, store, Str(typ)).Success? <==>
      typ == "string" || typ == "int" || typ == "number" || typ == "bool" || typ == "any" ||
      (typ != "" && typ[0] == '$' && typ[1..] in types)
    ensures Parse(g, types, store, Str(typ)).Success? ==> Parse(g, types, store, Str(typ)).value.1 == store
  {}

  /** The two kinds that expect constraints cannot be named bare. */
  lemma BareMapOrArrayFails(g: Regexps, types: Types, store: Store)
    ensures Parse(g, types, store, Str("map")) == Failure(ConstraintsRequired("map"))
    ensures Parse(g, types, store, Str("array")) == Failure(ConstraintsRequired("array"))
  {}

  /** A null definition is taken as a map given without constraints. */
  lemma NullDefinitionRefused(g: Regexps, types: Types, store: Store)
    ensures Parse(g, types, store, Null) == Failure(ConstraintsRequired("map"))
  {}

  /** Numbers, booleans and arrays are not definitions. */
  lemma OtherDefinitionsRefused(g: Regexps, types: Types, store: Store, def: Json)
    requires def.Num? || def.Bool? || def.Arr?
    ensures Parse(g, types, store, def) == Failure(DefinitionNotMapOrString)
  {}

  /** `$name` refers to the declared user type of that name, and to nothing else. */
  lemma UserTypeReference(g: Regexps, types: Types, store: Store, name: string)
    ensures Parse(g, types, store, Str("$" + name)) ==
      if name in types then Success((Ref(types[name]), store)) else Failure(UnknownUserType(name))
  {
    var typ := "$" + name;
    assert typ[0] == '$' && typ[1..] == name;
    assert typ != "map" && typ != "string" && typ != "int" && typ != "any" && typ != "number" && typ != "bool" && typ != "array" by {
      assert "map"[0] != '$' && "string"[0] != '$' && "int"[0] != '$' && "any"[0] != '$';
      assert "number"[0] != '$' && "bool"[0] != '$' && "array"[0] != '$';
    }
  }

  // The top level.

  /**
   * A compiled schema came from an object with "schema" whose "type", if
   * any, reads "map", and its top-level node is a map.
   */
  lemma CompiledTopLevel(g: Regexps, top: Json)
    requires Compile(g, top).Success?
    ensures top.Obj? && Has(top.members, "schema")
    ensures Has(top.members, "type") ==> Get(top.members, "type") == Some(Str("map"))
    ensures Compile(g, top).value.top.MapNode?
  {
    var ms := top.members;
    assert TypeName(ms) == Success("map");
  }

  /**
   * The top level's refusals: not an object, a "type" that is not a string
   * or not "map", and no "schema" (also when "type" reads "map", and for a
   * null top level).
   */
  lemma TopLevelRefusals(g: Regexps, top: Json)
    ensures !top.Obj? && !top.Null? ==> Compile(g, top) == Failure(TopNotMap)
    ensures top.Null? ==> Compile(g, top) == Failure(TopMissingSchema)
    ensures top.Obj? && Has(top.members, "type") && DecodeString(Get(top.members, "type").value).None? ==>
            Compile(g, top) == Failure(TopTypeNotString)
    ensures top.Obj? && Has(top.members, "type") && DecodeString(Get(top.members, "type").value).Some? &&
            DecodeString(Get(top.members, "type").value).value != "map" ==>
            Compile(g, top) == Failure(TopTypeNotMap(DecodeString(Get(top.members, "type").value).value))
    ensures top.Obj? && (!Has(top.members, "type") || DecodeString(Get(top.members, "type").value) == Some("map")) &&
            !Has(top.members, "schema") ==>
            Compile(g, top) == Failure(TopMissingSchema)
    ensures top.Obj? && (!Has(top.members, "type") || DecodeString(Get(top.members, "type").value) == Some("map")) &&
            Has(top.members, "schema") && Has(top.members, "types") &&
            !Get(top.members, "types").value.Obj? && !Get(top.members, "types").value.Null? ==>
            Compile(g, top) == Failure(TypesNotMap)
  {}

  // User types.

  /**
   * The user-type loop from index i: when it succeeds, every name it went
   * through matches the user-type grammar and is in the table, and no
   * earlier name is lost.
   */
  lemma {:induction false} UserTypesDeclared(g: Regexps, defs: seq<Member>, i: nat, types: Types, store: Store)
    requires i <= |defs|
    ensures var r := CompileUserTypes(g, defs, i, types, store);
      r.Success? ==>
        types.Keys <= r.value.0.Keys &&
        forall j :: i <= j < |defs| ==> g.validUserType(defs[j].key) && defs[j].key in r.value.0
    decreases |defs| - i
  {
    if i < |defs| && g.validUserType(defs[i].key) {
      var p := Parse(g, types, store, defs[i].value);
      if p.Success? {
        var t := Register(types, p.value.1, defs[i].key, p.value.0);
        UserTypesDeclared(g, defs, i + 1, t.0, t.1);
        var r := CompileUserTypes(g, defs, i + 1, t.0, t.1);
        assert CompileUserTypes(g, defs, i, types, store) == r;
        if r.Success? {
          assert types.Keys <= t.0.Keys && defs[i].key in t.0;
          assert forall j :: i < j < |defs| ==> g.validUserType(defs[j].key) && defs[j].key in r.value.0;
        }
      }
    }
  }

  /**
   * The "types" object of a compiled schema: every declared name matches the
   * user-type grammar and is in the schema's table; so a schema declaring a
   * name outside the grammar does not compile.
   */
  lemma CompiledUserTypes(g: Regexps, top: Json, defs: seq<Member>)
    requires top.Obj? && Get(top.members, "types") == Some(Obj(defs))
    ensures Compile(g, top).Success? ==>
      forall j :: 0 <= j < |defs| ==> g.validUserType(defs[j].key) && defs[j].key in Compile(g, top).value.types
    ensures (exists j :: 0 <= j < |defs| && !g.validUserType(defs[j].key)) ==> Compile(g, top).Failure?
  {
    UserTypesDeclared(g, defs, 0, map[], map[]);
  }

  /**
   * Constraints written where a user type is used act on its shared node:
   * they succeed exactly when they would on that node, the result is the
   * same reference, and the store then holds the constrained node under the
   * type's name. A reference without a plain node is dangling.
   */
  lemma RefConstraintsWriteBack(g: Regexps, types: Types, store: Store, u: UserTypeRef, def: Json)
    requires def.Obj?
    ensures u.target in store && !store[u.target].Ref? ==>
      var r := ParseConstraints(g, types, store, Ref(u), def);
      var p := ParseConstraints(g, types, store, store[u.target], def);
      (r.Success? <==> p.Success?) &&
      (r.Failure? ==> r.error == p.error) &&
      (r.Success? ==> r.value.0 == Ref(u) && r.value.1 == p.value.1[u.target := p.value.0])
    ensures u.target !in store || store[u.target].Ref? ==>
      ParseConstraints(g, types, store, Ref(u), def) == Failure(Dangling(u.target))
  {}

  // Map constraints.

  /** Each forbidden pair of map constraints stops compilation with its own error. */
  lemma MapConflicts(g: Regexps, types: Types, store: Store, n: Node, ms: seq<Member>)
    requires n.MapNode?
    ensures Has(ms, "required") && !Has(ms, "schema") ==>
      ParseMapConstraints(g, types, store, n, Obj(ms)) == Failure(RequiredWithoutSchema)
    ensures Has(ms, "schema") && Has(ms, "keys") ==>
      ParseMapConstraints(g, types, store, n, Obj(ms)) == Failure(SchemaWithKeys)
    ensures Has(ms, "schema") && Has(ms, "values") && !Has(ms, "keys") ==>
      ParseMapConstraints(g, types, store, n, Obj(ms)) == Failure(SchemaWithValues)
  {}

  /** A fresh map with none of "schema", "keys" and "values" does not compile. */
  lemma MapNeedsShape(g: Regexps, types: Types, store: Store, ms: seq<Member>)
    requires !Has(ms, "schema") && !Has(ms, "keys") && !Has(ms, "values")
    ensures ParseMapConstraints(g, types, store, FreshMap, Obj(ms)).Failure?
    ensures !Has(ms, "required") ==> ParseMapConstraints(g, types, store, FreshMap, Obj(ms)) == Failure(MapWithoutConstraints)
  {
    assert ParseKeysField(g, types, FreshMap, ms) == Success(None);
    assert ParseValuesField(g, types, store, FreshMap, Obj(ms)) == Success((None, store));
  }

  /** A flat list of keys is one combination with those keys. */
  lemma FlatRequiredIsOneCombination(es: seq<Elem>)
    requires |es| > 0 && forall i :: 0 <= i < |es| ==> es[i].value.Str?
    ensures DecodeRequired(Arr(es)).Success?
    ensures |DecodeRequired(Arr(es)).value| == 1
    ensures var comb := DecodeRequired(Arr(es)).value[0];
      |comb| == |es| && forall i :: 0 <= i < |es| ==> comb[i] == es[i].value.s
  {
    assert DecodeStrings(es[0].value).None?;
    assert DecodeStringLists(Arr(es)).None?;
  }

  /** A list of key lists is taken as it stands, one combination per list. */
  lemma NestedRequiredIsCombinations(es: seq<Elem>)
    requires forall i :: 0 <= i < |es| ==> DecodeStrings(es[i].value).Some?
    ensures DecodeRequired(Arr(es)).Success?
    ensures |DecodeRequired(Arr(es)).value| == |es|
    ensures forall i :: 0 <= i < |es| ==> DecodeRequired(Arr(es)).value[i] == DecodeStrings(es[i].value).value
  {}

  /**
   * The entry schemas are exactly the members of "schema": whatever the
   * loop started with, plus one entry per member, each compiled.
   */
  lemma {:induction false} ParseEntriesKeys(g: Regexps, types: Types, store: Store, entriesDef: Json, i: nat, acc: map<string, Node>)
    requires entriesDef.Obj? && i <= |entriesDef.members|
    ensures var r := ParseEntries(g, types, store, entriesDef, i, acc);
      r.Success? ==>
        r.value.0.Keys == acc.Keys + set j | i <= j < |entriesDef.members| :: entriesDef.members[j].key
    decreases |entriesDef.members| - i
  {
    var es := entriesDef.members;
    if i < |es| {
      var p := Parse(g, types, store, es[i].value);
      if p.Success? {
        var acc' := acc[es[i].key := p.value.0];
        ParseEntriesKeys(g, types, p.value.1, entriesDef, i + 1, acc');
        KeysFrom(es, i);
      }
    }
  }

  /** The keys from index i are the key at i and the keys after it. */
  lemma KeysFrom(es: seq<Member>, i: nat)
    requires i < |es|
    ensures (set j | i <= j < |es| :: es[j].key) == {es[i].key} + set j | i + 1 <= j < |es| :: es[j].key
  {
    var later := set j | i + 1 <= j < |es| :: es[j].key;
    var here := set j | i <= j < |es| :: es[j].key;
    forall x | x in here ensures x in {es[i].key} + later {
      var j :| i <= j < |es| && es[j].key == x;
      if j > i { assert x in later; }
    }
  }

  lemma ExactMapEntries(g: Regexps, types: Types, store: Store, n: Node, ms: seq<Member>)
    requires n.MapNode?
    requires Has(ms, "schema")
    requires ParseMapConstraints(g, types, store, n, Obj(ms)).Success?
    ensures var m := ParseMapConstraints(g, types, store, n, Obj(ms)).value.0;
      m.exact &&
      (Get(ms, "schema").value.Obj? ==>
        m.entries.Keys == set j | 0 <= j < |Get(ms, "schema").value.members| :: Get(ms, "schema").value.members[j].key) &&
      (Get(ms, "schema").value.Null? ==> m.entries == map[]) &&
      (Has(ms, "required") ==>
        forall c, k :: 0 <= c < |m.required| && 0 <= k < |m.required[c]| ==> m.required[c][k] in m.entries)
  {
    var def := Get(ms, "schema").value;
    assert ParseMapConstraints(g, types, store, n, Obj(ms)) == ParseExactMap(g, types, store, n, def, Get(ms, "required"));
    ExactMapShape(g, types, store, n, def, Get(ms, "required"));
  }

  /** The "schema" branch: one entry per member, and every required key has an entry. */
  lemma ExactMapShape(g: Regexps, types: Types, store: Store, n: Node, def: Json, required: Option<Json>)
    requires n.MapNode?
    requires ParseExactMap(g, types, store, n, def, required).Success?
    ensures var m := ParseExactMap(g, types, store, n, def, required).value.0;
      (def.Obj? ==> m.entries.Keys == set j | 0 <= j < |def.members| :: def.members[j].key) &&
      (def.Null? ==> m.entries == map[]) &&
      (required.Some? ==> forall c, k :: 0 <= c < |m.required| && 0 <= k < |m.required[c]| ==> m.required[c][k] in m.entries) &&
      (required.Some? ==> DecodeRequired(required.value).Success? && m.required == DecodeRequired(required.value).value) &&
      (required.None? ==> m.required == n.required) &&
      m == n.(exact := true, entries := m.entries, required := m.required)
  {
    if def.Obj? {
      ParseEntriesKeys(g, types, store, def, 0, map[]);
    }
  }

  // Key types.

  /** A key type given by name: "string", or a user type that wraps a string node. */
  lemma KeyTypeNameIff(types: Types, typ: string)
    ensures KeyTypeByName(types, typ).Success? <==>
      typ == "string" || (typ != "" && typ[0] == '$' && typ[1..] in types && types[typ[1..]].stringBased)
  {}

  /**
   * A key type given as an object must declare "string" or nothing, and
   * then takes string constraints on a fresh string node.
   */
  lemma KeyTypeObjectIff(g: Regexps, types: Types, ms: seq<Member>)
    ensures ParseMapKeyType(g, types, Obj(ms)).Success? <==>
      (!Has(ms, "type") || Get(ms, "type") == Some(Str("string"))) &&
      ParseStringConstraints(g, FreshString, ms).Success?
  {}

  /** Whatever the form, a compiled key type is string-based. */
  lemma KeyTypeIsStringBased(g: Regexps, types: Types, raw: Json)
    ensures ParseMapKeyType(g, types, raw).Success? ==>
      var k := ParseMapKeyType(g, types, raw).value;
      k.StringNode? || (k.Ref? && k.ref.stringBased)
    ensures !raw.Str? && !raw.Null? && !raw.Obj? ==> ParseMapKeyType(g, types, raw) == Failure(KeysNotMapOrString)
  {}

  // Scalar constraints.

  /**
   * The string constraints a fresh string node accepts: a non-empty list of
   * choices, or a pattern that compiles, or neither; never both.
   */
  lemma StringConstraintsIff(g: Regexps, ms: seq<Member>)
    ensures ParseStringConstraints(g, FreshString, ms).Success? <==>
      (Has(ms, "choices") ==> DecodeStrings(Get(ms, "choices").value).Some? && |DecodeStrings(Get(ms, "choices").value).value| > 0) &&
      !(Has(ms, "choices") && Has(ms, "pattern")) &&
      (Has(ms, "pattern") ==> DecodeString(Get(ms, "pattern").value).Some? && g.compiles(DecodeString(Get(ms, "pattern").value).value))
    ensures ParseStringConstraints(g, FreshString, ms).Success? ==>
      var s := ParseStringConstraints(g, FreshString, ms).value;
      s.choices == (if Has(ms, "choices") then DecodeStrings(Get(ms, "choices").value).value else []) &&
      s.pattern == (if Has(ms, "pattern") then Some(DecodeString(Get(ms, "pattern").value).value) else None)
  {}

  /**
   * Constraints written where a user type is used act on the user type's
   * shared node, so the choices it already holds count: a pattern, a
   * minimum or a maximum written beside them is refused.
   */
  lemma SharedNodeConstraints(g: Regexps, n: Node, c: Numeric, ms: seq<Member>)
    requires !Has(ms, "choices")
    ensures n.StringNode? && |n.choices| != 0 && Has(ms, "pattern") ==>
      ParseStringConstraints(g, n, ms) == Failure(ChoicesWithPattern)
    ensures |c.choices| != 0 && Has(ms, "min") ==> ParseNumericConstraints(c, ms) == Failure(ChoicesWithMin)
    ensures |c.choices| != 0 && !Has(ms, "min") && Has(ms, "max") ==>
      ParseNumericConstraints(c, ms) == Failure(ChoicesWithMax)
  {}

  /**
   * The numeric constraints a fresh int or number node accepts: a non-empty
   * list of choices with no bounds, or integer bounds with min <= max.
   */
  lemma NumericConstraintsIff(ms: seq<Member>)
    ensures ParseNumericConstraints(FreshNumeric, ms).Success? <==>
      (Has(ms, "choices") ==>
        DecodeInts(Get(ms, "choices").value).Some? && |DecodeInts(Get(ms, "choices").value).value| > 0 &&
        !Has(ms, "min") && !Has(ms, "max")) &&
      (Has(ms, "min") ==> DecodeInt(Get(ms, "min").value).Some?) &&
      (Has(ms, "max") ==> DecodeInt(Get(ms, "max").value).Some?) &&
      (Has(ms, "min") && Has(ms, "max") ==> DecodeInt(Get(ms, "min").value).value <= DecodeInt(Get(ms, "max").value).value)
    ensures ParseNumericConstraints(FreshNumeric, ms).Success? ==>
      var c := ParseNumericConstraints(FreshNumeric, ms).value;
      c.choices == (if Has(ms, "choices") then DecodeInts(Get(ms, "choices").value).value else []) &&
      c.min == (if Has(ms, "min") then Some(DecodeInt(Get(ms, "min").value).value) else None) &&
      c.max == (if Has(ms, "max") then Some(DecodeInt(Get(ms, "max").value).value) else None)
  {}

  /** Equal bounds are allowed; a minimum above the maximum is refused. */
  lemma NumericBounds(lo: int, hi: int)
    ensures var ms := [Member("min", Num(lo)), Member("max", Num(hi))];
      ParseNumericConstraints(FreshNumeric, ms) ==
        if lo <= hi then Success(Numeric(Some(lo), Some(hi), [])) else Failure(MinAboveMax)
  {
    var ms := [Member("min", Num(lo)), Member("max", Num(hi))];
    assert Get(ms, "choices") == None;
    assert ms[..1] == [Member("min", Num(lo))];
    assert Find(ms, "min") == Some(0);
    assert Get(ms, "min") == Some(Num(lo));
    assert Get(ms, "max") == Some(Num(hi));
  }

  // Arrays.

  /** An array definition needs "values"; once compiled it has an element type and reads "unique". */
  lemma ArrayConstraints(g: Regexps, types: Types, store: Store, ms: seq<Member>)
    ensures !Has(ms, "values") ==> ParseArrayConstraints(g, types, store, FreshArray, Obj(ms)) == Failure(ArrayWithoutValues)
    ensures ParseArrayConstraints(g, types, store, FreshArray, Obj(ms)).Success? ==>
      var a := ParseArrayConstraints(g, types, store, FreshArray, Obj(ms)).value.0;
      Has(ms, "values") &&
      a.element == Some(Parse(g, types, store, Get(ms, "values").value).value.0) &&
      a.unique == (Has(ms, "unique") && DecodeBool(Get(ms, "unique").value) == Some(true))
  {}
}
