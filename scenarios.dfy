/**
 * A worked schema end to end: a top-level map with one entry "a", an array
 * of ints. Compiling it and validating a document whose second element is a
 * string reports the path a[1].
 */
module Scenarios {
  import opened Wrappers
  import opened JsonModel
  import opened Nodes
  import opened Compiler
  import opened Validator
  import opened ErrorText

  const ArrayDef: Json := Obj([Member("type", Str("array")), Member("values", Str("int"))])
  const EntriesDef: Json := Obj([Member("a", ArrayDef)])
  const TopDef: Json := Obj([Member("schema", EntriesDef)])
  const IntArrayNode: Node := ArrayNode(Some(IntNode(FreshNumeric)), false)
  const TopNode: Node := MapNode(true, map["a" := IntArrayNode], None, None, [])
  const Elements: Json := Arr([Elem("1", Num(1)), Elem("\"x\"", Str("x"))])
  const Document: Json := Obj([Member("a", Elements)])

  lemma ParseArrayDef(g: Regexps)
    ensures Parse(g, map[], map[], ArrayDef) == Success((IntArrayNode, map[]))
  {
    var ams := ArrayDef.members;
    assert ams[..1] == [Member("type", Str("array"))];
    assert Get(ams, "type") == Some(Str("array"));
    assert Get(ams, "values") == Some(Str("int"));
    assert Get(ams, "unique") == None;
    assert TypeName(ams) == Success("array");
    assert NewTypeSchema(map[], "array") == Success(FreshArray);
    assert Parse(g, map[], map[], Str("int")) == Success((IntNode(FreshNumeric), map[]));
  }

  lemma TopEntries(g: Regexps)
    requires g.validSubkey("a")
    ensures ParseExactEntries(g, map[], map[], EntriesDef) == Success((map["a" := IntArrayNode], map[]))
  {
    ParseArrayDef(g);
    assert ParseEntries(g, map[], map[], EntriesDef, 1, map["a" := IntArrayNode]) == Success((map["a" := IntArrayNode], map[]));
    assert ParseEntries(g, map[], map[], EntriesDef, 0, map[]) == Success((map["a" := IntArrayNode], map[]));
    assert FirstInvalidKey(g, EntriesDef.members) == None;
  }

  lemma ParseTopDef(g: Regexps)
    requires g.validSubkey("a")
    ensures Parse(g, map[], map[], TopDef) == Success((TopNode, map[]))
  {
    TopEntries(g);
    var tms := TopDef.members;
    assert Get(tms, "schema") == Some(EntriesDef);
    assert !Has(tms, "type") && !Has(tms, "required") && !Has(tms, "keys") && !Has(tms, "values");
    assert CheckExclusiveMapConstraints(tms) == Pass;
    assert TypeName(tms) == Success("map");
    assert ParseExactMap(g, map[], map[], FreshMap, EntriesDef, None) == Success((TopNode, map[]));
    assert ParseMapConstraints(g, map[], map[], FreshMap, TopDef) == Success((TopNode, map[]));
  }

  lemma CompileArrayEntry(g: Regexps)
    requires g.validSubkey("a")
    ensures Compile(g, TopDef) == Success(Schema(map[], map[], TopNode))
  {
    ParseTopDef(g);
    var tms := TopDef.members;
    assert !Has(tms, "type") && !Has(tms, "types") && Has(tms, "schema");
    assert CheckTopType(tms) == Pass;
    assert UserTypeDefs(tms) == Success([]);
  }

  lemma ValidateArrayEntry(g: Regexps)
    requires g.validSubkey("a")
    ensures Validate(g, map[], TopNode, Document) == Fail(ValidationError([Key("a"), Index(1)], WrongType(IntKind)))
  {
    assert Validate(g, map[], IntNode(FreshNumeric), Elements.elems[0].value) == Pass;
    assert Validate(g, map[], IntNode(FreshNumeric), Elements.elems[1].value) == TopLevel(WrongType(IntKind));
    assert [Index(1)] + [] == [Index(1)];
    assert ValidateElements(g, map[], IntNode(FreshNumeric), Elements, 1) == Fail(ValidationError([Index(1)], WrongType(IntKind)));
    assert ValidateElements(g, map[], IntNode(FreshNumeric), Elements, 0) == Fail(ValidationError([Index(1)], WrongType(IntKind)));
    assert Validate(g, map[], IntArrayNode, Elements) == Fail(ValidationError([Index(1)], WrongType(IntKind)));
    assert [Key("a")] + [Index(1)] == [Key("a"), Index(1)];
    assert ValidateEntries(g, map[], TopNode.entries, Document, 0) == Fail(ValidationError([Key("a"), Index(1)], WrongType(IntKind)));
    assert FirstInvalidKey(g, Document.members) == None;
  }

  /** The schema compiles, the document fails at a[1], and the message quotes that path. */
  lemma ArrayEntryScenario(g: Regexps)
    requires g.validSubkey("a")
    ensures Compile(g, TopDef).Success?
    ensures var s := Compile(g, TopDef).value;
      var r := Validate(g, s.store, s.top, Document);
      r.Fail? && r.error.path == [Key("a"), Index(1)] && Message(r.error) == ElementPrefix + "\"a[1]\""
  {
    CompileArrayEntry(g);
    ValidateArrayEntry(g);
    RenderExample();
  }

  // A user type constrained where it is used: the constraint lands on the
  // shared node, so a second, bare use of the same type sees it too.

  const TypesDef: Json := Obj([Member("t", Str("string"))])
  const ChoicesDef: Json := Arr([Elem("\"x\"", Str("x"))])
  const ConstrainedUse: Json := Obj([Member("type", Str("$t")), Member("choices", ChoicesDef)])
  const UsesDef: Json := Obj([Member("a", ConstrainedUse), Member("b", Str("$t"))])
  const SharedTop: Json := Obj([Member("types", TypesDef), Member("schema", UsesDef)])
  const TRef: UserTypeRef := UserTypeRef("t", true)
  const TTypes: Types := map["t" := TRef]
  const XOnly: Node := StringNode(None, ["x"])
  const SharedNode: Node := MapNode(true, map["a" := Ref(TRef), "b" := Ref(TRef)], None, None, [])

  lemma CompileTypes(g: Regexps)
    requires g.validUserType("t")
    ensures CompileUserTypes(g, TypesDef.members, 0, map[], map[]) == Success((TTypes, map["t" := FreshString]))
  {
    assert Parse(g, map[], map[], Str("string")) == Success((FreshString, map[]));
    assert Register(map[], map[], "t", FreshString) == (TTypes, map["t" := FreshString]);
  }

  lemma ConstrainedUseChoices(g: Regexps)
    ensures ParseStringConstraints(g, FreshString, ConstrainedUse.members) == Success(XOnly)
  {
    var ms := ConstrainedUse.members;
    assert Get(ms, "choices") == Some(ChoicesDef);
    assert ChoicesDef.elems[1..] == [];
    assert Get(ms, "pattern") == None;
    var cs := DecodeStrings(ChoicesDef);
    assert DecodeString(ChoicesDef.elems[0].value) == Some("x");
    assert cs.Some? && |cs.value| == 1 && cs.value[0] == "x";
    assert cs.value == ["x"];
  }

  lemma ConstrainedUseType()
    ensures TypeName(ConstrainedUse.members) == Success("$t")
    ensures NewTypeSchema(TTypes, "$t") == Success(Ref(TRef))
  {
    var ms := ConstrainedUse.members;
    assert ms[..1] == [Member("type", Str("$t"))];
    assert Find(ms, "type") == Some(0);
    assert Get(ms, "type") == Some(Str("$t"));
    var typ := "$t";
    assert typ[0] == '$' && typ[1..] == "t";
    assert typ != "map" && typ != "string" && typ != "int" && typ != "any" && typ != "number" && typ != "bool" && typ != "array" by {
      assert "map"[0] != '$' && "string"[0] != '$' && "int"[0] != '$' && "any"[0] != '$';
      assert "number"[0] != '$' && "bool"[0] != '$' && "array"[0] != '$';
    }
  }

  lemma ParseConstrainedUse(g: Regexps)
    ensures Parse(g, TTypes, map["t" := FreshString], ConstrainedUse) == Success((Ref(TRef), map["t" := XOnly]))
  {
    ConstrainedUseChoices(g);
    ConstrainedUseType();
    assert ParseConstraints(g, TTypes, map["t" := FreshString], FreshString, ConstrainedUse) == Success((XOnly, map["t" := FreshString]));
    assert map["t" := FreshString]["t" := XOnly] == map["t" := XOnly];
    assert ParseConstraints(g, TTypes, map["t" := FreshString], Ref(TRef), ConstrainedUse) == Success((Ref(TRef), map["t" := XOnly]));
  }

  lemma ParseBareUse(g: Regexps)
    ensures Parse(g, TTypes, map["t" := XOnly], Str("$t")) == Success((Ref(TRef), map["t" := XOnly]))
  {
    var typ := "$t";
    assert typ[0] == '$' && typ[1..] == "t";
    assert typ != "map" && typ != "string" && typ != "int" && typ != "any" && typ != "number" && typ != "bool" && typ != "array" by {
      assert "map"[0] != '$' && "string"[0] != '$' && "int"[0] != '$' && "any"[0] != '$';
      assert "number"[0] != '$' && "bool"[0] != '$' && "array"[0] != '$';
    }
  }

  lemma SharedEntries(g: Regexps)
    requires g.validSubkey("a") && g.validSubkey("b")
    ensures ParseExactEntries(g, TTypes, map["t" := FreshString], UsesDef) == Success((SharedNode.entries, map["t" := XOnly]))
  {
    ParseConstrainedUse(g);
    ParseBareUse(g);
    var e := map["a" := Ref(TRef)];
    assert ParseEntries(g, TTypes, map["t" := XOnly], UsesDef, 2, e["b" := Ref(TRef)]) == Success((SharedNode.entries, map["t" := XOnly]));
    assert ParseEntries(g, TTypes, map["t" := XOnly], UsesDef, 1, e) == Success((SharedNode.entries, map["t" := XOnly]));
    assert ParseEntries(g, TTypes, map["t" := FreshString], UsesDef, 0, map[]) == Success((SharedNode.entries, map["t" := XOnly]));
    assert FirstInvalidKey(g, UsesDef.members) == None;
  }

  lemma ParseSharedTop(g: Regexps)
    requires g.validSubkey("a") && g.validSubkey("b")
    ensures Parse(g, TTypes, map["t" := FreshString], SharedTop) == Success((SharedNode, map["t" := XOnly]))
  {
    SharedEntries(g);
    var tms := SharedTop.members;
    assert tms[..1] == [Member("types", TypesDef)];
    assert Get(tms, "schema") == Some(UsesDef);
    assert !Has(tms, "type") && !Has(tms, "required") && !Has(tms, "keys") && !Has(tms, "values");
    assert CheckExclusiveMapConstraints(tms) == Pass;
    assert TypeName(tms) == Success("map");
    assert ParseExactMap(g, TTypes, map["t" := FreshString], FreshMap, UsesDef, None) == Success((SharedNode, map["t" := XOnly]));
    assert ParseMapConstraints(g, TTypes, map["t" := FreshString], FreshMap, SharedTop) == Success((SharedNode, map["t" := XOnly]));
  }

  lemma CompileShared(g: Regexps)
    requires g.validUserType("t") && g.validSubkey("a") && g.validSubkey("b")
    ensures Compile(g, SharedTop) == Success(Schema(TTypes, map["t" := XOnly], SharedNode))
  {
    CompileTypes(g);
    ParseSharedTop(g);
    var tms := SharedTop.members;
    assert tms[..1] == [Member("types", TypesDef)];
    assert Find(tms, "types") == Some(0);
    assert Get(tms, "types") == Some(TypesDef);
    assert !Has(tms, "type") && Has(tms, "schema");
    assert CheckTopType(tms) == Pass;
    assert UserTypeDefs(tms) == Success(TypesDef.members);
  }

  lemma ValidateShared(g: Regexps)
    requires g.validSubkey("b")
    ensures Validate(g, map["t" := XOnly], SharedNode, Obj([Member("b", Str("y"))])) == Fail(ValidationError([Key("b")], NotAChoice))
  {
    var doc := Obj([Member("b", Str("y"))]);
    var store := map["t" := XOnly];
    assert Validate(g, store, Ref(TRef), Str("y")) == TopLevel(NotAChoice);
    assert [Key("b")] + [] == [Key("b")];
    assert ValidateEntries(g, store, SharedNode.entries, doc, 0) == Fail(ValidationError([Key("b")], NotAChoice));
    assert FirstInvalidKey(g, doc.members) == None;
    assert FirstUnexpectedKey(doc.members, SharedNode.entries) == None;
  }

  /**
   * The choices written at "a" also bind "b": a document whose "b" is not
   * one of them is refused at path b.
   */
  lemma SharedUserTypeScenario(g: Regexps)
    requires g.validUserType("t") && g.validSubkey("a") && g.validSubkey("b")
    ensures Compile(g, SharedTop).Success?
    ensures var s := Compile(g, SharedTop).value;
      "t" in s.store && s.store["t"] == StringNode(None, ["x"]) &&
      Validate(g, s.store, s.top, Obj([Member("b", Str("y"))])) == Fail(ValidationError([Key("b")], NotAChoice))
  {
    CompileShared(g);
    ValidateShared(g);
  }
}
