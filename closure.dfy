/**
 * Compiled schemas are closed: every reference names a shared node that is
 * there, every array has its element type. So the compiler never meets a
 * dangling reference of its own making, and validation against a compiled
 * schema never fails for want of a node.
 */
module Closure {
  import opened Wrappers
  import opened JsonModel
  import opened Nodes
  import opened Compiler
  import opened Validator

  /** Every reference inside n resolves in the store, and every array has an element type. */
  predicate Closed(store: Store, n: Node)
    decreases n
  {
    match n
    case Ref(u) => u.target in store && !store[u.target].Ref?
    case MapNode(_, entries, keys, values, _) =>
      (forall k :: k in entries ==> Closed(store, entries[k])) &&
      (keys.Some? ==> Closed(store, keys.value)) &&
      (values.Some? ==> Closed(store, values.value))
    case ArrayNode(element, _) => element.Some? && Closed(store, element.value)
    case _ => true
  }

  /** The shared nodes are not references, and each of them is closed. */
  predicate StoreClosed(store: Store) {
    forall t :: t in store ==> !store[t].Ref? && Closed(store, store[t])
  }

  /** Every declared user type wraps a shared node that is in the store. */
  predicate TypesResolve(types: Types, store: Store) {
    forall name :: name in types ==> types[name].target in store
  }

  predicate Inv(types: Types, store: Store) {
    StoreClosed(store) && TypesResolve(types, store)
  }

  /** A closed node stays closed in a larger store that holds no references. */
  lemma {:induction false} ClosedGrows(s: Store, s': Store, n: Node)
    requires Closed(s, n) && s.Keys <= s'.Keys
    requires forall t :: t in s' ==> !s'[t].Ref?
    ensures Closed(s', n)
    decreases n
  {
    match n
    case MapNode(_, entries, keys, values, _) =>
      forall k | k in entries ensures Closed(s', entries[k]) {
        ClosedGrows(s, s', entries[k]);
      }
      if keys.Some? { ClosedGrows(s, s', keys.value); }
      if values.Some? { ClosedGrows(s, s', values.value); }
    case ArrayNode(element, _) => ClosedGrows(s, s', element.value);
    case _ =>
  }

  lemma StoreClosedGrows(s: Store, s': Store)
    requires StoreClosed(s) && s.Keys == s'.Keys
    requires forall t :: t in s' ==> !s'[t].Ref? && Closed(s, s'[t])
    ensures StoreClosed(s')
  {
    forall t | t in s' ensures Closed(s', s'[t]) {
      ClosedGrows(s, s', s'[t]);
    }
  }

  /** The result of a parse step in the store it returned: closed, with the invariant kept. */
  predicate ParsedClosed(types: Types, store: Store, r: Result<(Node, Store), CompileError>) {
    (r.Success? ==> Inv(types, r.value.1) && store.Keys <= r.value.1.Keys && Closed(r.value.1, r.value.0)) &&
    (r.Failure? ==> !r.error.Dangling?)
  }

  lemma {:induction false} ParseClosed(g: Regexps, types: Types, store: Store, def: Json)
    requires Inv(types, store)
    ensures ParsedClosed(types, store, Parse(g, types, store, def))
    decreases def, 6
  {
    match def
    case Obj(ms) =>
      var typ := TypeName(ms);
      if typ.Success? {
        var n := NewTypeSchema(types, typ.value);
        NewTypeClosed(types, store, typ.value);
        if n.Success? {
          ParseConstraintsClosed(g, types, store, n.value, def);
          assert Parse(g, types, store, def) == ParseConstraints(g, types, store, n.value, def);
        }
      }
    case Str(typ) => ParseNameClosed(types, store, typ);
    case Null => ParseNameClosed(types, store, "map");
    case _ =>
  }

  /** A fresh node of a named type is closed, apart from an array still without element type. */
  lemma NewTypeClosed(types: Types, store: Store, typ: string)
    requires Inv(types, store)
    ensures var n := NewTypeSchema(types, typ);
      (n.Success? ==> n.value.ArrayNode? || Closed(store, n.value)) && (n.Failure? ==> !n.error.Dangling?)
  {
  }

  lemma ParseNameClosed(types: Types, store: Store, typ: string)
    requires Inv(types, store)
    ensures ParsedClosed(types, store, ParseName(types, store, typ))
  {
    NewTypeClosed(types, store, typ);
  }

  lemma {:induction false} ParseConstraintsClosed(g: Regexps, types: Types, store: Store, n: Node, def: Json)
    requires def.Obj? && Inv(types, store) && (n.ArrayNode? || Closed(store, n))
    ensures ParsedClosed(types, store, ParseConstraints(g, types, store, n, def))
    decreases def, 3 + 2 * Rank(n)
  {
    match n
    case Ref(u) => RefConstraintsClosed(g, types, store, u, def);
    case MapNode(_, _, _, _, _) =>
      assert ParseConstraints(g, types, store, n, def) == ParseMapConstraints(g, types, store, n, def);
      ParseMapConstraintsClosed(g, types, store, n, def);
    case ArrayNode(_, _) =>
      assert ParseConstraints(g, types, store, n, def) == ParseArrayConstraints(g, types, store, n, def);
      ParseArrayConstraintsClosed(g, types, store, n, def);
    case _ => ScalarConstraintsClosed(g, types, store, n, def);
  }

  /** String, numeric, bool and any constraints leave the store as it was and make no reference. */
  lemma ScalarConstraintsClosed(g: Regexps, types: Types, store: Store, n: Node, def: Json)
    requires def.Obj? && Inv(types, store)
    requires !n.Ref? && !n.MapNode? && !n.ArrayNode?
    ensures ParsedClosed(types, store, ParseConstraints(g, types, store, n, def))
  {
    var r := ParseConstraints(g, types, store, n, def);
    match n
    case StringNode(_, _) =>
      var s := ParseStringConstraints(g, n, def.members);
      ScalarErrors(g, n, FreshNumeric, def.members);
      assert r == if s.Success? then Success((s.value, store)) else Failure(s.error);
    case IntNode(c) =>
      var c' := ParseNumericConstraints(c, def.members);
      ScalarErrors(g, FreshString, c, def.members);
      assert r == if c'.Success? then Success((IntNode(c'.value), store)) else Failure(c'.error);
    case NumberNode(c) =>
      var c' := ParseNumericConstraints(c, def.members);
      ScalarErrors(g, FreshString, c, def.members);
      assert r == if c'.Success? then Success((NumberNode(c'.value), store)) else Failure(c'.error);
    case BoolNode =>
    case AnyNode =>
  }

  /** String and numeric constraints never report a dangling reference. */
  lemma ScalarErrors(g: Regexps, n: Node, c: Numeric, ms: seq<Member>)
    requires n.StringNode?
    ensures ParseStringConstraints(g, n, ms).Failure? ==> !ParseStringConstraints(g, n, ms).error.Dangling?
    ensures ParseNumericConstraints(c, ms).Failure? ==> !ParseNumericConstraints(c, ms).error.Dangling?
  {}

  /** Constraints written through a reference: the shared node is replaced by its constrained form. */
  lemma {:induction false} RefConstraintsClosed(g: Regexps, types: Types, store: Store, u: UserTypeRef, def: Json)
    requires def.Obj? && Inv(types, store) && Closed(store, Ref(u))
    ensures ParsedClosed(types, store, ParseConstraints(g, types, store, Ref(u), def))
    decreases def, 4
  {
    var shared := store[u.target];
    ParseConstraintsClosed(g, types, store, shared, def);
    var p := ParseConstraints(g, types, store, shared, def);
    if p.Success? {
      var s' := p.value.1[u.target := p.value.0];
      StoreClosedGrows(p.value.1, s');
      assert ParseConstraints(g, types, store, Ref(u), def) == Success((Ref(u), s'));
    } else {
      assert ParseConstraints(g, types, store, Ref(u), def) == Failure(p.error);
    }
  }

  lemma KeyTypeClosed(g: Regexps, types: Types, store: Store, raw: Json)
    requires Inv(types, store)
    ensures ParseMapKeyType(g, types, raw).Success? ==> Closed(store, ParseMapKeyType(g, types, raw).value)
    ensures ParseMapKeyType(g, types, raw).Failure? ==> !ParseMapKeyType(g, types, raw).error.Dangling?
  {}

  lemma {:induction false} ParseMapConstraintsClosed(g: Regexps, types: Types, store: Store, n: Node, def: Json)
    requires n.MapNode? && def.Obj? && Inv(types, store) && Closed(store, n)
    ensures ParsedClosed(types, store, ParseMapConstraints(g, types, store, n, def))
    decreases def, 2
  {
    var ms := def.members;
    if CheckExclusiveMapConstraints(ms).Pass? {
      match Get(ms, "schema")
      case Some(entriesDef) => ExactMapClosed(g, types, store, n, entriesDef, Get(ms, "required"));
      case None => KeyValueMapClosed(g, types, store, n, def);
    }
  }

  /** A map node is closed when its entries, key type and value type are, whatever its other fields. */
  lemma MapClosed(s: Store, exact: bool, entries: map<string, Node>, keys: Option<Node>, values: Option<Node>, required: seq<seq<string>>)
    requires forall k :: k in entries ==> Closed(s, entries[k])
    requires keys.Some? ==> Closed(s, keys.value)
    requires values.Some? ==> Closed(s, values.value)
    ensures Closed(s, MapNode(exact, entries, keys, values, required))
  {
  }

  /** A node closed in one store, and all its changed parts closed in a larger one. */
  lemma MapPartsGrow(store: Store, s': Store, n: Node)
    requires n.MapNode? && Closed(store, n) && store.Keys <= s'.Keys
    requires forall t :: t in s' ==> !s'[t].Ref?
    ensures forall k :: k in n.entries ==> Closed(s', n.entries[k])
    ensures n.keys.Some? ==> Closed(s', n.keys.value)
    ensures n.values.Some? ==> Closed(s', n.values.value)
  {
    forall k | k in n.entries ensures Closed(s', n.entries[k]) {
      ClosedGrows(store, s', n.entries[k]);
    }
    if n.keys.Some? { ClosedGrows(store, s', n.keys.value); }
    if n.values.Some? { ClosedGrows(store, s', n.values.value); }
  }

  lemma {:induction false} ExactMapClosed(g: Regexps, types: Types, store: Store, n: Node, entriesDef: Json, required: Option<Json>)
    requires n.MapNode? && Inv(types, store) && Closed(store, n)
    ensures ParsedClosed(types, store, ParseExactMap(g, types, store, n, entriesDef, required))
    decreases entriesDef, 2
  {
    var p := ParseExactEntries(g, types, store, entriesDef);
    ExactEntriesClosed(g, types, store, entriesDef);
    var r := ParseExactMap(g, types, store, n, entriesDef, required);
    if p.Success? && r.Success? {
      var m := r.value.0;
      assert r.value.1 == p.value.1 && m.entries == p.value.0 && m.keys == n.keys && m.values == n.values;
      MapPartsGrow(store, p.value.1, n);
      MapClosed(p.value.1, m.exact, m.entries, m.keys, m.values, m.required);
    }
  }

  lemma {:induction false} ExactEntriesClosed(g: Regexps, types: Types, store: Store, entriesDef: Json)
    requires Inv(types, store)
    ensures var r := ParseExactEntries(g, types, store, entriesDef);
      (r.Success? ==> (Inv(types, r.value.1) && store.Keys <= r.value.1.Keys &&
        forall k :: k in r.value.0 ==> Closed(r.value.1, r.value.0[k]))) &&
      (r.Failure? ==> !r.error.Dangling?)
    decreases entriesDef, 1
  {
    if entriesDef.Obj? {
      ParseEntriesClosed(g, types, store, entriesDef, 0, map[]);
    }
  }

  lemma {:induction false} KeyValueMapClosed(g: Regexps, types: Types, store: Store, n: Node, def: Json)
    requires n.MapNode? && def.Obj? && Inv(types, store) && Closed(store, n)
    ensures ParsedClosed(types, store, ParseKeyValueMap(g, types, store, n, def))
    decreases def, 1
  {
    var keys := ParseKeysField(g, types, n, def.members);
    KeysFieldClosed(g, types, store, n, def.members);
    var vp := ParseValuesField(g, types, store, n, def);
    ValuesFieldClosed(g, types, store, n, def);
    if keys.Success? && vp.Success? {
      var s' := vp.value.1;
      MapPartsGrow(store, s', n);
      if keys.value.Some? {
        ClosedGrows(store, s', keys.value.value);
      }
      MapClosed(s', n.exact, n.entries, keys.value, vp.value.0, n.required);
    }
  }

  lemma KeysFieldClosed(g: Regexps, types: Types, store: Store, n: Node, ms: seq<Member>)
    requires n.MapNode? && Inv(types, store) && Closed(store, n)
    ensures var r := ParseKeysField(g, types, n, ms);
      (r.Success? && r.value.Some? ==> Closed(store, r.value.value)) && (r.Failure? ==> !r.error.Dangling?)
  {
    match Get(ms, "keys")
    case None =>
    case Some(v) => KeyTypeClosed(g, types, store, v);
  }

  lemma {:induction false} ValuesFieldClosed(g: Regexps, types: Types, store: Store, n: Node, def: Json)
    requires n.MapNode? && def.Obj? && Inv(types, store) && Closed(store, n)
    ensures var r := ParseValuesField(g, types, store, n, def);
      (r.Success? ==> (Inv(types, r.value.1) && store.Keys <= r.value.1.Keys &&
        (r.value.0.Some? ==> Closed(r.value.1, r.value.0.value)))) &&
      (r.Failure? ==> !r.error.Dangling?)
    decreases def, 0
  {
    match Get(def.members, "values")
    case None =>
    case Some(v) => ParseClosed(g, types, store, v);
  }

  lemma {:induction false} ParseEntriesClosed(g: Regexps, types: Types, store: Store, entriesDef: Json, i: nat, acc: map<string, Node>)
    requires entriesDef.Obj? && i <= |entriesDef.members| && Inv(types, store)
    requires forall k :: k in acc ==> Closed(store, acc[k])
    ensures var r := ParseEntries(g, types, store, entriesDef, i, acc);
      (r.Success? ==>
        Inv(types, r.value.1) && store.Keys <= r.value.1.Keys &&
        forall k :: k in r.value.0 ==> Closed(r.value.1, r.value.0[k])) &&
      (r.Failure? ==> !r.error.Dangling?)
    decreases entriesDef, 0, |entriesDef.members| - i
  {
    var es := entriesDef.members;
    if i < |es| {
      var p := Parse(g, types, store, es[i].value);
      ParseClosed(g, types, store, es[i].value);
      if p.Success? {
        var acc' := acc[es[i].key := p.value.0];
        forall k | k in acc' ensures Closed(p.value.1, acc'[k]) {
          if k != es[i].key {
            ClosedGrows(store, p.value.1, acc[k]);
          }
        }
        ParseEntriesClosed(g, types, p.value.1, entriesDef, i + 1, acc');
      }
    }
  }

  lemma {:induction false} ParseArrayConstraintsClosed(g: Regexps, types: Types, store: Store, n: Node, def: Json)
    requires n.ArrayNode? && def.Obj? && Inv(types, store)
    ensures ParsedClosed(types, store, ParseArrayConstraints(g, types, store, n, def))
    decreases def, 0
  {
    var ms := def.members;
    match Get(ms, "values")
    case None =>
    case Some(v) =>
      ParseClosed(g, types, store, v);
      var p := Parse(g, types, store, v);
      var r := ParseArrayConstraints(g, types, store, n, def);
      if p.Success? && r.Success? {
        assert r.value.1 == p.value.1 && r.value.0.element == Some(p.value.0);
      }
  }

  /** Registering a closed, compiled definition keeps the invariant. */
  lemma RegisterClosed(types: Types, store: Store, name: string, n: Node)
    requires Inv(types, store) && Closed(store, n)
    ensures Inv(Register(types, store, name, n).0, Register(types, store, name, n).1)
  {
    if !n.Ref? {
      var s' := store[name := n];
      forall t | t in s' ensures Closed(s', s'[t]) {
        ClosedGrows(store, s', s'[t]);
      }
    }
  }

  lemma {:induction false} CompileUserTypesClosed(g: Regexps, defs: seq<Member>, i: nat, types: Types, store: Store)
    requires i <= |defs| && Inv(types, store)
    ensures var r := CompileUserTypes(g, defs, i, types, store);
      (r.Success? ==> Inv(r.value.0, r.value.1)) && (r.Failure? ==> !r.error.Dangling?)
    decreases |defs| - i
  {
    if i < |defs| && g.validUserType(defs[i].key) {
      var p := Parse(g, types, store, defs[i].value);
      ParseClosed(g, types, store, defs[i].value);
      if p.Success? {
        RegisterClosed(types, p.value.1, defs[i].key, p.value.0);
        var t := Register(types, p.value.1, defs[i].key, p.value.0);
        CompileUserTypesClosed(g, defs, i + 1, t.0, t.1);
      }
    }
  }

  /** A compiled schema is closed, and compilation never reports a dangling reference. */
  lemma CompileClosed(g: Regexps, top: Json)
    ensures Compile(g, top).Success? ==>
      var s := Compile(g, top).value;
      StoreClosed(s.store) && TypesResolve(s.types, s.store) && Closed(s.store, s.top)
    ensures Compile(g, top).Failure? ==> !Compile(g, top).error.Dangling?
  {
    if top.Obj? && CheckTopType(top.members).Pass? && Has(top.members, "schema") {
      var defs := UserTypeDefs(top.members);
      if defs.Success? {
        CompileUserTypesClosed(g, defs.value, 0, map[], map[]);
        var t := CompileUserTypes(g, defs.value, 0, map[], map[]);
        if t.Success? {
          ParseClosed(g, t.value.0, t.value.1, top);
        }
      }
    }
  }

  // Validation against closed nodes.

  lemma {:induction false} NeverMissing(g: Regexps, store: Store, n: Node, doc: Json)
    requires StoreClosed(store) && Closed(store, n)
    ensures Validate(g, store, n, doc).Fail? ==> Validate(g, store, n, doc).error.cause != Missing
    decreases Container(doc), doc, 2 + Rank(n), 0
  {
    match n
    case Ref(u) => NeverMissing(g, store, store[u.target], doc);
    case MapNode(_, entries, keys, values, _) =>
      if doc.Obj? {
        if n.exact {
          EntriesNeverMissing(g, store, entries, doc, 0);
        } else {
          if keys.Some? { KeysNeverMissing(g, store, keys.value, doc, 0); }
          if values.Some? { ValuesNeverMissing(g, store, values.value, doc, 0); }
        }
      }
    case ArrayNode(element, _) =>
      if doc.Arr? { ElementsNeverMissing(g, store, element.value, doc, 0); }
    case _ =>
  }

  lemma {:induction false} EntriesNeverMissing(g: Regexps, store: Store, entries: map<string, Node>, doc: Json, i: nat)
    requires StoreClosed(store) && forall k :: k in entries ==> Closed(store, entries[k])
    requires doc.Obj? && i <= |doc.members|
    ensures ValidateEntries(g, store, entries, doc, i).Fail? ==> ValidateEntries(g, store, entries, doc, i).error.cause != Missing
    decreases Container(doc), doc, 0, |doc.members| - i
  {
    var ms := doc.members;
    if i < |ms| {
      if ms[i].key in entries {
        NeverMissing(g, store, entries[ms[i].key], ms[i].value);
      }
      EntriesNeverMissing(g, store, entries, doc, i + 1);
    }
  }

  lemma {:induction false} KeysNeverMissing(g: Regexps, store: Store, keys: Node, doc: Json, i: nat)
    requires StoreClosed(store) && Closed(store, keys)
    requires doc.Obj? && i <= |doc.members|
    ensures ValidateKeys(g, store, keys, doc, i).Fail? ==> ValidateKeys(g, store, keys, doc, i).error.cause != Missing
    decreases Container(doc), doc, 0, |doc.members| - i
  {
    var ms := doc.members;
    if i < |ms| {
      NeverMissing(g, store, keys, Str(ms[i].key));
      KeysNeverMissing(g, store, keys, doc, i + 1);
    }
  }

  lemma {:induction false} ValuesNeverMissing(g: Regexps, store: Store, values: Node, doc: Json, i: nat)
    requires StoreClosed(store) && Closed(store, values)
    requires doc.Obj? && i <= |doc.members|
    ensures ValidateValues(g, store, values, doc, i).Fail? ==> ValidateValues(g, store, values, doc, i).error.cause != Missing
    decreases Container(doc), doc, 0, |doc.members| - i
  {
    var ms := doc.members;
    if i < |ms| {
      NeverMissing(g, store, values, ms[i].value);
      ValuesNeverMissing(g, store, values, doc, i + 1);
    }
  }

  lemma {:induction false} ElementsNeverMissing(g: Regexps, store: Store, element: Node, doc: Json, i: nat)
    requires StoreClosed(store) && Closed(store, element)
    requires doc.Arr? && i <= |doc.elems|
    ensures ValidateElements(g, store, element, doc, i).Fail? ==> ValidateElements(g, store, element, doc, i).error.cause != Missing
    decreases Container(doc), doc, 0, |doc.elems| - i
  {
    var es := doc.elems;
    if i < |es| {
      NeverMissing(g, store, element, es[i].value);
      ElementsNeverMissing(g, store, element, doc, i + 1);
    }
  }

  /** Validating against a compiled schema never fails for want of a node. */
  lemma CompiledSchemaNeverMissing(g: Regexps, top: Json, doc: Json)
    requires Compile(g, top).Success?
    ensures var s := Compile(g, top).value;
      Validate(g, s.store, s.top, doc).Fail? ==> Validate(g, s.store, s.top, doc).error.cause != Missing
  {
    CompileClosed(g, top);
    var s := Compile(g, top).value;
    NeverMissing(g, s.store, s.top, doc);
  }
}
