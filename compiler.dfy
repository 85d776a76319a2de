/**
 * The schema compiler: ParseSchema, StorageSchema.parse, newTypeSchema,
 * getUserType and each node kind's parseConstraints (aspects/schema.go).
 *
 * A node that Go allocates and then fills field by field is built here as a
 * value updated field by field. The one node that Go shares by address, a
 * user type's, lives in the Store: constraints written where the type is
 * referenced (`{"type": "$t", ...}`) reach the shared node, and every
 * reference sees the result, as every Go reference to it does.
 */
module Compiler {
  import opened Wrappers
  import opened JsonModel
  import opened Nodes

  // Fresh nodes, as newTypeSchema allocates them.
  const FreshMap: Node := MapNode(false, map[], None, None, [])
  const FreshString: Node := StringNode(None, [])
  const FreshNumeric: Numeric := Numeric(None, None, [])
  const FreshArray: Node := ArrayNode(None, false)

  /** The node kinds that cannot be named without constraints (map and array). */
  predicate ExpectsConstraints(n: Node) {
    n.MapNode? || n.ArrayNode?
  }

  /** Looks a user type up by name. */
  function GetUserType(types: Types, name: string): Result<Node, CompileError>
  {
    if name in types then Success(Ref(types[name])) else Failure(UnknownUserType(name))
  }

  /** The fresh node for a declared type name; `$name` refers to a user type. */
  function NewTypeSchema(types: Types, typ: string): (r: Result<Node, CompileError>)
  {
    if typ == "map" then Success(FreshMap)
    else if typ == "string" then Success(FreshString)
    else if typ == "int" then Success(IntNode(FreshNumeric))
    else if typ == "any" then Success(AnyNode)
    else if typ == "number" then Success(NumberNode(FreshNumeric))
    else if typ == "bool" then Success(BoolNode)
    else if typ == "array" then Success(FreshArray)
    else if typ != "" && typ[0] == '$' then GetUserType(types, typ[1..])
    else Failure(UnknownType(typ))
  }

  /** The declared type of an object definition: its "type" entry, "map" when absent. */
  function TypeName(ms: seq<Member>): (r: Result<string, CompileError>)
  {
    match Get(ms, "type")
    case None => Success("map")
    case Some(v) =>
      match DecodeString(v)
      case None => Failure(TypeFieldNotString)
      case Some(t) => Success(t)
  }

  /** A definition given by name alone: no constraints follow, so map and array are refused. */
  function ParseName(types: Types, store: Store, typ: string): (r: Result<(Node, Store), CompileError>)
  {
    var n :- NewTypeSchema(types, typ);
    if ExpectsConstraints(n) then Failure(ConstraintsRequired(typ)) else Success((n, store))
  }

  /**
   * StorageSchema.parse: an object definition dispatches on its "type" and
   * then parses its constraints; a string is a bare type name. A null
   * decodes into a nil map: its type defaults to "map", and with no
   * definition object to read constraints from, the map is refused.
   */
  function Parse(g: Regexps, types: Types, store: Store, def: Json): (r: Result<(Node, Store), CompileError>)
    decreases def, 5
  {
    match def
    case Obj(ms) =>
      var typ :- TypeName(ms);
      var n :- NewTypeSchema(types, typ);
      ParseConstraints(g, types, store, n, def)
    case Str(typ) => ParseName(types, store, typ)
    case Null => ParseName(types, store, "map")
    case _ => Failure(DefinitionNotMapOrString)
  }

  /**
   * parseConstraints of node `n` with the object definition `def`. A
   * reference delegates to the shared node it wraps and stores the result.
   */
  function ParseConstraints(g: Regexps, types: Types, store: Store, n: Node, def: Json): (r: Result<(Node, Store), CompileError>)
    requires def.Obj?
    ensures r.Success? ==> KindOf(r.value.0) == KindOf(n)
    ensures r.Success? && !n.Ref? && !n.MapNode? && !n.ArrayNode? ==> r.value.1 == store
    decreases def, 3 + Rank(n)
  {
    match n
    case Ref(u) =>
      if u.target in store && !store[u.target].Ref? then
        var p :- ParseConstraints(g, types, store, store[u.target], def);
        Success((n, p.1[u.target := p.0]))
      else Failure(Dangling(u.target))
    case MapNode(_, _, _, _, _) => ParseMapConstraints(g, types, store, n, def)
    case StringNode(_, _) =>
      var s :- ParseStringConstraints(g, n, def.members);
      Success((s, store))
    case IntNode(c) =>
      var c' :- ParseNumericConstraints(c, def.members);
      Success((IntNode(c'), store))
    case NumberNode(c) =>
      var c' :- ParseNumericConstraints(c, def.members);
      Success((NumberNode(c'), store))
    case BoolNode => Success((n, store))
    case AnyNode => Success((n, store))
    case ArrayNode(_, _) => ParseArrayConstraints(g, types, store, n, def)
  }

  /** checkExclusiveMapConstraints: the pairs of map constraints that cannot be combined. */
  function CheckExclusiveMapConstraints(ms: seq<Member>): (r: Outcome<CompileError>)
    ensures r.Pass? <==>
      (Has(ms, "required") ==> Has(ms, "schema")) &&
      !(Has(ms, "schema") && Has(ms, "keys")) &&
      !(Has(ms, "schema") && Has(ms, "values"))
  {
    if Has(ms, "required") && !Has(ms, "schema") then Fail(RequiredWithoutSchema)
    else if Has(ms, "schema") && Has(ms, "keys") then Fail(SchemaWithKeys)
    else if Has(ms, "schema") && Has(ms, "values") then Fail(SchemaWithValues)
    else Pass
  }


  /** The "required" constraint: a list of key lists, or one flat list of keys. */
  function DecodeRequired(j: Json): (r: Result<seq<seq<string>>, CompileError>)
  {
    match DecodeStringLists(j)
    case Some(combs) => Success(combs)
    case None =>
      match DecodeStrings(j)
      case Some(keys) => Success([keys])
      case None => Failure(RequiredNotList)
  }

  /** The first required key, combination by combination, that has no entry schema. */
  function KeyWithoutEntry(combs: seq<seq<string>>, entries: map<string, Node>): (r: Option<string>)
    ensures r.None? <==> forall i, j :: 0 <= i < |combs| && 0 <= j < |combs[i]| ==> combs[i][j] in entries
    ensures r.Some? ==> r.value !in entries
    ensures r.Some? ==> exists i, j :: 0 <= i < |combs| && 0 <= j < |combs[i]| && combs[i][j] == r.value
  {
    if combs == [] then None
    else
      match KeyWithoutEntryIn(combs[0], entries)
      case Some(k) => Some(k)
      case None =>
        var rest := KeyWithoutEntry(combs[1..], entries);
        assert rest.Some? ==> exists i, j :: 1 <= i < |combs| && 0 <= j < |combs[i]| && combs[i][j] == rest.value by {
          if rest.Some? {
            var i, j :| 0 <= i < |combs[1..]| && 0 <= j < |combs[1..][i]| && combs[1..][i][j] == rest.value;
            assert combs[i + 1][j] == rest.value;
          }
        }
        rest
  }

  function KeyWithoutEntryIn(keys: seq<string>, entries: map<string, Node>): (r: Option<string>)
    ensures r.None? <==> forall j :: 0 <= j < |keys| ==> keys[j] in entries
    ensures r.Some? ==> r.value !in entries && r.value in keys
  {
    if keys == [] then None
    else if keys[0] !in entries then Some(keys[0])
    else KeyWithoutEntryIn(keys[1..], entries)
  }

  /** mapSchema.parseConstraints: either exact entries (with "required") or key/value types. */
  function ParseMapConstraints(g: Regexps, types: Types, store: Store, n: Node, def: Json): (r: Result<(Node, Store), CompileError>)
    requires n.MapNode? && def.Obj?
    ensures r.Success? ==> r.value.0.MapNode?
    decreases def, 2
  {
    var ms := def.members;
    var exclusive := CheckExclusiveMapConstraints(ms);
    if exclusive.Fail? then Failure(exclusive.error)
    else
      match Get(ms, "schema")
      case Some(entriesDef) => ParseExactMap(g, types, store, n, entriesDef, Get(ms, "required"))
      case None => ParseKeyValueMap(g, types, store, n, def)
  }

  /** The "schema" branch: the entry schemas, then the optional "required" combinations. */
  function ParseExactMap(g: Regexps, types: Types, store: Store, n: Node, entriesDef: Json, required: Option<Json>)
    : (r: Result<(Node, Store), CompileError>)
    requires n.MapNode?
    ensures r.Success? ==> r.value.0.MapNode? && r.value.0.exact
    decreases entriesDef, 2
  {
    var p :- ParseExactEntries(g, types, store, entriesDef);
    var withEntries := n.(exact := true, entries := p.0);
    match required
    case None => Success((withEntries, p.1))
    case Some(v) =>
      var combs :- DecodeRequired(v);
      match KeyWithoutEntry(combs, p.0)
      case Some(k) => Failure(RequiredKeyWithoutEntry(k))
      case None => Success((withEntries.(required := combs), p.1))
  }

  /** The entry schemas of "schema": an object (or null, for none) whose keys are valid. */
  function ParseExactEntries(g: Regexps, types: Types, store: Store, entriesDef: Json)
    : (r: Result<(map<string, Node>, Store), CompileError>)
    decreases entriesDef, 1
  {
    if !(entriesDef.Obj? || entriesDef.Null?) then Failure(SchemaNotMap)
    else
      var es := if entriesDef.Obj? then entriesDef.members else [];
      match FirstInvalidKey(g, es)
      case Some(k) => Failure(InvalidEntryKey(k))
      case None =>
        if entriesDef.Obj? then ParseEntries(g, types, store, entriesDef, 0, map[]) else Success((map[], store))
  }

  /** The branch without "schema": the key type and the value type, each kept when not given. */
  function ParseKeyValueMap(g: Regexps, types: Types, store: Store, n: Node, def: Json): (r: Result<(Node, Store), CompileError>)
    requires n.MapNode? && def.Obj?
    ensures r.Success? ==> r.value.0.MapNode? && r.value.0 == n.(keys := r.value.0.keys, values := r.value.0.values)
    decreases def, 1
  {
    var keys :- ParseKeysField(g, types, n, def.members);
    var vp :- ParseValuesField(g, types, store, n, def);
    var n' := n.(keys := keys, values := vp.0);
    if !n'.exact && n'.keys.None? && n'.values.None? then Failure(MapWithoutConstraints)
    else Success((n', vp.1))
  }

  /** The "keys" constraint: a new key type, or the node's own when absent. */
  function ParseKeysField(g: Regexps, types: Types, n: Node, ms: seq<Member>): (r: Result<Option<Node>, CompileError>)
    requires n.MapNode?
  {
    match Get(ms, "keys")
    case None => Success(n.keys)
    case Some(v) =>
      var k :- ParseMapKeyType(g, types, v);
      Success(Some(k))
  }

  /** The "values" constraint: a new value type and the store it left, or the node's own when absent. */
  function ParseValuesField(g: Regexps, types: Types, store: Store, n: Node, def: Json): (r: Result<(Option<Node>, Store), CompileError>)
    requires n.MapNode? && def.Obj?
    decreases def, 0
  {
    match Get(def.members, "values")
    case None => Success((n.values, store))
    case Some(v) =>
      var p :- Parse(g, types, store, v);
      Success((Some(p.0), p.1))
  }

  /** The loop filling entrySchemas: each entry parsed in turn, threading the store. */
  function ParseEntries(g: Regexps, types: Types, store: Store, entriesDef: Json, i: nat, acc: map<string, Node>)
    : (r: Result<(map<string, Node>, Store), CompileError>)
    requires entriesDef.Obj? && i <= |entriesDef.members|
    decreases entriesDef, 0, |entriesDef.members| - i
  {
    var es := entriesDef.members;
    if i == |es| then Success((acc, store))
    else
      var p :- Parse(g, types, store, es[i].value);
      ParseEntries(g, types, p.1, entriesDef, i + 1, acc[es[i].key := p.0])
  }

  /** parseMapKeyType for a type given by name. */
  function KeyTypeByName(types: Types, typ: string): (r: Result<Node, CompileError>)
  {
    if typ == "string" then Success(FreshString)
    else if typ != "" && typ[0] == '$' then
      var u :- GetUserType(types, typ[1..]);
      if !u.ref.stringBased then Failure(KeyUserTypeNotString(typ[1..])) else Success(u)
    else Failure(KeysNotStringBased(typ))
  }

  /** parseMapKeyType: the "keys" type must be string-based. */
  function ParseMapKeyType(g: Regexps, types: Types, raw: Json): (r: Result<Node, CompileError>)
  {
    match raw
    case Str(typ) => KeyTypeByName(types, typ)
    case Null => KeyTypeByName(types, "")
    case Obj(ms) =>
      var declared :-
        match Get(ms, "type")
        case None => Success("string")
        case Some(v) =>
          match DecodeString(v)
          case None => Failure(KeysTypeNotString)
          case Some(t) => Success(t);
      if declared != "string" then Failure(KeysNotStringBased(declared))
      else ParseStringConstraints(g, FreshString, ms)
    case _ => Failure(KeysNotMapOrString)
  }

  /** stringSchema.parseConstraints: "choices" (non-empty) or "pattern", not both. */
  function ParseStringConstraints(g: Regexps, n: Node, ms: seq<Member>): (r: Result<Node, CompileError>)
    requires n.StringNode?
    ensures r.Success? ==> r.value.StringNode?
  {
    var n1 :-
      match Get(ms, "choices")
      case None => Success(n)
      case Some(v) =>
        match DecodeStrings(v)
        case None => Failure(ChoicesNotList)
        case Some(cs) => if |cs| == 0 then Failure(EmptyChoices) else Success(n.(choices := cs));
    match Get(ms, "pattern")
    case None => Success(n1)
    case Some(v) =>
      if |n1.choices| != 0 then Failure(ChoicesWithPattern)
      else
        match DecodeString(v)
        case None => Failure(PatternNotString)
        case Some(p) => if !g.compiles(p) then Failure(BadPattern(p)) else Success(n1.(pattern := Some(p)))
  }

  /** intSchema.parseConstraints (and numberSchema's): "choices" or "min"/"max", with min <= max. */
  function ParseNumericConstraints(c: Numeric, ms: seq<Member>): (r: Result<Numeric, CompileError>)
  {
    var c1 :-
      match Get(ms, "choices")
      case None => Success(c)
      case Some(v) =>
        match DecodeInts(v)
        case None => Failure(ChoicesNotList)
        case Some(cs) => if |cs| == 0 then Failure(EmptyChoices) else Success(c.(choices := cs));
    var c2 :-
      match Get(ms, "min")
      case None => Success(c1)
      case Some(v) =>
        if |c1.choices| != 0 then Failure(ChoicesWithMin)
        else
          match DecodeInt(v)
          case None => Failure(MinNotInt)
          case Some(m) => Success(c1.(min := Some(m)));
    var c3 :-
      match Get(ms, "max")
      case None => Success(c2)
      case Some(v) =>
        if |c2.choices| != 0 then Failure(ChoicesWithMax)
        else
          match DecodeInt(v)
          case None => Failure(MaxNotInt)
          case Some(m) => Success(c2.(max := Some(m)));
    if c3.min.Some? && c3.max.Some? && c3.min.value > c3.max.value then Failure(MinAboveMax)
    else Success(c3)
  }

  /** arraySchema.parseConstraints: "values" is mandatory, "unique" optional. */
  function ParseArrayConstraints(g: Regexps, types: Types, store: Store, n: Node, def: Json): (r: Result<(Node, Store), CompileError>)
    requires n.ArrayNode? && def.Obj?
    ensures r.Success? ==> r.value.0.ArrayNode? && r.value.0.element.Some?
    decreases def, 0
  {
    var ms := def.members;
    match Get(ms, "values")
    case None => Failure(ArrayWithoutValues)
    case Some(v) =>
      var p :- Parse(g, types, store, v);
      var n1 := n.(element := Some(p.0));
      match Get(ms, "unique")
      case None => Success((n1, p.1))
      case Some(v) =>
        match DecodeBool(v)
        case None => Failure(UniqueNotBool)
        case Some(b) => Success((n1.(unique := b), p.1))
  }

  /**
   * Records a compiled user type (newUserTypeRefParser): a fresh node joins
   * the store under the type's name; a definition that is itself a reference
   * wraps the same shared node, and is then not counted as string-based.
   */
  function Register(types: Types, store: Store, name: string, n: Node): (r: (Types, Store))
    ensures name in r.0
    ensures r.0[name].stringBased <==> n.StringNode?
    ensures n.Ref? ==> r.0[name].target == n.ref.target && r.1 == store
    ensures !n.Ref? ==> r.0[name].target == name && r.1 == store[name := n]
  {
    match n
    case Ref(u) => (types[name := UserTypeRef(u.target, false)], store)
    case _ => (types[name := UserTypeRef(name, n.StringNode?)], store[name := n])
  }

  /** The loop over "types": each name checked, each definition compiled and registered in order. */
  function CompileUserTypes(g: Regexps, defs: seq<Member>, i: nat, types: Types, store: Store): (r: Result<(Types, Store), CompileError>)
    requires i <= |defs|
    decreases |defs| - i
  {
    if i == |defs| then Success((types, store))
    else if !g.validUserType(defs[i].key) then Failure(BadUserTypeName(defs[i].key))
    else
      var p :- Parse(g, types, store, defs[i].value);
      var t := Register(types, p.1, defs[i].key, p.0);
      CompileUserTypes(g, defs, i + 1, t.0, t.1)
  }

  /** The top level's "type", when present, must read as "map". */
  function CheckTopType(ms: seq<Member>): (r: Outcome<CompileError>)
  {
    match Get(ms, "type")
    case None => Pass
    case Some(v) =>
      match DecodeString(v)
      case None => Fail(TopTypeNotString)
      case Some(t) => if t != "map" then Fail(TopTypeNotMap(t)) else Pass
  }

  /** The "types" object of the top level, as a member list; absent or null means none. */
  function UserTypeDefs(ms: seq<Member>): (r: Result<seq<Member>, CompileError>)
  {
    match Get(ms, "types")
    case None => Success([])
    case Some(v) =>
      match v
      case Obj(defs) => Success(defs)
      case Null => Success([])
      case _ => Failure(TypesNotMap)
  }

  /**
   * ParseSchema: the top level must be an object whose "type", if present,
   * is "map" and which has "schema"; user types are compiled first, then the
   * top level itself as a map definition. A null top level reads as an empty
   * object and so lacks "schema".
   */
  function Compile(g: Regexps, top: Json): (r: Result<Schema, CompileError>)
  {
    match top
    case Obj(ms) =>
      var topType := CheckTopType(ms);
      if topType.Fail? then Failure(topType.error)
      else if !Has(ms, "schema") then Failure(TopMissingSchema)
      else
        var defs :- UserTypeDefs(ms);
        var t :- CompileUserTypes(g, defs, 0, map[], map[]);
        var p :- Parse(g, t.0, t.1, top);
        Success(Schema(t.0, p.1, p.0))
    case Null => Failure(TopMissingSchema)
    case _ => Failure(TopNotMap)
  }

  // The two loops of the compiler, written as loops and proved against the functions above.

  /** The entrySchemas loop: each member of "schema" parsed in turn into the entry map. */
  method FillEntries(g: Regexps, types: Types, store: Store, entriesDef: Json)
    returns (r: Result<(map<string, Node>, Store), CompileError>)
    requires entriesDef.Obj?
    ensures r == ParseEntries(g, types, store, entriesDef, 0, map[])
  {
    var entrySchemas: map<string, Node> := map[];
    var s := store;
    var i := 0;
    while i < |entriesDef.members|
      invariant 0 <= i <= |entriesDef.members|
      invariant ParseEntries(g, types, s, entriesDef, i, entrySchemas) == ParseEntries(g, types, store, entriesDef, 0, map[])
    {
      var member := entriesDef.members[i];
      var p := Parse(g, types, s, member.value);
      if p.Failure? {
        return Failure(p.error);
      }
      entrySchemas := entrySchemas[member.key := p.value.0];
      s := p.value.1;
      i := i + 1;
    }
    return Success((entrySchemas, s));
  }

  /** ParseSchema, with the loop that fills the user-type table. */
  method ParseSchema(g: Regexps, top: Json) returns (r: Result<Schema, CompileError>)
    ensures r == Compile(g, top)
  {
    if !top.Obj? {
      return if top.Null? then Failure(TopMissingSchema) else Failure(TopNotMap);
    }
    var ms := top.members;
    var topType := CheckTopType(ms);
    if topType.Fail? {
      return Failure(topType.error);
    }
    if !Has(ms, "schema") {
      return Failure(TopMissingSchema);
    }
    var defs := UserTypeDefs(ms);
    if defs.Failure? {
      return Failure(defs.error);
    }
    var types: Types := map[];
    var store: Store := map[];
    var i := 0;
    while i < |defs.value|
      invariant 0 <= i <= |defs.value|
      invariant CompileUserTypes(g, defs.value, i, types, store) == CompileUserTypes(g, defs.value, 0, map[], map[])
    {
      var name := defs.value[i].key;
      if !g.validUserType(name) {
        return Failure(BadUserTypeName(name));
      }
      var p := Parse(g, types, store, defs.value[i].value);
      if p.Failure? {
        return Failure(p.error);
      }
      var t := Register(types, p.value.1, name, p.value.0);
      types, store := t.0, t.1;
      i := i + 1;
    }
    var p := Parse(g, types, store, top);
    if p.Failure? {
      return Failure(p.error);
    }
    return Success(Schema(types, p.value.1, p.value.0));
  }
}
