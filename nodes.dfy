/**
 * The compiled form of an aspect schema: the closed set of node kinds, the
 * user-type table, and the two error classes (compile errors and validation
 * errors with their paths).
 */
module Nodes {
  import opened Wrappers
  import opened JsonModel

  /**
   * The regular expressions the schema code relies on. The grammars of map
   * keys and of user-type names, and the dialect of "pattern", belong to code
   * outside this model, so they are parameters.
   */
  datatype Regexps = Regexps(
    validSubkey: string -> bool,
    validUserType: string -> bool,
    compiles: string -> bool,
    matches: (string, string) -> bool)

  /** validMapKeys: the first key, in iteration order, outside the key grammar. */
  function FirstInvalidKey(g: Regexps, ms: seq<Member>): (r: Option<string>)
    ensures r.None? <==> forall i :: 0 <= i < |ms| ==> g.validSubkey(ms[i].key)
    ensures r.Some? ==> !g.validSubkey(r.value) && exists i :: 0 <= i < |ms| && ms[i].key == r.value
  {
    if ms == [] then None
    else if !g.validSubkey(ms[0].key) then Some(ms[0].key)
    else FirstInvalidKey(g, ms[1..])
  }

  /** The bounds or choices of an int or number node; a missing bound is None. */
  datatype Numeric = Numeric(min: Option<int>, max: Option<int>, choices: seq<int>)

  /**
   * A reference to a user type: the name of the shared node it wraps (a key
   * of the store) and whether that node was a string schema when the
   * reference was made.
   */
  datatype UserTypeRef = UserTypeRef(target: string, stringBased: bool)

  /**
   * A schema node. A map node is exact when it was given "schema": then
   * `entries` holds the entry schemas; otherwise it constrains keys and/or values. `choices` of a string or numeric node
   * is empty when not set. An array's element type is absent only on a node
   * whose constraints have not been parsed yet.
   */
  datatype Node =
    | MapNode(exact: bool, entries: map<string, Node>, keys: Option<Node>, values: Option<Node>, required: seq<seq<string>>)
    | StringNode(pattern: Option<string>, choices: seq<string>)
    | IntNode(num: Numeric)
    | NumberNode(num: Numeric)
    | BoolNode
    | AnyNode
    | ArrayNode(element: Option<Node>, unique: bool)
    | Ref(ref: UserTypeRef)

  /** The shared user-type nodes, by user-type name; references point into it. */
  type Store = map<string, Node>

  /** The user types declared at the top level, by name. */
  type Types = map<string, UserTypeRef>

  /** A compiled schema: the user-type table, the shared nodes and the top-level node. */
  datatype Schema = Schema(types: Types, store: Store, top: Node)

  datatype Kind = MapKind | StringKind | IntKind | NumberKind | BoolKind | AnyKind | ArrayKind | RefKind

  function KindOf(n: Node): Kind {
    match n
    case MapNode(_, _, _, _, _) => MapKind
    case StringNode(_, _) => StringKind
    case IntNode(_) => IntKind
    case NumberNode(_) => NumberKind
    case BoolNode => BoolKind
    case AnyNode => AnyKind
    case ArrayNode(_, _) => ArrayKind
    case Ref(_) => RefKind
  }

  /**
   * One step of the termination measures of compilation and validation: a
   * reference is followed once to the node it names, which is never itself
   * a reference, so a reference ranks one above every other node.
   */
  function Rank(n: Node): nat {
    if n.Ref? then 1 else 0
  }

  /** Why compilation stopped. The error wording of the source is not modelled. */
  datatype CompileError =
    | TopNotMap
    | TopTypeNotString
    | TopTypeNotMap(typ: string)
    | TopMissingSchema
    | TypesNotMap
    | BadUserTypeName(name: string)
    | DefinitionNotMapOrString
    | TypeFieldNotString
    | UnknownType(typ: string)
    | UnknownUserType(name: string)
    | ConstraintsRequired(typ: string)
    | RequiredWithoutSchema
    | SchemaWithKeys
    | SchemaWithValues
    | SchemaNotMap
    | InvalidEntryKey(key: string)
    | RequiredNotList
    | RequiredKeyWithoutEntry(key: string)
    | KeysNotMapOrString
    | KeysTypeNotString
    | KeysNotStringBased(typ: string)
    | KeyUserTypeNotString(name: string)
    | MapWithoutConstraints
    | ChoicesNotList
    | EmptyChoices
    | ChoicesWithPattern
    | PatternNotString
    | BadPattern(pattern: string)
    | ChoicesWithMin
    | ChoicesWithMax
    | MinNotInt
    | MaxNotInt
    | MinAboveMax
    | ArrayWithoutValues
    | UniqueNotBool
    | Dangling(target: string)

  /** One step of a validation error's path: an object key or an array index. */
  datatype Segment = Key(name: string) | Index(i: nat)

  /**
   * Why a value was rejected. `Missing` only arises on a node that compilation
   * never produces (a reference into nothing, an array without element type).
   */
  datatype Cause =
    | WrongType(expected: Kind)
    | NullValue(kind: Kind)
    | InvalidKey(key: string)
    | UnexpectedKey(key: string)
    | MissingRequired
    | NotAChoice
    | PatternMismatch
    | BelowMin
    | AboveMax
    | Duplicate
    | Missing

  /** A validation failure: where in the document, and why. */
  datatype ValidationError = ValidationError(path: seq<Segment>, cause: Cause)

  /** A failure at the element being validated: its path is empty. */
  function TopLevel(cause: Cause): Outcome<ValidationError>
  {
    Fail(ValidationError([], cause))
  }

  /** A child's failure as seen from its parent: the child's locator goes in front of its path. */
  function Prefix(s: Segment, e: ValidationError): ValidationError
  {
    ValidationError([s] + e.path, e.cause)
  }
}
