# Aspect schema compiler and validator, modelled in Dafny

This project models the aspect schema code of snapd (`aspects/schema.go`).

- **Compiler.** A JSON schema is compiled into a tree of nodes. The kinds are map, string, int, number, bool, any, array and user-type reference. Compilation refuses conflicting or missing constraints.
- **Validator.** A JSON document is validated against the compiled tree. A failing key or index is put in front of the error path.
- **Error rendering.** The error path is rendered as text such as `a.b[2]`. An empty path is reported as the top-level element.

Files:

| file | module | contents |
|---|---|---|
| `wrappers.dfy` | `Wrappers` | `Option`, `Result` (with `:-`) and `Outcome` |
| `json.dfy` | `JsonModel` | decoded JSON values, lookups, and Go's `json.Unmarshal` into typed targets, null included |
| `nodes.dfy` | `Nodes` | nodes, user-type references, compile errors, validation errors with paths, and the map-key check |
| `compiler.dfy` | `Compiler` | `ParseSchema`, `parse`, `newTypeSchema`, `getUserType`, each `parseConstraints`, `parseMapKeyType` |
| `validator.dfy` | `Validator` | each kind's `Validate`, `validateNumber`, the required-keys loop and the uniqueness loop |
| `conformance.dfy` | `Conformance` | a declarative conformance predicate, the validator proved equal to it, and where reported paths lead |
| `validation_facts.dfy` | `ValidationFacts` | the particular promises of the validator |
| `compile_facts.dfy` | `CompileFacts` | the particular promises of the compiler |
| `closure.dfy` | `Closure` | compiled schemas are closed; validation against them never lacks a node |
| `errors.dfy` | `ErrorText` | `ValidationError.Error` and a reader that inverts the path rendering |
| `scenarios.dfy` | `Scenarios` | two schemas worked end to end |

How Go's objects are modelled:

- Go allocates a node and then sets its fields in `parseConstraints`. Here the node is a value, updated field by field (`n.(choices := cs)`).
- A user type is one node object shared by address. Every `$name` reference to it holds that address, and `userTypeRefParser` embeds it. So constraints written where the type is used reach the shared node through the promoted `parseConstraints`:
  - Shared nodes live in a `Store`, keyed by user-type name.
  - A reference (`Ref`) names its store entry.
  - The store is read at validation time.
  - Writing constraints at a use replaces the shared entry, and every reference then sees the change, as every Go reference to the object does (`Scenarios.SharedUserTypeScenario`).
  - A user type defined as another user type (`"t2": "$t1"`) wraps the same shared node, and it is not string-based. This matches `newUserTypeRefParser` given a `*userTypeRefParser`.
- Go's decoded maps become member lists in the order an iteration visits them.
  - A lookup takes the last member with the key.
  - Every "first failing key" in the model is the first in that order.
  - Go's order is unspecified, so any order is a legal run. The properties proved say only that some failing key or index heads the path (`Conformance.FailsAt`), except for arrays, where order is defined.
- JSON `null` follows `json.Unmarshal`:
  - into a string, int or bool it gives the zero value;
  - into a slice or map it gives nil.
  - So `"type": null` reads as `""`, `"pattern": null` as the empty pattern, and `"choices": null` as an empty list, which is refused.
  - A `null` definition decodes into a nil map. Its type defaults to `map`, and it is then refused for lack of constraints.
- Regular expressions are parameters (`Regexps`): the map-key grammar, the user-type grammar, and whether a pattern compiles and matches a string. The source uses `validSubkey` and `validUserType`, which are defined outside this file, and Go's `regexp`.

## Model

| member | source | states |
|---|---|---|
| Nodes.FirstInvalidKey | aspects/schema.go:330-338 | the result is None iff every key matches the key grammar; otherwise it names a member key that does not |
| Compiler.ParseConstraints | aspects/schema.go:170-173 | parsing constraints never changes a node's kind; string, numeric, bool and any constraints leave the user-type store untouched |
| Compiler.Parse | aspects/schema.go:141-179 | no contract of its own; CompileFacts.UntypedObjectIsMap, TypedObjectKind, BareNameCompiles, BareMapOrArrayFails, NullDefinitionRefused and OtherDefinitionsRefused state its dispatch, and Closure.ParseClosed the invariant it keeps |
| Compiler.NewTypeSchema | aspects/schema.go:181-204 | no contract of its own; CompileFacts.BareNameCompiles states which names are known, CompileFacts.UserTypeReference what `$name` yields, and Closure.NewTypeClosed that the fresh node is closed |
| Compiler.ParseMapKeyType | aspects/schema.go:441-490 | no contract of its own; CompileFacts.KeyTypeNameIff, KeyTypeObjectIff and KeyTypeIsStringBased state when a key type compiles and that it is string-based, and Closure.KeyTypeClosed that it is closed |
| Compiler.ParseNumericConstraints | aspects/schema.go:599-643 | no contract of its own (the number kind's copy is at lines 732-776); CompileFacts.NumericConstraintsIff, NumericBounds and SharedNodeConstraints state when constraints compile and what the node then holds |
| Compiler.CompileUserTypes | aspects/schema.go:69-90 | no contract of its own; CompileFacts.UserTypesDeclared and CompiledUserTypes state that every declared name matches the user-type grammar and is registered in the table, Compiler.ParseSchema that the user-type loop computes it, and Closure.CompileUserTypesClosed that the table and store it builds are closed |
| Compiler.Compile | aspects/schema.go:46-98 | no contract of its own; CompileFacts.CompiledTopLevel and TopLevelRefusals state what the top level must be, and Closure.CompileClosed that a compiled schema is closed |
| Compiler.CheckExclusiveMapConstraints | aspects/schema.go:422-439 | passes iff "required" comes with "schema", and "schema" comes with neither "keys" nor "values" |
| Compiler.KeyWithoutEntry | aspects/schema.go:386-392 | None iff every key of every required combination has an entry schema; otherwise a required key without one |
| Compiler.KeyWithoutEntryIn | aspects/schema.go:387-391 | None iff every key of one combination has an entry schema |
| Compiler.ParseMapConstraints | aspects/schema.go:340-419 | a compiled map definition is a map node |
| Compiler.ParseExactMap | aspects/schema.go:347-393 | a map given "schema" becomes an exact map |
| Compiler.ParseKeyValueMap | aspects/schema.go:396-416 | a map given keys or values is still a map, and only its key and value types change: exactness, entries and required combinations are kept |
| Compiler.ParseStringConstraints | aspects/schema.go:534-565 | the constrained node is still a string node |
| Compiler.ParseArrayConstraints | aspects/schema.go:863-886 | a compiled array always has an element type |
| Compiler.Register | aspects/schema.go:107-113 | the new reference is string-based iff the compiled definition is a string node; a definition that is itself a reference wraps the same shared node |
| Compiler.FillEntries | aspects/schema.go:357-365 | the entry-schema loop computes the same entries and store as ParseEntries |
| Compiler.ParseSchema | aspects/schema.go:46-98 | the method, with its loop over user types, returns exactly what Compile specifies |
| Validator.FirstUnexpectedKey | aspects/schema.go:253-259 | None iff every document key has an entry schema; otherwise a document key without one |
| Validator.Validate | aspects/schema.go:235-886 | no contract of its own; Conformance.ValidateConforms states that it passes iff the document conforms, Conformance.ValidateFailsAt where a failure lies, ValidationFacts.NullRejected that null is refused, and Closure.NeverMissing that closed nodes never fail for want of a node |
| Validator.ValidateMap | aspects/schema.go:235-328 | no contract of its own; Conformance.ValidateMapConforms and ValidationFacts.UnexpectedKeyRejected, ExactEntriesDecide, NoRequirement and RequiredAlternativesExample state what a map accepts |
| Validator.ValidateArray | aspects/schema.go:824-861 | no contract of its own; Conformance.ValidateArrayConforms and ValidateArrayFailsAt, and ValidationFacts.UniqueDecidedByRaw, state what an array accepts and where it fails |
| Validator.ValidateString | aspects/schema.go:503-532 | no contract of its own; Conformance.ValidateConforms states that a string passes iff it is among the choices, when there are any, and matches the pattern, when there is one |
| Validator.ValidateInt | aspects/schema.go:576-597 | no contract of its own; ValidationFacts.IntAcceptedIff and EqualBoundsAdmitOneValue state which integers an int or number node accepts |
| Validator.CheckNumber | aspects/schema.go:704-730 | no contract of its own; Conformance.CheckNumberAllowed states that it passes iff the number is an allowed choice within the inclusive bounds, and Validator.ValidateNumber that the loop computes it |
| Validator.RequiredMissing | aspects/schema.go:261-279 | the `missing` flag ends true iff no combination has all its keys present, and an empty list imposes nothing |
| Validator.ContainsDuplicate | aspects/schema.go:848-858 | the valSet loop finds a repeat iff two elements have the same raw encoding |
| Validator.ValidateNumber | aspects/schema.go:704-730 | the choices loop and bound checks return the same outcome as CheckNumber: choices first, then min, then max |
| Conformance.CheckNumberAllowed | aspects/schema.go:704-730 | a number passes iff the choices are empty or contain it, and it lies within whichever inclusive bounds are set |
| Conformance.ValidateConforms | aspects/schema.go:235-886 | Validate passes iff the document conforms to the node, for every kind and every document |
| Conformance.ValidateMapConforms | aspects/schema.go:235-328 | a map passes iff it is an object with valid keys, satisfies a required combination, and either has only listed keys with conforming values, or conforming keys and values |
| Conformance.ValidateEntriesConforms | aspects/schema.go:281-296 | the entries loop passes iff every member with an entry schema conforms to it |
| Conformance.ValidateKeysConforms | aspects/schema.go:298-313 | the keys loop passes iff every key, as a JSON string, conforms to the key schema |
| Conformance.ValidateValuesConforms | aspects/schema.go:315-325 | the values loop passes iff every value conforms to the value schema |
| Conformance.ValidateArrayConforms | aspects/schema.go:824-861 | an array passes iff every element conforms, and, when unique, no two raw encodings are equal |
| Conformance.ValidateElementsConforms | aspects/schema.go:838-846 | the element loop passes iff every element conforms |
| Conformance.ValidateFailsAt | aspects/schema.go:281-325 | every reported path leads, key by key and index by index, through the document to a value that does not conform to the node governing it there |
| Conformance.ValidateMapFailsAt | aspects/schema.go:281-325 | a map failure with a non-empty path is headed by a document key whose value (or key) fails its node |
| Conformance.ValidateEntriesFailsAt | aspects/schema.go:281-296 | an entries failure is headed by the key of a member whose value fails its entry schema |
| Conformance.ValidateKeysFailsAt | aspects/schema.go:298-313 | a key failure is headed by a key that fails the key schema |
| Conformance.ValidateValuesFailsAt | aspects/schema.go:315-325 | a value failure is headed by the key of a member whose value fails the value schema |
| Conformance.ValidateArrayFailsAt | aspects/schema.go:838-846 | an array failure with a non-empty path is headed by the index of a failing element |
| Conformance.ValidateElementsFailsAt | aspects/schema.go:838-846 | elements are checked in index order: the reported index is the first failing element, every earlier one passes, and that element's own error follows the index |
| ValidationFacts.NullRejected | aspects/schema.go:245-247 | null is refused by every kind (also at lines 519-521, 592-594, 661-663, 798-800 and 834-836), at the element itself, with the node's kind |
| ValidationFacts.UnexpectedKeyRejected | aspects/schema.go:253-259 | when every key of the document matches the key grammar, an exact map refuses any key it has no entry for, whatever the other values are |
| ValidationFacts.ExactIgnoresKeysAndValues | aspects/schema.go:281-296 | with exact entries, the key and value schemas do not affect the outcome |
| ValidationFacts.ExactEntriesDecide | aspects/schema.go:281-296 | an exact map with valid, listed keys that meets the required check passes iff each value conforms to its entry |
| ValidationFacts.RequiredAlternativesExample | aspects/schema.go:261-279 | an exact map over A, B and C requiring [["A"],["B","C"]] accepts {A} and {B,C}, and refuses {B} and {} at the object itself with MissingRequired |
| ValidationFacts.NoRequirement | aspects/schema.go:261-279 | a map node with an empty list of combinations never refuses a document as missing a required combination |
| ValidationFacts.UniqueDecidedByRaw | aspects/schema.go:848-858 | a unique array whose elements pass is refused exactly when two raw encodings coincide |
| ValidationFacts.IntAcceptedIff | aspects/schema.go:576-597 | an integer passes an int or number node iff it is an allowed choice within the inclusive bounds |
| ValidationFacts.EqualBoundsAdmitOneValue | aspects/schema.go:720-726 | an int or number node with min = max = m accepts the integer m and no other |
| CompileFacts.UntypedObjectIsMap | aspects/schema.go:154-156 | an object definition without "type" is parsed as a map definition |
| CompileFacts.TypedObjectKind | aspects/schema.go:163-173 | an object definition compiles to the kind its "type" names |
| CompileFacts.BareNameCompiles | aspects/schema.go:141-204 | a bare string compiles iff it is string, int, number, bool, any, or `$name` with name declared; the store is not touched |
| CompileFacts.BareMapOrArrayFails | aspects/schema.go:174-176 | bare "map" and "array" are refused, because they expect constraints |
| CompileFacts.NullDefinitionRefused | aspects/schema.go:141-179 | a null definition is a map without constraints, which is refused |
| CompileFacts.OtherDefinitionsRefused | aspects/schema.go:144-151 | numbers, booleans and arrays are not definitions |
| CompileFacts.UserTypeReference | aspects/schema.go:197-212 | `$name` compiles to a reference to the declared type, needing no constraints, or fails with UnknownUserType |
| CompileFacts.CompiledTopLevel | aspects/schema.go:46-98 | a compiled schema came from an object with "schema" whose "type", if any, is "map", and its top node is a map |
| CompileFacts.TopLevelRefusals | aspects/schema.go:46-73 | a non-object is refused as not a map; a "type" that does not decode as a string, and one that is not "map", are each refused with their own error; with "type" absent or "map", a missing "schema" is refused, and so is a null top level; with "schema" present, a "types" that is neither an object nor null is refused as TypesNotMap |
| CompileFacts.UserTypesDeclared | aspects/schema.go:77-89 | when the user-type loop succeeds, every name it went through matches the user-type grammar and is in the table, and no earlier name is lost |
| CompileFacts.CompiledUserTypes | aspects/schema.go:69-90 | every name declared under "types" of a compiled schema matches the grammar and is in its table; a name outside the grammar makes compilation fail |
| CompileFacts.MapConflicts | aspects/schema.go:422-439 | required without schema, schema with keys, and schema with values each stop compilation with their own error |
| CompileFacts.MapNeedsShape | aspects/schema.go:414-416 | a fresh map with none of schema, keys and values does not compile |
| CompileFacts.FlatRequiredIsOneCombination | aspects/schema.go:368-384 | a flat list of keys becomes one combination holding those keys in order |
| CompileFacts.NestedRequiredIsCombinations | aspects/schema.go:368-384 | a list of key lists is kept as it stands |
| CompileFacts.ParseEntriesKeys | aspects/schema.go:357-365 | the entry schemas are exactly the keys of "schema" |
| CompileFacts.ExactMapEntries | aspects/schema.go:347-393 | a compiled exact map has one entry per member of "schema", and every required key has an entry |
| CompileFacts.ExactMapShape | aspects/schema.go:347-393 | the "schema" branch makes the map exact, with one entry per key of the entries object (none for null); the required combinations are the decoded "required", or the node's own when it is absent, and every required key has an entry; nothing else of the node changes |
| CompileFacts.KeyTypeNameIff | aspects/schema.go:472-489 | a key type given by name compiles iff it is "string" or `$t` with t declared and string-based |
| CompileFacts.KeyTypeObjectIff | aspects/schema.go:449-469 | a key type given as an object compiles iff its "type" is absent or "string" and its string constraints compile |
| CompileFacts.KeyTypeIsStringBased | aspects/schema.go:441-490 | every compiled key type is a string node or a string-based reference; other JSON values are refused |
| CompileFacts.StringConstraintsIff | aspects/schema.go:534-565 | on a fresh string node, string constraints compile iff choices, when given, are a non-empty list, choices and pattern are not both given, and the pattern compiles; the node then holds exactly those |
| CompileFacts.NumericConstraintsIff | aspects/schema.go:599-643 | on a fresh int or number node, numeric constraints compile iff choices are non-empty and come without min and max, bounds are integers, and min ≤ max; the node then holds exactly those |
| CompileFacts.NumericBounds | aspects/schema.go:638-640 | bounds lo, hi compile iff lo ≤ hi, so equal bounds are allowed; otherwise MinAboveMax |
| CompileFacts.SharedNodeConstraints | aspects/schema.go:534-643 | at a use site of a user type the shared node's earlier choices count: a pattern (line 549), a min (line 615) or a max (line 627) written beside them is refused |
| CompileFacts.RefConstraintsWriteBack | aspects/schema.go:101-105 | constraints written at a use of user type t (through the embedded shared parser, lines 170-173) succeed iff they succeed on t's shared node, with the same error otherwise; the result is the same reference, and the store holds the constrained node under t; a reference with no plain node is dangling |
| CompileFacts.ArrayConstraints | aspects/schema.go:863-886 | "values" is mandatory; a compiled array has the parsed element type, and it is unique iff "unique" reads true |
| Closure.ParseClosed | aspects/schema.go:141-179 | parsing a definition keeps the store closed and returns a closed node, and never reports a dangling reference |
| Closure.ParseConstraintsClosed | aspects/schema.go:170-173 | the same for constraints applied to a fresh node or through a reference |
| Closure.RefConstraintsClosed | aspects/schema.go:101-105 | constraints written through a reference keep the invariant: the store stays closed, keeps its names, and the reference is closed in it; no dangling reference is reported |
| Closure.ScalarConstraintsClosed | aspects/schema.go:534-643 | string, numeric, bool and any constraints keep the invariant and give a closed node |
| Closure.NewTypeClosed | aspects/schema.go:181-212 | a fresh node of a named type is closed (an array is still waiting for its element type), and a name never yields a dangling reference |
| Closure.ParseNameClosed | aspects/schema.go:174-176 | a definition by bare name keeps the invariant and gives a closed node |
| Closure.ParseMapConstraintsClosed | aspects/schema.go:340-419 | the same for map constraints |
| Closure.ExactMapClosed | aspects/schema.go:347-393 | the same for exact entries |
| Closure.ExactEntriesClosed | aspects/schema.go:347-365 | the entry schemas of "schema" are closed and the invariant is kept |
| Closure.KeyValueMapClosed | aspects/schema.go:396-418 | the same for key and value types |
| Closure.KeysFieldClosed | aspects/schema.go:398-404 | a parsed key type is closed |
| Closure.ValuesFieldClosed | aspects/schema.go:406-413 | a parsed value type is closed in the store it left, and the invariant is kept |
| Closure.ParseEntriesClosed | aspects/schema.go:357-365 | the entry loop keeps the store closed and yields closed entries |
| Closure.ParseArrayConstraintsClosed | aspects/schema.go:863-886 | the same for array constraints |
| Closure.KeyTypeClosed | aspects/schema.go:441-490 | a compiled key type is closed |
| Closure.RegisterClosed | aspects/schema.go:107-113 | registering a compiled user type keeps every reference resolvable |
| Closure.CompileUserTypesClosed | aspects/schema.go:69-90 | the user-type loop keeps the store closed and never reports a dangling reference |
| Closure.CompileClosed | aspects/schema.go:46-98 | a compiled schema is closed: every reference resolves and every array has an element type |
| Closure.NeverMissing | aspects/schema.go:235-886 | validation against a closed node never fails for want of a node |
| Closure.EntriesNeverMissing | aspects/schema.go:281-296 | the same for the entries loop |
| Closure.KeysNeverMissing | aspects/schema.go:298-313 | the same for the keys loop |
| Closure.ValuesNeverMissing | aspects/schema.go:315-325 | the same for the values loop |
| Closure.ElementsNeverMissing | aspects/schema.go:838-846 | the same for the element loop |
| Closure.CompiledSchemaNeverMissing | aspects/schema.go:137-139 | validating any document against a compiled schema never fails for want of a node |
| ErrorText.NatToString | aspects/schema.go:910 | `%d` of an index is a non-empty string of decimal digits without a leading zero |
| ErrorText.DigitsValueOfNatToString | aspects/schema.go:910 | the digits denote the index they were printed from |
| ErrorText.RenderPath | aspects/schema.go:900-914 | no contract of its own; ErrorText.ParseRenderPath and RenderPathInjective state that plain paths read back from it, ErrorText.ErrorMessage that the builder loop computes it, and ErrorText.RenderExample the documented example |
| ErrorText.Message | aspects/schema.go:895-921 | the top-level wording is used iff the path is empty; otherwise the rendered path is quoted after "cannot accept element in " |
| ErrorText.ErrorMessage | aspects/schema.go:895-921 | the strings.Builder loop produces exactly Message |
| ErrorText.MessageNamesPath | aspects/schema.go:895-921 | for a non-empty path of plain keys the message opens with the element wording, and the quoted text reads back as the path |
| ErrorText.MessageInjective | aspects/schema.go:895-921 | errors at two different plain paths never share a message |
| ErrorText.ParseRenderPath | aspects/schema.go:900-914 | a path of non-empty keys without '.', '[' or ']' reads back from its rendering unchanged |
| ErrorText.RenderPathInjective | aspects/schema.go:900-914 | two such paths with the same text are the same path |
| ErrorText.RenderExample | aspects/schema.go:900-917 | the path ["a", 1] renders as a[1] |
| Scenarios.ArrayEntryScenario | aspects/schema.go:824-846 | {"schema":{"a":{"type":"array","values":"int"}}} compiles, and {"a":[1,"x"]} is refused at path a[1] |
| Scenarios.SharedUserTypeScenario | aspects/schema.go:101-105 | choices written where user type t is used at "a" also constrain the bare use at "b" |

## Left out

- JSON byte decoding and encoding (`json.Unmarshal`, `json.Marshal`, probing for `UnmarshalTypeError`): both belong to a foreign library.
  - Documents and schemas are already-decoded `Json` values.
  - Each array element keeps its raw text for the uniqueness check.
  - A string key given to the key schema is the JSON string itself.
- The `json.Marshal` failure when a key is encoded (lines 300-303), and the errors `validationErrorFrom` wraps for malformed input: the model has no malformed input.
- `numberSchema`'s float64 arithmetic: numbers are integers, and a number node checks exactly as an int node does.
- int64 range and overflow on decode: this is a property of the decoder.
- Duplicate keys in a JSON object: objects are assumed to have distinct keys, as a decoded Go map does. A lookup takes the last member.
- Validator.ValidateMap: when several keys fail, Go's map iteration order decides which is reported. The model reports the first in member order, and the properties promise only that some failing key heads the path.
- Compiler.CompileUserTypes: user types are compiled in member order. In Go the iteration order is unspecified, so whether one user type can refer to another depends on that order.
- Compiler.ParseConstraints: a use of user type t whose own nested definitions again constrain t is not modelled faithfully. Go mutates the one shared object in place; the model writes back the node it started from, so the inner write is lost.
- Error wording: errors are codes (`CompileError`, `Cause`). `ErrorText.Message` renders only the part before ": %v".
- `%q` quoting is modelled as surrounding double quotes, with no escaping.
- The `.<n/a>` segment for a path part that is neither string nor int: here such a part cannot be built.
- The regular expressions `validSubkey`, `validUserType` and the pattern dialect: this file does not define them, so they are parameters.
- `strutil.ListContains`: modelled as sequence membership.
- The `StorageSchema` and node objects: these are values here, not shared objects.
