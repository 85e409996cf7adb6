# rust-mock-server: the mock-body pipeline, modelled in Dafny

This project models the core of an OpenAPI mock server. The core is a pipeline with three stages, plus a small validator:

1. **Schema flattener and value synthesiser** (`object_reference_handler.dfy`).
   - It walks a resolved schema with an explicit work stack.
   - It produces a flat table from dotted path keys (`user.address.city`, `tags$array`) to synthesised leaf values.
   - It keeps only the properties that a schema lists as required.
   - Each leaf value is taken from the schema's example, or else from an enumeration entry, or else from a canned value per type.
2. **Document reconstructor** (`composite_objects.dfy`, with `property_value.dfy`).
   - It splits every key of the table on `.` and inserts the serialised value into one nested JSON object.
   - An `$array` segment becomes a one-element array `[{}]`, which later insertions reuse.
   - The request and response objects of a path carry the resulting document.
3. **Body validator** (`request_validator.dfy`).
   - It compares the body a client sent with the expected mock body.
   - It reports the keys the client left out, as `Missing keys: a, b`.

`wrappers.dfy` (Option/Result), `json.dfy` (JSON values) and `strings.dfy` (`split`, `join`, `ends_with` and their round trips) support the three stages.

What is proved:

- **Flattener.** `GetBodyByObjectSchema` is a loop over a stack, as in the source. It is proved against a declarative description of the schema:
  - a *leaf path* is a chain of required property steps and array-item steps that ends at a leaf;
  - the *key* of a path (`Key`) is how the source spells the path.
  The result satisfies `Flattens`:
  - every key in the table is the key of some leaf path, and holds a value admissible for that leaf;
  - every leaf path's key is in the table.
  A non-required property therefore contributes nothing, and neither does anything below it.
  Each failure names a cause the source panics on, shown by a schema the walk reaches. Examples are a reference absent from the spec, a missing type tag, or a one-entry enumeration. The only other failure is running out of `fuel`. Both directions hold when the fuel covers every reachable schema (`FuelCovers`):
  - if some reachable schema shows such a cause, the walk fails, and not for lack of fuel;
  - if none does (`Faultless`), the walk succeeds.
  A successful walk also shows that no reachable schema has a cause: it popped every reachable schema without a fault.
- **Synthesiser.** `AdmissibleValue` describes the values a leaf may receive without reference to the synthesiser. Two lemmas show it is exactly the set of values the synthesiser produces, over all random draws.
- **Reconstructor.** For the function that inserts one key:
  - an insertion that can get through (`Navigable`) succeeds and stores the value where `Lookup` finds it;
  - any other insertion fails or changes nothing;
  - inserting one key leaves every *compatible* key as it was (found in the same place, and still insertable).
  - an insertion adds nothing beside its own path, and keeps the arrays it passes through at one element.
  `BuildDocument` inserts the keys in any order. Whatever the document holds lies on the branch of some key. When the keys are pairwise compatible, the build never fails, every entry can be found, and every `$array` segment on the way holds a one-element array.
- **The whole pipeline.** Call a schema *plain* when its property names are non-empty and contain neither `.` nor `$`. Names within one schema are also distinct, as they are keys of a map in the source.
  - In a plain spec, the keys of any two different leaf paths are compatible.
  - Rebuilding a flattening therefore never fails.
  - The mock body holds, at every leaf path's key, the serialised form of a value admissible for that leaf, through one-element arrays, and nothing else (`MocksEveryLeaf`).
  - For such a schema, `MockBody` and the request and response constructors fail only where the flattener does. With enough fuel they succeed exactly when no reachable schema shows a panic cause. For any schema, a reachable cause with enough fuel makes them fail with the flattener's error.
- **Validator.** `CheckDifference` only appends to its accumulator. What it appends is exactly the last names of the *missing paths* (`Missing`), each path once. `ValidateRequest` gives `Ok(true)` exactly when nothing is missing. Otherwise its error is `"Missing keys: "` followed by those names joined with `", "`. Two lemmas restate `Missing` in terms of the two bodies alone, in both directions: a path is missing exactly when it is in the expected body, absent from the actual one, and the actual body holds objects all along its parent.

Source paths below are relative to the repository root.

## Model

| member | source | states |
|---|---|---|
| `ObjectReferenceHandler.GetBodyByObjectSchema` | src/components/models/object_reference_handler.rs:10-78 | On success the table is a flattening of the schema. Every key is the key of a leaf path (required properties and array items from the root, joined with `.` and `$array`) and holds a value admissible for that leaf. Every leaf path's key is present. On success, no schema the walk reaches shows a cause the source panics on. A failure other than running out of fuel names such a cause, found at some schema the walk reaches. Running out of fuel means more distinct schemas are reachable than the fuel allows. When the fuel covers every reachable schema, the walk fails, and not for lack of fuel, exactly when some reachable schema shows such a cause, and succeeds otherwise. |
| `ObjectReferenceHandler.VisitPropertylessSchema` | src/components/models/object_reference_handler.rs:24-49 | A popped schema without properties keeps the walk's invariants. It stores a leaf value at its own prefix, which is `""` for a bare scalar root. It pushes its resolved items under `prefix + "$array"`. It fails exactly when the schema shows one of the causes the source panics on: no type tag, a leaf type with no value, a one-entry enumeration with no example, or an array whose items reference is absent from the spec. |
| `ObjectReferenceHandler.VisitProperties` | src/components/models/object_reference_handler.rs:51-74 | Visiting the properties in order keeps the walk's invariants. It fails exactly when some property shows a cause the source panics on, and the error names that cause. |
| `ObjectReferenceHandler.VisitProperty` | src/components/models/object_reference_handler.rs:52-73 | One property fails exactly when its reference is absent from the spec (required or not, since it is resolved before the required check), or when it is required and its schema has no type tag, or when it is a required leaf with no example while the parent's enumeration has one entry. Otherwise a property outside `required` is skipped. A leaf property is stored at `k` or `prefix.k`, with a value drawn using the parent's enumeration, and a leaf that yields no value is silently skipped. Any other property is pushed under that key. |
| `ObjectReferenceHandler.IsSingleProperty` | src/components/models/object_reference_handler.rs:132-138 | A leaf type is never also an array or a nullable array, so a property-less schema either gets a value or pushes its items, never both. Every type set with a canned default is a leaf type. |
| `ObjectReferenceHandler.GenRange` | src/components/models/object_reference_handler.rs:150-151 | The draw lies in `[0, bound)`, and every index in the range is drawn for some random output. |
| `ObjectReferenceHandler.GetValuesFromProperty` | src/components/models/object_reference_handler.rs:141-162 | Precedence: the example verbatim, then an enumeration entry other than the last, then the canned value for the type. A one-entry enumeration (and no example) is exactly the empty-range failure. No value at all is produced exactly when there is no example, no enumeration and no canned value for the type set. |
| `ObjectReferenceHandler.EveryEarlierEntryCanBeDrawn` | src/components/models/object_reference_handler.rs:149-153 | Every enumeration entry except the last is the result for some draw. |
| `ObjectReferenceHandler.GetPropertyValueObject` | src/components/models/object_reference_handler.rs:80-130 | Exactly one field of the record is set. It serialises to the boxed value, except that an `f64` (the number default `1.2`) is matched by no arm and becomes the string `"Unknown"`. |
| `ObjectReferenceHandler.SynthesisedIsAdmissible` | src/components/models/object_reference_handler.rs:141-162 | Every synthesised and converted value is admissible for its leaf: the example; an enumeration entry other than the last; `true`, `"asd"`, `1`, or `"Unknown"` for a number. |
| `ObjectReferenceHandler.AdmissibleIsSynthesised` | src/components/models/object_reference_handler.rs:141-162 | Conversely, every admissible value is produced for some random draw. |
| `PropertyValues.Serialize` | src/components/composite_objects.rs:19-42 | The first field that is set wins, in the fixed order bool, number, int, string, JSON value. A record with no field set serialises as `""`. |
| `Strings.Split` | src/components/composite_objects.rs:149 | Splitting on a character gives at least one piece, no piece contains the separator, and joining the pieces with it gives back the key. |
| `Strings.SplitJoin` | src/components/composite_objects.rs:149 | Splitting undoes joining for pieces free of the separator. |
| `Strings.SplitAroundSeparator` | src/components/composite_objects.rs:116-121 | A helper of `Parse` and `KeySegments`: splitting `s + sep + t` gives the pieces of `s` followed by those of `t`. |
| `CompositeObjects.Parse` | src/components/composite_objects.rs:116-121 | A segment is flagged as an array exactly when it ends with `$array`. Any other segment names itself. An array segment's name is a `$`-free prefix of the segment, and the segment has a `$` right after it, so the name is the text before the first `$`. |
| `Strings.EndsWithSuffix` | src/components/composite_objects.rs:118 | A string ends with a suffix exactly when it is some text followed by that suffix. |
| `CompositeObjects.ParseMarked` | src/components/composite_objects.rs:118-121 | A `$`-free name followed by `$array` reads back as that name with the array flag, and the name alone reads back as itself. |
| `CompositeObjects.InsertNested` | src/components/composite_objects.rs:115-144 | Only the first segment's name is added or changed at the top level, and every other key keeps its value. After a non-final `$array` segment, the array at that name keeps its length, or has length 1 when just created: it never grows. Failure happens only on a non-final segment. |
| `CompositeObjects.InsertThenLookup` | src/components/composite_objects.rs:122-142 | When every non-final segment meets an absent value or one of the shape it descends into, the insertion succeeds and the serialised value is found at the key. The last segment stores it unwrapped, even when marked `$array`. |
| `CompositeObjects.InsertBlocked` | src/components/composite_objects.rs:125-142 | When an insertion cannot get through, its outcome is decided by the first blocking value along the key (`Blocker`). At an `$array` segment, a value that is not an array fails with `NotAnArray`, and an empty array fails with `EmptyArray`, each naming the segment. A value that is not an object, or an element 0 that is not one, drops the insertion silently and leaves the document unchanged. |
| `CompositeObjects.InsertKeepsCompatible` | src/components/composite_objects.rs:115-144 | Inserting a key leaves the value found at any compatible key unchanged, and leaves such a key insertable. Two keys are compatible when they agree segment by segment, marker included, and then part at a name. Entries sharing a prefix therefore merge under the same nested objects. |
| `CompositeObjects.InsertFound` | src/components/composite_objects.rs:115-144 | Whatever is found after inserting a key was found before, or lies on one branch with that key: one's segment names start the other's. An insertion adds nothing beside its own path. |
| `CompositeObjects.InsertKeepsSingle` | src/components/composite_objects.rs:125-133 | Inserting a key keeps each non-final `$array` segment of the same key, or of a compatible one, a one-element array wherever anything is found there. The insertion creates the array as `[{}]`, descends into element 0, or does not reach it. |
| `CompositeObjects.BuildDocument` | src/components/composite_objects.rs:146-153 | Every entry is inserted into one shared root, in any iteration order. On success, the top-level keys are exactly the first segment names of the table's keys, and whatever is found in the document lies on one branch with some key of the table. When the keys are pairwise compatible, the build never fails, every entry's serialised value is found at its key, and each non-final `$array` segment on the way holds a one-element array. |
| `CompositeObjects.Init` | src/components/composite_objects.rs:60-66 | No headers, no query parameters and no body. |
| `CompositeObjects.MockBody` | src/components/composite_objects.rs:73-74 | Flattening a schema and rebuilding the document yields the document rebuilt from some flattening of the schema. For a plain schema, rebuilding never fails, and the body mocks every leaf. At the segments of every leaf path's key it holds the serialised form of a value admissible for that leaf, with a one-element array at each `$array` segment on the way. Each of its top-level keys starts some leaf path's key, and nothing is found in it off the branch of every leaf path's key. A plain schema's property names are non-empty and free of `.` and `$`. A flattener failure other than running out of fuel names a panic cause at a reachable schema, and running out of fuel means more than `fuel` distinct schemas are reachable. When the fuel covers every reachable schema, a reachable cause makes it fail with a flattener error other than running out of fuel, and for a plain schema the absence of any cause makes it succeed. |
| `CompositeObjects.CreateRequestObject` | src/components/composite_objects.rs:68-84 | Without a schema the result is `Init()`. With one, there are no headers and no query parameters, and the body is present and is the document rebuilt from a flattening of the schema. For a plain schema, only the flattener can fail, and the body mocks every leaf. With a schema: a flattener failure other than running out of fuel names a panic cause at a reachable schema, and running out of fuel means more than `fuel` distinct schemas are reachable. When the fuel covers every reachable schema, a reachable cause makes it fail with a flattener error other than running out of fuel, and for a plain schema the absence of any cause makes it succeed. |
| `CompositeObjects.CreateResponseObject` | src/components/composite_objects.rs:94-112 | With a schema, the response is the rebuilt document and the status is 200. For a plain schema, only the flattener can fail, and the response mocks every leaf. With a schema: a flattener failure other than running out of fuel names a panic cause at a reachable schema, and running out of fuel means more than `fuel` distinct schemas are reachable. When the fuel covers every reachable schema, a reachable cause makes it fail with a flattener error other than running out of fuel, and for a plain schema the absence of any cause makes it succeed. Without a schema, both are absent. |
| `ObjectReferenceHandler.LeafEnds` | src/components/models/object_reference_handler.rs:24-49 | A schema that receives a value pushes nothing onto the stack, so no path that continues past a leaf path is itself a leaf path. |
| `ObjectReferenceHandler.LeafPathsDiverge` | src/components/models/object_reference_handler.rs:51-74 | In a plain spec, two different leaf paths part at two property steps from the same schema, and the two properties have different names. |
| `CompositeObjects.KeySegments` | src/components/models/object_reference_handler.rs:44-61 | Along a path of plain names, splitting the flat key at `.` gives one segment per property step. Each array step appends `$array` to the current segment. Only the empty path has the empty key. |
| `CompositeObjects.ParseMarkedName` | src/components/composite_objects.rs:116-121 | A `$`-free name followed by any number of `$array` markers reads back as that name. |
| `CompositeObjects.LeafKeysCompatible` | src/components/models/object_reference_handler.rs:51-74 | In a plain spec, the keys of two different leaf paths are compatible. |
| `CompositeObjects.FlattenedKeysCompatible` | src/components/composite_objects.rs:146-153 | Every flattening of a plain spec has pairwise compatible keys, so rebuilding it never fails. |
| `CompositeObjects.LeafValueAtKey` | src/components/models/object_reference_handler.rs:57-68 | In a flattening of a plain spec, no two leaf paths share a key. The value at a leaf path's key is therefore admissible for that very leaf. |
| `CompositeObjects.PlainMockBody` | src/components/composite_objects.rs:73-74 | The document rebuilt from a flattening of a plain spec mocks every leaf of the schema: admissible values at every leaf key, one-element arrays on the way, and nothing beside the leaf keys' branches. |
| `RequestValidator.CheckDifference` | src/components/request_validator.rs:34-54 | The accumulator is only appended to. The new names are the last keys (no ancestors) of exactly the missing paths, each path once. A path is missing when its last key is in the expected object and not in the actual one, with objects on both sides at every key before it. |
| `RequestValidator.CheckEntry` | src/components/request_validator.rs:37-50 | For one expected key, the accumulator is only appended to. What is appended lists exactly the missing paths that start with that key, by their last names. The key itself is appended when it is absent from the actual body. The missing paths below it are appended when both sides hold differing objects. Any other difference (array, scalar, change of kind) adds nothing. |
| `RequestValidator.ValidateRequest` | src/components/request_validator.rs:10-32 | The result is `Ok(true)` exactly when nothing is missing, and always when the bodies are identical. Otherwise the message is `"Missing keys: "` followed by the names of all missing keys joined with `", "`. |
| `Strings.JoinWith` | src/components/request_validator.rs:25 | Joining no names gives `""`, and one name gives that name. Two or more start with the first name and then the separator. With a one-character separator, joining equals `Join`, which `Split` undoes. |
| `RequestValidator.IdenticalBodies` | src/components/request_validator.rs:20 | Identical bodies miss nothing. |
| `RequestValidator.MissingIsAbsent` | src/components/request_validator.rs:39-41 | A reported path is present in the expected body and absent from the actual one, and the actual body holds objects all along its parent. An extra key of the actual body is therefore never reported. With `AbsentIsMissing` this characterises `Missing` exactly. |
| `RequestValidator.AbsentIsMissing` | src/components/request_validator.rs:36-47 | A key of the expected body that the actual body lacks, at a place where the actual body holds objects all the way down, is reported. |

## Left out

- `src/main.rs` is not part of this model: the socket accept loop, the per-connection tasks, loading `openapi.yaml`, and routing by method and path. The `Path` record (src/components/composite_objects.rs:44-50), which only serves that routing, is left out too.
- OpenAPI parsing and `$ref` resolution by the `oas3` crate. The spec is a map from references to resolved schemas. An inline schema stands under a reference of its own, and `resolve` is a lookup, with a missing entry as the unresolvable-reference failure.
- `is_array_or_nullable_array` of `oas3` is not available here. It is taken to mean the type `array`, the one-entry type list `[array]`, or `[array, null]` in either order.
- The random number generator. `rng(i)` is the raw output for the `i`-th synthesis, and `gen_range(0..m)` is that output modulo `m`. Every index in range is reachable, and the proofs hold for every `rng`.
- Floating point. `f32` and `f64` values are opaque tokens, and their formatting is not modelled.
- `serde_json` text serialisation and parsing. Request and response bodies hold the JSON value, not its text. `ValidateRequest` takes the parsed body, and its panics on text that does not parse are not modelled.
- The `serde_json_diff` crate. Only the behaviour `check_difference` relies on is modelled. The call `values(obj, obj2)` (src/components/request_validator.rs:20) passes the client's body first and the expected mock body second. An entry `Missing` is taken to mean a key of the second argument (the expected body) that the first (the client's body) lacks. An object difference is taken to arise exactly when both sides are differing objects.
- `GetBodyByObjectSchema`: termination is bounded by `fuel` schemas popped, with the failure `OutOfFuel`. The source runs without bound on a cyclic chain of required non-leaf properties.
- The panics of the flattener, of `insert_nested_value` and of the constructors are modelled as error results (`FlattenError`, `InsertError`, `BuildError`), not as preconditions. `ValidateRequest` keeps the source's panics as preconditions: the actual body must be an object, and the expected body must be present and an object.
- `InsertNested`: the in-place `&mut` update of the nested map is modelled as a function that returns the updated map.
- `BuildDocument`: for tables whose keys are not pairwise compatible, where values found depends on `HashMap` iteration order, is not stated. Iteration order itself is modelled as an arbitrary choice.
- `CheckDifference`: the order of the reported names follows the diff's iteration order, which is modelled as an arbitrary choice, so the names are stated as a listing of the missing paths and not in a fixed order.
- `ValidateRequest`: the message is stated for the names in the order `CheckDifference` reports them, not a fixed order.
- `MockBody`: for a schema whose property names are empty or contain `.` or `$`, whether rebuilding succeeds and what the body holds at each leaf are not stated. Such names make keys ambiguous.
- `CreateResponseObject`: the status code is an unbounded integer rather than an `i16`, because only the value 200 occurs.
- The `Serialize`/`Deserialize` derivations of the request and response objects are not modelled.
