# Patch.Net selective patch, modelled in Dafny

`Patch<TSource>` (PatchDto/Patch.cs) is a selective-patch object for JSON partial
updates. It is built from the JSON text of a partial update. It keeps the parsed
document (`_json`) and the instance the text deserialises to (`_object`), and at
construction it fills an error map (`_errors`):

- For each top-level key of the document, in document order, it resolves the key to a
  declared property of `TSource`, ignoring case.
- It validates that property's value on the instance.
- It appends the messages under the key as the document spells it.

After construction:

- `AutoPatch` copies a caller-chosen list of properties from the instance onto any
  target object. A property is copied only if the document mentions it and no messages
  are recorded under the property's own name (see "Validity gate" below).
- `HasPatchFor` reports whether the document mentions a property, and which instance
  value would be applied.

The model:

- `case_insensitive.dfy` (module `CaseInsensitive`): name comparison ignoring case, as
  equality of ASCII-folded forms.
- `patch.dfy` (module `PatchNet`):
  - the document, a sequence of `JProperty(name, token)` in document order;
  - the lookups the JSON object offers: the exact indexer `Lookup` and the
    case-insensitive `GetValueIgnoreCase`;
  - reflection's case-insensitive property lookup `GetClassPropertyName`;
  - the error map the construction loop must leave behind (`ErrorMap`, built from
    `WithErrors`);
  - class `Patch`, whose methods are the source's:
    - `New` is the public constructor. It stores its inputs through the Dafny
      `constructor`, then runs `ValidatePatch`, which calls `AddErrors`. An unknown key
      becomes a `Failure` instead of an exception, so no patch object is returned.
    - `AutoPatch`, `PatchValue`, `GetOriginalJsonName` and `HasPatchFor` run on that
      state.
    - The target is a `Target` object whose property map `PatchValue` overwrites.
- `scenarios.dfy` (module `PatchScenarios`): concrete documents against an entity with a
  required, at most five-character `Name` and an unconstrained `Age`. It covers a
  lower-case key that escapes the gate (constructed and applied end to end), an
  explicit null, and an unknown key.

What the caller supplies:

- Parsing and deserialisation are inputs to `New`: the parsed key list, and the value
  map of the deserialised instance.
- The DataAnnotations validator is a function parameter
  `(instance, property name, value) -> messages`.
- Property selectors are property names. `Helper.GetValue` and `Helper.Assign` are a
  map read and a map write.

Where the code and its evident intent disagree, the model follows the code:

- **Validity gate.** Messages are stored under the document's spelling of the key
  (line 55), in a dictionary that compares keys case-sensitively. `GetOriginalJsonName`
  (lines 117-128) exists to recover that spelling. Yet the gate `JsonValueIsValid`
  (line 114) looks up the class property name instead. So `{"name": "", "age": 30}`
  against a required `Name` stores `{"name": ["required"]}`, and `AutoPatch` still
  writes the empty Name, where evidently it should leave `Name` unchanged.
  See "## Findings".
- **Null check in `HasPatchFor`.** The test at lines 156-160 can never succeed. The
  indexer returns a token, JSON null included, for every key that exists. So
  `HasPatchFor` reports a patch exactly when some key matches.

## Model

| member | source | states |
|---|---|---|
| `PatchNet.Lookup` | PatchDto/Patch.cs:154 | the exact-key indexer finds a token, explicit JSON null included, iff the key is in the document, and the token is the one stored under that key |
| `PatchNet.FirstMatch` | PatchDto/Patch.cs:119-127 | the position found is that of the first key, in document order, equal to the name ignoring case; none is found iff no key matches |
| `PatchNet.GetValueIgnoreCase` | PatchDto/Patch.cs:139 | the case-insensitive GetValue yields a token iff some document key equals the name ignoring case |
| `PatchNet.OriginalJsonName` | PatchDto/Patch.cs:117-128 | the result is the document's spelling of the first key equal to the name ignoring case, or none iff no key matches |
| `PatchNet.GetClassPropertyName` | PatchDto/Patch.cs:83-88 | a resolved name is a declared property equal to the key ignoring case; resolution fails iff no declared property matches |
| `PatchNet.ResolutionIgnoresCase` | PatchDto/Patch.cs:83-88 | two keys equal ignoring case resolve to the same property, so they draw the same validation |
| `PatchNet.ResolvesToItself` | PatchDto/Patch.cs:83-88 | a declared property name resolves to itself |
| `PatchNet.WithErrors` | PatchDto/Patch.cs:68-81 | appending creates an entry only when there is a message; the list under the key, when there is one, is the previous list (or none) extended by exactly the messages, in order, so an empty batch changes nothing; every other key keeps its list |
| `PatchNet.ErrorMapKeys` | PatchDto/Patch.cs:45-81 | a string keys the constructed error map iff it is a document key whose resolved property drew at least one message; no stored list is empty |
| `PatchNet.ErrorMapEntries` | PatchDto/Patch.cs:45-81 | with distinct document keys, the list stored for a key is exactly the validator's messages for its property, in the validator's order |
| `PatchNet.Patch.constructor` | PatchDto/Patch.cs:36-40 | stores the document and the instance and starts from an empty error map |
| `PatchNet.Patch.New` | PatchDto/Patch.cs:36-43 | construction succeeds iff every document key names a declared property; otherwise it fails with the first unknown key in document order; a constructed patch satisfies the error-map invariant |
| `PatchNet.Patch.ValidatePatch` | PatchDto/Patch.cs:45-57 | the loop completes iff every key resolves, stopping at the first key that does not; on completion the error map is the fold of every key's messages in document order |
| `PatchNet.Patch.GetValidationErrors` | PatchDto/Patch.cs:59-66 | no contract: the DataAnnotations rules are the validator parameter, applied to the instance, the resolved property name and its value |
| `PatchNet.Patch.AddErrors` | PatchDto/Patch.cs:68-81 | appends the messages, in order, under the key given, and changes nothing else |
| `PatchNet.Patch.ValidationErrors` | PatchDto/Patch.cs:90 | its keys are exactly the document keys whose property failed validation, each holding that property's messages |
| `PatchNet.Patch.HasErrors` | PatchDto/Patch.cs:92 | true iff the error map is non-empty iff some document key's property failed validation |
| `PatchNet.Patch.JsonValueIsValid` | PatchDto/Patch.cs:112-115 | the gate fails only when the property name itself, spelt exactly, is a document key whose value failed validation |
| `PatchNet.Patch.KeyIsPresentInJson` | PatchDto/Patch.cs:137-140 | true iff some document key equals the property name ignoring case |
| `PatchNet.Patch.GetOriginalJsonName` | PatchDto/Patch.cs:117-128 | the search loop returns the document's spelling of the first key equal to the property name ignoring case, or none |
| `PatchNet.Patch.PatchValue` | PatchDto/Patch.cs:130-135 | the target's property takes the instance's value; every other target property is unchanged |
| `PatchNet.Patch.AutoPatch` | PatchDto/Patch.cs:99-110 | the target afterwards is the ordered application of the selection (`Patched`, characterised pointwise by `PatchedAt`); only the target is modified, so document, instance and error map stay as construction left them |
| `PatchNet.Patch.HasPatchFor` | PatchDto/Patch.cs:142-165 | reports a patch iff some document key equals the property ignoring case, explicit null included (the same test as the presence check); the value is the instance's when found and none otherwise; the error map plays no part |
| `PatchNet.Patch.PatchedAt` | PatchDto/Patch.cs:99-110 | after applying a selection, each property holds the instance's value if it was selected and gated through, and its prior state otherwise |
| `PatchNet.Patch.PatchedIdempotent` | PatchDto/Patch.cs:99-110 | applying the same selection twice leaves the target as applying it once |
| `PatchNet.Patch.AutoPatchWriteCondition` | PatchDto/Patch.cs:105-115 | a selected property is written iff some key matches it ignoring case and it is not the case that the exactly spelt key is present with failing messages |
| `PatchNet.Patch.RecasedKeyEscapesGate` | PatchDto/Patch.cs:105-115 | when an invalid property is sent only under a differently cased key, the messages are stored under that key, the property's own name is not a key of the error map, and applying the property writes the invalid value |
| `PatchNet.Patch.ExactKeyIsGated` | PatchDto/Patch.cs:105-115 | when an invalid property is sent under its exact name, the error map holds that name and applying the property leaves the target unchanged |
| `PatchNet.Patch.JsonValueIsValidIntended` | PatchDto/Patch.cs:112-128 | the intended counterpart of the gate: it fails iff the first document key equal to the property ignoring case resolves to a property that drew messages |
| `PatchNet.Patch.IntendedGating` | PatchDto/Patch.cs:112-115 | with the gate looking up the document's own key, a present property is written iff its value passes validation, whatever the key's casing |
| `PatchScenarios.LowercaseNameEscapes` | PatchDto/Patch.cs:45-57 | for `{"name": "", "age": 30}`, "name" is a document key equal to Name ignoring case, "Name" itself is not a key, and the deserialised empty Name fails validation: the preconditions of `RecasedKeyEscapesGate` |
| `PatchScenarios.LowercaseDocumentResolves` | PatchDto/Patch.cs:45-57 | `{"name": "", "age": 30}` has distinct keys, each resolving to a declared property, so construction succeeds |
| `PatchScenarios.LowercaseKeysPassGate` | PatchDto/Patch.cs:105-115 | for `{"name": "", "age": 30}` both Name and Age are present ignoring case and pass the gate as written |
| `PatchScenarios.LowercaseKeysWriteInvalidName` | PatchDto/Patch.cs:99-115 | constructing the patch for `{"name": "", "age": 30}` and applying it with Name and Age selected leaves the target holding the empty Name, although that value failed validation, and Age 30 |
| `PatchScenarios.ExplicitNull` | PatchDto/Patch.cs:154-164 | for `{"name": null}` the error map is exactly `{"name": ["required"]}`, yet HasPatchFor reports a patch carrying the instance's deserialised null |
| `PatchScenarios.UnknownKey` | PatchDto/Patch.cs:83-88 | for `{"Nmae": "x"}` construction fails with that key |

## Left out

- `PatchJsonConverter<T>` (lines 15-26) is Newtonsoft serializer plumbing; its `WriteJson` only throws.
- Parsing and deserialisation are library calls. The parsed properties and the deserialised instance are inputs to `New`. Malformed JSON and values the deserialiser cannot coerce are not modelled.
- A parsed JSON object holds each key once. `New` takes this as a requirement of its input.
- JSON values are not inspected. A token is either JSON null or some other value.
- DataAnnotations validation and attribute discovery are a function parameter that returns messages. A `ValidationResult` without a message is not modelled.
- Case-insensitive comparison folds ASCII letters only. Culture-aware Unicode case rules are not modelled.
- Each `TSource` property name differs from the others ignoring case (type `Properties`). A type with two properties differing only in case makes reflection throw `AmbiguousMatchException`, which is not modelled.
- Expression selectors are property names of `TSource`. `Helper.GetPropertyName` applied to an expression that is not a property access is not modelled.
- `Helper.GetValue` and `Helper.Assign` are a map read and a map write. The source of `Helper.Assign` is not shown; a target without the property is not modelled (the model adds the key).
- `ValidationErrors` returns the live `List<string>` objects, so a caller can change them. The model returns values, and this aliasing is not captured. Aliasing between the target and the patch itself is not captured either.
- PatchNet.Patch.ValidatePatch: when it stops at an unknown key, its contract says nothing about the partly filled error map, because the source discards the object. The same holds for `New`.

## Findings

| source | as written | input that shows it | evidently intended | confidence | as-written member | corrected member |
|---|---|---|---|---|---|---|
| PatchDto/Patch.cs:112-115 | The gate tests whether the class property name is a key of the error map. Messages are stored under the document's spelling of the key (line 55), in a case-sensitive dictionary. | Entity with required `Name`, document `{"name": "", "age": 30}`: the error map is `{"name": ["required"]}`, and `AutoPatch(target, Name, Age)` writes the empty Name. | Test the document key the property was sent under, as found by `GetOriginalJsonName`. An invalid value is then never written, whatever its casing. | not executed; high | PatchNet.Patch.RecasedKeyEscapesGate | PatchNet.Patch.IntendedGating |
