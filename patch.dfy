/** A selective-patch object for JSON partial updates (PatchDto/Patch.cs).

    A patch is built from an already parsed JSON document (its top-level properties in
    document order) and the instance the same text deserialises to (a map from the entity
    type's property names to their values). Construction resolves every document key to
    a declared property ignoring case, validates that property's value and records the
    messages under the document's own spelling of the key. AutoPatch then copies values
    from the instance onto a target, property by property, when the property is mentioned
    in the document and not recorded as invalid; HasPatchFor reports presence and the
    value that would be applied. */
module PatchNet {
  import opened CaseInsensitive

  datatype Option<T> = None | Some(value: T)

  datatype Outcome<E> = Pass | Fail(error: E)

  datatype Result<T, E> = Success(value: T) | Failure(error: E)

  /** Construction aborts when a document key names no declared property. */
  datatype PatchError = UnknownProperty(key: string)

  /** A JSON token. The patch never inspects a value, only whether a key carries one,
      so only explicit JSON null is told apart from everything else. */
  datatype JToken = JNull | JValue(raw: string)

  datatype JProperty = JProperty(name: string, token: JToken)

  /** The top-level properties of a parsed JSON object, in document order. */
  type Document = seq<JProperty>

  /** A parsed JSON object never holds the same key twice. */
  predicate DistinctKeys(d: Document)
  {
    forall i, j :: 0 <= i < j < |d| ==> d[i].name != d[j].name
  }

  /** The keys of a document, in document order. */
  function Keys(d: Document): (r: seq<string>)
    ensures |r| == |d|
    ensures forall i :: 0 <= i < |d| ==> r[i] == d[i].name
    decreases |d|
  {
    if d == [] then [] else Keys(d[..|d| - 1]) + [d[|d| - 1].name]
  }

  /** The JSON object's indexer: the token under exactly this key, if any. */
  function Lookup(d: Document, name: string): (r: Option<JToken>)
    ensures r.Some? <==> exists i :: 0 <= i < |d| && d[i].name == name
    ensures r.Some? ==> exists i :: 0 <= i < |d| && d[i] == JProperty(name, r.value)
  {
    if d == [] then None
    else if d[0].name == name then Some(d[0].token)
    else Lookup(d[1..], name)
  }

  /** The position of the first key, in document order, equal to `name` ignoring case. */
  function FirstMatch(d: Document, name: string): (r: Option<nat>)
    ensures r.Some? ==> r.value < |d| && EqualsIgnoreCase(d[r.value].name, name)
    ensures r.Some? ==> forall j :: 0 <= j < r.value ==> !EqualsIgnoreCase(d[j].name, name)
    ensures r.None? <==> forall j :: 0 <= j < |d| ==> !EqualsIgnoreCase(d[j].name, name)
  {
    if d == [] then None
    else if EqualsIgnoreCase(d[0].name, name) then Some(0)
    else match FirstMatch(d[1..], name)
      case None => None
      case Some(k) => Some(k + 1)
  }

  /** The JSON object's case-insensitive GetValue: an exact match first, then the first
      key equal ignoring case. Explicit JSON null is a token like any other. */
  function GetValueIgnoreCase(d: Document, name: string): (r: Option<JToken>)
    ensures r.Some? <==> exists i :: 0 <= i < |d| && EqualsIgnoreCase(d[i].name, name)
  {
    var exact := Lookup(d, name);
    if exact.Some? then exact
    else match FirstMatch(d, name)
      case None => None
      case Some(i) => Some(d[i].token)
  }

  /** The document's own spelling of the first key equal to `name` ignoring case. */
  function OriginalJsonName(d: Document, name: string): (r: Option<string>)
    ensures r.None? <==> forall j :: 0 <= j < |d| ==> !EqualsIgnoreCase(d[j].name, name)
    ensures r.Some? ==> exists i :: 0 <= i < |d| && d[i].name == r.value
                                   && EqualsIgnoreCase(r.value, name)
                                   && forall j :: 0 <= j < i ==> !EqualsIgnoreCase(d[j].name, name)
  {
    match FirstMatch(d, name)
    case None => None
    case Some(i) => Some(d[i].name)
  }

  /** The entity type's declared properties are pairwise distinct ignoring case; a type
      with two properties that differ only in case makes reflection throw. */
  predicate CaseDistinct(props: seq<string>)
  {
    forall p, q :: p in props && q in props && EqualsIgnoreCase(p, q) ==> p == q
  }

  type Properties = props: seq<string> | CaseDistinct(props) witness []

  /** Deserialisation gives every declared property a value and nothing else. */
  predicate Materialised<V>(props: seq<string>, obj: map<string, V>)
  {
    && (forall p :: p in props ==> p in obj)
    && (forall p :: p in obj ==> p in props)
  }

  /** The validation rules: (instance, property name, value) to messages, in order. */
  type Validator<!V> = (map<string, V>, string, V) -> seq<string>

  /** Reflection's case-insensitive property lookup: the declared property whose name
      equals `name` ignoring case, or None, where the source dereferences null. */
  function GetClassPropertyName(props: seq<string>, name: string): (r: Option<string>)
    ensures r.Some? ==> r.value in props && EqualsIgnoreCase(r.value, name)
    ensures r.None? <==> forall p :: p in props ==> !EqualsIgnoreCase(p, name)
  {
    if props == [] then None
    else if EqualsIgnoreCase(props[0], name) then Some(props[0])
    else GetClassPropertyName(props[1..], name)
  }

  /** Resolution depends on a key only up to case: "Name" and "name" resolve alike. */
  lemma {:induction false} ResolutionIgnoresCase(props: seq<string>, a: string, b: string)
    requires EqualsIgnoreCase(a, b)
    ensures GetClassPropertyName(props, a) == GetClassPropertyName(props, b)
  {
    if props != [] {
      ResolutionIgnoresCase(props[1..], a, b);
    }
  }

  /** A declared property resolves to itself. */
  lemma ResolvesToItself(props: Properties, p: string)
    requires p in props
    ensures GetClassPropertyName(props, p) == Some(p)
  {
  }

  /** Every document key resolves to a declared property. */
  predicate AllKnown(props: seq<string>, d: Document)
  {
    forall k :: k in Keys(d) ==> GetClassPropertyName(props, k).Some?
  }

  /** The validator's messages for the property a document key resolves to. */
  function KeyMessages<V>(props: seq<string>, obj: map<string, V>, validate: Validator<V>, key: string): (r: seq<string>)
    requires Materialised(props, obj)
    requires GetClassPropertyName(props, key).Some?
  {
    var p := GetClassPropertyName(props, key).value;
    validate(obj, p, obj[p])
  }

  /** The error map after appending `messages` under `key`: an entry is created only
      when there is a message, an existing list only grows, other keys are untouched. */
  function WithErrors(errors: map<string, seq<string>>, key: string, messages: seq<string>): (r: map<string, seq<string>>)
    ensures r.Keys == if messages == [] then errors.Keys else errors.Keys + {key}
    ensures key in r ==> r[key] == (if key in errors then errors[key] else []) + messages
    ensures forall k :: k in r && k != key ==> r[k] == errors[k]
  {
    if messages == [] then errors
    else errors[key := (if key in errors then errors[key] else []) + messages]
  }

  /** The error map construction leaves behind: the document keys folded in order. */
  function ErrorMap<V>(props: seq<string>, obj: map<string, V>, validate: Validator<V>, d: Document): (r: map<string, seq<string>>)
    requires Materialised(props, obj) && AllKnown(props, d)
    decreases |d|
  {
    if d == [] then map[]
    else
      var key := d[|d| - 1].name;
      WithErrors(ErrorMap(props, obj, validate, d[..|d| - 1]), key, KeyMessages(props, obj, validate, key))
  }

  /** A string keys the error map iff it is a document key whose property drew at least
      one message; no stored list is empty. */
  lemma {:induction false} ErrorMapKeys<V>(props: seq<string>, obj: map<string, V>, validate: Validator<V>, d: Document)
    requires Materialised(props, obj) && AllKnown(props, d)
    ensures forall k :: k in ErrorMap(props, obj, validate, d) <==>
                          k in Keys(d) && KeyMessages(props, obj, validate, k) != []
    ensures forall k :: k in ErrorMap(props, obj, validate, d) ==> ErrorMap(props, obj, validate, d)[k] != []
  {
    if d != [] {
      var prefix := d[..|d| - 1];
      assert Keys(d) == Keys(prefix) + [d[|d| - 1].name];
      ErrorMapKeys(props, obj, validate, prefix);
    }
  }

  /** With distinct document keys, the list stored under a key is exactly the
      validator's messages for it, in the validator's order. */
  lemma {:induction false} ErrorMapEntries<V>(props: seq<string>, obj: map<string, V>, validate: Validator<V>, d: Document)
    requires Materialised(props, obj) && AllKnown(props, d) && DistinctKeys(d)
    ensures forall k :: k in ErrorMap(props, obj, validate, d) ==>
                          k in Keys(d) && ErrorMap(props, obj, validate, d)[k] == KeyMessages(props, obj, validate, k)
  {
    if d != [] {
      var prefix := d[..|d| - 1];
      var key := d[|d| - 1].name;
      assert Keys(d) == Keys(prefix) + [key];
      ErrorMapKeys(props, obj, validate, prefix);
      ErrorMapEntries(props, obj, validate, prefix);
    }
  }

  /** The object a patch is applied to; the source writes its properties by name
      through reflection. */
  class Target<V> {
    var fields: map<string, V>

    constructor (fields: map<string, V>)
      ensures this.fields == fields
    {
      this.fields := fields;
    }
  }

  class Patch<V> {
    const props: Properties
    const json: Document
    const obj: map<string, V>
    const validate: Validator<V>
    var errors: map<string, seq<string>>

    /** The state construction leaves behind. */
    ghost predicate Valid()
      reads this
    {
      && DistinctKeys(json)
      && Materialised(props, obj)
      && AllKnown(props, json)
      && errors == ErrorMap(props, obj, validate, json)
    }

    /** Stores the parsed document, the deserialised instance and an empty error map. */
    constructor (props: Properties, json: Document, obj: map<string, V>, validate: Validator<V>)
      ensures this.props == props && this.json == json && this.obj == obj && this.validate == validate
      ensures errors == map[]
    {
      this.props := props;
      this.json := json;
      this.obj := obj;
      this.validate := validate;
      this.errors := map[];
    }

    /** The public constructor: stores its inputs and validates eagerly. A key that
        resolves to no property aborts construction, so no patch is returned. */
    static method New(props: Properties, json: Document, obj: map<string, V>, validate: Validator<V>)
      returns (r: Result<Patch<V>, PatchError>)
      requires DistinctKeys(json) && Materialised(props, obj)
      ensures r.Success? <==> AllKnown(props, json)
      ensures r.Failure? ==> exists i :: 0 <= i < |json| && r.error == UnknownProperty(json[i].name)
                                         && GetClassPropertyName(props, json[i].name).None?
                                         && AllKnown(props, json[..i])
      ensures r.Success? ==> fresh(r.value) && r.value.Valid()
      ensures r.Success? ==> r.value.props == props && r.value.json == json && r.value.obj == obj
                             && r.value.validate == validate
    {
      var patch := new Patch(props, json, obj, validate);
      var outcome := patch.ValidatePatch();
      if outcome.Fail? {
        return Failure(outcome.error);
      }
      return Success(patch);
    }

    /** Walks the document keys in order, validating the property each resolves to and
        recording the messages under the key as the document spells it. Stops at the
        first key no property matches. */
    method ValidatePatch() returns (outcome: Outcome<PatchError>)
      requires Materialised(props, obj) && errors == map[]
      modifies this
      ensures outcome.Pass? <==> AllKnown(props, json)
      ensures outcome.Fail? ==> exists i :: 0 <= i < |json| && outcome.error == UnknownProperty(json[i].name)
                                             && GetClassPropertyName(props, json[i].name).None?
                                             && AllKnown(props, json[..i])
      ensures outcome.Pass? ==> errors == ErrorMap(props, obj, validate, json)
    {
      var i := 0;
      while i < |json|
        invariant 0 <= i <= |json|
        invariant AllKnown(props, json[..i])
        invariant errors == ErrorMap(props, obj, validate, json[..i])
      {
        var key := json[i].name;
        assert json[..i + 1][..i] == json[..i];
        assert Keys(json[..i + 1]) == Keys(json[..i]) + [key];
        var classPropertyName := GetClassPropertyName(props, key);
        if classPropertyName.None? {
          assert key in Keys(json) && GetClassPropertyName(props, key).None?;
          return Fail(UnknownProperty(key));
        }
        var value := obj[classPropertyName.value];
        var validationResults := GetValidationErrors(classPropertyName.value, value);
        AddErrors(key, validationResults);
        i := i + 1;
      }
      assert json[..i] == json;
      return Pass;
    }

    /** The opaque validator applied to one property of the instance. */
    function GetValidationErrors(classPropertyName: string, value: V): (r: seq<string>)
    {
      validate(obj, classPropertyName, value)
    }

    /** Appends each message under `jsonKey`, creating the entry on the first one. */
    method AddErrors(jsonKey: string, validationResults: seq<string>)
      modifies this
      ensures errors == WithErrors(old(errors), jsonKey, validationResults)
    {
      var i := 0;
      while i < |validationResults|
        invariant 0 <= i <= |validationResults|
        invariant errors == WithErrors(old(errors), jsonKey, validationResults[..i])
      {
        var message := validationResults[i];
        ghost var done := validationResults[..i];
        assert validationResults[..i + 1] == done + [message];
        ghost var base := if jsonKey in old(errors) then old(errors)[jsonKey] else [];
        if jsonKey in errors {
          assert errors[jsonKey] == base + done;
          assert errors == old(errors) || errors == old(errors)[jsonKey := base + done];
          ghost var prev := errors;
          errors := errors[jsonKey := errors[jsonKey] + [message]];
          assert errors == prev[jsonKey := base + done + [message]];
          assert prev[jsonKey := base + done + [message]] == old(errors)[jsonKey := base + done + [message]];
        } else {
          assert done == [] && base == [] && errors == old(errors);
          errors := errors[jsonKey := [message]];
          assert [message] == base + done + [message];
        }
        assert errors == old(errors)[jsonKey := base + done + [message]];
        assert base + (done + [message]) == base + done + [message];
        i := i + 1;
      }
      assert validationResults[..i] == validationResults;
    }

    /** The read-only view of the error map. */
    function ValidationErrors(): (r: map<string, seq<string>>)
      reads this
      requires Valid()
      ensures forall k :: k in r <==> k in Keys(json) && KeyMessages(props, obj, validate, k) != []
      ensures forall k :: k in r ==> k in Keys(json) && r[k] == KeyMessages(props, obj, validate, k)
    {
      ErrorMapKeys(props, obj, validate, json);
      ErrorMapEntries(props, obj, validate, json);
      errors
    }

    /** True iff some property mentioned in the document failed validation. */
    function HasErrors(): (b: bool)
      reads this
      requires Valid()
      ensures b <==> ValidationErrors() != map[]
      ensures b <==> exists k :: k in Keys(json) && KeyMessages(props, obj, validate, k) != []
    {
      ErrorMapKeys(props, obj, validate, json);
      assert forall k :: k in errors ==> k in Keys(json) && KeyMessages(props, obj, validate, k) != [];
      |errors| > 0
    }

    /** The validity gate as written: it looks up the class property name itself, while
        messages are stored under the document's spelling of the key. */
    function JsonValueIsValid(propertyName: string): (b: bool)
      reads this
      requires Valid()
      ensures b <==> !(propertyName in Keys(json) && KeyMessages(props, obj, validate, propertyName) != [])
    {
      ErrorMapKeys(props, obj, validate, json);
      propertyName !in errors
    }

    /** The gate keyed by the document's own spelling of the key: the messages stored
        under that key decide. */
    function JsonValueIsValidIntended(propertyName: string): (b: bool)
      reads this
      requires Valid()
      ensures b <==> !(OriginalJsonName(json, propertyName).Some?
                       && KeyMessages(props, obj, validate, OriginalJsonName(json, propertyName).value) != [])
    {
      ErrorMapKeys(props, obj, validate, json);
      match OriginalJsonName(json, propertyName)
      case None => true
      case Some(key) => key !in errors
    }

    /** True iff some document key equals the property name ignoring case. */
    function KeyIsPresentInJson(propertyName: string): (b: bool)
      ensures b <==> exists i :: 0 <= i < |json| && EqualsIgnoreCase(json[i].name, propertyName)
    {
      GetValueIgnoreCase(json, propertyName).Some?
    }

    /** The first document key, in document order, equal to the property name ignoring
        case, spelt as in the document. */
    method GetOriginalJsonName(propertyName: string) returns (r: Option<string>)
      ensures r == OriginalJsonName(json, propertyName)
    {
      var i := 0;
      while i < |json|
        invariant 0 <= i <= |json|
        invariant forall j :: 0 <= j < i ==> !EqualsIgnoreCase(json[j].name, propertyName)
      {
        if EqualsIgnoreCase(json[i].name, propertyName) {
          assert FirstMatch(json, propertyName) == Some(i);
          return Some(json[i].name);
        }
        i := i + 1;
      }
      return None;
    }

    /** Copies one property's value from the instance onto the target. */
    method PatchValue(target: Target<V>, propertyName: string)
      requires propertyName in obj
      modifies target
      ensures target.fields == old(target.fields)[propertyName := obj[propertyName]]
    {
      var value := obj[propertyName];
      target.fields := target.fields[propertyName := value];
    }

    /** The target after the selected properties are applied in order; a property is
        written when the document mentions it and the gate passes. */
    function Patched(fields: map<string, V>, selected: seq<string>): (r: map<string, V>)
      reads this
      requires Valid()
      requires forall p :: p in selected ==> p in obj
      decreases |selected|
    {
      if selected == [] then fields
      else
        var prior := Patched(fields, selected[..|selected| - 1]);
        var p := selected[|selected| - 1];
        if KeyIsPresentInJson(p) && JsonValueIsValid(p) then prior[p := obj[p]] else prior
    }

    /** Applies the selected properties to the target, in the order given. */
    method AutoPatch(target: Target<V>, propertiesToPatch: seq<string>)
      requires Valid()
      requires forall p :: p in propertiesToPatch ==> p in props
      modifies target
      ensures target.fields == Patched(old(target.fields), propertiesToPatch)
    {
      var i := 0;
      while i < |propertiesToPatch|
        invariant 0 <= i <= |propertiesToPatch|
        invariant target.fields == Patched(old(target.fields), propertiesToPatch[..i])
      {
        var propertyName := propertiesToPatch[i];
        assert propertiesToPatch[..i + 1][..i] == propertiesToPatch[..i];
        if KeyIsPresentInJson(propertyName) && JsonValueIsValid(propertyName) {
          PatchValue(target, propertyName);
        }
        i := i + 1;
      }
      assert propertiesToPatch[..i] == propertiesToPatch;
    }

    /** Reports whether the document mentions the property and, if so, the instance's
        value for it. The null test on the token found under the original key can never
        succeed: the indexer returns a token, possibly JSON null, for every key. */
    method HasPatchFor(propertyName: string) returns (found: bool, value: Option<V>)
      requires Valid() && propertyName in props
      ensures found <==> exists i :: 0 <= i < |json| && EqualsIgnoreCase(json[i].name, propertyName)
      ensures found == KeyIsPresentInJson(propertyName)
      ensures found ==> value == Some(obj[propertyName])
      ensures !found ==> value == None
    {
      var originalJsonName := GetOriginalJsonName(propertyName);
      if originalJsonName.None? {
        return false, None;
      }
      var jsonValue := Lookup(json, originalJsonName.value);
      found := jsonValue.Some?;
      value := if jsonValue.Some? then Some(obj[propertyName]) else None;
    }

    /** Pointwise: a key of the target after applying `selected` holds the instance's
        value when selected and gated through, and its prior state otherwise. */
    lemma {:induction false} PatchedAt(fields: map<string, V>, selected: seq<string>, k: string)
      requires Valid()
      requires forall p :: p in selected ==> p in obj
      ensures k in selected && KeyIsPresentInJson(k) && JsonValueIsValid(k) ==>
                k in Patched(fields, selected) && Patched(fields, selected)[k] == obj[k]
      ensures !(k in selected && KeyIsPresentInJson(k) && JsonValueIsValid(k)) ==>
                (k in Patched(fields, selected) <==> k in fields)
                && (k in Patched(fields, selected) ==> Patched(fields, selected)[k] == fields[k])
      decreases |selected|
    {
      if selected != [] {
        var prefix := selected[..|selected| - 1];
        assert selected == prefix + [selected[|selected| - 1]];
        PatchedAt(fields, prefix, k);
      }
    }

    /** Applying the same selection twice leaves the target as applying it once. */
    lemma PatchedIdempotent(fields: map<string, V>, selected: seq<string>)
      requires Valid()
      requires forall p :: p in selected ==> p in obj
      ensures Patched(Patched(fields, selected), selected) == Patched(fields, selected)
    {
      var once := Patched(fields, selected);
      var twice := Patched(once, selected);
      forall k
        ensures (k in twice <==> k in once) && (k in twice ==> twice[k] == once[k])
      {
        PatchedAt(fields, selected, k);
        PatchedAt(once, selected, k);
      }
    }

    /** The write condition in terms of the document and the validator: a selected
        property is written iff some key names it ignoring case and it is not the case
        that the key spelt exactly as the property drew messages. */
    lemma AutoPatchWriteCondition(p: string)
      requires Valid() && p in props
      ensures KeyIsPresentInJson(p) && JsonValueIsValid(p) <==>
                (exists i :: 0 <= i < |json| && EqualsIgnoreCase(json[i].name, p))
                && !(p in Keys(json) && validate(obj, p, obj[p]) != [])
    {
      ResolvesToItself(props, p);
    }

    /** The gate as written misses a value sent under a differently cased key: when the
        document spells the property only as `key`, its messages land under `key`, the
        gate looks up the property's own name, and the invalid value is written. */
    lemma RecasedKeyEscapesGate(fields: map<string, V>, p: string, key: string)
      requires Valid() && p in props
      requires key in Keys(json) && key != p && EqualsIgnoreCase(key, p) && p !in Keys(json)
      requires validate(obj, p, obj[p]) != []
      ensures key in ValidationErrors() && p !in ValidationErrors()
      ensures p in Patched(fields, [p]) && Patched(fields, [p])[p] == obj[p]
    {
      var i :| 0 <= i < |json| && Keys(json)[i] == key;
      assert EqualsIgnoreCase(json[i].name, p);
      ResolutionIgnoresCase(props, key, p);
      ResolvesToItself(props, p);
      assert [p][..0] == [];
    }

    /** A value sent under the property's exact name that fails validation is never
        written. */
    lemma ExactKeyIsGated(fields: map<string, V>, p: string)
      requires Valid() && p in props
      requires p in Keys(json) && validate(obj, p, obj[p]) != []
      ensures p in ValidationErrors()
      ensures Patched(fields, [p]) == fields
    {
      ResolvesToItself(props, p);
      assert [p][..0] == [];
    }

    /** With the intended gate, a property mentioned in the document is written iff its
        value passes validation, whatever the document's casing of the key. */
    lemma IntendedGating(p: string)
      requires Valid() && p in props
      ensures KeyIsPresentInJson(p) && JsonValueIsValidIntended(p) <==>
                KeyIsPresentInJson(p) && validate(obj, p, obj[p]) == []
    {
      if KeyIsPresentInJson(p) {
        var key := OriginalJsonName(json, p).value;
        var i :| 0 <= i < |json| && json[i].name == key && EqualsIgnoreCase(key, p);
        assert key in Keys(json) by { assert Keys(json)[i] == key; }
        ResolutionIgnoresCase(props, key, p);
        ResolvesToItself(props, p);
        ErrorMapKeys(props, obj, validate, json);
      }
    }
  }
}
