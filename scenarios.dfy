/** Concrete documents against an entity with a required, at most five character `Name`
    and an unconstrained `Age`. */
module PatchScenarios {
  import opened CaseInsensitive
  import opened PatchNet

  /** A property value of the entity: a string, possibly null, or an integer. */
  datatype Sample = Null | Text(s: string) | Number(n: int)

  /** The entity's declared properties. */
  function Entity(): (r: Properties)
    ensures r == ["Name", "Age"]
  {
    assert Fold("Name") != Fold("Age");
    ["Name", "Age"]
  }

  /** Name is required and at most five characters long; Age has no rule. As a
      required attribute does, the rule rejects null and strings made only of white
      space. */
  function Rules(instance: map<string, Sample>, property: string, value: Sample): (r: seq<string>)
  {
    if property != "Name" then []
    else if value.Null? || (value.Text? && Blank(value.s)) then ["required"]
    else if !value.Text? then []
    else if |value.s| > 5 then ["max 5"]
    else []
  }

  /** True when every character is white space; the empty string is blank. */
  predicate Blank(s: string)
  {
    forall i :: 0 <= i < |s| ==> s[i] in {' ', '\t', '\n', '\r'}
  }

  /** The instance `{"name": "", "age": 30}` deserialises to. */
  function Deserialised(): (r: map<string, Sample>)
  {
    map["Name" := Text(""), "Age" := Number(30)]
  }

  /** The instance of a document that gives no value for Name or Age, or an explicit
      null for Name: both keep their defaults, null and zero. */
  function Defaults(): (r: map<string, Sample>)
  {
    map["Name" := Null, "Age" := Number(0)]
  }

  lemma FoldsOfSampleNames()
    ensures Fold("name") == Fold("Name") == "name"
    ensures Fold("Nmae") == "nmae"
  {
    assert Fold("Name") == "name";
    assert Fold("name") == "name";
    assert Fold("Nmae") == "nmae";
  }

  /** The document `{"name": "", "age": 30}` resolves as the gating finding needs:
      "name" equals Name ignoring case, the property's own spelling is absent, and the
      deserialised empty Name fails validation. */
  lemma LowercaseNameEscapes()
    ensures var json := [JProperty("name", JValue("\"\"")), JProperty("age", JValue("30"))];
            && "name" in Keys(json) && "Name" !in Keys(json)
            && EqualsIgnoreCase("name", "Name")
            && Rules(Deserialised(), "Name", Deserialised()["Name"]) == ["required"]
  {
    FoldsOfSampleNames();
    var json := [JProperty("name", JValue("\"\"")), JProperty("age", JValue("30"))];
    assert Keys(json) == ["name", "age"];
  }

  /** The lower-case document is one `New` accepts, and it names both properties. */
  lemma LowercaseDocumentResolves(json: Document)
    requires json == [JProperty("name", JValue("\"\"")), JProperty("age", JValue("30"))]
    ensures DistinctKeys(json) && Materialised(Entity(), Deserialised())
    ensures AllKnown(Entity(), json)
  {
    FoldsOfSampleNames();
    assert Fold("age") == Fold("Age") == "age";
    assert Keys(json) == ["name", "age"];
    assert GetClassPropertyName(Entity(), "name") == Some("Name");
    assert GetClassPropertyName(Entity(), "age") == Some("Age");
  }

  /** Both properties of the lower-case document are present and pass the gate as
      written, because neither is spelt exactly as declared. */
  lemma LowercaseKeysPassGate(patch: Patch<Sample>)
    requires patch.Valid()
    requires patch.json == [JProperty("name", JValue("\"\"")), JProperty("age", JValue("30"))]
    ensures patch.KeyIsPresentInJson("Name") && patch.JsonValueIsValid("Name")
    ensures patch.KeyIsPresentInJson("Age") && patch.JsonValueIsValid("Age")
  {
    FoldsOfSampleNames();
    assert Fold("age") == Fold("Age") == "age";
    assert Keys(patch.json) == ["name", "age"];
    assert EqualsIgnoreCase(patch.json[0].name, "Name") && EqualsIgnoreCase(patch.json[1].name, "Age");
  }

  /** `{"name": "", "age": 30}` applied with Name and Age selected: the lower-case keys
      pass the gate, so the target takes the empty Name although it failed validation,
      and the Age the document sent. */
  method LowercaseKeysWriteInvalidName() returns (name: Sample, age: Sample)
    ensures name == Text("") && age == Number(30)
  {
    LowercaseNameEscapes();
    var json := [JProperty("name", JValue("\"\"")), JProperty("age", JValue("30"))];
    LowercaseDocumentResolves(json);
    var r := Patch.New(Entity(), json, Deserialised(), Rules);
    var patch := r.value;
    var target := new Target(map["Name" := Text("Ada"), "Age" := Number(36)]);
    LowercaseKeysPassGate(patch);
    patch.PatchedAt(target.fields, ["Name", "Age"], "Name");
    patch.PatchedAt(target.fields, ["Name", "Age"], "Age");
    patch.AutoPatch(target, ["Name", "Age"]);
    name, age := target.fields["Name"], target.fields["Age"];
  }

  /** `{"name": null}`: an explicit null still counts as a patch, although the null fails
      the required rule; the value reported is the instance's, the deserialised null. */
  method ExplicitNull() returns (found: bool, value: Option<Sample>, errs: map<string, seq<string>>)
    ensures found && value == Some(Null)
    ensures errs == map["name" := ["required"]]
  {
    FoldsOfSampleNames();
    var json := [JProperty("name", JNull)];
    assert Keys(json) == ["name"];
    var r := Patch.New(Entity(), json, Defaults(), Rules);
    var patch := r.value;
    assert GetClassPropertyName(Entity(), "name") == Some("Name");
    assert KeyMessages(Entity(), Defaults(), Rules, "name") == ["required"];
    errs := patch.ValidationErrors();
    assert errs.Keys == {"name"};
    found, value := patch.HasPatchFor("Name");
  }

  /** {"Nmae": "x"}: no property matches the key, so construction fails. */
  method UnknownKey() returns (error: Option<PatchError>)
    ensures error == Some(UnknownProperty("Nmae"))
  {
    FoldsOfSampleNames();
    var json := [JProperty("Nmae", JValue("\"x\""))];
    assert Keys(json) == ["Nmae"];
    var r := Patch.New(Entity(), json, Defaults(), Rules);
    error := if r.Failure? then Some(r.error) else None;
  }
}
