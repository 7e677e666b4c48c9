/** The four ExclusionIn test cases, written as clients of the model:
    each builds a validation object, adds one rule and validates the
    records the tests use, and its postcondition states what the tests
    assert about the returned groups. */
module ExclusionInScenarios {
  import opened Wrappers
  import opened ValidationMessage
  import opened ExclusionInRule
  import opened Validation
  import Text

  /** One field, flat domain ["A", "I"], default text; the same record is
      validated twice and a passing record once. */
  method SingleField() returns (first: Outcome, second: Outcome, passing: Outcome)
    ensures first == Ok([Message("ExclusionIn", "Field status must not be a part of list: A, I", "status", 0)])
    ensures second == first
    ensures passing.Ok? && |passing.value| == 0
  {
    var validation := new Validation();
    var rule := Rule(Flat(["A", "I"]), Default);
    validation.Add(One("status"), rule);
    DefaultStatusText();
    OneFieldRun(rule, "status", map["status" := "A"]);
    OneFieldRun(rule, "status", map["status" := "X"]);
    first := validation.Validate(map["status" := "A"]);
    second := validation.Validate(map["status" := "A"]);
    passing := validation.Validate(map["status" := "X"]);
  }

  /** The built-in text for `status` over ["A", "I"]. */
  lemma DefaultStatusText()
    ensures DefaultText("status", ["A", "I"]) == "Field status must not be a part of list: A, I"
  {
    assert ["A", "I"][1..] == ["I"];
    assert Text.Join(["A", "I"], ", ") == "A, I";
  }

  const TypeText: string := "Type cant be mechanic or cyborg."
  const AnotherTypeText: string := "AnotherType cant by mechanic or cyborg."
  const AnotherTypeHydraulicText: string := "AnotherType cant by mechanic or hydraulic."

  /** Two fields sharing the domain ["mechanic", "cyborg"], with a text per field. */
  method MultipleFieldSingleDomain() returns (none: Outcome, one: Outcome, both: Outcome)
    ensures none.Ok? && |none.value| == 0
    ensures one.Ok? && |one.value| == 1 && one.value[0].text == TypeText
    ensures both.Ok? && |both.value| == 2
    ensures both.value[0].text == TypeText && both.value[1].text == AnotherTypeText
  {
    var validation := new Validation();
    var texts := map["type" := TypeText, "anotherType" := AnotherTypeText];
    validation.Add(Many(["type", "anotherType"]), Rule(Flat(["mechanic", "cyborg"]), PerFieldText(texts)));
    none := validation.Validate(map["type" := "hydraulic", "anotherType" := "hydraulic"]);
    one := validation.Validate(map["type" := "cyborg", "anotherType" := "hydraulic"]);
    both := validation.Validate(map["type" := "cyborg", "anotherType" := "mechanic"]);
  }

  /** Two fields, each with its own domain and its own text. */
  method MultipleFieldMultipleDomain() returns (none: Outcome, typeOnly: Outcome, anotherOnly: Outcome, both: Outcome)
    ensures none.Ok? && |none.value| == 0
    ensures typeOnly.Ok? && |typeOnly.value| == 1 && typeOnly.value[0].text == TypeText
    ensures anotherOnly.Ok? && |anotherOnly.value| == 1
    ensures anotherOnly.value[0].text == AnotherTypeHydraulicText
    ensures both.Ok? && |both.value| == 2
    ensures both.value[0].text == TypeText && both.value[1].text == AnotherTypeHydraulicText
  {
    var validation := new Validation();
    var lists := map["type" := ["mechanic", "cyborg"], "anotherType" := ["mechanic", "hydraulic"]];
    var texts := map["type" := TypeText, "anotherType" := AnotherTypeHydraulicText];
    validation.Add(Many(["type", "anotherType"]), Rule(PerField(lists), PerFieldText(texts)));
    none := validation.Validate(map["type" := "hydraulic", "anotherType" := "cyborg"]);
    typeOnly := validation.Validate(map["type" := "cyborg", "anotherType" := "cyborg"]);
    anotherOnly := validation.Validate(map["type" := "hydraulic", "anotherType" := "mechanic"]);
    both := validation.Validate(map["type" := "cyborg", "anotherType" := "mechanic"]);
  }

  /** One field, flat domain ["A", "I"], one custom text used verbatim. */
  method CustomMessage() returns (first: Outcome, second: Outcome, passing: Outcome)
    ensures first == Ok([Message("ExclusionIn", "The status must not be A=Active or I=Inactive", "status", 0)])
    ensures second == first
    ensures passing.Ok? && |passing.value| == 0
  {
    var validation := new Validation();
    var rule := Rule(Flat(["A", "I"]), Single("The status must not be A=Active or I=Inactive"));
    validation.Add(One("status"), rule);
    OneFieldRun(rule, "status", map["status" := "A"]);
    OneFieldRun(rule, "status", map["status" := "X"]);
    first := validation.Validate(map["status" := "A"]);
    second := validation.Validate(map["status" := "A"]);
    passing := validation.Validate(map["status" := "X"]);
  }
}
