/** The ExclusionIn rule: a field fails when its value is one of a
    forbidden list of values (its domain). */
module ExclusionInRule {
  import opened Wrappers
  import opened ValidationMessage
  import Text

  /** The rule kind carried by every message this rule produces. */
  const Kind: string := "ExclusionIn"

  /** The input under validation: field name to value. A field that is not
      a key of the map is absent (null). */
  type Record = map<string, string>

  /** The forbidden values: one list shared by every bound field, or a list
      per field name. */
  datatype Domain = Flat(values: seq<string>) | PerField(lists: map<string, seq<string>>)

  /** Where the failure text comes from: the built-in template, one string
      for every field, or a string per field name. */
  datatype MessageConfig = Default | Single(text: string) | PerFieldText(texts: map<string, string>)

  /** The rule's configuration, fixed at construction and never changed. */
  datatype Rule = Rule(domain: Domain, message: MessageConfig)

  /** A defect in the rule's configuration, reported when validation needs it. */
  datatype ConfigError = MissingDomain(field: string)

  /** The domain can be resolved for this field. */
  predicate Configured(rule: Rule, field: string)
  {
    rule.domain.Flat? || field in rule.domain.lists
  }

  /** The forbidden list that applies to `field`. */
  function Forbidden(rule: Rule, field: string): seq<string>
    requires Configured(rule, field)
  {
    match rule.domain
    case Flat(values) => values
    case PerField(lists) => lists[field]
  }

  /** The rule fails for `field`: the field is present and its value is a
      member of the field's forbidden list (exact string equality). */
  predicate Fails(rule: Rule, record: Record, field: string)
    requires Configured(rule, field)
  {
    field in record && record[field] in Forbidden(rule, field)
  }

  /** The built-in failure text. */
  function DefaultText(field: string, forbidden: seq<string>): string
  {
    "Field " + field + " must not be a part of list: " + Text.Join(forbidden, ", ")
  }

  /** The failure text for `field`: its entry in a per-field map, the single
      configured string, or else the built-in text. Custom strings are used
      verbatim. */
  function TextFor(rule: Rule, field: string): string
    requires Configured(rule, field)
  {
    match rule.message
    case Single(text) => text
    case PerFieldText(texts) =>
      if field in texts then texts[field] else DefaultText(field, Forbidden(rule, field))
    case Default => DefaultText(field, Forbidden(rule, field))
  }

  /** The message the rule reports when `field` fails. */
  function Report(rule: Rule, field: string): (m: Message)
    requires Configured(rule, field)
    ensures m.kind == Kind && m.field == field && m.code == 0
  {
    Message(Kind, TextFor(rule, field), field, 0)
  }

  /** Runs the rule on one field: an error when no domain applies to the
      field, otherwise a message exactly when the value is forbidden. */
  function Check(rule: Rule, record: Record, field: string): (r: Result<Option<Message>, ConfigError>)
    ensures r.Err? <==> rule.domain.PerField? && field !in rule.domain.lists
    ensures r.Err? ==> r.error == MissingDomain(field)
    ensures rule.domain.Flat? ==>
      r.Ok? && (r.value.Some? <==> field in record && record[field] in rule.domain.values)
    ensures rule.domain.PerField? && field in rule.domain.lists ==>
      r.Ok? && (r.value.Some? <==> field in record && record[field] in rule.domain.lists[field])
    ensures r.Ok? && r.value.Some? ==>
      r.value.value.kind == Kind && r.value.value.field == field && r.value.value.code == 0
    ensures r.Ok? && r.value.Some? && rule.message.Single? ==>
      r.value.value.text == rule.message.text
    ensures r.Ok? && r.value.Some? && rule.message.PerFieldText? && field in rule.message.texts ==>
      r.value.value.text == rule.message.texts[field]
    ensures r.Ok? && r.value.Some? &&
            (rule.message.Default? || (rule.message.PerFieldText? && field !in rule.message.texts)) ==>
      r.value.value.text
        == "Field " + field + " must not be a part of list: " + Text.Join(Forbidden(rule, field), ", ")
  {
    if !Configured(rule, field) then Err(MissingDomain(field))
    else if Fails(rule, record, field) then Ok(Some(Report(rule, field)))
    else Ok(None)
  }

  /** Without a custom text for the field, a failing field's message lists the forbidden
      values in their declared order, separated by ", ". */
  lemma DefaultTextListsDomain(rule: Rule, record: Record, field: string, i: nat)
    requires Configured(rule, field)
    requires rule.message.Default? || (rule.message.PerFieldText? && field !in rule.message.texts)
    requires Fails(rule, record, field)
    requires i < |Forbidden(rule, field)|
    ensures Check(rule, record, field).Ok? && Check(rule, record, field).value.Some?
    ensures
      var text := Check(rule, record, field).value.value.text;
      var start := |"Field " + field + " must not be a part of list: "|;
      var at := start + Text.Offset(Forbidden(rule, field), ", ", i);
      at + |Forbidden(rule, field)[i]| <= |text| &&
      text[at..at + |Forbidden(rule, field)[i]|] == Forbidden(rule, field)[i]
  {
    var prefix := "Field " + field + " must not be a part of list: ";
    var list := Forbidden(rule, field);
    Text.JoinAt(list, ", ", i);
    var o := Text.Offset(list, ", ", i);
    Text.SliceAfter(prefix, Text.Join(list, ", "), o, o + |list[i]|);
  }

  /** With a per-field domain, a field is judged against its own list only:
      any other field's list may change without changing the outcome. */
  lemma PerFieldIsolation(messages: MessageConfig, lists: map<string, seq<string>>,
                          other: string, replacement: seq<string>, record: Record, field: string)
    requires field in lists && other != field
    ensures Check(Rule(PerField(lists), messages), record, field)
         == Check(Rule(PerField(lists[other := replacement]), messages), record, field)
  {
  }
}
