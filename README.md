# Phalcon validation with the ExclusionIn rule

This project models the part of Phalcon's validation component covered by the
`ExclusionIn` unit tests. A `Validation` object holds an ordered list of
bindings. Each binding is one rule added for one field name or for an ordered
list of field names. `validate(record)` runs every binding in registration
order, and each of its fields in declared order. It returns a message group
holding one message for every field whose value the rule rejects.

The `ExclusionIn` rule rejects a field whose value is a member of a forbidden
list, called the domain. The domain is either one list shared by all bound
fields or a list per field name. The failure text comes from one of three
places:

- a per-field text map;
- one custom string, used verbatim;
- the built-in template `Field <field> must not be a part of list: <values>`,
  with the values joined by `", "` in their declared order.

Every message has rule kind `ExclusionIn`, the field name and code 0.

Files:

- `wrappers.dfy`: `Option` and `Result`.
- `text.dfy`: `Join` and its positional characterisation.
- `message.dfy`: `Message` and the message group, which is a sequence.
- `exclusion_in.dfy`: the rule's configuration and `Check`, which runs the
  rule on one field.
- `validation.dfy`: the specification function `Messages`, an independent
  description of its result (`Expected`, `Failing`), and the `Validation`
  class. Its `Validate` method walks the bindings with two loops and is proved
  equal to `Messages`.
- `scenarios.dfy`: the four test cases written as clients of the class.

Design decisions:

- The record is `map<string, string>`. A field that is not a key is absent.
  An absent field never matches a domain.
- Domain membership uses exact string equality.
- With a per-field domain, a bound field that has no list is a configuration
  error. `Check` and `Messages` return `Err(MissingDomain(field))` for it, and
  no message group is produced. The run stops at the first such field.
- With a per-field text map, a field that has no entry gets the built-in
  template.
- Calling `validate` has no side effects (`Validate` has no `modifies` clause).
  So validating the same record twice gives equal groups. Group equality is
  sequence equality: the same messages at the same positions.

## Model

The functions that compute the result (`Text.Join`, `ExclusionInRule.DefaultText`,
`ExclusionInRule.TextFor`, `Validation.FieldMessages`, `Validation.Messages`)
have no rows of their own. Their properties are stated by `Text.JoinAt`,
`ExclusionInRule.Check` and `Validation.MessagesMeaning`, and the other lemmas
below.

| member | source | states |
|---|---|---|
| `Validation.Validation.constructor` | tests/unit/Validation/Validator/ExclusionInTest.php:40 | a new validation object has no bindings |
| `Validation.Validation.Add` | tests/unit/Validation/Validator/ExclusionInTest.php:42-49 | adding a rule for one field or a field list appends one binding after all earlier ones, keeping the declared field order |
| `Validation.Validation.Validate` | tests/unit/Validation/Validator/ExclusionInTest.php:51-74 | walking bindings and fields in order and appending each failure yields exactly `Messages(bindings, record)`, without changing the object |
| `ExclusionInRule.Check` | tests/unit/Validation/Validator/ExclusionInTest.php:123-137 | a field fails iff it is present and its value is in its own list (the shared list, or its entry in a per-field domain); a per-field domain without the field is an error naming it; a failure has kind `ExclusionIn`, the field and code 0; its text is the custom string verbatim, the per-field text, or the built-in template over the joined list |
| `ExclusionInRule.Report` | tests/unit/Validation/Validator/ExclusionInTest.php:56-61 | every failure message has kind `ExclusionIn`, the failing field and code 0 |
| `ExclusionInRule.DefaultTextListsDomain` | tests/unit/Validation/Validator/ExclusionInTest.php:46-59 | when the built-in text is used (no custom text, or a per-field map without the field), the i-th forbidden value appears in the message at the i-th position of the joined list |
| `ExclusionInRule.PerFieldIsolation` | tests/unit/Validation/Validator/ExclusionInTest.php:124-137 | with a per-field domain, changing another field's list never changes the outcome for this field |
| `Text.JoinAt` | tests/unit/Validation/Validator/ExclusionInTest.php:59 | each part appears in the joined string at its offset, in declared order |
| `Text.JoinSeparatorAt` | tests/unit/Validation/Validator/ExclusionInTest.php:59 | the separator sits between each part and the next |
| `Text.JoinLength` | tests/unit/Validation/Validator/ExclusionInTest.php:59 | the joined string holds the parts and the separators between them and nothing else |
| `Validation.Failing` | tests/unit/Validation/Validator/ExclusionInTest.php:99-105 | the failing fields are exactly the bound fields whose value is forbidden, kept in declared order (a subsequence of the field list) |
| `Validation.FailingMultiplicity` | tests/unit/Validation/Validator/ExclusionInTest.php:99-105 | a failing field appears among the failing fields once per time it is declared, a passing field not at all, so the message count is the number of failing field occurrences |
| `Validation.FieldMessagesAppend` | tests/unit/Validation/Validator/ExclusionInTest.php:102-105 | the messages for a field list are those of its first part followed by those of the rest, so earlier fields' messages come first |
| `Validation.MessagesAppend` | tests/unit/Validation/Validator/ExclusionInTest.php:42-51 | the messages of bindings added later follow those of bindings added earlier |
| `Validation.FieldMessagesMeaning` | tests/unit/Validation/Validator/ExclusionInTest.php:97-105 | one rule over a field list errs iff some field has no domain, naming such a field; otherwise it yields one message per failing field, in declared order |
| `Validation.MessagesMeaning` | tests/unit/Validation/Validator/ExclusionInTest.php:123-141 | a run errs iff some bound field has no domain, naming such a field; otherwise it yields exactly the expected messages, bindings in registration order |
| `Validation.MessageCount` | tests/unit/Validation/Validator/ExclusionInTest.php:97-105 | a well-configured run succeeds, and its message count is the number of failing fields |
| `Validation.EmptyIffAllPass` | tests/unit/Validation/Validator/ExclusionInTest.php:73-74 | a well-configured run returns an empty group iff no bound field's value is in its forbidden list |
| `ExclusionInScenarios.SingleField` | tests/unit/Validation/Validator/ExclusionInTest.php:35-77 | `{status: 'A'}` with domain `['A', 'I']` gives exactly one message, text `Field status must not be a part of list: A, I`, and the same group again on a second call; `{status: 'X'}` gives none |
| `ExclusionInScenarios.MultipleFieldSingleDomain` | tests/unit/Validation/Validator/ExclusionInTest.php:85-107 | with a shared domain, 0, 1 and 2 fields fail on the three records, with the per-field texts in declared order |
| `ExclusionInScenarios.MultipleFieldMultipleDomain` | tests/unit/Validation/Validator/ExclusionInTest.php:115-143 | with per-field domains, each field is judged only against its own list, on all four records |
| `ExclusionInScenarios.CustomMessage` | tests/unit/Validation/Validator/ExclusionInTest.php:145-188 | a configured single text replaces the template verbatim; field, kind and code are unchanged; a second call gives an equal group |

## Left out

- PHP loose comparison is not modelled. Domain membership is exact string equality. The code is the integer 0 everywhere; the tests compare it loosely against `0` and `'0'`.
- The rule's `strict`, `allowEmpty`, `label`, `code` and `cancelOnFail` options are not modelled. No test sets them.
- Placeholder substitution in custom texts is not modelled; custom texts are used verbatim. The tested custom texts contain no placeholders.
- A missing domain and a domain that is not a list cannot be expressed: every `Rule` value has a `Domain`. Only a per-field domain that lacks a bound field is modelled as an error.
- The error for a per-field domain that has no list for a bound field is a design choice of this model. No test exercises that case.
- Adding an empty field list is modelled as a binding that checks nothing. It is not a configuration error, because the tests say nothing about it.
- The message group's object interface (`count`, `offsetGet`, iteration) is a Dafny sequence: its length, indexing and equality.
- Reading values through filters, entities or request data is not modelled. The record is given as a map.
- Other validator types, dependency injection and the models layer are not part of this model.
- Concurrent use of one validation object is not modelled. `Validate` has no side effects, so it is safe to call repeatedly.
- Message appending: `Validate` gathers each binding's messages in a local group and then appends that group. The source appends each message directly. The resulting sequence is the same.
