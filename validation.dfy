/** The validation orchestrator: an ordered list of (fields, rule)
    bindings, run in order against a record to build a message group. */
module Validation {
  import opened Wrappers
  import opened ValidationMessage
  import opened ExclusionInRule

  /** The fields a rule is added for: one name, or an ordered list of names. */
  datatype FieldSpec = One(name: string) | Many(names: seq<string>)

  /** A rule bound to the fields it checks, in declared order. */
  datatype Binding = Binding(fields: seq<string>, rule: Rule)

  type Outcome = Result<Group, ConfigError>

  function FieldsOf(spec: FieldSpec): seq<string>
  {
    match spec
    case One(name) => [name]
    case Many(names) => names
  }

  /** Appends the messages of `b` after those of `a`; the first error wins. */
  function Then(a: Outcome, b: Outcome): Outcome
  {
    if a.Err? then a else if b.Err? then b else Ok(a.value + b.value)
  }

  /** The empty group is neutral on either side. */
  lemma ThenEmpty(a: Outcome)
    ensures Then(Ok([]), a) == a && Then(a, Ok([])) == a
  {
    if a.Ok? {
      assert [] + a.value == a.value && a.value + [] == a.value;
    }
  }

  lemma ThenAssociative(a: Outcome, b: Outcome, c: Outcome)
    ensures Then(Then(a, b), c) == Then(a, Then(b, c))
  {
    if a.Ok? && b.Ok? && c.Ok? {
      assert (a.value + b.value) + c.value == a.value + (b.value + c.value);
    }
  }

  /** The group (zero or one message) that one rule check contributes. */
  function AsGroup(check: Result<Option<Message>, ConfigError>): Outcome
  {
    match check
    case Err(e) => Err(e)
    case Ok(None) => Ok([])
    case Ok(Some(m)) => Ok([m])
  }

  /** The messages of one rule over its fields, in declared field order. */
  function FieldMessages(rule: Rule, fields: seq<string>, record: Record): Outcome
    decreases |fields|
  {
    if fields == [] then Ok([])
    else Then(AsGroup(Check(rule, record, fields[0])), FieldMessages(rule, fields[1..], record))
  }

  /** What `validate` returns: the messages of every binding, in
      registration order, or the first configuration error met. */
  function Messages(bindings: seq<Binding>, record: Record): Outcome
    decreases |bindings|
  {
    if bindings == [] then Ok([])
    else Then(FieldMessages(bindings[0].rule, bindings[0].fields, record),
              Messages(bindings[1..], record))
  }

  /** Checking a longer field list appends the later fields' messages after
      the earlier ones'. */
  lemma {:induction false} FieldMessagesAppend(rule: Rule, xs: seq<string>, ys: seq<string>, record: Record)
    ensures FieldMessages(rule, xs + ys, record)
         == Then(FieldMessages(rule, xs, record), FieldMessages(rule, ys, record))
    decreases |xs|
  {
    if xs == [] {
      assert xs + ys == ys;
      ThenEmpty(FieldMessages(rule, ys, record));
    } else {
      assert (xs + ys)[0] == xs[0];
      assert (xs + ys)[1..] == xs[1..] + ys;
      FieldMessagesAppend(rule, xs[1..], ys, record);
      ThenAssociative(AsGroup(Check(rule, record, xs[0])),
                      FieldMessages(rule, xs[1..], record), FieldMessages(rule, ys, record));
    }
  }

  /** Bindings registered later contribute their messages after those
      registered earlier. */
  lemma {:induction false} MessagesAppend(xs: seq<Binding>, ys: seq<Binding>, record: Record)
    ensures Messages(xs + ys, record) == Then(Messages(xs, record), Messages(ys, record))
    decreases |xs|
  {
    if xs == [] {
      assert xs + ys == ys;
      ThenEmpty(Messages(ys, record));
    } else {
      assert (xs + ys)[0] == xs[0];
      assert (xs + ys)[1..] == xs[1..] + ys;
      MessagesAppend(xs[1..], ys, record);
      ThenAssociative(FieldMessages(xs[0].rule, xs[0].fields, record),
                      Messages(xs[1..], record), Messages(ys, record));
    }
  }

  // ----- An independent description of the result -----

  /** Every one of `fields` has a domain under `rule`. */
  predicate AllConfigured(rule: Rule, fields: seq<string>)
  {
    forall j :: 0 <= j < |fields| ==> Configured(rule, fields[j])
  }

  /** Every field of every binding has a domain. */
  predicate WellConfigured(bindings: seq<Binding>)
  {
    forall i :: 0 <= i < |bindings| ==> AllConfigured(bindings[i].rule, bindings[i].fields)
  }

  /** `xs` is `ys` with some elements dropped, the rest kept in order. */
  predicate Subsequence(xs: seq<string>, ys: seq<string>)
    decreases |ys|
  {
    if xs == [] then true
    else if ys == [] then false
    else (xs[0] == ys[0] && Subsequence(xs[1..], ys[1..])) || Subsequence(xs, ys[1..])
  }

  /** The fields whose value the rule forbids: exactly those, in the order
      they were declared. */
  function Failing(rule: Rule, fields: seq<string>, record: Record): (failing: seq<string>)
    requires AllConfigured(rule, fields)
    ensures AllConfigured(rule, failing)
    ensures forall f :: f in failing <==> f in fields && Configured(rule, f) && Fails(rule, record, f)
    ensures Subsequence(failing, fields)
    decreases |fields|
  {
    if fields == [] then []
    else if Fails(rule, record, fields[0]) then [fields[0]] + Failing(rule, fields[1..], record)
    else Failing(rule, fields[1..], record)
  }

  /** A failing field is kept once for every time it is declared, and a
      passing field not at all. */
  lemma {:induction false} FailingMultiplicity(rule: Rule, fields: seq<string>, record: Record, f: string)
    requires AllConfigured(rule, fields)
    requires f in fields
    ensures Configured(rule, f)
    ensures multiset(Failing(rule, fields, record))[f]
         == (if Fails(rule, record, f) then multiset(fields)[f] else 0)
    decreases |fields|
  {
    var head, tail := fields[0], fields[1..];
    assert fields == [head] + tail;
    assert forall j :: 0 <= j < |tail| ==> tail[j] == fields[j + 1];
    if f in tail {
      FailingMultiplicity(rule, tail, record, f);
    } else {
      assert f == head;
      assert multiset(tail)[f] == 0;
      assert multiset(Failing(rule, tail, record))[f] == 0;
    }
  }

  /** The rule's message for each of `fields`, in order. */
  function Reports(rule: Rule, fields: seq<string>): (ms: seq<Message>)
    requires AllConfigured(rule, fields)
    ensures |ms| == |fields|
    ensures forall k :: 0 <= k < |fields| ==> ms[k] == Report(rule, fields[k])
    decreases |fields|
  {
    if fields == [] then [] else [Report(rule, fields[0])] + Reports(rule, fields[1..])
  }

  /** One message per failing (binding, field) pair, bindings in
      registration order and fields in declared order. */
  function Expected(bindings: seq<Binding>, record: Record): Group
    requires WellConfigured(bindings)
    decreases |bindings|
  {
    if bindings == [] then []
    else
      assert AllConfigured(bindings[0].rule, bindings[0].fields);
      assert forall i :: 0 <= i < |bindings[1..]| ==> bindings[1..][i] == bindings[i + 1];
      Reports(bindings[0].rule, Failing(bindings[0].rule, bindings[0].fields, record))
        + Expected(bindings[1..], record)
  }

  /** One rule over a field list: an error exactly when some field has no
      domain, naming such a field; otherwise one message per failing field,
      in declared order. */
  lemma {:induction false} FieldMessagesMeaning(rule: Rule, fields: seq<string>, record: Record)
    ensures FieldMessages(rule, fields, record).Ok? <==> AllConfigured(rule, fields)
    ensures FieldMessages(rule, fields, record).Err? ==>
      var f := FieldMessages(rule, fields, record).error.field;
      f in fields && !Configured(rule, f)
    ensures AllConfigured(rule, fields) ==>
      FieldMessages(rule, fields, record).value == Reports(rule, Failing(rule, fields, record))
    decreases |fields|
  {
    if fields != [] {
      var head, tail := fields[0], fields[1..];
      FieldMessagesMeaning(rule, tail, record);
      assert forall j :: 0 <= j < |tail| ==> tail[j] == fields[j + 1];
      if AllConfigured(rule, fields) {
        assert AllConfigured(rule, tail);
        if Fails(rule, record, head) {
          assert Reports(rule, Failing(rule, fields, record))
              == [Report(rule, head)] + Reports(rule, Failing(rule, tail, record));
        } else {
          assert Failing(rule, fields, record) == Failing(rule, tail, record);
        }
      } else if Configured(rule, head) {
        var j :| 0 <= j < |fields| && !Configured(rule, fields[j]);
        assert tail[j - 1] == fields[j];
      }
    }
  }

  /** The whole run: an error exactly when some bound field has no domain,
      naming such a field; otherwise exactly the expected messages. */
  lemma {:induction false} MessagesMeaning(bindings: seq<Binding>, record: Record)
    ensures Messages(bindings, record).Ok? <==> WellConfigured(bindings)
    ensures Messages(bindings, record).Err? ==>
      var f := Messages(bindings, record).error.field;
      exists i :: 0 <= i < |bindings| && f in bindings[i].fields && !Configured(bindings[i].rule, f)
    ensures WellConfigured(bindings) ==> Messages(bindings, record).value == Expected(bindings, record)
    decreases |bindings|
  {
    if bindings != [] {
      var b, rest := bindings[0], bindings[1..];
      FieldMessagesMeaning(b.rule, b.fields, record);
      MessagesMeaning(rest, record);
      assert forall i :: 0 <= i < |rest| ==> rest[i] == bindings[i + 1];
      if WellConfigured(bindings) {
        assert AllConfigured(b.rule, b.fields);
        assert WellConfigured(rest);
      } else if FieldMessages(b.rule, b.fields, record).Ok? {
        var i :| 0 <= i < |bindings| && !AllConfigured(bindings[i].rule, bindings[i].fields);
        assert rest[i - 1] == bindings[i];
      }
    }
  }

  /** How many messages a run produces: the number of failing fields,
      summed over the bindings. */
  function FailureCount(bindings: seq<Binding>, record: Record): nat
    requires WellConfigured(bindings)
    decreases |bindings|
  {
    if bindings == [] then 0
    else
      assert AllConfigured(bindings[0].rule, bindings[0].fields);
      assert forall i :: 0 <= i < |bindings[1..]| ==> bindings[1..][i] == bindings[i + 1];
      |Failing(bindings[0].rule, bindings[0].fields, record)| + FailureCount(bindings[1..], record)
  }

  /** A well-configured run returns one message per failing field. */
  lemma {:induction false} MessageCount(bindings: seq<Binding>, record: Record)
    requires WellConfigured(bindings)
    ensures Messages(bindings, record).Ok?
    ensures |Messages(bindings, record).value| == FailureCount(bindings, record)
  {
    MessagesMeaning(bindings, record);
    ExpectedCount(bindings, record);
  }

  lemma {:induction false} ExpectedCount(bindings: seq<Binding>, record: Record)
    requires WellConfigured(bindings)
    ensures |Expected(bindings, record)| == FailureCount(bindings, record)
    decreases |bindings|
  {
    if bindings != [] {
      assert forall i :: 0 <= i < |bindings[1..]| ==> bindings[1..][i] == bindings[i + 1];
      ExpectedCount(bindings[1..], record);
    }
  }

  /** The rule of a binding fails for none of its fields. */
  predicate Passes(b: Binding, record: Record)
    requires AllConfigured(b.rule, b.fields)
  {
    forall j :: 0 <= j < |b.fields| ==> !Fails(b.rule, record, b.fields[j])
  }

  /** No field of any binding fails. */
  predicate AllPass(bindings: seq<Binding>, record: Record)
    requires WellConfigured(bindings)
  {
    forall i :: 0 <= i < |bindings| ==> Passes(bindings[i], record)
  }

  lemma {:induction false} FailingEmptyIffPasses(b: Binding, record: Record)
    requires AllConfigured(b.rule, b.fields)
    ensures Failing(b.rule, b.fields, record) == [] <==> Passes(b, record)
    decreases |b.fields|
  {
    if b.fields != [] {
      var tail := Binding(b.fields[1..], b.rule);
      assert forall j :: 0 <= j < |tail.fields| ==> tail.fields[j] == b.fields[j + 1];
      FailingEmptyIffPasses(tail, record);
    }
  }

  lemma {:induction false} CountZeroIffAllPass(bindings: seq<Binding>, record: Record)
    requires WellConfigured(bindings)
    ensures FailureCount(bindings, record) == 0 <==> AllPass(bindings, record)
    decreases |bindings|
  {
    if bindings != [] {
      var rest := bindings[1..];
      assert forall i :: 0 <= i < |rest| ==> rest[i] == bindings[i + 1];
      CountZeroIffAllPass(rest, record);
      FailingEmptyIffPasses(bindings[0], record);
    }
  }

  /** A well-configured run returns an empty group exactly when no bound
      field's value is in its forbidden list. */
  lemma {:induction false} EmptyIffAllPass(bindings: seq<Binding>, record: Record)
    requires WellConfigured(bindings)
    ensures Messages(bindings, record) == Ok([]) <==> AllPass(bindings, record)
  {
    MessageCount(bindings, record);
    CountZeroIffAllPass(bindings, record);
  }

  /** Checking one more field adds that field's contribution at the end. */
  lemma FieldStep(rule: Rule, fields: seq<string>, j: nat, record: Record)
    requires j < |fields|
    ensures FieldMessages(rule, fields[..j + 1], record)
         == Then(FieldMessages(rule, fields[..j], record), AsGroup(Check(rule, record, fields[j])))
  {
    FieldMessagesAppend(rule, fields[..j], [fields[j]], record);
    assert fields[..j + 1] == fields[..j] + [fields[j]];
    ThenEmpty(AsGroup(Check(rule, record, fields[j])));
  }

  /** Running one more binding adds its messages at the end. */
  lemma BindingStep(bindings: seq<Binding>, i: nat, record: Record)
    requires i < |bindings|
    ensures Messages(bindings[..i + 1], record)
         == Then(Messages(bindings[..i], record),
                 FieldMessages(bindings[i].rule, bindings[i].fields, record))
  {
    MessagesAppend(bindings[..i], [bindings[i]], record);
    assert bindings[..i + 1] == bindings[..i] + [bindings[i]];
    ThenEmpty(FieldMessages(bindings[i].rule, bindings[i].fields, record));
  }

  /** An error met while checking a field ends the whole run with that error. */
  lemma ErrorStops(bindings: seq<Binding>, i: nat, j: nat, record: Record, e: ConfigError)
    requires i < |bindings| && j < |bindings[i].fields|
    requires Messages(bindings[..i], record).Ok?
    requires FieldMessages(bindings[i].rule, bindings[i].fields[..j + 1], record) == Err(e)
    ensures Messages(bindings, record) == Err(e)
  {
    var b := bindings[i];
    FieldMessagesAppend(b.rule, b.fields[..j + 1], b.fields[j + 1..], record);
    assert b.fields[..j + 1] + b.fields[j + 1..] == b.fields;
    BindingStep(bindings, i, record);
    MessagesAppend(bindings[..i + 1], bindings[i + 1..], record);
    assert bindings[..i + 1] + bindings[i + 1..] == bindings;
  }

  /** A run with one binding of one field yields that field's check alone. */
  lemma OneFieldRun(rule: Rule, field: string, record: Record)
    ensures Messages([Binding([field], rule)], record) == AsGroup(Check(rule, record, field))
  {
    var b := Binding([field], rule);
    assert [b][1..] == [] && [field][1..] == [];
    ThenEmpty(AsGroup(Check(rule, record, field)));
    assert FieldMessages(rule, [field], record) == AsGroup(Check(rule, record, field));
    ThenEmpty(FieldMessages(rule, [field], record));
    assert Messages([b], record) == Then(FieldMessages(rule, [field], record), Messages([], record));
  }

  // ----- The stateful orchestrator -----

  /** A validation object: rules are added one by one, then the same
      bindings are run against any number of records. */
  class Validation {
    var bindings: seq<Binding>

    constructor ()
      ensures bindings == []
    {
      bindings := [];
    }

    /** Registers `rule` for the fields of `spec`, after every earlier binding. */
    method Add(spec: FieldSpec, rule: Rule)
      modifies this
      ensures bindings == old(bindings) + [Binding(FieldsOf(spec), rule)]
    {
      bindings := bindings + [Binding(FieldsOf(spec), rule)];
    }

    /** Runs every binding, in order, on every one of its fields, in order,
        appending a message for each failing field to a fresh group. Changes
        nothing, so equal records give equal groups. */
    method Validate(record: Record) returns (r: Outcome)
      ensures r == Messages(bindings, record)
    {
      var group: Group := [];
      var i := 0;
      while i < |bindings|
        invariant 0 <= i <= |bindings|
        invariant Messages(bindings[..i], record) == Ok(group)
      {
        var b := bindings[i];
        var found: Group := [];
        var j := 0;
        while j < |b.fields|
          invariant 0 <= j <= |b.fields|
          invariant FieldMessages(b.rule, b.fields[..j], record) == Ok(found)
        {
          var check := Check(b.rule, record, b.fields[j]);
          FieldStep(b.rule, b.fields, j, record);
          match check {
            case Err(e) =>
              ErrorStops(bindings, i, j, record, e);
              return Err(e);
            case Ok(None) =>
              assert found + [] == found;
            case Ok(Some(m)) =>
              found := found + [m];
          }
          j := j + 1;
        }
        assert b.fields[..j] == b.fields;
        BindingStep(bindings, i, record);
        group := group + found;
        i := i + 1;
      }
      assert bindings[..i] == bindings;
      r := Ok(group);
    }
  }
}
