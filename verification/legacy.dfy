/** The legacy engine (`ValidationFramework`): the same rule ideas with plain-string errors, no
    top-level gate, no pending condition and no message source.

    A validator is named by a field name; an error is that name, a space, and the message. The
    nested child of a validator is named by the parent's name, a dot and the `toString` of the
    nested getter; the element validators of `forEach` by the parent's name and `[i]`.

    `Validate` is the Java loop: one result passed through every rule, each child-running test
    appending into it. No legacy test can read that result (a user predicate sees only the value
    and the root), so what a run appends is a function of the rules, the name, the value and the
    root alone: `BodyErrors` defines it on its own, and `LegacyProperties.ValidateAppends` proves
    the loop appends exactly that. */
module LegacyEngine {
  import opened Values
  import opened Conditions

  /** `ValidationFramework.ValidationResult`: the error strings, in the order they were added. */
  datatype LegacyResult = LegacyResult(errors: seq<string>)

  function NewResult(): (r: LegacyResult)
    ensures IsValid(r) && r.errors == []
  {
    LegacyResult([])
  }

  /** `addError`: appends one string at the end. */
  function AddError(r: LegacyResult, error: string): (r': LegacyResult)
    ensures |r'.errors| == |r.errors| + 1 && r'.errors[..|r.errors|] == r.errors && r'.errors[|r.errors|] == error
    ensures !IsValid(r')
  {
    LegacyResult(r.errors + [error])
  }

  predicate IsValid(r: LegacyResult)
  {
    |r.errors| == 0
  }

  datatype LegacyTest =
    | Check(pred: (Value, Value) -> bool)
    | RunNested(getterName: string, get: Value -> Value, child: LegacyBody)
    | RunForEach(tag: TypeTag, child: LegacyBody)
    | RunConditionally(override: Cond, child: LegacyBody)

  datatype LegacyRule = LegacyRule(test: LegacyTest, errorMessage: Option<string>, condition: Cond)

  datatype LegacyBody = LegacyBody(rules: seq<LegacyRule>)

  /** What a test reports, and the errors its side effects appended. */
  datatype Outcome = Outcome(passed: bool, errors: seq<string>)

  function NestedName(fieldName: string, getterName: string): string
  {
    fieldName + "." + getterName
  }

  function ElementName(fieldName: string, index: nat): string
  {
    fieldName + "[" + NatToString(index) + "]"
  }

  /** What the rules from index `i` on append, in declaration order. */
  function BodyErrors(b: LegacyBody, i: nat, name: string, value: Value, root: Value): seq<string>
    requires i <= |b.rules|
    decreases b, 1, |b.rules| - i
  {
    if i == |b.rules| then []
    else
      assert b.rules[i] in b.rules;
      RuleErrors(b.rules[i], name, value, root) + BodyErrors(b, i + 1, name, value, root)
  }

  /** A rule whose condition holds runs its test; a failed test with a non-null message appends
      the name, a space and the message. */
  function RuleErrors(r: LegacyRule, name: string, value: Value, root: Value): seq<string>
    decreases r
  {
    if !Holds(r.condition, value, root) then []
    else
      var t := TestOutcome(r.test, name, value, root);
      t.errors + (if !t.passed && r.errorMessage.Some? then [name + " " + r.errorMessage.value] else [])
  }

  function TestOutcome(t: LegacyTest, name: string, value: Value, root: Value): Outcome
    decreases t
  {
    match t
    case Check(pred) => Outcome(pred(value, root), [])
    case RunNested(getterName, get, child) =>
      Outcome(true, if value != Null then BodyErrors(child, 0, NestedName(name, getterName), get(value), root) else [])
    case RunForEach(tag, child) =>
      Outcome(true, if value.Collection? && value.kind == ListKind then ItemErrors(child, name, tag, value.items, 0, root) else [])
    case RunConditionally(override, child) =>
      Outcome(true, if Holds(override, value, root) then BodyErrors(child, 0, name, value, root) else [])
  }

  /** The list loop from position `index` on: an instance is validated under `name[i]`; anything
      else (null included) is reported as `name[i] is not of type X`. */
  function ItemErrors(child: LegacyBody, name: string, tag: TypeTag, items: seq<Value>, index: nat, root: Value): seq<string>
    decreases child, 2, |items|
  {
    if items == [] then []
    else
      (if IsInstance(tag, items[0]) then BodyErrors(child, 0, ElementName(name, index), items[0], root)
       else [ElementName(name, index) + " is not of type " + tag.simpleName])
      + ItemErrors(child, name, tag, items[1..], index + 1, root)
  }

  // ---------------------------------------------------------------------------------------
  // The run itself: one result passed through every rule

  /** What a test returns, with the result after its side effects. */
  datatype Ran = Ran(passed: bool, result: LegacyResult)

  /** The rules from index `i` on, in declaration order, each on the result the previous one left. */
  function RunRules(b: LegacyBody, i: nat, name: string, value: Value, root: Value, res: LegacyResult): (out: LegacyResult)
    requires i <= |b.rules|
    ensures res.errors <= out.errors
    decreases b, 1, |b.rules| - i
  {
    if i == |b.rules| then res
    else
      assert b.rules[i] in b.rules;
      RunRules(b, i + 1, name, value, root, RunRule(b.rules[i], name, value, root, res))
  }

  function RunRule(r: LegacyRule, name: string, value: Value, root: Value, res: LegacyResult): (out: LegacyResult)
    ensures res.errors <= out.errors
    decreases r
  {
    if !Holds(r.condition, value, root) then res
    else
      var t := RunTest(r.test, name, value, root, res);
      if !t.passed && r.errorMessage.Some? then AddError(t.result, name + " " + r.errorMessage.value) else t.result
  }

  /** A child-running test validates into the result it is handed and always passes. */
  function RunTest(t: LegacyTest, name: string, value: Value, root: Value, res: LegacyResult): (out: Ran)
    ensures res.errors <= out.result.errors
    decreases t
  {
    match t
    case Check(pred) => Ran(pred(value, root), res)
    case RunNested(getterName, get, child) =>
      Ran(true, if value != Null then RunRules(child, 0, NestedName(name, getterName), get(value), root, res) else res)
    case RunForEach(tag, child) =>
      Ran(true, if value.Collection? && value.kind == ListKind then RunItems(child, name, tag, value.items, 0, root, res) else res)
    case RunConditionally(override, child) =>
      Ran(true, if Holds(override, value, root) then RunRules(child, 0, name, value, root, res) else res)
  }

  /** The list loop from position `index` on, into the shared result. */
  function RunItems(child: LegacyBody, name: string, tag: TypeTag, items: seq<Value>, index: nat, root: Value, res: LegacyResult): (out: LegacyResult)
    ensures res.errors <= out.errors
    decreases child, 2, |items|
  {
    if items == [] then res
    else
      var next := if IsInstance(tag, items[0]) then RunRules(child, 0, ElementName(name, index), items[0], root, res)
                  else AddError(res, ElementName(name, index) + " is not of type " + tag.simpleName);
      RunItems(child, name, tag, items[1..], index + 1, root, next)
  }

  // ---------------------------------------------------------------------------------------
  // Validators and their configuration

  datatype LegacyValidator = LegacyValidator(getter: Value -> Value, fieldName: string, rules: seq<LegacyRule>)

  /** One configuration call. `Satisfies` takes a one-argument predicate, `CrossField` one over the
      value and the root; the one-argument `composeConditionally` passes the composite's default
      condition as the override. */
  datatype LegacyStep =
    | NotNull(cond: Cond)
    | Matches(regex: Regex, cond: Cond)
    | Satisfies(pred: Value -> bool, message: Option<string>, cond: Cond)
    | NotEmpty(cond: Cond)
    | GreaterThan(min: Bound, cond: Cond)
    | Nested(getterName: string, get: Value -> Value, configure: seq<LegacyStep>, cond: Cond)
    | ForEach(tag: TypeTag, configure: seq<LegacyStep>, cond: Cond)
    | CrossField(check: (Value, Value) -> bool, message: Option<string>, cond: Cond)
    | Compose(composite: LegacyComposite)
    | ComposeConditionally(composite: LegacyComposite, override: Cond)

  /** `ValidationFramework.CompositeValidator`. */
  datatype LegacyComposite = LegacyComposite(configurators: seq<LegacyConfigurator>, defaultCondition: Cond)

  datatype LegacyConfigurator = LegacyConfigurator(steps: seq<LegacyStep>)

  function NewValidator(getter: Value -> Value, fieldName: string): (v: LegacyValidator)
    ensures v.getter == getter && v.fieldName == fieldName && v.rules == []
  {
    LegacyValidator(getter, fieldName, [])
  }

  const Scratch := NewValidator((v: Value) => Null, "")

  /** `addRule`: stores the rule as given. */
  function AddRule(v: LegacyValidator, test: LegacyTest, message: Option<string>, cond: Cond): (v': LegacyValidator)
    ensures v'.rules == v.rules + [LegacyRule(test, message, cond)]
    ensures v'.getter == v.getter && v'.fieldName == v.fieldName
  {
    v.(rules := v.rules + [LegacyRule(test, message, cond)])
  }

  function Apply(v: LegacyValidator, s: LegacyStep): (v': LegacyValidator)
    ensures v.rules <= v'.rules
    ensures v'.getter == v.getter && v'.fieldName == v.fieldName
    decreases s, 1
  {
    match s
    case NotNull(cond) => AddRule(v, Check((value, root) => value != Null), Some("must not be null"), cond)
    case Matches(regex, cond) =>
      AddRule(v, Check((value, root) => value != Null && regex.fullMatch(Show(value))), Some("must match pattern: " + regex.pattern), cond)
    case Satisfies(pred, message, cond) => AddRule(v, Check((value, root) => value == Null || pred(value)), message, cond)
    case NotEmpty(cond) => AddRule(v, Check((value, root) => IsNonEmpty(value)), Some("must not be empty"), cond)
    case GreaterThan(min, cond) =>
      AddRule(v, Check((value, root) => value != Null && min.compareTo(value) < 0), Some("must be greater than " + min.shown), cond)
    case Nested(getterName, get, configure, cond) => AddRule(v, RunNested(getterName, get, Spawn(configure)), None, cond)
    case ForEach(tag, configure, cond) => AddRule(v, RunForEach(tag, Spawn(configure)), None, cond)
    case CrossField(pred, message, cond) => AddRule(v, Check(pred), message, cond)
    case Compose(c) => ApplyTo(c, v)
    case ComposeConditionally(c, override) => AddRule(v, RunConditionally(override, SpawnComposite(c)), None, Always)
  }

  function Configure(v: LegacyValidator, steps: seq<LegacyStep>): (v': LegacyValidator)
    ensures v.rules <= v'.rules
    ensures v'.getter == v.getter && v'.fieldName == v.fieldName
    decreases steps, 0
  {
    if steps == [] then v else Configure(Apply(v, steps[0]), steps[1..])
  }

  /** The rules a configurator gives a fresh child validator. */
  function Spawn(steps: seq<LegacyStep>): LegacyBody
    decreases steps, 1
  {
    LegacyBody(Configure(Scratch, steps).rules)
  }

  /** `applyTo`: every configurator, in registration order, on the validator itself. */
  function ApplyTo(c: LegacyComposite, v: LegacyValidator): (v': LegacyValidator)
    ensures v.rules <= v'.rules
    ensures v'.getter == v.getter && v'.fieldName == v.fieldName
    decreases c, 1
  {
    ApplyFrom(c, 0, v)
  }

  function ApplyFrom(c: LegacyComposite, i: nat, v: LegacyValidator): (v': LegacyValidator)
    requires i <= |c.configurators|
    ensures v.rules <= v'.rules
    ensures v'.getter == v.getter && v'.fieldName == v.fieldName
    decreases c, 0, |c.configurators| - i
  {
    if i == |c.configurators| then v
    else
      assert c.configurators[i] in c.configurators;
      ApplyFrom(c, i + 1, Configure(v, c.configurators[i].steps))
  }

  function SpawnComposite(c: LegacyComposite): LegacyBody
    decreases c, 2
  {
    LegacyBody(ApplyTo(c, Scratch).rules)
  }

  /** What a validator appends on its own for a root. */
  function ValidatorErrors(v: LegacyValidator, root: Value): seq<string>
  {
    BodyErrors(LegacyBody(v.rules), 0, v.fieldName, v.getter(root), root)
  }

  /** `validate(root, result)`: every rule, in declaration order, with no gate. */
  function Validate(v: LegacyValidator, root: Value, res: LegacyResult): (out: LegacyResult)
    ensures res.errors <= out.errors
  {
    RunRules(LegacyBody(v.rules), 0, v.fieldName, v.getter(root), root, res)
  }

  // ---------------------------------------------------------------------------------------
  // Composite and builder

  function NewComposite(): (c: LegacyComposite)
    ensures c.configurators == [] && forall value, root :: Holds(c.defaultCondition, value, root)
  {
    LegacyComposite([], Always)
  }

  function AddConfigurator(c: LegacyComposite, configurator: LegacyConfigurator): (c': LegacyComposite)
    ensures c'.configurators == c.configurators + [configurator] && c'.defaultCondition == c.defaultCondition
  {
    c.(configurators := c.configurators + [configurator])
  }

  function WithDefaultCondition(c: LegacyComposite, cond: Cond): (c': LegacyComposite)
    ensures c'.defaultCondition == cond && c'.configurators == c.configurators
  {
    c.(defaultCondition := cond)
  }

  /** `ValidationFramework.ValidationBuilder`. */
  datatype LegacyBuilder = LegacyBuilder(obj: Value, validators: seq<LegacyValidator>)

  /** `ruleFor(getter)`: the new validator is named by the getter's `toString`. */
  function RuleFor(b: LegacyBuilder, getter: Value -> Value, getterName: string): (r: (LegacyBuilder, nat))
    ensures r.1 == |b.validators|
    ensures r.0.validators == b.validators + [NewValidator(getter, getterName)] && r.0.obj == b.obj
  {
    (b.(validators := b.validators + [NewValidator(getter, getterName)]), |b.validators|)
  }

  function ConfigureField(b: LegacyBuilder, i: nat, steps: seq<LegacyStep>): (b': LegacyBuilder)
    requires i < |b.validators|
    ensures b'.obj == b.obj && |b'.validators| == |b.validators|
    ensures b'.validators[i] == Configure(b.validators[i], steps)
    ensures forall k :: 0 <= k < |b.validators| && k != i ==> b'.validators[k] == b.validators[k]
  {
    b.(validators := b.validators[i := Configure(b.validators[i], steps)])
  }

  function RunFrom(vs: seq<LegacyValidator>, i: nat, obj: Value, res: LegacyResult): (out: LegacyResult)
    requires i <= |vs|
    ensures res.errors <= out.errors
    decreases |vs| - i
  {
    if i == |vs| then res else RunFrom(vs, i + 1, obj, Validate(vs[i], obj, res))
  }

  /** `validate()`: the registered validators, in order, into one fresh result. */
  function BuilderValidate(b: LegacyBuilder): LegacyResult
  {
    RunFrom(b.validators, 0, b.obj, NewResult())
  }
}

/** What the legacy engine's calls and runs guarantee. */
module LegacyProperties {
  import opened Values
  import opened Conditions
  import opened LegacyEngine

  function Last(v: LegacyValidator): LegacyRule
    requires |v.rules| > 0
  {
    v.rules[|v.rules| - 1]
  }

  lemma {:induction false} BodyErrorsAppend(rs: seq<LegacyRule>, r: LegacyRule, i: nat, name: string, value: Value, root: Value)
    requires i <= |rs|
    ensures BodyErrors(LegacyBody(rs + [r]), i, name, value, root)
            == BodyErrors(LegacyBody(rs), i, name, value, root) + RuleErrors(r, name, value, root)
    decreases |rs| - i
  {
    if i == |rs| {
      assert (rs + [r])[i] == r;
    } else {
      assert (rs + [r])[i] == rs[i];
      BodyErrorsAppend(rs, r, i + 1, name, value, root);
    }
  }

  // The loop appends exactly what the rules report on their own, whatever the result held.

  lemma {:induction false} RunRulesAppends(b: LegacyBody, i: nat, name: string, value: Value, root: Value, res: LegacyResult)
    requires i <= |b.rules|
    ensures RunRules(b, i, name, value, root, res).errors == res.errors + BodyErrors(b, i, name, value, root)
    decreases b, 1, |b.rules| - i
  {
    if i < |b.rules| {
      assert b.rules[i] in b.rules;
      RunRuleAppends(b.rules[i], name, value, root, res);
      var next := RunRule(b.rules[i], name, value, root, res);
      RunRulesAppends(b, i + 1, name, value, root, next);
    }
  }

  lemma {:induction false} RunRuleAppends(r: LegacyRule, name: string, value: Value, root: Value, res: LegacyResult)
    ensures RunRule(r, name, value, root, res).errors == res.errors + RuleErrors(r, name, value, root)
    decreases r
  {
    if Holds(r.condition, value, root) {
      RunTestAppends(r.test, name, value, root, res);
    }
  }

  lemma {:induction false} RunTestAppends(t: LegacyTest, name: string, value: Value, root: Value, res: LegacyResult)
    ensures RunTest(t, name, value, root, res).passed == TestOutcome(t, name, value, root).passed
    ensures RunTest(t, name, value, root, res).result.errors == res.errors + TestOutcome(t, name, value, root).errors
    decreases t
  {
    match t
    case Check(pred) =>
    case RunNested(getterName, get, child) =>
      if value != Null {
        RunRulesAppends(child, 0, NestedName(name, getterName), get(value), root, res);
      }
    case RunForEach(tag, child) =>
      if value.Collection? && value.kind == ListKind {
        RunItemsAppend(child, name, tag, value.items, 0, root, res);
      }
    case RunConditionally(override, child) =>
      if Holds(override, value, root) {
        RunRulesAppends(child, 0, name, value, root, res);
      }
  }

  lemma {:induction false} RunItemsAppend(child: LegacyBody, name: string, tag: TypeTag, items: seq<Value>, index: nat,
                                          root: Value, res: LegacyResult)
    ensures RunItems(child, name, tag, items, index, root, res).errors == res.errors + ItemErrors(child, name, tag, items, index, root)
    decreases child, 2, |items|
  {
    if items != [] {
      var next := if IsInstance(tag, items[0]) then RunRules(child, 0, ElementName(name, index), items[0], root, res)
                  else AddError(res, ElementName(name, index) + " is not of type " + tag.simpleName);
      if IsInstance(tag, items[0]) {
        RunRulesAppends(child, 0, ElementName(name, index), items[0], root, res);
      }
      RunItemsAppend(child, name, tag, items[1..], index + 1, root, next);
    }
  }

  /** `validate(root, result)` appends to whatever the result held exactly the validator's own
      errors, in declaration order. */
  lemma ValidateAppends(v: LegacyValidator, root: Value, res: LegacyResult)
    ensures Validate(v, root, res).errors == res.errors + ValidatorErrors(v, root)
  {
    RunRulesAppends(LegacyBody(v.rules), 0, v.fieldName, v.getter(root), root, res);
  }

  /** There is no gate: a rule added later reports after every earlier one, on every root. */
  lemma AddedRuleReportsLast(v: LegacyValidator, test: LegacyTest, message: Option<string>, cond: Cond, root: Value)
    ensures ValidatorErrors(AddRule(v, test, message, cond), root)
            == ValidatorErrors(v, root) + RuleErrors(LegacyRule(test, message, cond), v.fieldName, v.getter(root), root)
  {
    BodyErrorsAppend(v.rules, LegacyRule(test, message, cond), 0, v.fieldName, v.getter(root), root);
  }

  /** A failing check with a message reports the field name, a space and the message, once. */
  lemma CheckErrorFormat(pred: (Value, Value) -> bool, message: string, cond: Cond, name: string, value: Value, root: Value)
    ensures RuleErrors(LegacyRule(Check(pred), Some(message), cond), name, value, root)
            == if Holds(cond, value, root) && !pred(value, root) then [name + " " + message] else []
  {
  }

  /** `satisfies` never reports a null value. */
  lemma SatisfiesIgnoresNull(v: LegacyValidator, pred: Value -> bool, message: Option<string>, cond: Cond, name: string, root: Value)
    ensures RuleErrors(Last(Apply(v, Satisfies(pred, message, cond))), name, Null, root) == []
  {
  }

  /** `crossField`, unlike `satisfies`, hands a null value to its predicate. */
  lemma CrossFieldSeesNull(v: LegacyValidator, pred: (Value, Value) -> bool, message: string, cond: Cond, name: string, root: Value)
    requires Holds(cond, Null, root) && !pred(Null, root)
    ensures RuleErrors(Last(Apply(v, CrossField(pred, Some(message), cond))), name, Null, root) == [name + " " + message]
  {
  }

  /** `nested` reports only what the child reports, under `name.getter`, and nothing for null. */
  lemma NestedRunsChild(v: LegacyValidator, getterName: string, get: Value -> Value, steps: seq<LegacyStep>, cond: Cond,
                        name: string, value: Value, root: Value)
    ensures RuleErrors(Last(Apply(v, Nested(getterName, get, steps, cond))), name, value, root)
            == if Holds(cond, value, root) && value != Null
               then BodyErrors(Spawn(steps), 0, name + "." + getterName, get(value), root) else []
  {
  }

  /** What element `index` of a list contributes. */
  function ElementErrors(child: LegacyBody, name: string, tag: TypeTag, item: Value, index: nat, root: Value): seq<string>
  {
    if IsInstance(tag, item) then BodyErrors(child, 0, ElementName(name, index), item, root)
    else [ElementName(name, index) + " is not of type " + tag.simpleName]
  }

  function ElementsErrors(child: LegacyBody, name: string, tag: TypeTag, items: seq<Value>, from: nat, root: Value): seq<string>
    requires from <= |items|
    decreases |items| - from
  {
    if from == |items| then []
    else ElementErrors(child, name, tag, items[from], from, root) + ElementsErrors(child, name, tag, items, from + 1, root)
  }

  lemma {:induction false} ItemsInOrder(child: LegacyBody, name: string, tag: TypeTag, items: seq<Value>, from: nat, root: Value)
    requires from <= |items|
    ensures ItemErrors(child, name, tag, items[from..], from, root) == ElementsErrors(child, name, tag, items, from, root)
    decreases |items| - from
  {
    if from < |items| {
      ItemsInOrder(child, name, tag, items, from + 1, root);
      assert items[from..][0] == items[from] && items[from..][1..] == items[from + 1..];
    } else {
      assert items[from..] == [];
    }
  }

  /** `forEach` walks only a list, numbering elements from zero; an element of another type,
      null included, is reported under the parent's own name with `[i]` and no field segment. */
  lemma ForEachOnListsOnly(v: LegacyValidator, tag: TypeTag, steps: seq<LegacyStep>, cond: Cond,
                           name: string, value: Value, root: Value)
    ensures RuleErrors(Last(Apply(v, ForEach(tag, steps, cond))), name, value, root)
            == if Holds(cond, value, root) && value.Collection? && value.kind == ListKind
               then ElementsErrors(Spawn(steps), name, tag, value.items, 0, root) else []
  {
    if value.Collection? {
      ItemsInOrder(Spawn(steps), name, tag, value.items, 0, root);
      assert value.items[0..] == value.items;
    }
  }

  /** A mistyped element yields exactly one string. */
  lemma MistypedElementOneError(child: LegacyBody, name: string, tag: TypeTag, item: Value, index: nat, root: Value)
    requires !IsInstance(tag, item)
    ensures ElementErrors(child, name, tag, item, index, root)
            == [name + "[" + NatToString(index) + "] is not of type " + tag.simpleName]
  {
    var n := NatToString(index);
    assert name + "[" + n + "]" + " is not of type " + tag.simpleName == name + "[" + n + "] is not of type " + tag.simpleName;
  }

  /** The calls of a list of configurators, one after the other. */
  function Calls(configurators: seq<LegacyConfigurator>): seq<LegacyStep>
  {
    if configurators == [] then [] else configurators[0].steps + Calls(configurators[1..])
  }

  lemma {:induction false} ConfigureAppend(v: LegacyValidator, a: seq<LegacyStep>, b: seq<LegacyStep>)
    ensures Configure(v, a + b) == Configure(Configure(v, a), b)
    decreases |a|
  {
    if a != [] {
      assert (a + b)[0] == a[0] && (a + b)[1..] == a[1..] + b;
      ConfigureAppend(Apply(v, a[0]), a[1..], b);
    } else {
      assert a + b == b;
    }
  }

  lemma {:induction false} ApplyFromCalls(c: LegacyComposite, i: nat, v: LegacyValidator)
    requires i <= |c.configurators|
    ensures ApplyFrom(c, i, v) == Configure(v, Calls(c.configurators[i..]))
    decreases |c.configurators| - i
  {
    if i == |c.configurators| {
      assert c.configurators[i..] == [];
    } else {
      ApplyFromCalls(c, i + 1, Configure(v, c.configurators[i].steps));
      assert c.configurators[i..][0] == c.configurators[i];
      assert c.configurators[i..][1..] == c.configurators[i + 1..];
      ConfigureAppend(v, c.configurators[i].steps, Calls(c.configurators[i + 1..]));
    }
  }

  /** `compose` adds no rule of its own: it performs every configurator's calls on the validator
      itself, in registration order. */
  lemma ComposeInlines(v: LegacyValidator, c: LegacyComposite)
    ensures Apply(v, Compose(c)) == Configure(v, Calls(c.configurators))
  {
    ApplyFromCalls(c, 0, v);
    assert c.configurators[0..] == c.configurators;
  }

  /** `composeConditionally` adds one rule that always applies and reports nothing itself; the
      transient validator runs only when the override holds. */
  lemma ComposeConditionallyGuard(v: LegacyValidator, c: LegacyComposite, override: Cond, name: string, value: Value, root: Value)
    ensures |Apply(v, ComposeConditionally(c, override)).rules| == |v.rules| + 1
    ensures Last(Apply(v, ComposeConditionally(c, override))).condition == Always
    ensures RuleErrors(Last(Apply(v, ComposeConditionally(c, override))), name, value, root)
            == if Holds(override, value, root) then BodyErrors(SpawnComposite(c), 0, name, value, root) else []
  {
  }

  /** What the validators from position `i` on report, each on its own, in order. */
  function AllErrors(vs: seq<LegacyValidator>, i: nat, obj: Value): seq<string>
    requires i <= |vs|
    decreases |vs| - i
  {
    if i == |vs| then [] else ValidatorErrors(vs[i], obj) + AllErrors(vs, i + 1, obj)
  }

  lemma {:induction false} RunFromInOrder(vs: seq<LegacyValidator>, i: nat, obj: Value, res: LegacyResult)
    requires i <= |vs|
    ensures RunFrom(vs, i, obj, res).errors == res.errors + AllErrors(vs, i, obj)
    decreases |vs| - i
  {
    if i < |vs| {
      ValidateAppends(vs[i], obj, res);
      RunFromInOrder(vs, i + 1, obj, Validate(vs[i], obj, res));
      assert res.errors + ValidatorErrors(vs[i], obj) + AllErrors(vs, i + 1, obj) == res.errors + AllErrors(vs, i, obj);
    }
  }

  /** The builder runs the registered validators in order into one fresh result. */
  lemma BuilderReportsInOrder(b: LegacyBuilder)
    ensures BuilderValidate(b).errors == AllErrors(b.validators, 0, b.obj)
  {
    RunFromInOrder(b.validators, 0, b.obj, NewResult());
  }
}
