/** What the field validator's configuration calls and its evaluation guarantee. */
module FieldValidatorProperties {
  import opened Values
  import opened Conditions
  import opened Results
  import opened Rules
  import opened RuleProperties
  import opened FieldValidator

  function Last(v: Validator): Rule
    requires |v.rules| > 0
  {
    v.rules[|v.rules| - 1]
  }

  // ---------------------------------------------------------------------------------------
  // The built-in rules

  /** `satisfies` never reports a null value, whatever the predicate. */
  lemma SatisfiesIgnoresNull(v: Validator, pred: (Value, Value) -> bool, message: Option<string>, cond: Cond,
                             path: string, root: Value, res: Result)
    ensures var v' := Apply(v, Satisfies(pred, message, cond));
            RunRule(Last(v'), v'.messageSource, path, Null, root, res) == res
  {
  }

  /** The one-argument `satisfies` never reports null; otherwise, with both conditions holding, it
      reports its message exactly when the predicate rejects the value, whatever the root. */
  lemma SatisfiesValueReports(v: Validator, p: Value -> bool, message: string, cond: Cond,
                              path: string, value: Value, root: Value)
    ensures var v' := Apply(v, SatisfiesValue(p, Some(message), cond));
            RuleErrors(Last(v'), v'.messageSource, path, value, root)
            == if value != Null && !p(value) && Holds(cond, value, root) && Holds(v.currentCondition, value, root)
               then [Error(path, Render(v.messageSource, message))] else []
  {
    var test := SatisfiesTest((x: Value, y: Value) => p(x));
    SatisfiesValueAddsRule(v, p, message, cond);
    CheckedRuleRuns(v, test.pred, message, cond, v.messageSource, path, value, root);
    assert test.pred(value, root) == (value == Null || p(value));
  }

  lemma SatisfiesValueAddsRule(v: Validator, p: Value -> bool, message: string, cond: Cond)
    ensures var test := SatisfiesTest((x: Value, y: Value) => p(x));
            test.Check? && Apply(v, SatisfiesValue(p, Some(message), cond)) == AddRule(v, Check(test.pred), Some(message), cond)
  {
  }

  /** `notNull` reports exactly the null value, with its fixed message, when its condition holds. */
  lemma NotNullReportsNull(v: Validator, cond: Cond, path: string, value: Value, root: Value)
    ensures var v' := Apply(v, NotNull(cond));
            RuleErrors(Last(v'), v'.messageSource, path, value, root)
            == if value == Null && Holds(cond, value, root) && Holds(v.currentCondition, value, root)
               then [Error(path, Render(v.messageSource, "must not be null"))] else []
  {
    NotNullAddsRule(v, cond);
    CheckedRuleRuns(v, (x: Value, y: Value) => x != Null, "must not be null", cond, v.messageSource, path, value, root);
  }

  lemma NotNullAddsRule(v: Validator, cond: Cond)
    ensures Apply(v, NotNull(cond)) == AddRule(v, NotNullTest(), Some("must not be null"), cond)
  {
  }

  /** A rule with a message and a plain check reports that message exactly when the guard holds and
      the check fails. */
  lemma CheckedRuleRuns(v: Validator, pred: (Value, Value) -> bool, message: string, cond: Cond,
                        source: Option<MessageSource>, path: string, value: Value, root: Value)
    ensures RuleErrors(Last(AddRule(v, Check(pred), Some(message), cond)), source, path, value, root)
            == if Holds(cond, value, root) && Holds(v.currentCondition, value, root) && !pred(value, root)
               then [Error(path, Render(source, message))] else []
  {
    var r := Last(AddRule(v, Check(pred), Some(message), cond));
    AddRuleGuard(v, Check(pred), Some(message), cond, value, root);
    AddRuleTest(v, Check(pred), Some(message), cond, path, value, root, Blank);
  }

  /** `notEmpty` fails exactly for null, the empty string, an empty collection and an empty array. */
  lemma NotEmptyFailsExactly(v: Validator, cond: Cond, path: string, value: Value, root: Value, res: Result)
    ensures var v' := Apply(v, NotEmpty(cond));
            !RunTest(Last(v').test, path, value, root, res).passed
            <==> value == Null || value == Str("") || (value.Collection? && value.items == []) || value == Array([])
  {
    NonEmptyExactly(value);
  }

  /** `matches` fails on null; otherwise it passes exactly when the whole printed value matches. */
  lemma MatchesPassesExactly(v: Validator, regex: Regex, cond: Cond, path: string, value: Value, root: Value, res: Result)
    ensures var v' := Apply(v, Matches(regex, cond));
            && (RunTest(Last(v').test, path, value, root, res).passed <==> value != Null && regex.fullMatch(Show(value)))
            && Last(v').errorMessage == Some("must match pattern: " + regex.pattern)
  {
  }

  /** `greaterThan` fails on null; otherwise it passes exactly when the bound compares below the value. */
  lemma GreaterThanPassesExactly(v: Validator, min: Bound, cond: Cond, path: string, value: Value, root: Value, res: Result)
    ensures var v' := Apply(v, GreaterThan(min, cond));
            && (RunTest(Last(v').test, path, value, root, res).passed <==> value != Null && min.compareTo(value) < 0)
            && Last(v').errorMessage == Some("must be greater than " + min.shown)
  {
  }

  /** With an integer bound, `greaterThan(min)` passes a number exactly when `min < n`. */
  lemma GreaterThanInt(v: Validator, min: int, cond: Cond, path: string, n: int, root: Value, res: Result)
    ensures var v' := Apply(v, GreaterThan(IntBound(min), cond));
            RunTest(Last(v').test, path, Num(n), root, res).passed <==> min < n
  {
  }

  // ---------------------------------------------------------------------------------------
  // The pending condition of `when` / `otherwise`

  /** Every rule call stores a rule guarded by its own condition AND the pending one. */
  lemma RuleStepGuard(v: Validator, s: Step, value: Value, root: Value)
    requires IsRuleStep(s)
    ensures |Apply(v, s).rules| == |v.rules| + 1
    ensures Holds(Last(Apply(v, s)).condition, value, root)
            <==> Holds(OwnCondition(s), value, root) && Holds(v.currentCondition, value, root)
  {
    AddRuleGuard(v, StepTest(s), StepMessage(s), OwnCondition(s), value, root);
  }

  lemma AddRuleGuard(v: Validator, test: Test, message: Option<string>, cond: Cond, value: Value, root: Value)
    ensures Holds(Last(AddRule(v, test, message, cond)).condition, value, root)
            <==> Holds(cond, value, root) && Holds(v.currentCondition, value, root)
  {
  }

  lemma ConfigureSteps2(v: Validator, a: Step, b: Step)
    ensures Configure(v, [a, b]) == Apply(Apply(v, a), b)
  {
    assert [a, b][1..] == [b];
    assert [b][1..] == [];
    assert Configure(v, [a, b]) == Configure(Apply(v, a), [b]);
    assert Configure(Apply(v, a), [b]) == Configure(Apply(Apply(v, a), b), []);
  }

  lemma ConfigureSteps3(v: Validator, a: Step, b: Step, c: Step)
    ensures Configure(v, [a, b, c]) == Apply(Apply(Apply(v, a), b), c)
  {
    assert [a, b, c][1..] == [b, c];
    assert Configure(v, [a, b, c]) == Configure(Apply(v, a), [b, c]);
    ConfigureSteps2(Apply(v, a), b, c);
  }

  /** A condition set by `when` guards exactly the next rule added: the rules already there are
      untouched, and the rule after the next one carries only its own condition. */
  lemma WhenGuardsNextRuleOnly(v: Validator, c: Cond, s1: Step, s2: Step, value: Value, root: Value)
    requires IsRuleStep(s1) && IsRuleStep(s2)
    ensures var v' := Configure(v, [When(c), s1, s2]); var n := |v.rules|;
            && |v'.rules| == n + 2 && v'.rules[..n] == v.rules
            && (Holds(v'.rules[n].condition, value, root) <==> Holds(OwnCondition(s1), value, root) && Holds(c, value, root))
            && (Holds(v'.rules[n + 1].condition, value, root) <==> Holds(OwnCondition(s2), value, root))
            && v'.currentCondition == Always
  {
    var v1 := WhenSets(v, c);
    var v2 := Apply(v1, s1);
    var v3 := Apply(v2, s2);
    ConfigureSteps3(v, When(c), s1, s2);
    assert Configure(v, [When(c), s1, s2]) == v3;
    RuleStepGuard(v1, s1, value, root);
    RuleStepGuard(v2, s2, value, root);
    KeepsEarlierRules(v, v2, v3);
  }

  /** `when(c)` leaves `c` pending and adds no rule. */
  lemma WhenSets(v: Validator, c: Cond) returns (v1: Validator)
    ensures v1 == Apply(v, When(c))
    ensures v1.currentCondition == c && v1.rules == v.rules
  {
    v1 := Apply(v, When(c));
    assert v1 == v.(currentCondition := c);
  }

  /** A rule that was at position `k` before a rule was appended is still there. */
  lemma KeepsEarlierRules(v: Validator, v2: Validator, v3: Validator)
    requires |v2.rules| == |v.rules| + 1 && v2.rules[..|v.rules|] == v.rules
    requires |v3.rules| == |v2.rules| + 1 && v3.rules[..|v2.rules|] == v2.rules
    ensures v3.rules[..|v.rules|] == v.rules && v3.rules[|v.rules|] == v2.rules[|v.rules|]
  {
    assert v3.rules[..|v.rules|] == v2.rules[..|v.rules|];
  }

  /** `otherwise` negates the pending condition in place, so `when(c).otherwise()` guards the next
      rule with the negation of `c`. */
  lemma OtherwiseGuardsWithNegation(v: Validator, c: Cond, s: Step, value: Value, root: Value)
    requires IsRuleStep(s)
    ensures var v' := Configure(v, [When(c), Otherwise, s]);
            && |v'.rules| == |v.rules| + 1
            && (Holds(Last(v').condition, value, root) <==> Holds(OwnCondition(s), value, root) && !Holds(c, value, root))
  {
    var v2 := WhenOtherwise(v, c);
    ConfigureSteps3(v, When(c), Otherwise, s);
    var v' := Apply(v2, s);
    assert Configure(v, [When(c), Otherwise, s]) == v';
    RuleStepGuard(v2, s, value, root);
    assert Holds(v2.currentCondition, value, root) == !Holds(c, value, root);
  }

  /** `when(c).otherwise()` leaves `not c` pending and adds no rule. */
  lemma WhenOtherwise(v: Validator, c: Cond) returns (v2: Validator)
    ensures v2 == Apply(Apply(v, When(c)), Otherwise)
    ensures v2.currentCondition == Not(c) && v2.rules == v.rules
  {
    var v1 := Apply(v, When(c));
    assert v1 == v.(currentCondition := c);
    v2 := Apply(v1, Otherwise);
    assert v2 == v1.(currentCondition := Not(c));
  }

  /** With nothing pending, `otherwise` guards the next rule with "never". */
  lemma OtherwiseWithoutWhen(v: Validator, s: Step, value: Value, root: Value)
    requires IsRuleStep(s)
    requires v.currentCondition == Always
    ensures |Configure(v, [Otherwise, s]).rules| == |v.rules| + 1
    ensures !Holds(Last(Configure(v, [Otherwise, s])).condition, value, root)
  {
    ConfigureSteps2(v, Otherwise, s);
    var v1 := Apply(v, Otherwise);
    assert v1.currentCondition == Not(Always);
    RuleStepGuard(v1, s, value, root);
  }

  // ---------------------------------------------------------------------------------------
  // The rules that run a child validator report nothing of their own

  /** `nested` runs the child validator at the extended path on the derived sub-value, and only
      when the current value is non-null. */
  lemma NestedRunsChild(v: Validator, fieldName: string, get: Value -> Value, steps: seq<Step>, cond: Cond,
                        path: string, value: Value, root: Value, res: Result)
    ensures var v' := Apply(v, Nested(fieldName, get, steps, cond));
            RunRule(Last(v'), v'.messageSource, path, value, root, res)
            == if Holds(cond, value, root) && Holds(v.currentCondition, value, root) && value != Null
               then RunBody(Spawn(steps), NestedPath(path, fieldName), get(value), root, res)
               else res
  {
  }

  /** The nested path is the field name under an empty path, and `parent.fieldName` otherwise. */
  lemma NestedPathShape(path: string, fieldName: string)
    ensures path == "" ==> NestedPath(path, fieldName) == fieldName
    ensures path != "" ==> NestedPath(path, fieldName)[..|path|] == path
                           && NestedPath(path, fieldName)[|path|..] == "." + fieldName
  {
  }

  /** `forEach` on a collection reports, element by element in iteration order, what
      `ElementErrors` says; on anything else it reports nothing. */
  lemma ForEachReportsPerElement(v: Validator, fieldName: string, tag: TypeTag, steps: seq<Step>, cond: Cond,
                                 path: string, value: Value, root: Value, res: Result)
    ensures var v' := Apply(v, ForEach(fieldName, tag, steps, cond));
            RunRule(Last(v'), v'.messageSource, path, value, root, res)
            == if Holds(cond, value, root) && Holds(v.currentCondition, value, root) && value.Collection?
               then AddErrors(res, ElementsErrors(Spawn(steps), ListPath(path, fieldName), tag, value.items, 0, root))
               else res
  {
    if value.Collection? {
      assert value.items[0..] == value.items;
      ItemsInOrder(Spawn(steps), ListPath(path, fieldName), tag, value.items, 0, root, res);
    }
  }

  /** A null element, or one of another type, gets exactly one error, at its indexed path. */
  lemma MistypedElementOneError(child: Body, listPath: string, tag: TypeTag, item: Value, index: nat, root: Value)
    requires !IsInstance(tag, item)
    ensures ElementErrors(child, listPath, tag, item, index, root)
            == [Error(listPath + "[" + NatToString(index) + "]", Some("is not of type " + tag.simpleName))]
  {
  }

  /** `composeConditionally(c, cond)` runs the composite's rules at the same path on the same value,
      under the override AND the composite's default condition (AND anything pending). */
  lemma ComposeConditionallyGuard(v: Validator, c: Composite, cond: Cond,
                                  path: string, value: Value, root: Value, res: Result)
    ensures var v' := Apply(v, ComposeConditionally(c, cond));
            RunRule(Last(v'), v'.messageSource, path, value, root, res)
            == if Holds(cond, value, root) && Holds(c.defaultCondition, value, root) && Holds(v.currentCondition, value, root)
               then RunBody(SpawnComposite(c), path, value, root, res)
               else res
  {
    ComposeConditionallyAddsRule(v, c, cond);
    CompositeRuleRuns(v, SpawnComposite(c), And(cond, c.defaultCondition), path, value, root, res);
    AndHolds(cond, c.defaultCondition, value, root);
  }

  lemma AndHolds(a: Cond, b: Cond, value: Value, root: Value)
    ensures Holds(And(a, b), value, root) == (Holds(a, value, root) && Holds(b, value, root))
  {
  }

  /** `composeConditionally(c, cond)` adds one silent rule that runs the composite's body. */
  lemma ComposeConditionallyAddsRule(v: Validator, c: Composite, cond: Cond)
    ensures Apply(v, ComposeConditionally(c, cond)) == AddRule(v, RunComposite(SpawnComposite(c)), None, And(cond, c.defaultCondition))
  {
  }

  /** `compose(c)` adds the same rule under the composite's default condition. */
  lemma ComposeAddsRule(v: Validator, c: Composite)
    ensures Apply(v, Compose(c)) == AddRule(v, RunComposite(SpawnComposite(c)), None, And(c.defaultCondition, c.defaultCondition))
  {
  }

  /** The silent composite rule runs its body under its condition and the pending one. */
  lemma CompositeRuleRuns(v: Validator, b: Body, cond: Cond, path: string, value: Value, root: Value, res: Result)
    ensures RunRule(Last(AddRule(v, RunComposite(b), None, cond)), v.messageSource, path, value, root, res)
            == if Holds(cond, value, root) && Holds(v.currentCondition, value, root)
               then RunBody(b, path, value, root, res) else res
  {
    SilentRuleRuns(v, RunComposite(b), cond, v.messageSource, path, value, root, res);
  }

  /** A rule added with a null message changes the result exactly as its test does, when its own
      and the pending condition hold, and not at all otherwise. */
  lemma SilentRuleRuns(v: Validator, test: Test, cond: Cond, source: Option<MessageSource>,
                       path: string, value: Value, root: Value, res: Result)
    ensures RunRule(Last(AddRule(v, test, None, cond)), source, path, value, root, res)
            == if Holds(cond, value, root) && Holds(v.currentCondition, value, root)
               then RunTest(test, path, value, root, res).result else res
  {
    var r := Last(AddRule(v, test, None, cond));
    AddRuleGuard(v, test, None, cond, value, root);
    NullMessageRule(r, source, path, value, root, res);
    AddRuleTest(v, test, None, cond, path, value, root, res);
  }

  lemma AddRuleTest(v: Validator, test: Test, message: Option<string>, cond: Cond,
                    path: string, value: Value, root: Value, res: Result)
    ensures RunTest(Last(AddRule(v, test, message, cond)).test, path, value, root, res) == RunTest(test, path, value, root, res)
  {
  }

  lemma NullMessageRule(r: Rule, source: Option<MessageSource>, path: string, value: Value, root: Value, res: Result)
    requires r.errorMessage.None?
    ensures RunRule(r, source, path, value, root, res)
            == if Holds(r.condition, value, root) then RunTest(r.test, path, value, root, res).result else res
  {
  }

  /** `compose(c)` does the same under the composite's default condition alone. */
  lemma ComposeGuard(v: Validator, c: Composite, path: string, value: Value, root: Value, res: Result)
    ensures var v' := Apply(v, Compose(c));
            RunRule(Last(v'), v'.messageSource, path, value, root, res)
            == if Holds(c.defaultCondition, value, root) && Holds(v.currentCondition, value, root)
               then RunBody(SpawnComposite(c), path, value, root, res)
               else res
  {
    ComposeAddsRule(v, c);
    CompositeRuleRuns(v, SpawnComposite(c), And(c.defaultCondition, c.defaultCondition), path, value, root, res);
    AndHolds(c.defaultCondition, c.defaultCondition, value, root);
  }

  /** The composite rule's own verdict is the validity of the whole shared result, so an error
      reported before it makes it fail even when the composite itself adds nothing. Its null
      message keeps that verdict from ever being reported. */
  lemma ComposeVerdictIsGlobal(child: Body, path: string, value: Value, root: Value, res: Result)
    ensures RunTest(RunComposite(child), path, value, root, res).passed
            == IsValid(RunBody(child, path, value, root, res))
    ensures !IsValid(res) ==> !RunTest(RunComposite(child), path, value, root, res).passed
  {
    var out := RunBody(child, path, value, root, res);
    assert res.errors <= out.errors;
  }

  // ---------------------------------------------------------------------------------------
  // Evaluation

  /** Once the top-level condition is false, nothing runs and nothing is reported. */
  lemma GateClosedReportsNothing(v: Validator, root: Value, res: Result)
    requires !Holds(v.topLevelCondition, v.getter(root), root)
    ensures Validate(v, root, res) == res
    ensures ValidatorErrors(v, root) == []
  {
  }

  /** A rule added later reports after every rule added before it. */
  lemma {:induction false} NewRuleReportsLast(v: Validator, s: Step, root: Value)
    requires Valid(v) && IsRuleStep(s)
    requires Holds(v.topLevelCondition, v.getter(root), root)
    ensures var v' := Apply(v, s);
            ValidatorErrors(v', root)
            == ValidatorErrors(v, root) + RuleErrors(Last(v'), v.messageSource, v.fieldPath, v.getter(root), root)
  {
    var v' := Apply(v, s);
    assert v'.messageSource == v.messageSource;
    assert v'.rules == v.rules + [Last(v')];
    assert RuleWellFormed(Last(v'));
    EmittedAppend(v.rules, Last(v'), v.messageSource, v.fieldPath, v.getter(root), root);
  }

  /** Running into a shared result appends exactly what the validator reports on its own. */
  lemma ValidateAppends(v: Validator, root: Value, res: Result)
    requires Valid(v)
    ensures Validate(v, root, res) == AddErrors(res, ValidatorErrors(v, root))
  {
    var value := v.getter(root);
    if Holds(v.topLevelCondition, value, root) {
      FrameBody(BodyOf(v), v.fieldPath, value, root, res);
    }
  }

  /** Every error a validator reports sits at its field path or below it. */
  lemma ValidatorErrorsUnderPath(v: Validator, root: Value)
    ensures forall e :: e in ValidatorErrors(v, root) ==> Extends(v.fieldPath, e.fieldPath)
  {
    var value := v.getter(root);
    if Holds(v.topLevelCondition, value, root) {
      ErrorsUnderPath(BodyOf(v), v.fieldPath, value, root);
    }
  }

  // ---------------------------------------------------------------------------------------
  // Configuration

  /** Running two configurators one after the other is running their calls in sequence. */
  lemma {:induction false} ConfigureAppend(v: Validator, a: seq<Step>, b: seq<Step>)
    ensures Configure(v, a + b) == Configure(Configure(v, a), b)
    decreases |a|
  {
    if a != [] {
      assert (a + b)[0] == a[0] && (a + b)[1..] == a[1..] + b;
      ConfigureAppend(Apply(v, a[0]), a[1..], b);
    } else {
      assert a + b == b;
    }
  }

  /** One call adds the same rules to two validators that agree on laziness and on what is pending. */
  lemma ApplyAddsIndependently(v1: Validator, v2: Validator, s: Step)
    requires v1.lazy == v2.lazy && v1.currentCondition == v2.currentCondition
    ensures Apply(v1, s).rules[|v1.rules|..] == Apply(v2, s).rules[|v2.rules|..]
    ensures Apply(v1, s).currentCondition == Apply(v2, s).currentCondition
  {
    var a1, a2 := Apply(v1, s), Apply(v2, s);
    if IsRuleStep(s) {
      assert a1.rules[|v1.rules|..] == [a1.rules[|v1.rules|]];
      assert a2.rules[|v2.rules|..] == [a2.rules[|v2.rules|]];
    } else {
      assert a1.rules[|v1.rules|..] == [] == a2.rules[|v2.rules|..];
    }
  }

  /** The rules a configurator adds depend only on whether the validator is lazy and on what is
      pending, never on the rules already there: applying it to two validators adds the same rules
      to each and leaves each one's earlier rules as they were. */
  lemma {:induction false} ConfigureAddsIndependently(v1: Validator, v2: Validator, steps: seq<Step>)
    requires v1.lazy == v2.lazy && v1.currentCondition == v2.currentCondition
    ensures Configure(v1, steps).rules[|v1.rules|..] == Configure(v2, steps).rules[|v2.rules|..]
    ensures Configure(v1, steps).currentCondition == Configure(v2, steps).currentCondition
    decreases |steps|
  {
    if steps == [] {
    } else {
      var a1, a2 := Apply(v1, steps[0]), Apply(v2, steps[0]);
      ApplyAddsIndependently(v1, v2, steps[0]);
      ConfigureAddsIndependently(a1, a2, steps[1..]);
      var c1, c2 := Configure(a1, steps[1..]), Configure(a2, steps[1..]);
      assert Configure(v1, steps) == c1 && Configure(v2, steps) == c2;
      SuffixSplit(v1.rules, a1.rules, c1.rules);
      SuffixSplit(v2.rules, a2.rules, c2.rules);
    }
  }

  lemma SuffixSplit<T>(a: seq<T>, b: seq<T>, c: seq<T>)
    requires a <= b <= c
    ensures c[|a|..] == b[|a|..] + c[|b|..]
  {
  }
}
