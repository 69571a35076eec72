/** `LazyLoadingValidator`: a field validator whose `addRule` wraps the test and the condition in
    suppliers that hand them back when asked. The wrapping is visible in the rules it stores but
    not in anything a run reports. */
module LazyLoading {
  import opened Values
  import opened Conditions
  import opened Results
  import opened Rules
  import opened FieldValidator

  /** `new LazyLoadingValidator(getter, fieldPath, topLevelCondition, root)`. */
  function NewLazy(getter: Value -> Value, fieldPath: string, topLevelCondition: Cond, root: Value): (v: Validator)
    ensures v.lazy
    ensures v.getter == getter && v.fieldPath == fieldPath && v.topLevelCondition == topLevelCondition && v.root == root
    ensures v.rules == [] && v.currentCondition == Always && v.messageSource == None
  {
    FieldValidator.New(getter, fieldPath, topLevelCondition, root).(lazy := true)
  }

  /** The lazy rule `l` is the eager rule `e` with its test and own condition behind suppliers. */
  ghost predicate RuleMirrors(l: Rule, e: Rule)
  {
    e.condition.And? && l == Rule(Supplied(e.test), e.errorMessage, And(Deferred(e.condition.left), e.condition.right))
  }

  /** A lazy validator and an eager one that received the same configuration calls. */
  ghost predicate Mirrors(l: Validator, e: Validator)
  {
    && l.lazy && !e.lazy
    && l == e.(lazy := true, rules := l.rules)
    && |l.rules| == |e.rules|
    && forall i :: 0 <= i < |l.rules| ==> RuleMirrors(l.rules[i], e.rules[i])
  }

  /** Each configuration call keeps a lazy validator and its eager twin in step. */
  lemma ApplyMirrors(l: Validator, e: Validator, s: Step)
    requires Mirrors(l, e)
    ensures Mirrors(Apply(l, s), Apply(e, s))
  {
    var l', e' := Apply(l, s), Apply(e, s);
    if IsRuleStep(s) {
      var n := |l.rules|;
      assert l'.rules == l.rules + [l'.rules[n]] && e'.rules == e.rules + [e'.rules[n]];
      assert RuleMirrors(l'.rules[n], e'.rules[n]);
      forall i | 0 <= i < |l'.rules|
        ensures RuleMirrors(l'.rules[i], e'.rules[i])
      {
        if i < n {
          assert l'.rules[i] == l.rules[i] && e'.rules[i] == e.rules[i];
        }
      }
    }
  }

  lemma {:induction false} ConfigureMirrors(l: Validator, e: Validator, steps: seq<Step>)
    requires Mirrors(l, e)
    ensures Mirrors(Configure(l, steps), Configure(e, steps))
    decreases |steps|
  {
    if steps != [] {
      ApplyMirrors(l, e, steps[0]);
      ConfigureMirrors(Apply(l, steps[0]), Apply(e, steps[0]), steps[1..]);
    }
  }

  /** A supplied rule runs exactly as the rule it wraps. */
  lemma RuleMirrorsRun(l: Rule, e: Rule, source: Option<MessageSource>, path: string, value: Value, root: Value, res: Result)
    requires RuleMirrors(l, e)
    ensures RunRule(l, source, path, value, root, res) == RunRule(e, source, path, value, root, res)
  {
    MirroredGuard(l, e, value, root);
    MirroredTest(l, e, path, value, root, res);
    SameRun(l, e, source, path, value, root, res);
  }

  lemma MirroredGuard(l: Rule, e: Rule, value: Value, root: Value)
    requires RuleMirrors(l, e)
    ensures Holds(l.condition, value, root) == Holds(e.condition, value, root)
  {
  }

  lemma MirroredTest(l: Rule, e: Rule, path: string, value: Value, root: Value, res: Result)
    requires RuleMirrors(l, e)
    ensures RunTest(l.test, path, value, root, res) == RunTest(e.test, path, value, root, res)
  {
  }

  /** A rule's run depends only on whether its condition holds, what its test returns and its message. */
  lemma SameRun(l: Rule, e: Rule, source: Option<MessageSource>, path: string, value: Value, root: Value, res: Result)
    requires Holds(l.condition, value, root) == Holds(e.condition, value, root)
    requires RunTest(l.test, path, value, root, res) == RunTest(e.test, path, value, root, res)
    requires l.errorMessage == e.errorMessage
    ensures RunRule(l, source, path, value, root, res) == RunRule(e, source, path, value, root, res)
  {
  }

  lemma {:induction false} RulesMirrorRun(ls: seq<Rule>, es: seq<Rule>, source: Option<MessageSource>, i: nat,
                                          path: string, value: Value, root: Value, res: Result)
    requires |ls| == |es| && i <= |ls|
    requires forall k :: 0 <= k < |ls| ==> RuleMirrors(ls[k], es[k])
    ensures RunRules(Body(ls, source), i, path, value, root, res) == RunRules(Body(es, source), i, path, value, root, res)
    decreases |ls| - i
  {
    if i < |ls| {
      RuleMirrorsRun(ls[i], es[i], source, path, value, root, res);
      var next := RunRule(es[i], source, path, value, root, res);
      RulesMirrorRun(ls, es, source, i + 1, path, value, root, next);
    }
  }

  /** Whatever calls configure it, a lazy-loading validator reports exactly what a plain validator
      configured the same way reports, on every root and into every result. */
  lemma LazyValidatesLikeEager(getter: Value -> Value, fieldPath: string, top: Cond, stored: Value,
                               steps: seq<Step>, root: Value, res: Result)
    ensures Validate(Configure(NewLazy(getter, fieldPath, top, stored), steps), root, res)
            == Validate(Configure(FieldValidator.New(getter, fieldPath, top, stored), steps), root, res)
  {
    var l := Configure(NewLazy(getter, fieldPath, top, stored), steps);
    var e := Configure(FieldValidator.New(getter, fieldPath, top, stored), steps);
    ConfigureMirrors(NewLazy(getter, fieldPath, top, stored), FieldValidator.New(getter, fieldPath, top, stored), steps);
    var value := getter(root);
    RulesMirrorRun(l.rules, e.rules, e.messageSource, 0, fieldPath, value, root, res);
  }
}
