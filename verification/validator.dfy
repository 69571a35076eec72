/** The field validator of the current engine: a getter, a field path, a top-level condition, the
    stored root, and the rules added so far, together with the pending condition that `when` and
    `otherwise` set for the next rule and an optional message source.

    The configuration calls a caller (or a configurator handed to `nested`, `forEach` or a
    composite) can make are the `Step`s; a configurator is the sequence of steps it performs. */
module FieldValidator {
  import opened Values
  import opened Conditions
  import opened Results
  import opened Rules

  datatype Validator = Validator(
    getter: Value -> Value,
    fieldPath: string,
    topLevelCondition: Cond,
    root: Value,
    lazy: bool,                      // built by the lazy-loading factory
    rules: seq<Rule>,
    currentCondition: Cond,          // the pending condition for the next rule
    messageSource: Option<MessageSource>)

  /** One configuration call on a validator. `Satisfies` takes the two-argument predicate; the
      one-argument overloads are `SatisfiesValue`. `Compose` is `compose(c)`
      and the one-argument `composeConditionally(c)`, which do the same thing. */
  datatype Step =
    | NotNull(cond: Cond)
    | NotEmpty(cond: Cond)
    | Satisfies(pred: (Value, Value) -> bool, message: Option<string>, cond: Cond)
    | Matches(regex: Regex, cond: Cond)
    | GreaterThan(min: Bound, cond: Cond)
    | Nested(fieldName: string, get: Value -> Value, configure: seq<Step>, cond: Cond)
    | ForEach(fieldName: string, tag: TypeTag, configure: seq<Step>, cond: Cond)
    | Compose(composite: Composite)
    | ComposeConditionally(composite: Composite, cond: Cond)
    | When(cond: Cond)
    | Otherwise
    | WithMessageSource(source: MessageSource)

  /** A composite validator: configurators in registration order and a default condition. */
  datatype Composite = Composite(configurators: seq<Configurator>, defaultCondition: Cond)

  /** A `Consumer<IValidator>`: the configuration calls it makes, in order. */
  datatype Configurator = Configurator(steps: seq<Step>)

  /** `satisfies(Predicate<T>, message, condition)`: the two-argument form with a predicate that
      ignores the root. */
  function SatisfiesValue(p: Value -> bool, message: Option<string>, cond: Cond): Step
  {
    Satisfies((value, root) => p(value), message, cond)
  }

  /** `new Validator(getter, fieldPath, topLevelCondition, root)`: no rules, nothing pending. */
  function New(getter: Value -> Value, fieldPath: string, topLevelCondition: Cond, root: Value): (v: Validator)
    ensures v.getter == getter && v.fieldPath == fieldPath && v.topLevelCondition == topLevelCondition && v.root == root
    ensures !v.lazy && v.rules == [] && v.currentCondition == Always && v.messageSource == None
  {
    Validator(getter, fieldPath, topLevelCondition, root, false, [], Always, None)
  }

  /** The transient validator a `nested`, `forEach` or composite rule configures. Only its rules
      and message source matter: its path and value are supplied when it runs. */
  const Scratch := New((v: Value) => Null, "", Always, Null)

  predicate IsRuleStep(s: Step)
  {
    !(s.When? || s.Otherwise? || s.WithMessageSource?)
  }

  /** `addRule`: stores the rule with the pending condition ANDed onto its own, then resets the
      pending condition. A lazy-loading validator first wraps test and condition in suppliers. */
  function AddRule(v: Validator, test: Test, message: Option<string>, cond: Cond): (v': Validator)
    ensures |v'.rules| == |v.rules| + 1 && v'.rules[..|v.rules|] == v.rules
    ensures v'.rules[|v.rules|].errorMessage == message
    ensures forall value, root :: Holds(v'.rules[|v.rules|].condition, value, root)
                                  <==> Holds(cond, value, root) && Holds(v.currentCondition, value, root)
    ensures forall path, value, root, res :: RunTest(v'.rules[|v.rules|].test, path, value, root, res)
                                             == RunTest(test, path, value, root, res)
    ensures v'.currentCondition == Always
    ensures v' == v.(rules := v'.rules, currentCondition := Always)
    ensures Valid(v) && (Structural(test) ==> message.None?) && TestWellFormed(test) ==> Valid(v')
  {
    var rule := if v.lazy then Rule(Supplied(test), message, And(Deferred(cond), v.currentCondition))
                else Rule(test, message, And(cond, v.currentCondition));
    assert Structural(rule.test) == Structural(test) && TestWellFormed(rule.test) == TestWellFormed(test);
    v.(rules := v.rules + [rule], currentCondition := Always)
  }

  /** The condition a rule step brings of its own, before the pending one is ANDed on. */
  function OwnCondition(s: Step): Cond
    requires IsRuleStep(s)
  {
    match s
    case NotNull(cond) => cond
    case NotEmpty(cond) => cond
    case Satisfies(_, _, cond) => cond
    case Matches(_, cond) => cond
    case GreaterThan(_, cond) => cond
    case Nested(_, _, _, cond) => cond
    case ForEach(_, _, _, cond) => cond
    case Compose(c) => And(c.defaultCondition, c.defaultCondition)
    case ComposeConditionally(c, cond) => And(cond, c.defaultCondition)
  }

  // The plain tests of the built-in rules.
  function NotNullTest(): Test { Check((value, root) => value != Null) }
  function NotEmptyTest(): Test { Check((value, root) => IsNonEmpty(value)) }
  function SatisfiesTest(pred: (Value, Value) -> bool): Test { Check((value, root) => value == Null || pred(value, root)) }
  function MatchesTest(regex: Regex): Test { Check((value, root) => value != Null && regex.fullMatch(Show(value))) }
  function GreaterThanTest(min: Bound): Test { Check((value, root) => value != Null && min.compareTo(value) < 0) }

  /** The test a rule-adding call stores. */
  function StepTest(s: Step): (t: Test)
    requires IsRuleStep(s)
    ensures TestWellFormed(t)
    ensures Structural(t) <==> s.Nested? || s.ForEach? || s.Compose? || s.ComposeConditionally?
    decreases s, 0
  {
    match s
    case NotNull(_) => NotNullTest()
    case NotEmpty(_) => NotEmptyTest()
    case Satisfies(pred, _, _) => SatisfiesTest(pred)
    case Matches(regex, _) => MatchesTest(regex)
    case GreaterThan(min, _) => GreaterThanTest(min)
    case Nested(fieldName, get, configure, _) => RunNested(fieldName, get, Spawn(configure))
    case ForEach(fieldName, tag, configure, _) => RunForEach(fieldName, tag, Spawn(configure))
    case Compose(c) => RunComposite(SpawnComposite(c))
    case ComposeConditionally(c, _) => RunComposite(SpawnComposite(c))
  }

  /** The message a rule-adding call stores: none for the calls that run a child validator. */
  function StepMessage(s: Step): (m: Option<string>)
    requires IsRuleStep(s)
    ensures s.Nested? || s.ForEach? || s.Compose? || s.ComposeConditionally? ==> m.None?
  {
    match s
    case NotNull(_) => Some("must not be null")
    case NotEmpty(_) => Some("must not be empty")
    case Satisfies(_, message, _) => message
    case Matches(regex, _) => Some("must match pattern: " + regex.pattern)
    case GreaterThan(min, _) => Some("must be greater than " + min.shown)
    case _ => None
  }

  /** Performs one configuration call. */
  function Apply(v: Validator, s: Step): (v': Validator)
    ensures v.rules <= v'.rules
    ensures |v'.rules| == |v.rules| + (if IsRuleStep(s) then 1 else 0)
    ensures v'.getter == v.getter && v'.fieldPath == v.fieldPath && v'.topLevelCondition == v.topLevelCondition
    ensures v'.root == v.root && v'.lazy == v.lazy
    ensures IsRuleStep(s) ==> v'.currentCondition == Always
    ensures Valid(v) ==> Valid(v')
    decreases s, 1
  {
    if IsRuleStep(s) then AddRule(v, StepTest(s), StepMessage(s), OwnCondition(s))
    else
      match s
      case When(cond) => v.(currentCondition := cond)
      case Otherwise => v.(currentCondition := Not(v.currentCondition))
      case WithMessageSource(source) => v.(messageSource := Some(source))
  }

  /** Performs the calls of a configurator one after the other. */
  function Configure(v: Validator, steps: seq<Step>): (v': Validator)
    ensures v.rules <= v'.rules
    ensures v'.getter == v.getter && v'.fieldPath == v.fieldPath && v'.topLevelCondition == v.topLevelCondition
    ensures v'.root == v.root && v'.lazy == v.lazy
    ensures Valid(v) ==> Valid(v')
    decreases steps, 0
  {
    if steps == [] then v else Configure(Apply(v, steps[0]), steps[1..])
  }

  /** What a configurator puts into a fresh transient validator. */
  function Spawn(steps: seq<Step>): (b: Body)
    ensures WellFormed(b)
    decreases steps, 1
  {
    var v := Configure(Scratch, steps);
    Body(v.rules, v.messageSource)
  }

  /** `applyTo`: runs every configurator of the composite, in registration order. */
  function ApplyTo(c: Composite, v: Validator): (v': Validator)
    ensures v.rules <= v'.rules
    ensures v'.getter == v.getter && v'.fieldPath == v.fieldPath && v'.topLevelCondition == v.topLevelCondition
    ensures v'.root == v.root && v'.lazy == v.lazy
    ensures Valid(v) ==> Valid(v')
    decreases c, 1
  {
    ApplyFrom(c, 0, v)
  }

  function ApplyFrom(c: Composite, i: nat, v: Validator): (v': Validator)
    requires i <= |c.configurators|
    ensures v.rules <= v'.rules
    ensures v'.getter == v.getter && v'.fieldPath == v.fieldPath && v'.topLevelCondition == v.topLevelCondition
    ensures v'.root == v.root && v'.lazy == v.lazy
    ensures Valid(v) ==> Valid(v')
    decreases c, 0, |c.configurators| - i
  {
    if i == |c.configurators| then v
    else
      assert c.configurators[i] in c.configurators;
      ApplyFrom(c, i + 1, Configure(v, c.configurators[i].steps))
  }

  /** What the composite puts into the transient validator a composite rule runs. */
  function SpawnComposite(c: Composite): (b: Body)
    ensures WellFormed(b)
    decreases c, 2
  {
    var v := ApplyTo(c, Scratch);
    Body(v.rules, v.messageSource)
  }

  /** The body a validator evaluates. */
  function BodyOf(v: Validator): Body
  {
    Body(v.rules, v.messageSource)
  }

  predicate Valid(v: Validator)
  {
    WellFormed(Body(v.rules, None))
  }

  /** `validate(root, result)`: derives the value; when the top-level condition holds for it, runs
      every rule in declaration order against the shared result. */
  function Validate(v: Validator, root: Value, res: Result): (out: Result)
    ensures !Holds(v.topLevelCondition, v.getter(root), root) ==> out == res
    ensures res.errors <= out.errors && out.validatedObject == res.validatedObject
  {
    var value := v.getter(root);
    if Holds(v.topLevelCondition, value, root) then RunBody(BodyOf(v), v.fieldPath, value, root, res)
    else res
  }

  /** `validate()`: runs against the stored root into a fresh result bound to it. */
  function ValidateAlone(v: Validator): (out: Result)
    ensures out.validatedObject == v.root
    ensures Valid(v) ==> out.errors == ValidatorErrors(v, v.root)
  {
    if Valid(v) then
      FromEmpty(v, v.root, Results.New(v.root));
      Validate(v, v.root, Results.New(v.root))
    else Validate(v, v.root, Results.New(v.root))
  }

  /** Into a result that holds no records yet, a validator reports exactly its own errors, whatever
      object the result is bound to. */
  lemma FromEmpty(v: Validator, root: Value, res: Result)
    requires Valid(v) && res.errors == []
    ensures Validate(v, root, res).errors == ValidatorErrors(v, root)
  {
    var value := v.getter(root);
    if Holds(v.topLevelCondition, value, root) {
      FrameBody(BodyOf(v), v.fieldPath, value, root, res);
    }
  }

  /** The errors a validator adds to a run, on its own. */
  function ValidatorErrors(v: Validator, root: Value): seq<Error>
  {
    Validate(v, root, Blank).errors
  }
}
