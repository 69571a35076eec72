/** `ValidationBuilder` of the current engine: the object under validation, the factory choice, and
    the field validators, cross-field validators and plugins registered so far. `validate` runs the
    field validators, then the cross-field validators, then every plugin on every field validator,
    all into one fresh result.

    Java hands the registered validator back to the caller, who goes on configuring it in place;
    here `RuleFor` returns the builder and the validator's position, and `ConfigureField` performs
    the configuration calls on the validator at that position. */
module Builder {
  import opened Values
  import opened Conditions
  import opened Results
  import opened FieldValidator
  import LazyLoading
  import CrossField

  /** A plugin: whether the cast to its validator type succeeds for a given validator, and the
      records it appends when applied to a validator and the result. */
  datatype Plugin = Plugin(name: string, compatible: Validator -> bool, apply: (Validator, Result) -> seq<Error>)

  datatype ValidationBuilder = ValidationBuilder(
    obj: Value,
    lazyFactory: bool,           // built with the lazy-loading validator factory
    validators: seq<Validator>,
    crossFieldValidators: seq<CrossField.CrossFieldValidator>,
    plugins: seq<Plugin>)

  /** `new ValidationBuilder(object[, factory])`: nothing registered yet. */
  function NewBuilder(obj: Value, lazyFactory: bool): (b: ValidationBuilder)
    ensures b.obj == obj && b.lazyFactory == lazyFactory
    ensures b.validators == [] && b.crossFieldValidators == [] && b.plugins == []
  {
    ValidationBuilder(obj, lazyFactory, [], [], [])
  }

  /** `createValidator` of the chosen factory. */
  function CreateValidator(lazyFactory: bool, getter: Value -> Value, fieldPath: string, cond: Cond, root: Value): (v: Validator)
    ensures v.lazy == lazyFactory && v.rules == [] && v.currentCondition == Always && v.messageSource == None
    ensures v.getter == getter && v.fieldPath == fieldPath && v.topLevelCondition == cond && v.root == root
  {
    if lazyFactory then LazyLoading.NewLazy(getter, fieldPath, cond, root) else FieldValidator.New(getter, fieldPath, cond, root)
  }

  /** `ruleFor(fieldName, getter[, condition])`: registers one new validator, with the field name as
      its path, the condition as its top-level gate and the builder's object as its root; the result
      also gives the position of the validator. */
  function RuleFor(b: ValidationBuilder, fieldName: string, getter: Value -> Value, cond: Cond): (r: (ValidationBuilder, nat))
    ensures r.1 == |b.validators|
    ensures r.0.validators == b.validators + [CreateValidator(b.lazyFactory, getter, fieldName, cond, b.obj)]
    ensures r.0 == b.(validators := r.0.validators)
  {
    (b.(validators := b.validators + [CreateValidator(b.lazyFactory, getter, fieldName, cond, b.obj)]), |b.validators|)
  }

  /** The caller's configuration calls on the validator at position `i`. */
  function ConfigureField(b: ValidationBuilder, i: nat, steps: seq<Step>): (b': ValidationBuilder)
    requires i < |b.validators|
    ensures |b'.validators| == |b.validators|
    ensures b'.validators[i] == Configure(b.validators[i], steps)
    ensures forall k :: 0 <= k < |b.validators| && k != i ==> b'.validators[k] == b.validators[k]
    ensures b' == b.(validators := b'.validators)
  {
    b.(validators := b.validators[i := Configure(b.validators[i], steps)])
  }

  /** `ruleForCombination(field1, field2, getter1, getter2)`: registers one new cross-field validator. */
  function RuleForCombination(b: ValidationBuilder, field1: string, field2: string,
                              getter1: Value -> Value, getter2: Value -> Value): (r: (ValidationBuilder, nat))
    ensures r.1 == |b.crossFieldValidators|
    ensures r.0.crossFieldValidators == b.crossFieldValidators + [CrossField.New(field1, field2, getter1, getter2)]
    ensures r.0 == b.(crossFieldValidators := r.0.crossFieldValidators)
  {
    (b.(crossFieldValidators := b.crossFieldValidators + [CrossField.New(field1, field2, getter1, getter2)]),
     |b.crossFieldValidators|)
  }

  /** The variant with a condition, which it installs with `when`. */
  function RuleForCombinationWhen(b: ValidationBuilder, field1: string, field2: string,
                                  getter1: Value -> Value, getter2: Value -> Value, condition: Value -> bool): (r: (ValidationBuilder, nat))
    ensures r.1 == |b.crossFieldValidators|
    ensures r.0.crossFieldValidators
            == b.crossFieldValidators + [CrossField.When(CrossField.New(field1, field2, getter1, getter2), condition)]
    ensures forall o :: CrossField.Gate(r.0.crossFieldValidators[r.1], o) == condition(o)
    ensures r.0 == b.(crossFieldValidators := r.0.crossFieldValidators)
  {
    var x := CrossField.When(CrossField.New(field1, field2, getter1, getter2), condition);
    (b.(crossFieldValidators := b.crossFieldValidators + [x]), |b.crossFieldValidators|)
  }

  /** The caller's configuration calls on the cross-field validator at position `i`. */
  function ConfigureCrossField(b: ValidationBuilder, i: nat, steps: seq<CrossField.CrossStep>): (b': ValidationBuilder)
    requires i < |b.crossFieldValidators|
    ensures |b'.crossFieldValidators| == |b.crossFieldValidators|
    ensures b'.crossFieldValidators[i] == CrossField.ConfigureCross(b.crossFieldValidators[i], steps)
    ensures forall k :: 0 <= k < |b.crossFieldValidators| && k != i ==> b'.crossFieldValidators[k] == b.crossFieldValidators[k]
    ensures b' == b.(crossFieldValidators := b'.crossFieldValidators)
  {
    b.(crossFieldValidators := b.crossFieldValidators[i := CrossField.ConfigureCross(b.crossFieldValidators[i], steps)])
  }

  /** `registerPlugin`: appends one plugin. */
  function RegisterPlugin(b: ValidationBuilder, p: Plugin): (b': ValidationBuilder)
    ensures b'.plugins == b.plugins + [p]
    ensures b' == b.(plugins := b'.plugins)
  {
    b.(plugins := b.plugins + [p])
  }

  // ---------------------------------------------------------------------------------------
  // validate

  /** The field validators from position `i` on, in registration order. */
  function RunFields(vs: seq<Validator>, i: nat, obj: Value, res: Result): (out: Result)
    requires i <= |vs|
    ensures res.errors <= out.errors && out.validatedObject == res.validatedObject
    decreases |vs| - i
  {
    if i == |vs| then res else RunFields(vs, i + 1, obj, FieldValidator.Validate(vs[i], obj, res))
  }

  predicate AllReady(xs: seq<CrossField.CrossFieldValidator>, obj: Value)
  {
    forall k :: 0 <= k < |xs| ==> CrossField.Ready(xs[k], obj)
  }

  /** The cross-field validators from position `i` on, in registration order. */
  function RunCrossFields(xs: seq<CrossField.CrossFieldValidator>, i: nat, obj: Value, res: Result): (out: Result)
    requires i <= |xs| && AllReady(xs, obj)
    ensures res.errors <= out.errors && out.validatedObject == res.validatedObject
    decreases |xs| - i
  {
    if i == |xs| then res else RunCrossFields(xs, i + 1, obj, CrossField.Validate(xs[i], obj, res))
  }

  /** `applyPluginToValidator`: a plugin whose cast fails is skipped (Java prints a warning). */
  function ApplyPluginToValidator(p: Plugin, v: Validator, res: Result): (out: Result)
    ensures res.errors <= out.errors && out.validatedObject == res.validatedObject
    ensures !p.compatible(v) ==> out == res
  {
    if p.compatible(v) then AddErrors(res, p.apply(v, res)) else res
  }

  /** One plugin on the validators from position `j` on. */
  function ApplyPluginFrom(p: Plugin, vs: seq<Validator>, j: nat, res: Result): (out: Result)
    requires j <= |vs|
    ensures res.errors <= out.errors && out.validatedObject == res.validatedObject
    decreases |vs| - j
  {
    if j == |vs| then res else ApplyPluginFrom(p, vs, j + 1, ApplyPluginToValidator(p, vs[j], res))
  }

  /** `applyPlugins`: the plugins from position `i` on, each on every validator. */
  function ApplyPlugins(ps: seq<Plugin>, i: nat, vs: seq<Validator>, res: Result): (out: Result)
    requires i <= |ps|
    ensures res.errors <= out.errors && out.validatedObject == res.validatedObject
    decreases |ps| - i
  {
    if i == |ps| then res else ApplyPlugins(ps, i + 1, vs, ApplyPluginFrom(ps[i], vs, 0, res))
  }

  /** `validate()`: a start result bound to the builder's object, then the three phases. */
  function Validate(b: ValidationBuilder): (out: Result)
    requires AllReady(b.crossFieldValidators, b.obj)
    ensures out.validatedObject == b.obj
  {
    var fields := RunFields(b.validators, 0, b.obj, Results.New(b.obj));
    var cross := RunCrossFields(b.crossFieldValidators, 0, b.obj, fields);
    ApplyPlugins(b.plugins, 0, b.validators, cross)
  }
}

/** What registering and running a builder guarantee. */
module BuilderProperties {
  import opened Values
  import opened Conditions
  import opened Results
  import opened Rules
  import opened FieldValidator
  import opened FieldValidatorProperties
  import opened Builder
  import CrossField

  /** Every registered field validator is well formed. */
  predicate AllValid(b: ValidationBuilder)
  {
    forall k :: 0 <= k < |b.validators| ==> Valid(b.validators[k])
  }

  /** Registering and configuring keep every field validator well formed. */
  lemma RegistrationKeepsValid(b: ValidationBuilder, fieldName: string, getter: Value -> Value, cond: Cond,
                               i: nat, steps: seq<Step>)
    requires AllValid(b)
    ensures AllValid(RuleFor(b, fieldName, getter, cond).0)
    ensures i < |b.validators| ==> AllValid(ConfigureField(b, i, steps))
  {
    var v := CreateValidator(b.lazyFactory, getter, fieldName, cond, b.obj);
    assert Valid(v);
    if i < |b.validators| {
      assert Valid(Configure(b.validators[i], steps));
    }
  }

  /** What the field validators from position `i` on report, each on its own, in order. */
  function FieldErrors(vs: seq<Validator>, i: nat, obj: Value): seq<Error>
    requires i <= |vs|
    decreases |vs| - i
  {
    if i == |vs| then [] else ValidatorErrors(vs[i], obj) + FieldErrors(vs, i + 1, obj)
  }

  /** The field phase reports, in registration order, exactly what each validator reports alone. */
  lemma {:induction false} FieldPhaseInOrder(vs: seq<Validator>, i: nat, obj: Value, res: Result)
    requires i <= |vs|
    requires forall k :: 0 <= k < |vs| ==> Valid(vs[k])
    ensures RunFields(vs, i, obj, res) == AddErrors(res, FieldErrors(vs, i, obj))
    decreases |vs| - i
  {
    if i < |vs| {
      ValidateAppends(vs[i], obj, res);
      var next := FieldValidator.Validate(vs[i], obj, res);
      FieldPhaseInOrder(vs, i + 1, obj, next);
      assert res.errors + ValidatorErrors(vs[i], obj) + FieldErrors(vs, i + 1, obj)
             == res.errors + FieldErrors(vs, i, obj);
    }
  }

  /** The result starts empty: the field validators' records come first, in registration order,
      and the cross-field and plugin phases only append after them. */
  lemma FieldErrorsComeFirst(b: ValidationBuilder)
    requires AllValid(b) && AllReady(b.crossFieldValidators, b.obj)
    ensures var fields := FieldErrors(b.validators, 0, b.obj);
            fields <= Builder.Validate(b).errors
  {
    var start := Results.New(b.obj);
    FieldPhaseInOrder(b.validators, 0, b.obj, start);
    var f := RunFields(b.validators, 0, b.obj, start);
    assert f.errors == FieldErrors(b.validators, 0, b.obj);
  }

  /** With nothing registered, `validate` gives a valid result bound to the object. */
  lemma EmptyBuilderIsValid(obj: Value, lazyFactory: bool)
    ensures IsValid(Builder.Validate(NewBuilder(obj, lazyFactory)))
    ensures GetValidatedObject(Builder.Validate(NewBuilder(obj, lazyFactory))) == obj
  {
  }

  /** The cross-field phase only appends after what the field phase reported, and the plugin
      phase only after that. */
  lemma PhasesAppendInOrder(b: ValidationBuilder)
    requires AllReady(b.crossFieldValidators, b.obj)
    ensures var fields := RunFields(b.validators, 0, b.obj, Results.New(b.obj));
            var cross := RunCrossFields(b.crossFieldValidators, 0, b.obj, fields);
            && fields.errors <= cross.errors <= Builder.Validate(b).errors
            && Builder.Validate(b) == ApplyPlugins(b.plugins, 0, b.validators, cross)
  {
  }

  // ---------------------------------------------------------------------------------------
  // Plugins

  /** Every (plugin, validator) pair, plugin-major: all validators for the first plugin, then all
      for the second, and so on. */
  function Pairs(ps: seq<Plugin>, vs: seq<Validator>): (pairs: seq<(Plugin, Validator)>)
    ensures |pairs| == |ps| * |vs|
  {
    if ps == [] then [] else PairsWith(ps[0], vs) + Pairs(ps[1..], vs)
  }

  function PairsWith(p: Plugin, vs: seq<Validator>): (pairs: seq<(Plugin, Validator)>)
    ensures |pairs| == |vs|
    ensures forall k :: 0 <= k < |vs| ==> pairs[k] == (p, vs[k])
  {
    if vs == [] then [] else [(p, vs[0])] + PairsWith(p, vs[1..])
  }

  /** Applies the pairs in order. */
  function RunPairs(pairs: seq<(Plugin, Validator)>, res: Result): Result
  {
    if pairs == [] then res else RunPairs(pairs[1..], ApplyPluginToValidator(pairs[0].0, pairs[0].1, res))
  }

  lemma {:induction false} RunPairsAppend(a: seq<(Plugin, Validator)>, c: seq<(Plugin, Validator)>, res: Result)
    ensures RunPairs(a + c, res) == RunPairs(c, RunPairs(a, res))
    decreases |a|
  {
    if a == [] {
      assert a + c == c;
    } else {
      assert (a + c)[0] == a[0] && (a + c)[1..] == a[1..] + c;
      RunPairsAppend(a[1..], c, ApplyPluginToValidator(a[0].0, a[0].1, res));
    }
  }

  lemma {:induction false} PluginFromIsPairs(p: Plugin, vs: seq<Validator>, j: nat, res: Result)
    requires j <= |vs|
    ensures ApplyPluginFrom(p, vs, j, res) == RunPairs(PairsWith(p, vs[j..]), res)
    decreases |vs| - j
  {
    if j == |vs| {
      assert vs[j..] == [];
    } else {
      assert vs[j..][0] == vs[j] && vs[j..][1..] == vs[j + 1..];
      PluginFromIsPairs(p, vs, j + 1, ApplyPluginToValidator(p, vs[j], res));
    }
  }

  /** The nested plugin loops apply every pair once, plugin-major, in registration order. */
  lemma {:induction false} PluginsArePairs(ps: seq<Plugin>, i: nat, vs: seq<Validator>, res: Result)
    requires i <= |ps|
    ensures ApplyPlugins(ps, i, vs, res) == RunPairs(Pairs(ps[i..], vs), res)
    decreases |ps| - i
  {
    if i == |ps| {
      assert ps[i..] == [];
    } else {
      PluginFromIsPairs(ps[i], vs, 0, res);
      assert vs[0..] == vs;
      var next := ApplyPluginFrom(ps[i], vs, 0, res);
      PluginsArePairs(ps, i + 1, vs, next);
      assert ps[i..][0] == ps[i] && ps[i..][1..] == ps[i + 1..];
      RunPairsAppend(PairsWith(ps[i], vs), Pairs(ps[i + 1..], vs), res);
    }
  }

  /** The pairs whose cast succeeds. */
  function Compatible(pairs: seq<(Plugin, Validator)>): seq<(Plugin, Validator)>
  {
    if pairs == [] then []
    else (if pairs[0].0.compatible(pairs[0].1) then [pairs[0]] else []) + Compatible(pairs[1..])
  }

  /** A failed cast is swallowed and the remaining pairs still run: running all pairs is running
      just the compatible ones. */
  lemma {:induction false} IncompatiblePairsSkipped(pairs: seq<(Plugin, Validator)>, res: Result)
    ensures RunPairs(pairs, res) == RunPairs(Compatible(pairs), res)
    decreases |pairs|
  {
    if pairs != [] {
      var p, v := pairs[0].0, pairs[0].1;
      var next := ApplyPluginToValidator(p, v, res);
      IncompatiblePairsSkipped(pairs[1..], next);
      if p.compatible(v) {
        RunPairsAppend([pairs[0]], Compatible(pairs[1..]), res);
        assert RunPairs([pairs[0]], res) == next;
      } else {
        assert Compatible(pairs) == Compatible(pairs[1..]);
      }
    }
  }

  /** The plugin phase of `validate`, as one run over the compatible pairs. */
  lemma PluginPhase(b: ValidationBuilder, res: Result)
    ensures ApplyPlugins(b.plugins, 0, b.validators, res) == RunPairs(Compatible(Pairs(b.plugins, b.validators)), res)
  {
    PluginsArePairs(b.plugins, 0, b.validators, res);
    assert b.plugins[0..] == b.plugins;
    IncompatiblePairsSkipped(Pairs(b.plugins, b.validators), res);
  }
}
