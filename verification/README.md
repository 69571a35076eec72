# A Dafny model of a fluent Java validation library

The library validates a Java object by registering, field by field, lists of rules. A rule is a
predicate, an optional error message and a condition. Running the validators appends
`(fieldPath, message)` records to one shared result. The library has two engines:

- **The current engine** (package `rules`):
  - a field `Validator` with built-in rules (`notNull`, `notEmpty`, `satisfies`, `matches`,
    `greaterThan`);
  - child-running rules (`nested`, `forEach`, `compose`, `composeConditionally`);
  - a pending-condition protocol (`when` / `otherwise`);
  - a `CrossFieldValidator` over two fields, with a negatable gate and a replaceable error handler;
  - a `CompositeValidator` of reusable configurators;
  - a lazy-loading validator;
  - a `ValidationBuilder` that runs field validators, then cross-field validators, then plugins.
- **The legacy engine** (`engine/ValidationFramework.java`): the same ideas, but errors are plain
  strings `name + " " + message` and paths are built differently.
- **`GroupValidator`**: a set of active groups.

The model is a deep embedding. Values are a small algebraic datatype (`Values.Value`: null,
booleans, integers, strings, lists, sets, arrays, objects with named fields). Three features are
data rather than Java closures:

- **Rules** are data (`Rules.Rule`). The child-running rules hold the body of rules their child
  validator was configured with.
- **Configurators** are data: each `Consumer<IValidator>` is the sequence of fluent calls it makes
  (`FieldValidator.Step`).
- **Conditions** are a small syntax (`Conditions.Cond`: always-true, a test, `and`, `negate`), so
  that `when` / `otherwise` can be reasoned about.

Evaluation is a pure function from a result to a result, and a result only ever grows. The frame
lemmas (`Rules.FrameBody` and its companions) show that what a validator adds does not depend on
what the result already held. Many properties can therefore be stated about the appended error
sequence alone.

The modules follow the source files:

- `Values`, `Conditions`, `Results` (with `ValidationError`), `Rules` (`ValidationRule` and the
  evaluation loop of `Validator.validate`) and `FieldValidator` (`Validator.java`);
- `CompositeValidator`, `LazyLoading`, `CrossField` and `Builder`;
- `LegacyEngine` and `Groups`;
- a `...Properties` module next to each engine module, holding the lemmas;
- `Scenarios`, which holds three runs worked end to end on concrete objects.

## Model

| member | source | states |
|---|---|---|
| Values.NonEmptyExactly | src/main/java/com/shub/validation/rules/Validator.java:48-53 | A value counts as empty exactly when it is null, the empty string, an empty collection or an empty array; every other value is non-empty. |
| Values.NatToStringInjective | src/main/java/com/shub/validation/rules/Validator.java:134 | Decimal index rendering is injective, so different list positions are rendered differently. |
| Values.IntBound | src/main/java/com/shub/validation/rules/Validator.java:94-97 | An integer `Comparable` bound compares below `Num(n)` exactly when `min < n`, and prints as the decimal of `min`. |
| Conditions.NotNot | src/main/java/com/shub/validation/rules/Validator.java:175-178 | Negating a condition twice gives back a condition that holds exactly when the original does. |
| Results.ToString | src/main/java/com/shub/validation/rules/ValidationError.java:24-26 | The text of an error is its path, then `": "`, then its message (`null` for a missing one), and nothing else. |
| Results.New | src/main/java/com/shub/validation/rules/ValidationResult.java:13-15 | A fresh result is valid, holds no errors and reports the constructor argument as its validated object. |
| Results.AddError | src/main/java/com/shub/validation/rules/ValidationResult.java:18-20 | Adding an error appends exactly one `(path, message)` record at the end, keeps every earlier record and the validated object, and makes the result invalid. |
| Results.ValidatedObjectIsFixed | src/main/java/com/shub/validation/rules/ValidationResult.java:10-35 | After any sequence of `addError` calls on a fresh result, `getValidatedObject` is still the constructor argument, `getErrors` is exactly the added records in order, and `isValid` holds iff nothing was added. |
| Rules.FrameBody | src/main/java/com/shub/validation/rules/Validator.java:194-211 | A well-formed body run on any result appends the same error sequence that it appends to an empty one; earlier records are never changed or reordered. |
| RuleProperties.CheckRuleOutcome | src/main/java/com/shub/validation/rules/ValidationRule.java:20-22 | A plain rule's test returns exactly its predicate's verdict on (value, root). The rule appends one record, the rendered message at the validator's path, iff its condition holds, the predicate fails and the message is not null; otherwise the result is unchanged. |
| RuleProperties.RunRulesAppend | src/main/java/com/shub/validation/rules/Validator.java:199-208 | Rules run in declaration order: running a list with one more rule is running the list and then that rule. |
| RuleProperties.EmittedAppend | src/main/java/com/shub/validation/rules/Validator.java:199-208 | The errors of a well-formed body with one more rule are the errors of the body followed by that rule's errors. |
| RuleProperties.NestedPathExtends | src/main/java/com/shub/validation/rules/Validator.java:106 | A nested path is the parent path itself (when empty) extended by a field name, or the parent path followed by a dot and more. |
| RuleProperties.IndexedPathExtends | src/main/java/com/shub/validation/rules/Validator.java:127-134 | An indexed element path `listPath[i]` lies under the list path, and under the validator's own path. |
| RuleProperties.ErrorsUnderPath | src/main/java/com/shub/validation/rules/Validator.java:105-146 | Every error a body reports, however deeply nested and forEach rules recurse, is at the validator's own path or below it. |
| RuleProperties.ItemsInOrder | src/main/java/com/shub/validation/rules/Validator.java:128-145 | The forEach loop appends, element by element in iteration order from index 0, the errors each element produces on its own. |
| RuleProperties.IndexedPathsDistinct | src/main/java/com/shub/validation/rules/Validator.java:134 | Two different indices give two different element paths. |
| Rules.RunRule | src/main/java/com/shub/validation/rules/Validator.java:199-207 | A rule never removes or reorders records and keeps the validated object. `RuleProperties.CheckRuleOutcome` gives its exact effect for a plain check, and `FieldValidatorProperties.NullMessageRule` for a rule with a null message. |
| Rules.RunTest | src/main/java/com/shub/validation/rules/Validator.java:105-165 | A test only appends and keeps the validated object. `Rules.FrameTest` shows that what it appends does not depend on what the result held. |
| Rules.RunItems | src/main/java/com/shub/validation/rules/Validator.java:128-145 | The `forEach` loop only appends; `RuleProperties.ItemsInOrder` states exactly what it appends. |
| Rules.RunItem | src/main/java/com/shub/validation/rules/Validator.java:133-140 | One element only appends; `RuleProperties.ItemReports` and `FieldValidatorProperties.MistypedElementOneError` state exactly what. |
| FieldValidator.New | src/main/java/com/shub/validation/rules/Validator.java:24-30 | A new validator stores getter, path, top-level condition and root unchanged, and has no rules, an always-true pending condition and no message source. |
| FieldValidator.AddRule | src/main/java/com/shub/validation/rules/Validator.java:186-190 | `addRule` appends exactly one rule and keeps the earlier ones. The new rule's condition holds iff the given condition and the pending one both hold, its test behaves as the given test, and the pending condition is reset to always-true. |
| FieldValidator.Apply | src/main/java/com/shub/validation/rules/Validator.java:37-184 | A configuration call only appends rules: one for each rule-adding call, none for `when`, `otherwise` and `withMessageSource`. It keeps getter, path, gate, root and laziness, resets the pending condition after adding a rule, and keeps a validator well-formed. |
| FieldValidator.Validate | src/main/java/com/shub/validation/rules/Validator.java:194-211 | When the top-level condition rejects the derived value, the result is unchanged; in every case records are only appended and the validated object is kept. |
| FieldValidator.ValidateAlone | src/main/java/com/shub/validation/rules/Validator.java:213-217 | The no-argument `validate` returns a result bound to the validator's stored root whose errors are exactly the validator's own errors on that root. This holds for every well-formed validator, and every call keeps a validator well-formed. |
| FieldValidatorProperties.SatisfiesIgnoresNull | src/main/java/com/shub/validation/rules/Validator.java:73-75 | A `satisfies` rule never changes the result on a null value, for every predicate, message and condition. |
| FieldValidatorProperties.SatisfiesValueReports | src/main/java/com/shub/validation/rules/Validator.java:57-65 | The one-argument `satisfies(p, message)` never reports null. On a non-null value, with its own and the pending condition holding, it reports exactly one record with its message at the path iff `p` rejects the value, whatever the root; otherwise nothing. |
| FieldValidatorProperties.NotNullReportsNull | src/main/java/com/shub/validation/rules/Validator.java:37-39 | A `notNull` rule reports exactly one `"must not be null"` record at the path iff the value is null and both its own and the pending condition hold; otherwise it reports nothing. |
| FieldValidatorProperties.NotEmptyFailsExactly | src/main/java/com/shub/validation/rules/Validator.java:47-55 | A `notEmpty` test fails exactly for null, the empty string, an empty collection and an empty array. |
| FieldValidatorProperties.MatchesPassesExactly | src/main/java/com/shub/validation/rules/Validator.java:83-86 | A `matches` test passes iff the value is non-null and the whole of its text matches the pattern; its message is `"must match pattern: " + regex`. |
| FieldValidatorProperties.GreaterThanPassesExactly | src/main/java/com/shub/validation/rules/Validator.java:94-97 | A `greaterThan` test passes iff the value is non-null and `min.compareTo(value) < 0`; its message is `"must be greater than " + min`. |
| FieldValidatorProperties.GreaterThanInt | src/main/java/com/shub/validation/rules/Validator.java:94-97 | On integers, `greaterThan(min)` passes exactly for `n > min`. |
| FieldValidatorProperties.RuleStepGuard | src/main/java/com/shub/validation/rules/Validator.java:186-188 | Every rule-adding call adds exactly one rule, whose condition is its own condition AND the pending one. |
| FieldValidatorProperties.WhenGuardsNextRuleOnly | src/main/java/com/shub/validation/rules/Validator.java:169-190 | After `when(c)`, the next rule is guarded by `c` and the rule after it is not, and the pending condition is back to always-true. |
| FieldValidatorProperties.OtherwiseGuardsWithNegation | src/main/java/com/shub/validation/rules/Validator.java:175-178 | `when(c).otherwise()` guards the next rule by the negation of `c`. |
| FieldValidatorProperties.OtherwiseWithoutWhen | src/main/java/com/shub/validation/rules/Validator.java:175-178 | `otherwise()` with no pending `when` negates always-true, so the next rule never runs. |
| FieldValidatorProperties.NestedRunsChild | src/main/java/com/shub/validation/rules/Validator.java:105-118 | A `nested` rule whose conditions hold runs the child's rules at the nested path on the derived value when the value is non-null, and does nothing on null or when gated off; it never reports an error of its own. |
| FieldValidatorProperties.NestedPathShape | src/main/java/com/shub/validation/rules/Validator.java:106 | The nested path is the field name under an empty parent path, and otherwise the parent path, a dot, and the field name. |
| FieldValidatorProperties.ForEachReportsPerElement | src/main/java/com/shub/validation/rules/Validator.java:126-146 | A `forEach` rule whose conditions hold appends, for a collection, the errors of every element in order, and nothing for a non-collection value. |
| FieldValidatorProperties.MistypedElementOneError | src/main/java/com/shub/validation/rules/Validator.java:138-140 | An element that is not an instance of the element type (null included) yields exactly one record, `"is not of type " + simpleName`, at `listPath[index]`. |
| FieldValidatorProperties.ComposeConditionallyGuard | src/main/java/com/shub/validation/rules/Validator.java:159-166 | `composeConditionally(c, cond)` runs the composite's rules at the validator's path iff `cond`, the composite's default condition and the pending condition all hold, and otherwise does nothing. |
| FieldValidatorProperties.ComposeGuard | src/main/java/com/shub/validation/rules/Validator.java:149-151 | `compose(c)` behaves as `composeConditionally` with the composite's default condition: it runs the composite's rules iff that default and the pending condition hold. |
| FieldValidatorProperties.ComposeVerdictIsGlobal | src/main/java/com/shub/validation/rules/Validator.java:160-165 | The composite rule's verdict is the validity of the whole shared result, so it fails whenever any earlier error exists. |
| FieldValidatorProperties.NullMessageRule | src/main/java/com/shub/validation/rules/Validator.java:199-207 | A rule with a null message never adds a record of its own: it only keeps what its test appended. |
| FieldValidatorProperties.GateClosedReportsNothing | src/main/java/com/shub/validation/rules/Validator.java:195-196 | When the top-level condition rejects the value, `validate` appends nothing, whatever the rules are. |
| FieldValidatorProperties.NewRuleReportsLast | src/main/java/com/shub/validation/rules/Validator.java:199-208 | With the gate open, a validator with one more rule reports what it reported before, followed by what the new rule reports. |
| FieldValidatorProperties.ValidateAppends | src/main/java/com/shub/validation/rules/Validator.java:194-211 | Running a validator on any result appends the validator's own error sequence to it. |
| FieldValidatorProperties.ValidatorErrorsUnderPath | src/main/java/com/shub/validation/rules/Validator.java:205 | Every error a validator reports is at or under its own field path. |
| FieldValidatorProperties.ConfigureAppend | src/main/java/com/shub/validation/rules/Validator.java:186-190 | Making two batches of configuration calls is making their concatenation. |
| FieldValidatorProperties.ConfigureAddsIndependently | src/main/java/com/shub/validation/rules/Validator.java:186-190 | The rules a batch of calls adds depend only on the calls, the pending condition and the lazy flag, not on the rules already present. |
| CompositeValidator.NewComposite | src/main/java/com/shub/validation/rules/CompositeValidator.java:12-13 | A new composite has no configurators and an always-true default condition. |
| CompositeValidator.Add | src/main/java/com/shub/validation/rules/CompositeValidator.java:16-19 | `add` appends one configurator at the end and leaves the earlier ones and the default condition unchanged. |
| CompositeValidator.WithDefaultCondition | src/main/java/com/shub/validation/rules/CompositeValidator.java:22-25 | `withDefaultCondition` replaces the default condition and leaves the configurators unchanged. |
| CompositeValidator.LastDefaultWins | src/main/java/com/shub/validation/rules/CompositeValidator.java:22-35 | After two `withDefaultCondition` calls, `getDefaultCondition` returns the second. |
| CompositeValidator.ApplyToRunsEveryConfigurator | src/main/java/com/shub/validation/rules/CompositeValidator.java:28-30 | `applyTo` is making every configurator's calls once, in registration order. |
| CompositeValidator.ApplyToAdd | src/main/java/com/shub/validation/rules/CompositeValidator.java:16-30 | Applying a composite with one more configurator is applying the composite and then that configurator. |
| CompositeValidator.ApplyEmptyComposite | src/main/java/com/shub/validation/rules/CompositeValidator.java:28-30 | Applying a composite with no configurators leaves the validator unchanged. |
| CompositeValidator.ReusableAcrossValidators | src/main/java/com/shub/validation/rules/CompositeValidator.java:28-30 | Applying one composite to two validators keeps each one's own rules and adds the same new rules to both. |
| LazyLoading.NewLazy | src/main/java/com/shub/validation/rules/LazyLoadingValidator.java:12-14 | The lazy constructor forwards getter, path, top-level condition and root unchanged, and starts with no rules and an always-true pending condition. |
| LazyLoading.ApplyMirrors | src/main/java/com/shub/validation/rules/LazyLoadingValidator.java:17-24 | Each configuration call on a lazy validator and on an eager one adds rules that behave alike: the same test results, the same message, null included, and the same condition. |
| LazyLoading.RuleMirrorsRun | src/main/java/com/shub/validation/rules/LazyLoadingValidator.java:17-24 | A supplier-wrapped rule changes a result exactly as the unwrapped rule does. |
| LazyLoading.LazyValidatesLikeEager | src/main/java/com/shub/validation/rules/LazyLoadingValidator.java:10-24 | For every configuration, a lazy-loading validator produces the same result as the eager validator built from the same arguments. |
| CrossField.New | src/main/java/com/shub/validation/rules/CrossFieldValidator.java:22-31 | A new cross-field validator stores both fields and getters, has no predicate or message, an always-open gate and the handler that reports at both fields. |
| CrossField.Satisfies | src/main/java/com/shub/validation/rules/CrossFieldValidator.java:34-38 | `satisfies` replaces predicate and message and leaves gate, handler and fields unchanged. |
| CrossField.When | src/main/java/com/shub/validation/rules/CrossFieldValidator.java:40-44 | After `when(c)`, the gate is exactly `c`, whatever negation was set before. |
| CrossField.Otherwise | src/main/java/com/shub/validation/rules/CrossFieldValidator.java:46-49 | `otherwise` flips the gate on every object and changes nothing else. |
| CrossField.WithErrorHandler | src/main/java/com/shub/validation/rules/CrossFieldValidator.java:51-54 | `withErrorHandler` installs the given handler and keeps gate, predicate and message. |
| CrossField.WithMessage | src/main/java/com/shub/validation/rules/CrossFieldValidator.java:56-65 | `withMessage` clears the static message and installs the provider-based handler, keeping gate, predicate and fields. |
| CrossField.Validate | src/main/java/com/shub/validation/rules/CrossFieldValidator.java:68-76 | Only appends and keeps the validated object. Nothing changes unless the gate is open and the predicate rejects the two field values. Then the default handler appends `(field1, message)` and `(field2, message)`, the `withMessage` handler appends the provider's message for the validated object at both fields, and a custom handler appends its output for the result and the static message. |
| CrossField.Gate | src/main/java/com/shub/validation/rules/CrossFieldValidator.java:70 | The gate is the condition, negated exactly when the flag is set; `CrossField.When` and `CrossField.Otherwise` state how the calls change it. |
| CrossField.HandlerErrors | src/main/java/com/shub/validation/rules/CrossFieldValidator.java:27-64 | The records each handler appends; `CrossFieldProperties.DefaultHandlerReportsBoth`, `WithMessageIgnoresStaticMessage` and `CustomHandlerOnce` state them per handler. |
| CrossFieldProperties.OtherwiseTwice | src/main/java/com/shub/validation/rules/CrossFieldValidator.java:46-49 | Calling `otherwise` twice is the identity. |
| CrossFieldProperties.WhenClearsNegation | src/main/java/com/shub/validation/rules/CrossFieldValidator.java:40-49 | `when` after `otherwise` gives the plain condition; `otherwise` after `when` gives its negation. |
| CrossFieldProperties.LastSatisfiesWins | src/main/java/com/shub/validation/rules/CrossFieldValidator.java:34-38 | Two `satisfies` calls are equivalent to the second alone. |
| CrossFieldProperties.ClosedGateIgnoresTheRest | src/main/java/com/shub/validation/rules/CrossFieldValidator.java:70-76 | With the gate closed, the result is unchanged whatever getters, predicate (even none) and handler are installed, so none of them is consulted. |
| CrossFieldProperties.DefaultHandlerReportsBoth | src/main/java/com/shub/validation/rules/CrossFieldValidator.java:27-30 | On failure, the default handler appends exactly two records with the same message: first at `field1`, then at `field2`. |
| CrossFieldProperties.WithMessageIgnoresStaticMessage | src/main/java/com/shub/validation/rules/CrossFieldValidator.java:56-64 | After `withMessage`, a failure appends `provider(validatedObject)` at `field1` and then at `field2`. Any static message is ignored, whether `satisfies` came before or after. |
| CrossFieldProperties.CustomHandlerOnce | src/main/java/com/shub/validation/rules/CrossFieldValidator.java:73-75 | With a custom handler, a failing check appends exactly one invocation's output of the handler, given the result and the static message; a passing or gated-off check appends nothing. |
| Builder.NewBuilder | src/main/java/com/shub/validation/rules/ValidationBuilder.java:18-25 | A new builder holds its object and factory choice, and no validators, cross-field validators or plugins. |
| Builder.CreateValidator | src/main/java/com/shub/validation/rules/ValidationBuilder.java:34 | The factory builds a validator with the given getter, path, condition and root, lazy exactly when the lazy factory is chosen. |
| Builder.RuleFor | src/main/java/com/shub/validation/rules/ValidationBuilder.java:33-37 | `ruleFor` registers exactly one new validator at the end, built by the factory from the name, getter, condition and the builder's object, and returns its position. |
| Builder.ConfigureField | src/main/java/com/shub/validation/rules/ValidationBuilder.java:33-37 | Configuring the validator `ruleFor` returned changes that validator only. |
| Builder.RuleForCombination | src/main/java/com/shub/validation/rules/ValidationBuilder.java:45-51 | `ruleForCombination` registers exactly one new cross-field validator at the end. |
| Builder.RuleForCombinationWhen | src/main/java/com/shub/validation/rules/ValidationBuilder.java:53-61 | The conditional variant registers one cross-field validator whose gate is exactly the given condition. |
| Builder.ConfigureCrossField | src/main/java/com/shub/validation/rules/ValidationBuilder.java:53-61 | Configuring a returned cross-field validator changes that validator only. |
| Builder.RegisterPlugin | src/main/java/com/shub/validation/rules/ValidationBuilder.java:40-43 | `registerPlugin` appends one plugin and changes nothing else. |
| Builder.ApplyPluginToValidator | src/main/java/com/shub/validation/rules/ValidationBuilder.java:85-92 | An incompatible plugin leaves the result unchanged; a compatible one only appends. |
| Builder.Validate | src/main/java/com/shub/validation/rules/ValidationBuilder.java:64-73 | The result is bound to the builder's object; `BuilderProperties.PhasesAppendInOrder`, `FieldErrorsComeFirst` and `PluginPhase` state the order and the content of the three phases. |
| BuilderProperties.RegistrationKeepsValid | src/main/java/com/shub/validation/rules/ValidationBuilder.java:33-37 | Registering and configuring field validators keeps every one of them well-formed. |
| BuilderProperties.FieldPhaseInOrder | src/main/java/com/shub/validation/rules/ValidationBuilder.java:66-68 | The field phase appends each validator's errors in registration order. |
| BuilderProperties.FieldErrorsComeFirst | src/main/java/com/shub/validation/rules/ValidationBuilder.java:64-73 | The errors of the field validators, in registration order, are a prefix of the builder's final error list. |
| BuilderProperties.EmptyBuilderIsValid | src/main/java/com/shub/validation/rules/ValidationBuilder.java:65 | With nothing registered, `validate` returns a valid result bound to the builder's object. |
| BuilderProperties.PhasesAppendInOrder | src/main/java/com/shub/validation/rules/ValidationBuilder.java:64-73 | The field phase's errors are a prefix of the cross-field phase's, which are a prefix of the final list; plugins run last on that result. |
| BuilderProperties.PluginsArePairs | src/main/java/com/shub/validation/rules/ValidationBuilder.java:76-82 | The plugin phase applies every (plugin, validator) pair once, plugin-major, in registration order. |
| BuilderProperties.IncompatiblePairsSkipped | src/main/java/com/shub/validation/rules/ValidationBuilder.java:85-92 | Running all pairs equals running only the compatible ones: an incompatible pair is swallowed and the remaining pairs still run. |
| BuilderProperties.PluginPhase | src/main/java/com/shub/validation/rules/ValidationBuilder.java:76-92 | The plugin phase is exactly the compatible pairs, plugin-major, applied in order. |
| Groups.NewGroupValidator | src/main/java/com/shub/validation/group/GroupValidator.java:10-12 | The active set contains exactly the constructor's arguments. |
| Groups.IsGroupActive | src/main/java/com/shub/validation/group/GroupValidator.java:14-16 | Membership in the active set; `Groups.ActiveExactlyWhenGiven` proves it holds exactly for the constructor's arguments. |
| Groups.ActiveExactlyWhenGiven | src/main/java/com/shub/validation/group/GroupValidator.java:10-16 | `isGroupActive(g)` holds iff `g` is one of the constructor's arguments. |
| Groups.DuplicatesCollapse | src/main/java/com/shub/validation/group/GroupValidator.java:11 | Repeating arguments, in front or behind, gives the same validator: membership is set-based. |
| Groups.NoArgumentsNothingActive | src/main/java/com/shub/validation/group/GroupValidator.java:10-16 | With no arguments, no group is active. |
| LegacyEngine.NewResult | src/main/java/com/shub/validation/engine/ValidationFramework.java:17-18 | A fresh legacy result has no errors and is valid. |
| LegacyEngine.AddError | src/main/java/com/shub/validation/engine/ValidationFramework.java:20-22 | Adding an error appends exactly one string at the end, keeps the earlier ones, and makes the result invalid. |
| LegacyEngine.NewValidator | src/main/java/com/shub/validation/engine/ValidationFramework.java:44-47 | A new legacy validator stores its getter and name and has no rules. |
| LegacyEngine.AddRule | src/main/java/com/shub/validation/engine/ValidationFramework.java:271-274 | Legacy `addRule` appends exactly the given rule, with no pending condition, and keeps getter and name. |
| LegacyEngine.Validate | src/main/java/com/shub/validation/engine/ValidationFramework.java:276-286 | Legacy `validate` passes one result through every rule with no top-level gate, and never removes or reorders a record already there; `LegacyProperties.ValidateAppends` gives what it appends. |
| LegacyEngine.RunRules | src/main/java/com/shub/validation/engine/ValidationFramework.java:279-285 | The rule loop only appends; `LegacyProperties.RunRulesAppends` proves it appends exactly `BodyErrors`. |
| LegacyEngine.RunRule | src/main/java/com/shub/validation/engine/ValidationFramework.java:280-283 | One rule only appends; `LegacyProperties.RunRuleAppends` proves it appends exactly `RuleErrors`. |
| LegacyEngine.RunTest | src/main/java/com/shub/validation/engine/ValidationFramework.java:171-268 | A test only appends to the result it is handed; `LegacyProperties.RunTestAppends` proves its verdict and what it appends match `TestOutcome`. |
| LegacyEngine.RunItems | src/main/java/com/shub/validation/engine/ValidationFramework.java:197-210 | The list loop only appends; `LegacyProperties.RunItemsAppend` proves it appends exactly `ItemErrors`. |
| LegacyEngine.BodyErrors | src/main/java/com/shub/validation/engine/ValidationFramework.java:276-286 | Reference definition of what a legacy validator's rules report on their own: each rule's errors in declaration order. |
| LegacyEngine.RuleErrors | src/main/java/com/shub/validation/engine/ValidationFramework.java:280-283 | Reference definition of one rule's errors: nothing when its condition fails, else what its test appends, then `name + " " + message` if the test failed and the message is not null (`LegacyProperties.CheckErrorFormat`). |
| LegacyEngine.TestOutcome | src/main/java/com/shub/validation/engine/ValidationFramework.java:171-268 | Reference definition of a legacy test: a check's verdict; `nested`, `forEach` and `composeConditionally` always pass and contribute their child's errors (`LegacyProperties.NestedRunsChild`, `ForEachOnListsOnly`, `ComposeConditionallyGuard`). |
| LegacyEngine.ItemErrors | src/main/java/com/shub/validation/engine/ValidationFramework.java:197-210 | Reference definition of the list loop's errors; `LegacyProperties.ItemsInOrder` shows they are the elements' errors from index 0 in list order. |
| LegacyEngine.Apply | src/main/java/com/shub/validation/engine/ValidationFramework.java:64-269 | A legacy configuration call only adds rules and keeps getter and name; each call's rule is described by the `LegacyProperties` lemmas about it. |
| LegacyEngine.BuilderValidate | src/main/java/com/shub/validation/engine/ValidationFramework.java:384-390 | Legacy builder `validate`: `LegacyProperties.BuilderReportsInOrder` proves it returns the validators' errors in registration order. |
| LegacyEngine.ApplyTo | src/main/java/com/shub/validation/engine/ValidationFramework.java:333-335 | Applying a legacy composite only adds rules and keeps getter and name. |
| LegacyEngine.NewComposite | src/main/java/com/shub/validation/engine/ValidationFramework.java:320-321 | A new legacy composite has no configurators and an always-true default condition. |
| LegacyEngine.AddConfigurator | src/main/java/com/shub/validation/engine/ValidationFramework.java:323-326 | Legacy `add` appends one configurator and keeps the default condition. |
| LegacyEngine.WithDefaultCondition | src/main/java/com/shub/validation/engine/ValidationFramework.java:328-331 | Legacy `withDefaultCondition` replaces the default and keeps the configurators. |
| LegacyEngine.RuleFor | src/main/java/com/shub/validation/engine/ValidationFramework.java:378-382 | Legacy `ruleFor` registers one validator at the end, named by the getter's text. |
| LegacyEngine.ConfigureField | src/main/java/com/shub/validation/engine/ValidationFramework.java:381 | Configuring the returned legacy validator changes that validator only. |
| LegacyProperties.BodyErrorsAppend | src/main/java/com/shub/validation/engine/ValidationFramework.java:276-286 | Legacy rules report in declaration order: a list with one more rule reports the list's errors, then that rule's. |
| LegacyProperties.AddedRuleReportsLast | src/main/java/com/shub/validation/engine/ValidationFramework.java:276-286 | A legacy validator with one more rule reports what it did before, followed by the new rule's errors. |
| LegacyProperties.CheckErrorFormat | src/main/java/com/shub/validation/engine/ValidationFramework.java:280-283 | A failing legacy rule with a message reports exactly `name + " " + message`, and only when its condition holds. |
| LegacyProperties.SatisfiesIgnoresNull | src/main/java/com/shub/validation/engine/ValidationFramework.java:109-111 | Legacy `satisfies` never reports on a null value. |
| LegacyProperties.CrossFieldSeesNull | src/main/java/com/shub/validation/engine/ValidationFramework.java:234-236 | Legacy `crossField` is not null-guarded: its predicate sees null, and its failure is reported. |
| LegacyProperties.NestedRunsChild | src/main/java/com/shub/validation/engine/ValidationFramework.java:171-183 | A legacy `nested` rule runs the child's rules under `name + "." + getterText` when the value is non-null, and otherwise reports nothing. |
| LegacyProperties.ItemsInOrder | src/main/java/com/shub/validation/engine/ValidationFramework.java:196-213 | The legacy forEach loop reports per element, in list order from index 0. |
| LegacyProperties.ForEachOnListsOnly | src/main/java/com/shub/validation/engine/ValidationFramework.java:196-213 | Legacy `forEach` acts only on a list, not on other collections, under the parent's own name. |
| LegacyProperties.MistypedElementOneError | src/main/java/com/shub/validation/engine/ValidationFramework.java:206-208 | A mistyped legacy element yields exactly `name + "[" + i + "] is not of type " + simpleName`. |
| LegacyProperties.ApplyFromCalls | src/main/java/com/shub/validation/engine/ValidationFramework.java:333-335 | Legacy `applyTo` makes every configurator's calls once, in registration order. |
| LegacyProperties.ComposeInlines | src/main/java/com/shub/validation/engine/ValidationFramework.java:244-247 | Legacy `compose` adds the composite's rules directly to this validator. |
| LegacyProperties.ComposeConditionallyGuard | src/main/java/com/shub/validation/engine/ValidationFramework.java:260-269 | Legacy `composeConditionally` adds one always-true rule that runs the composite's rules iff the override condition holds. |
| LegacyProperties.RunRulesAppends | src/main/java/com/shub/validation/engine/ValidationFramework.java:276-286 | Whatever the shared result held, the legacy rule loop appends exactly the rules' own errors, in declaration order. |
| LegacyProperties.RunRuleAppends | src/main/java/com/shub/validation/engine/ValidationFramework.java:280-283 | One legacy rule appends exactly its own errors, whatever the result held. |
| LegacyProperties.RunTestAppends | src/main/java/com/shub/validation/engine/ValidationFramework.java:171-268 | A legacy test returns the same verdict whatever the result held, and appends exactly its own errors, including those of nested, element and composite validators writing into the shared result. |
| LegacyProperties.RunItemsAppend | src/main/java/com/shub/validation/engine/ValidationFramework.java:197-210 | The legacy list loop appends exactly the elements' own errors, whatever the result held. |
| LegacyProperties.ValidateAppends | src/main/java/com/shub/validation/engine/ValidationFramework.java:276-286 | `validate(root, result)` appends to whatever the result held exactly the validator's own errors, in declaration order. |
| LegacyProperties.RunFromInOrder | src/main/java/com/shub/validation/engine/ValidationFramework.java:384-390 | The legacy builder loop appends each validator's errors in registration order. |
| LegacyProperties.BuilderReportsInOrder | src/main/java/com/shub/validation/engine/ValidationFramework.java:384-390 | Legacy builder `validate` returns exactly the validators' errors concatenated in registration order. |
| Scenarios.NullNameScenario | src/main/java/com/shub/validation/rules/Validator.java:37-39 | `ruleFor("name").notNull()` on an object whose name is null yields an invalid result holding exactly `("name", "must not be null")`. |
| Scenarios.MistypedElementScenario | src/main/java/com/shub/validation/rules/Validator.java:127-145 | `forEach("", Address, notNull)` on the list `[address, null]` yields exactly one record, `("addresses[1]", "is not of type Address")`. |
| Scenarios.PasswordScenario | src/main/java/com/shub/validation/rules/CrossFieldValidator.java:40-76 | For mismatching passwords, a gated cross-field check reports at both fields exactly when the condition holds, and after `otherwise` exactly when it fails. |

## Left out

- **Console warning.** The `System.out` warning printed for an incompatible plugin is output only;
  the model keeps the swallowing and drops the message.
- **Reflection.** `Class.isInstance` and `getSimpleName` become a `TypeTag`: a simple name plus an
  acceptance predicate that rejects null.
- **Regular expressions.** `Pattern.matches` is an uninterpreted full-match predicate on a `Regex`.
- **Comparables.** `Comparable.compareTo` and its `toString` are given as a `Bound` (a comparison
  function and its text). `Values.IntBound` is the integer instance.
- **Value text.** `value.toString()`, as used by `matches`, is `Values.Show`. Java prints arrays as
  identity hashes; `Show` prints them like lists.
- **Message sources.** `IMessageSource.getMessage` with the default locale and no arguments is an
  uninterpreted rendering function of the key.
- **Exceptions.** A getter or predicate that throws, and the `(Object[])` cast in `notEmpty` that
  throws on primitive arrays, are not modelled. Getters and predicates are total, and arrays are
  sequences.
- CrossField.Validate: requires a predicate whenever the gate is open (`CrossField.Ready`). Java
  throws `NullPointerException` there, and the model excludes that case instead of modelling it.
- **Composite capture.** `compose` / `composeConditionally` capture the composite's configurators
  by value, when the call is made. A configurator added to the same composite later is seen by Java
  but not by the model.
- **Child configuration time.** The child validators of `nested`, `forEach` and the composite
  rules are configured once, when the rule is added. Java configures a `forEach` element validator
  and a composite validator anew on every run; with configurators that are pure call sequences the
  outcome is the same.
- **Nested getters.** Java derives a `nested` child's value again from the root through the
  parent's getter. The model passes the already derived value, which is the same because getters
  are pure.
- **Plugins.** A plugin is a name, a compatibility predicate and an error-appending function. A
  plugin that mutates validators, or a plugin that appends some errors before throwing
  `ClassCastException`, is not modelled.
- **Group filtering.** The commented-out group filtering in `Validator.validate` and
  `CrossFieldValidator.validate` is not modelled, because it is not code.
- **Out of scope.** `UserService`, `User`, `Address`, the `core` interfaces and `TriConsumer`
  declare no behaviour. `ValidationContext` is the (root, result) pair passed as parameters.
- **Factories.** `DefaultValidatorFactory` and `LazyLoadingValidatorFactory` are the builder's
  `lazyFactory` flag.
- **Mutability.**
  - Results are values. The current engine's `getErrors` copy and the legacy engine's live list
    are therefore indistinguishable in the model.
  - A builder validates its own object. Java validators keep the builder's object as their root,
    and the model passes the same object to both.
  - The final fields of `ValidationError`, `ValidationRule` and `GroupValidator` are datatype
    fields, so immutability holds by construction.
