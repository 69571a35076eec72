/** Worked runs on small objects: what a configured builder reports, computed end to end. */
module Scenarios {
  import opened Values
  import opened Conditions
  import opened Results
  import opened Rules
  import opened FieldValidator
  import opened Builder
  import CrossField

  function FieldGetter(name: string): Value -> Value
  {
    (o: Value) => Get(o, name)
  }

  /** `ruleFor(name, getter)` followed by the given calls, on a builder of `obj`. */
  function OneField(obj: Value, fieldName: string, steps: seq<Step>): ValidationBuilder
  {
    var r := RuleFor(NewBuilder(obj, false), fieldName, FieldGetter(fieldName), Always);
    ConfigureField(r.0, r.1, steps)
  }

  lemma OneFieldRun(obj: Value, fieldName: string, steps: seq<Step>)
    ensures |OneField(obj, fieldName, steps).validators| == 1
    ensures OneField(obj, fieldName, steps).crossFieldValidators == [] && OneField(obj, fieldName, steps).plugins == []
    ensures Builder.Validate(OneField(obj, fieldName, steps))
            == FieldValidator.Validate(OneField(obj, fieldName, steps).validators[0], obj, Results.New(obj))
  {
    var b := OneField(obj, fieldName, steps);
    var start := Results.New(obj);
    assert RunFields(b.validators, 0, obj, start) == RunFields(b.validators, 1, obj, FieldValidator.Validate(b.validators[0], obj, start));
  }

  /** `{name: null}` with `ruleFor("name").notNull()`: invalid, with the single record
      ("name", "must not be null"). */
  lemma NullNameScenario()
    ensures var user := Object("User", [Field("name", Null)]);
            var out := Builder.Validate(OneField(user, "name", [NotNull(Always)]));
            !IsValid(out) && out.errors == [Error("name", Some("must not be null"))]
  {
    var user := Object("User", [Field("name", Null)]);
    var b := OneField(user, "name", [NotNull(Always)]);
    OneFieldRun(user, "name", [NotNull(Always)]);
    var v := b.validators[0];
    assert Configure(v.(rules := [], currentCondition := Always), [NotNull(Always)]) == v;
    assert Get(user, "name") == Null;
    var rule := v.rules[0];
    assert v.rules == [rule];
    assert rule.errorMessage == Some("must not be null");
    assert Holds(rule.condition, Null, user);
    assert !RunTest(rule.test, "name", Null, user, Results.New(user)).passed;
    var body := BodyOf(v);
    assert RunBody(body, "name", Null, user, Results.New(user))
           == RunRules(body, 1, "name", Null, user, RunRule(rule, None, "name", Null, user, Results.New(user)));
  }

  /** The child validator of `v -> v.notNull()` passes every non-null value. */
  lemma NotNullChildPasses(path: string, x: Value, root: Value, res: Result)
    requires x != Null
    ensures RunBody(Spawn([NotNull(Always)]), path, x, root, res) == res
  {
    var child := Spawn([NotNull(Always)]);
    assert Configure(Scratch, [NotNull(Always)]) == Apply(Scratch, NotNull(Always));
    var childRule := child.rules[0];
    assert child.rules == [childRule];
    assert Holds(childRule.condition, x, root);
    assert RunTest(childRule.test, path, x, root, res).passed;
    assert RunBody(child, path, x, root, res)
           == RunRules(child, 1, path, x, root, RunRule(childRule, child.messageSource, path, x, root, res));
  }

  function AddressTag(): TypeTag
  {
    TypeTag("Address", (x: Value) => x.Object? && x.cls == "Address")
  }

  /** The loop over `[address, null]`: the address passes, the null is reported at index 1. */
  lemma AddressItems(address: Value, root: Value, res: Result)
    requires address.Object? && address.cls == "Address"
    ensures RunItems(Spawn([NotNull(Always)]), "addresses", AddressTag(), [address, Null], 0, root, res)
            == AddError(res, "addresses[1]", Some("is not of type Address"))
  {
    var child := Spawn([NotNull(Always)]);
    var items := [address, Null];
    NotNullChildPasses(IndexedPath("addresses", 0), address, root, res);
    assert RunItem(child, IndexedPath("addresses", 0), AddressTag(), address, root, res) == res;
    assert IndexedPath("addresses", 1) == "addresses[1]";
    assert !IsInstance(AddressTag(), Null);
    assert items[1..] == [Null] && items[1..][1..] == [];
    assert RunItems(child, "addresses", AddressTag(), items, 0, root, res)
           == RunItems(child, "addresses", AddressTag(), [Null], 1, root, res);
    assert TypeMismatch(AddressTag()) == "is not of type Address";
    assert RunItem(child, "addresses[1]", AddressTag(), Null, root, res)
           == AddError(res, "addresses[1]", Some("is not of type Address"));
    assert RunItems(child, "addresses", AddressTag(), [Null], 1, root, res)
           == RunItems(child, "addresses", AddressTag(), [], 2, root, RunItem(child, "addresses[1]", AddressTag(), Null, root, res));
  }

  /** `{addresses: [address, null]}` with `ruleFor("addresses").forEach("", Address, notNull)`:
      the null element is reported once, at "addresses[1]", as not being an Address. */
  lemma MistypedElementScenario(street: Value)
    ensures var address := Object("Address", [Field("street", street)]);
            var user := Object("User", [Field("addresses", Collection(ListKind, [address, Null]))]);
            var out := Builder.Validate(OneField(user, "addresses", [ForEach("", AddressTag(), [NotNull(Always)], Always)]));
            out.errors == [Error("addresses[1]", Some("is not of type Address"))]
  {
    var address := Object("Address", [Field("street", street)]);
    var items := [address, Null];
    var list := Collection(ListKind, items);
    var user := Object("User", [Field("addresses", list)]);
    var steps := [ForEach("", AddressTag(), [NotNull(Always)], Always)];
    var b := OneField(user, "addresses", steps);
    OneFieldRun(user, "addresses", steps);
    var v := b.validators[0];
    var start := Results.New(user);
    var v0 := FieldValidator.New(FieldGetter("addresses"), "addresses", Always, user);
    assert v == Configure(v0, steps) == Apply(v0, steps[0]);
    assert Get(user, "addresses") == list;
    var rule := v.rules[0];
    assert v.rules == [rule];
    assert Holds(rule.condition, list, user);
    assert rule.errorMessage == None;
    assert ListPath("addresses", "") == "addresses";
    AddressItems(address, user, start);
    assert RunTest(rule.test, "addresses", list, user, start).result
           == AddError(start, "addresses[1]", Some("is not of type Address"));
    var body := BodyOf(v);
    assert RunBody(body, "addresses", list, user, start)
           == RunRules(body, 1, "addresses", list, user, RunRule(rule, None, "addresses", list, user, start));
  }

  /** Password confirmation: the check is gated by a condition; `otherwise` makes it run exactly on
      the objects the condition rejects. */
  lemma PasswordScenario(enabled: Value -> bool, obj: Value, res: Result)
    requires Get(obj, "password") != Get(obj, "confirmPassword")
    ensures var x := CrossField.Satisfies(
                       CrossField.When(CrossField.New("password", "confirmPassword", FieldGetter("password"), FieldGetter("confirmPassword")), enabled),
                       (a: Value, b: Value) => a == b, Some("passwords must match"));
            && CrossField.Validate(x, obj, res).errors
               == res.errors + (if enabled(obj) then [Error("password", Some("passwords must match")),
                                                      Error("confirmPassword", Some("passwords must match"))] else [])
            && CrossField.Validate(CrossField.Otherwise(x), obj, res).errors
               == res.errors + (if enabled(obj) then [] else [Error("password", Some("passwords must match")),
                                                              Error("confirmPassword", Some("passwords must match"))])
  {
  }
}
