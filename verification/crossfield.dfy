/** `CrossFieldValidator`: a check of two fields of the validated object against each other,
    gated by a condition on the object that a flag may negate, and reporting through a
    replaceable error handler. */
module CrossField {
  import opened Values
  import opened Results

  /** The error handler, a `BiConsumer<IValidationResult, String>`. The handler installed by the
      constructor and the one `withMessage` installs are spelled out; a caller's own handler is given
      by the records it appends, which may depend on the result it is handed and on the message. */
  datatype Handler =
    | BothFields
    | DynamicBoth(provider: Value -> Option<string>)
    | Custom(emit: (Result, Option<string>) -> seq<Error>)

  datatype CrossFieldValidator = CrossFieldValidator(
    field1: string,
    field2: string,
    getter1: Value -> Value,
    getter2: Value -> Value,
    test: Option<(Value, Value) -> bool>,        // the predicate: null until `satisfies` is called
    errorMessage: Option<string>,
    condition: Value -> bool,
    negateCondition: bool,
    handler: Handler)

  /** The constructor: no predicate or message yet, a condition that always holds, no negation,
      and the handler that reports the message at both fields. */
  function New(field1: string, field2: string, getter1: Value -> Value, getter2: Value -> Value): (x: CrossFieldValidator)
    ensures x.field1 == field1 && x.field2 == field2 && x.getter1 == getter1 && x.getter2 == getter2
    ensures x.test.None? && x.errorMessage.None?
    ensures forall o :: Gate(x, o)
    ensures x.handler == BothFields
  {
    CrossFieldValidator(field1, field2, getter1, getter2, None, None, o => true, false, BothFields)
  }

  /** `satisfies`: replaces the predicate and the message. */
  function Satisfies(x: CrossFieldValidator, p: (Value, Value) -> bool, errorMessage: Option<string>): (x': CrossFieldValidator)
    ensures x'.test == Some(p) && x'.errorMessage == errorMessage
    ensures forall o :: Gate(x', o) == Gate(x, o)
    ensures x'.handler == x.handler && x'.field1 == x.field1 && x'.field2 == x.field2
  {
    x.(test := Some(p), errorMessage := errorMessage)
  }

  /** `when`: replaces the condition and clears the negation. */
  function When(x: CrossFieldValidator, condition: Value -> bool): (x': CrossFieldValidator)
    ensures forall o :: Gate(x', o) == condition(o)
    ensures x' == x.(condition := condition, negateCondition := false)
  {
    x.(condition := condition, negateCondition := false)
  }

  /** `otherwise`: toggles the negation. */
  function Otherwise(x: CrossFieldValidator): (x': CrossFieldValidator)
    ensures forall o :: Gate(x', o) == !Gate(x, o)
    ensures x' == x.(negateCondition := !x.negateCondition)
  {
    x.(negateCondition := !x.negateCondition)
  }

  /** `withErrorHandler`: replaces the handler. */
  function WithErrorHandler(x: CrossFieldValidator, emit: (Result, Option<string>) -> seq<Error>): (x': CrossFieldValidator)
    ensures x'.handler == Custom(emit)
    ensures forall o :: Gate(x', o) == Gate(x, o)
    ensures x'.test == x.test && x'.errorMessage == x.errorMessage
  {
    x.(handler := Custom(emit))
  }

  /** `withMessage`: clears the static message and installs a handler that reports, at both fields,
      the message the provider computes from the result's validated object. */
  function WithMessage(x: CrossFieldValidator, provider: Value -> Option<string>): (x': CrossFieldValidator)
    ensures x'.errorMessage.None? && x'.handler == DynamicBoth(provider)
    ensures forall o :: Gate(x', o) == Gate(x, o)
    ensures x'.test == x.test && x'.field1 == x.field1 && x'.field2 == x.field2
  {
    x.(errorMessage := None, handler := DynamicBoth(provider))
  }

  /** The gate `validate` tests on the object. */
  predicate Gate(x: CrossFieldValidator, obj: Value)
  {
    if x.negateCondition then !x.condition(obj) else x.condition(obj)
  }

  /** The records the handler appends when the predicate fails, given the result at that moment. */
  function HandlerErrors(x: CrossFieldValidator, res: Result): seq<Error>
  {
    match x.handler
    case BothFields => [Error(x.field1, x.errorMessage), Error(x.field2, x.errorMessage)]
    case DynamicBoth(provider) =>
      var message := provider(res.validatedObject);
      [Error(x.field1, message), Error(x.field2, message)]
    case Custom(emit) => emit(res, x.errorMessage)
  }

  /** A validator whose gate may open has a predicate: with none, Java would dereference null. */
  predicate Ready(x: CrossFieldValidator, obj: Value)
  {
    Gate(x, obj) ==> x.test.Some?
  }

  /** `validate(obj, result)`: when the gate is open, reads both fields and, if the predicate
      rejects them, lets the handler report. */
  function Validate(x: CrossFieldValidator, obj: Value, res: Result): (out: Result)
    requires Ready(x, obj)
    ensures out.validatedObject == res.validatedObject && res.errors <= out.errors
    ensures out != res ==> Gate(x, obj) && !x.test.value(x.getter1(obj), x.getter2(obj))
    ensures var failed := Gate(x, obj) && !x.test.value(x.getter1(obj), x.getter2(obj));
            && (failed && x.handler.BothFields?
                ==> out.errors == res.errors + [Error(x.field1, x.errorMessage), Error(x.field2, x.errorMessage)])
            && (failed && x.handler.DynamicBoth?
                ==> var message := x.handler.provider(res.validatedObject);
                    out.errors == res.errors + [Error(x.field1, message), Error(x.field2, message)])
            && (failed && x.handler.Custom? ==> out.errors == res.errors + x.handler.emit(res, x.errorMessage))
  {
    if !Gate(x, obj) then res
    else if x.test.value(x.getter1(obj), x.getter2(obj)) then res
    else AddErrors(res, HandlerErrors(x, res))
  }

  /** One configuration call on a cross-field validator. */
  datatype CrossStep =
    | CSatisfies(p: (Value, Value) -> bool, errorMessage: Option<string>)
    | CWhen(condition: Value -> bool)
    | COtherwise
    | CWithErrorHandler(emit: (Result, Option<string>) -> seq<Error>)
    | CWithMessage(provider: Value -> Option<string>)

  function ApplyCross(x: CrossFieldValidator, s: CrossStep): (x': CrossFieldValidator)
    ensures x'.field1 == x.field1 && x'.field2 == x.field2 && x'.getter1 == x.getter1 && x'.getter2 == x.getter2
    ensures x.test.Some? ==> x'.test.Some?
  {
    match s
    case CSatisfies(p, m) => Satisfies(x, p, m)
    case CWhen(c) => When(x, c)
    case COtherwise => Otherwise(x)
    case CWithErrorHandler(emit) => WithErrorHandler(x, emit)
    case CWithMessage(provider) => WithMessage(x, provider)
  }

  function ConfigureCross(x: CrossFieldValidator, steps: seq<CrossStep>): (x': CrossFieldValidator)
    ensures x'.field1 == x.field1 && x'.field2 == x.field2 && x'.getter1 == x.getter1 && x'.getter2 == x.getter2
    ensures x.test.Some? ==> x'.test.Some?
    decreases |steps|
  {
    if steps == [] then x else ConfigureCross(ApplyCross(x, steps[0]), steps[1..])
  }
}

/** What the cross-field validator's calls and `validate` guarantee. */
module CrossFieldProperties {
  import opened Values
  import opened Results
  import opened CrossField

  /** Negating twice is the identity. */
  lemma OtherwiseTwice(x: CrossFieldValidator)
    ensures Otherwise(Otherwise(x)) == x
  {
  }

  /** `when` clears an earlier `otherwise`: the gate is the new condition, un-negated. */
  lemma WhenClearsNegation(x: CrossFieldValidator, condition: Value -> bool, obj: Value)
    ensures Gate(When(Otherwise(x), condition), obj) == condition(obj)
    ensures Gate(Otherwise(When(x, condition)), obj) == !condition(obj)
  {
  }

  /** The last `satisfies` wins. */
  lemma LastSatisfiesWins(x: CrossFieldValidator, p1: (Value, Value) -> bool, m1: Option<string>,
                          p2: (Value, Value) -> bool, m2: Option<string>)
    ensures Satisfies(Satisfies(x, p1, m1), p2, m2) == Satisfies(x, p2, m2)
  {
  }

  /** With the gate closed, the getters, the predicate and the handler play no part: a validator
      that differs from `x` in any of them leaves the result unchanged too, and the predicate may
      even be missing. */
  lemma ClosedGateIgnoresTheRest(x: CrossFieldValidator, g1: Value -> Value, g2: Value -> Value,
                                 p: Option<(Value, Value) -> bool>, h: Handler, obj: Value, res: Result)
    requires !Gate(x, obj)
    ensures Validate(x.(getter1 := g1, getter2 := g2, test := p, handler := h), obj, res) == res
  {
    var y := x.(getter1 := g1, getter2 := g2, test := p, handler := h);
    assert Gate(y, obj) == Gate(x, obj);
  }

  /** The constructor's handler reports the message at the first field and then at the second:
      exactly two records. */
  lemma DefaultHandlerReportsBoth(field1: string, field2: string, g1: Value -> Value, g2: Value -> Value,
                                  p: (Value, Value) -> bool, m: Option<string>, obj: Value, res: Result)
    requires !p(g1(obj), g2(obj))
    ensures var x := Satisfies(CrossField.New(field1, field2, g1, g2), p, m);
            Validate(x, obj, res).errors == res.errors + [Error(field1, m), Error(field2, m)]
  {
    var x := Satisfies(CrossField.New(field1, field2, g1, g2), p, m);
    assert Gate(x, obj);
  }

  /** After `withMessage`, a failure reports what the provider computes from the validated obj,
      at both fields, whatever static message `satisfies` set before or after. */
  lemma WithMessageIgnoresStaticMessage(x: CrossFieldValidator, provider: Value -> Option<string>,
                                        p: (Value, Value) -> bool, m: Option<string>, obj: Value, res: Result)
    requires Gate(x, obj) && !p(x.getter1(obj), x.getter2(obj))
    ensures var message := provider(res.validatedObject);
            && Validate(Satisfies(WithMessage(x, provider), p, m), obj, res).errors
               == res.errors + [Error(x.field1, message), Error(x.field2, message)]
            && Validate(WithMessage(Satisfies(x, p, m), provider), obj, res).errors
               == res.errors + [Error(x.field1, message), Error(x.field2, message)]
  {
  }

  /** A failure calls the handler once: a caller's handler appends exactly what it emits. */
  lemma CustomHandlerOnce(x: CrossFieldValidator, emit: (Result, Option<string>) -> seq<Error>, obj: Value, res: Result)
    requires Ready(x, obj)
    ensures var y := WithErrorHandler(x, emit);
            Validate(y, obj, res).errors
            == res.errors + (if Gate(x, obj) && !x.test.value(x.getter1(obj), x.getter2(obj))
                             then emit(res, x.errorMessage) else [])
  {
    var y := WithErrorHandler(x, emit);
    assert Gate(y, obj) == Gate(x, obj);
  }
}
