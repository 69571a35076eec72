/** The rules of a field validator of the current engine and how they run.

    A rule is the triple of `ValidationRule`: a test, a message that may be null, and an
    applicability condition. Plain tests only look at the value and the root; the tests
    `nested`, `forEach` and `composeConditionally` install run a child validator as a side effect
    and write into the one result shared by the whole run.

    Rules are kept relative to the validator that owns them: a run is given that validator's
    field path and the value it derived, and the paths of child validators are worked out from
    it. A Java child validator re-derives its value from the root through its parent's getter;
    getters are pure here, so the derived value is handed down directly. */
module Rules {
  import opened Values
  import opened Conditions
  import opened Results

  /** `IMessageSource.getMessage(key, no arguments, default locale)`, which may return null. */
  type MessageSource = string -> Option<string>

  datatype Test =
    | Check(pred: (Value, Value) -> bool)                         // a plain test of (value, root)
    | RunNested(fieldName: string, get: Value -> Value, child: Body)
    | RunForEach(fieldName: string, tag: TypeTag, child: Body)
    | RunComposite(child: Body)
    | Supplied(inner: Test)                                       // a supplier that hands back the test

  datatype Rule = Rule(test: Test, errorMessage: Option<string>, condition: Cond)

  /** What a configured validator evaluates: its rules in declaration order and its message source. */
  datatype Body = Body(rules: seq<Rule>, messageSource: Option<MessageSource>)

  /** What a test reports, and the shared result after its side effects. */
  datatype Tested = Tested(passed: bool, result: Result)

  const Blank := Result(Null, [])

  /** Path of a `nested` child: the field name alone under an empty path, else joined with a dot. */
  function NestedPath(fieldPath: string, fieldName: string): string
  {
    if fieldPath == "" then fieldName else fieldPath + "." + fieldName
  }

  /** Path of the collection a `forEach` walks; an empty field name adds no segment. */
  function ListPath(fieldPath: string, fieldName: string): string
  {
    if fieldPath == "" then fieldName else fieldPath + (if fieldName == "" then "" else "." + fieldName)
  }

  function IndexedPath(listPath: string, index: nat): string
  {
    listPath + "[" + NatToString(index) + "]"
  }

  function TypeMismatch(tag: TypeTag): string
  {
    "is not of type " + tag.simpleName
  }

  /** The message a failing rule reports: rendered by the message source when there is one. */
  function Render(source: Option<MessageSource>, key: string): Option<string>
  {
    match source
    case None => Some(key)
    case Some(render) => render(key)
  }

  // ---------------------------------------------------------------------------------------
  // Evaluation

  function RunBody(b: Body, path: string, value: Value, root: Value, res: Result): (out: Result)
    ensures res.errors <= out.errors
    ensures out.validatedObject == res.validatedObject
    decreases b, 2
  {
    RunRules(b, 0, path, value, root, res)
  }

  /** Runs the rules from index `i` on, in declaration order. */
  function RunRules(b: Body, i: nat, path: string, value: Value, root: Value, res: Result): (out: Result)
    requires i <= |b.rules|
    ensures res.errors <= out.errors
    ensures out.validatedObject == res.validatedObject
    decreases b, 1, |b.rules| - i
  {
    if i == |b.rules| then res
    else
      assert b.rules[i] in b.rules;
      RunRules(b, i + 1, path, value, root, RunRule(b.rules[i], b.messageSource, path, value, root, res))
  }

  /** A rule whose condition holds runs its test; a failed test adds one error at the validator's
      path, unless the message is null. */
  function RunRule(r: Rule, source: Option<MessageSource>, path: string, value: Value, root: Value, res: Result): (out: Result)
    ensures res.errors <= out.errors
    ensures out.validatedObject == res.validatedObject
    decreases r
  {
    if !Holds(r.condition, value, root) then res
    else
      var t := RunTest(r.test, path, value, root, res);
      if !t.passed && r.errorMessage.Some? then AddError(t.result, path, Render(source, r.errorMessage.value))
      else t.result
  }

  function RunTest(t: Test, path: string, value: Value, root: Value, res: Result): (out: Tested)
    ensures res.errors <= out.result.errors
    ensures out.result.validatedObject == res.validatedObject
    decreases t
  {
    match t
    case Check(pred) => Tested(pred(value, root), res)
    case RunNested(fieldName, get, child) =>
      Tested(true, if value != Null then RunBody(child, NestedPath(path, fieldName), get(value), root, res) else res)
    case RunForEach(fieldName, tag, child) =>
      Tested(true, if value.Collection? then RunItems(child, ListPath(path, fieldName), tag, value.items, 0, root, res) else res)
    case RunComposite(child) =>
      var after := RunBody(child, path, value, root, res);
      Tested(IsValid(after), after)
    case Supplied(inner) => RunTest(inner, path, value, root, res)
  }

  /** The `forEach` loop over the elements from position `index` on. */
  function RunItems(child: Body, listPath: string, tag: TypeTag, items: seq<Value>, index: nat, root: Value, res: Result): (out: Result)
    ensures res.errors <= out.errors
    ensures out.validatedObject == res.validatedObject
    decreases child, 4, |items|
  {
    if items == [] then res
    else RunItems(child, listPath, tag, items[1..], index + 1, root,
                  RunItem(child, IndexedPath(listPath, index), tag, items[0], root, res))
  }

  /** One element: an instance of the element type is validated at its indexed path by a child
      validator; anything else (null included) is reported there as being of the wrong type. */
  function RunItem(child: Body, path: string, tag: TypeTag, item: Value, root: Value, res: Result): (out: Result)
    ensures res.errors <= out.errors
    ensures out.validatedObject == res.validatedObject
    decreases child, 3
  {
    if IsInstance(tag, item) then RunBody(child, path, item, root, res)
    else AddError(res, path, Some(TypeMismatch(tag)))
  }

  /** The errors a body adds to a run, on its own. */
  function Emitted(b: Body, path: string, value: Value, root: Value): seq<Error>
  {
    RunBody(b, path, value, root, Blank).errors
  }

  /** The errors one rule adds to a run, on its own. */
  function RuleErrors(r: Rule, source: Option<MessageSource>, path: string, value: Value, root: Value): seq<Error>
  {
    RunRule(r, source, path, value, root, Blank).errors
  }

  // ---------------------------------------------------------------------------------------
  // Well-formed rules: the tests that run a child validator carry a null message, as every rule
  // the validator builds does. Only then is what a rule adds independent of what came before
  // (a `composeConditionally` test reports the validity of the whole shared result).

  predicate Structural(t: Test)
  {
    match t
    case Check(_) => false
    case Supplied(inner) => Structural(inner)
    case _ => true
  }

  predicate WellFormed(b: Body)
    decreases b, 0
  {
    forall i :: 0 <= i < |b.rules| ==> RuleWellFormed(b.rules[i])
  }

  predicate RuleWellFormed(r: Rule)
    decreases r
  {
    (Structural(r.test) ==> r.errorMessage.None?) && TestWellFormed(r.test)
  }

  predicate TestWellFormed(t: Test)
    decreases t
  {
    match t
    case Check(_) => true
    case RunNested(_, _, child) => WellFormed(child)
    case RunForEach(_, _, child) => WellFormed(child)
    case RunComposite(child) => WellFormed(child)
    case Supplied(inner) => TestWellFormed(inner)
  }

  // ---------------------------------------------------------------------------------------
  // The shared result is append-only: what a well-formed body adds does not depend on what the
  // result already holds.

  lemma {:induction false} FrameBody(b: Body, path: string, value: Value, root: Value, res: Result)
    requires WellFormed(b)
    ensures RunBody(b, path, value, root, res) == AddErrors(res, Emitted(b, path, value, root))
    decreases b, 2
  {
    FrameRules(b, 0, path, value, root, res);
    FrameRules(b, 0, path, value, root, Blank);
  }

  lemma {:induction false} FrameRules(b: Body, i: nat, path: string, value: Value, root: Value, res: Result)
    requires WellFormed(b)
    requires i <= |b.rules|
    ensures RunRules(b, i, path, value, root, res)
         == AddErrors(res, RunRules(b, i, path, value, root, Blank).errors)
    decreases b, 1, |b.rules| - i
  {
    if i < |b.rules| {
      var r := b.rules[i];
      assert RuleWellFormed(r);
      var r1 := RunRule(r, b.messageSource, path, value, root, res);
      var e1 := RunRule(r, b.messageSource, path, value, root, Blank);
      RunRulesStep(b, i, path, value, root, res);
      RunRulesStep(b, i, path, value, root, Blank);
      FrameRule(r, b.messageSource, path, value, root, res);
      FrameRules(b, i + 1, path, value, root, r1);
      FrameRules(b, i + 1, path, value, root, e1);
      AddErrorsTwice(res, e1.errors, RunRules(b, i + 1, path, value, root, Blank).errors);
    }
  }

  lemma RunRulesStep(b: Body, i: nat, path: string, value: Value, root: Value, res: Result)
    requires i < |b.rules|
    ensures RunRules(b, i, path, value, root, res)
         == RunRules(b, i + 1, path, value, root, RunRule(b.rules[i], b.messageSource, path, value, root, res))
  {
  }

  /** Appending two batches is appending their concatenation. */
  lemma AddErrorsTwice(res: Result, a: seq<Error>, c: seq<Error>)
    ensures AddErrors(AddErrors(res, a), c) == AddErrors(res, a + c)
  {
    assert res.errors + a + c == res.errors + (a + c);
  }

  lemma {:induction false} FrameRule(r: Rule, source: Option<MessageSource>, path: string, value: Value, root: Value, res: Result)
    requires RuleWellFormed(r)
    ensures RunRule(r, source, path, value, root, res)
         == AddErrors(res, RunRule(r, source, path, value, root, Blank).errors)
    decreases r
  {
    if Holds(r.condition, value, root) {
      FrameTest(r.test, path, value, root, res);
      FrameTest(r.test, path, value, root, Blank);
      var t := RunTest(r.test, path, value, root, res);
      var t0 := RunTest(r.test, path, value, root, Blank);
      if !t.passed && r.errorMessage.Some? {
        assert !t0.passed;
        var e := Error(path, Render(source, r.errorMessage.value));
        assert res.errors + t0.result.errors + [e] == res.errors + (t0.result.errors + [e]);
      }
    }
  }

  lemma {:induction false} FrameTest(t: Test, path: string, value: Value, root: Value, res: Result)
    requires TestWellFormed(t)
    ensures RunTest(t, path, value, root, res).result
         == AddErrors(res, RunTest(t, path, value, root, Blank).result.errors)
    ensures !Structural(t) ==> RunTest(t, path, value, root, res).passed == RunTest(t, path, value, root, Blank).passed
    decreases t
  {
    match t
    case Check(_) =>
    case RunNested(fieldName, get, child) =>
      if value != Null {
        FrameBody(child, NestedPath(path, fieldName), get(value), root, res);
      }
    case RunForEach(fieldName, tag, child) =>
      if value.Collection? {
        FrameItems(child, ListPath(path, fieldName), tag, value.items, 0, root, res);
        FrameItems(child, ListPath(path, fieldName), tag, value.items, 0, root, Blank);
      }
    case RunComposite(child) =>
      FrameBody(child, path, value, root, res);
      FrameBody(child, path, value, root, Blank);
    case Supplied(inner) =>
      FrameTest(inner, path, value, root, res);
  }

  lemma {:induction false} FrameItems(child: Body, listPath: string, tag: TypeTag, items: seq<Value>, index: nat, root: Value, res: Result)
    requires WellFormed(child)
    ensures RunItems(child, listPath, tag, items, index, root, res)
         == AddErrors(res, RunItems(child, listPath, tag, items, index, root, Blank).errors)
    decreases child, 4, |items|
  {
    if items != [] {
      var path := IndexedPath(listPath, index);
      var r1 := RunItem(child, path, tag, items[0], root, res);
      var e1 := RunItem(child, path, tag, items[0], root, Blank);
      FrameItem(child, path, tag, items[0], root, res);
      FrameItems(child, listPath, tag, items[1..], index + 1, root, r1);
      FrameItems(child, listPath, tag, items[1..], index + 1, root, e1);
      AddErrorsTwice(res, e1.errors, RunItems(child, listPath, tag, items[1..], index + 1, root, Blank).errors);
    }
  }

  lemma {:induction false} FrameItem(child: Body, path: string, tag: TypeTag, item: Value, root: Value, res: Result)
    requires WellFormed(child)
    ensures RunItem(child, path, tag, item, root, res)
         == AddErrors(res, RunItem(child, path, tag, item, root, Blank).errors)
    decreases child, 3
  {
    if IsInstance(tag, item) {
      FrameBody(child, path, item, root, res);
      FrameBody(child, path, item, root, Blank);
    }
  }
}

module RuleProperties {
  import opened Values
  import opened Conditions
  import opened Results
  import opened Rules

  /** A plain rule's test is its predicate's verdict and touches nothing; the rule reports its
      message (rendered) exactly when its condition holds, the predicate fails and the message is
      not null, and only then. */
  lemma CheckRuleOutcome(pred: (Value, Value) -> bool, message: Option<string>, cond: Cond,
                         source: Option<MessageSource>, path: string, value: Value, root: Value, res: Result)
    ensures RunTest(Check(pred), path, value, root, res) == Tested(pred(value, root), res)
    ensures RunRule(Rule(Check(pred), message, cond), source, path, value, root, res)
            == if Holds(cond, value, root) && !pred(value, root) && message.Some?
               then AddErrors(res, [Error(path, Render(source, message.value))])
               else res
  {
  }

  // ---------------------------------------------------------------------------------------
  // Declaration order: a rule added at the end reports after every earlier rule.

  lemma {:induction false} RunRulesAppend(rs: seq<Rule>, r: Rule, source: Option<MessageSource>, i: nat,
                                          path: string, value: Value, root: Value, res: Result)
    requires i <= |rs|
    ensures RunRules(Body(rs + [r], source), i, path, value, root, res)
         == RunRule(r, source, path, value, root, RunRules(Body(rs, source), i, path, value, root, res))
    decreases |rs| - i
  {
    var b, b' := Body(rs, source), Body(rs + [r], source);
    if i < |rs| {
      assert b'.rules[i] == b.rules[i];
      RunRulesAppend(rs, r, source, i + 1, path, value, root, RunRule(rs[i], source, path, value, root, res));
    } else {
      assert b'.rules[i] == r;
    }
  }

  /** Errors come out in the order the rules were declared: the errors of a body whose last rule
      is `r` are those of the rules before it, followed by those of `r`. */
  lemma EmittedAppend(rs: seq<Rule>, r: Rule, source: Option<MessageSource>, path: string, value: Value, root: Value)
    requires WellFormed(Body(rs, source))
    requires RuleWellFormed(r)
    ensures Emitted(Body(rs + [r], source), path, value, root)
         == Emitted(Body(rs, source), path, value, root) + RuleErrors(r, source, path, value, root)
  {
    RunRulesAppend(rs, r, source, 0, path, value, root, Blank);
    FrameRule(r, source, path, value, root, RunBody(Body(rs, source), path, value, root, Blank));
  }

  /** A body without rules reports nothing. */
  lemma EmittedEmpty(source: Option<MessageSource>, path: string, value: Value, root: Value)
    ensures Emitted(Body([], source), path, value, root) == []
  {
    assert RunBody(Body([], source), path, value, root, Blank) == RunRules(Body([], source), 0, path, value, root, Blank);
  }

  // ---------------------------------------------------------------------------------------
  // Path shape: every error a validator reports sits at its own path or below it, where "below"
  // means after a `.` or a `[` that follows the whole path.

  predicate Extends(path: string, q: string)
  {
    path == "" || q == path || path + "." <= q || path + "[" <= q
  }

  lemma ExtendsTransitive(p: string, q: string, r: string)
    requires Extends(p, q) && Extends(q, r)
    ensures Extends(p, r)
  {
    if p != "" && q != p {
      assert q <= r;
    }
  }

  lemma NestedPathExtends(path: string, fieldName: string)
    ensures Extends(path, NestedPath(path, fieldName))
  {
    if path != "" {
      assert (path + "." + fieldName)[..|path| + 1] == path + ".";
    }
  }

  lemma IndexedPathExtends(path: string, fieldName: string, index: nat)
    ensures Extends(ListPath(path, fieldName), IndexedPath(ListPath(path, fieldName), index))
    ensures Extends(path, IndexedPath(ListPath(path, fieldName), index))
  {
    var lp := ListPath(path, fieldName);
    var ip := IndexedPath(lp, index);
    assert ip[..|lp| + 1] == lp + "[";
    if path != "" {
      if fieldName == "" {
        assert lp == path;
      } else {
        assert lp == path + "." + fieldName;
        assert ip[..|path| + 1] == path + ".";
      }
    }
  }

  /** The records added between `before` and `after` all sit at or below `path`. */
  predicate AddedUnder(path: string, before: Result, after: Result)
  {
    forall k :: |before.errors| <= k < |after.errors| ==> Extends(path, after.errors[k].fieldPath)
  }

  lemma AddedUnderChain(path: string, a: Result, b: Result, c: Result)
    requires a.errors <= b.errors <= c.errors
    requires AddedUnder(path, a, b) && AddedUnder(path, b, c)
    ensures AddedUnder(path, a, c)
  {
    forall k | |a.errors| <= k < |c.errors|
      ensures Extends(path, c.errors[k].fieldPath)
    {
      if k < |b.errors| {
        assert c.errors[k] == b.errors[k];
      }
    }
  }

  lemma AddedUnderWiden(p: string, q: string, a: Result, b: Result)
    requires Extends(p, q) && AddedUnder(q, a, b)
    ensures AddedUnder(p, a, b)
  {
    forall k | |a.errors| <= k < |b.errors|
      ensures Extends(p, b.errors[k].fieldPath)
    {
      ExtendsTransitive(p, q, b.errors[k].fieldPath);
    }
  }

  lemma {:induction false} PathsBody(b: Body, path: string, value: Value, root: Value, res: Result)
    ensures AddedUnder(path, res, RunBody(b, path, value, root, res))
    decreases b, 2
  {
    PathsRules(b, 0, path, value, root, res);
  }

  lemma {:induction false} PathsRules(b: Body, i: nat, path: string, value: Value, root: Value, res: Result)
    requires i <= |b.rules|
    ensures AddedUnder(path, res, RunRules(b, i, path, value, root, res))
    decreases b, 1, |b.rules| - i
  {
    if i < |b.rules| {
      assert b.rules[i] in b.rules;
      var r1 := RunRule(b.rules[i], b.messageSource, path, value, root, res);
      PathsRule(b.rules[i], b.messageSource, path, value, root, res);
      PathsRules(b, i + 1, path, value, root, r1);
      AddedUnderChain(path, res, r1, RunRules(b, i, path, value, root, res));
    }
  }

  lemma {:induction false} PathsRule(r: Rule, source: Option<MessageSource>, path: string, value: Value, root: Value, res: Result)
    ensures AddedUnder(path, res, RunRule(r, source, path, value, root, res))
    decreases r
  {
    if Holds(r.condition, value, root) {
      var t := RunTest(r.test, path, value, root, res);
      PathsTest(r.test, path, value, root, res);
      if !t.passed && r.errorMessage.Some? {
        AddedUnderChain(path, res, t.result, RunRule(r, source, path, value, root, res));
      }
    }
  }

  lemma {:induction false} PathsTest(t: Test, path: string, value: Value, root: Value, res: Result)
    ensures AddedUnder(path, res, RunTest(t, path, value, root, res).result)
    decreases t
  {
    match t
    case Check(_) =>
    case RunNested(fieldName, get, child) =>
      if value != Null {
        PathsBody(child, NestedPath(path, fieldName), get(value), root, res);
        NestedPathExtends(path, fieldName);
        AddedUnderWiden(path, NestedPath(path, fieldName), res, RunTest(t, path, value, root, res).result);
      }
    case RunForEach(fieldName, tag, child) =>
      if value.Collection? {
        PathsItems(child, path, fieldName, tag, value.items, 0, root, res);
      }
    case RunComposite(child) =>
      PathsBody(child, path, value, root, res);
    case Supplied(inner) =>
      PathsTest(inner, path, value, root, res);
  }

  lemma {:induction false} PathsItems(child: Body, path: string, fieldName: string, tag: TypeTag, items: seq<Value>,
                                      index: nat, root: Value, res: Result)
    ensures AddedUnder(path, res, RunItems(child, ListPath(path, fieldName), tag, items, index, root, res))
    decreases child, 4, |items|
  {
    if items != [] {
      var ip := IndexedPath(ListPath(path, fieldName), index);
      var r1 := RunItem(child, ip, tag, items[0], root, res);
      IndexedPathExtends(path, fieldName, index);
      if IsInstance(tag, items[0]) {
        PathsBody(child, ip, items[0], root, res);
        AddedUnderWiden(path, ip, res, r1);
      }
      PathsItems(child, path, fieldName, tag, items[1..], index + 1, root, r1);
      AddedUnderChain(path, res, r1, RunItems(child, ListPath(path, fieldName), tag, items, index, root, res));
    }
  }

  /** Every error a validator body reports sits at its own path or below it. */
  lemma ErrorsUnderPath(b: Body, path: string, value: Value, root: Value)
    ensures forall e :: e in Emitted(b, path, value, root) ==> Extends(path, e.fieldPath)
  {
    PathsBody(b, path, value, root, Blank);
  }

  // ---------------------------------------------------------------------------------------
  // `forEach`: a reference description of what the loop reports, element by element.

  /** What element `index` contributes: the element validator's errors at `listPath[index]`, or
      exactly one type error there. */
  function ElementErrors(child: Body, listPath: string, tag: TypeTag, item: Value, index: nat, root: Value): seq<Error>
  {
    if IsInstance(tag, item) then Emitted(child, IndexedPath(listPath, index), item, root)
    else [Error(IndexedPath(listPath, index), Some(TypeMismatch(tag)))]
  }

  /** The contributions of `items`, numbered from `index` on, in iteration order. */
  function ElementsErrors(child: Body, listPath: string, tag: TypeTag, items: seq<Value>, index: nat, root: Value): seq<Error>
  {
    if items == [] then []
    else ElementErrors(child, listPath, tag, items[0], index, root) + ElementsErrors(child, listPath, tag, items[1..], index + 1, root)
  }

  /** The loop visits the elements in iteration order, numbering them from `index`, and reports for
      each exactly what `ElementErrors` says. */
  lemma {:induction false} ItemsInOrder(child: Body, listPath: string, tag: TypeTag, items: seq<Value>, index: nat, root: Value, res: Result)
    requires WellFormed(child)
    ensures RunItems(child, listPath, tag, items, index, root, res)
         == AddErrors(res, ElementsErrors(child, listPath, tag, items, index, root))
    decreases |items|
  {
    if items != [] {
      var r1 := RunItem(child, IndexedPath(listPath, index), tag, items[0], root, res);
      var mine := ElementErrors(child, listPath, tag, items[0], index, root);
      var later := ElementsErrors(child, listPath, tag, items[1..], index + 1, root);
      ItemReports(child, listPath, tag, items[0], index, root, res);
      ItemsInOrder(child, listPath, tag, items[1..], index + 1, root, r1);
      assert res.errors + mine + later == res.errors + (mine + later);
    }
  }

  /** One element adds exactly what `ElementErrors` says, whatever the result held. */
  lemma ItemReports(child: Body, listPath: string, tag: TypeTag, item: Value, index: nat, root: Value, res: Result)
    requires WellFormed(child)
    ensures RunItem(child, IndexedPath(listPath, index), tag, item, root, res)
            == AddErrors(res, ElementErrors(child, listPath, tag, item, index, root))
  {
    if IsInstance(tag, item) {
      FrameBody(child, IndexedPath(listPath, index), item, root, res);
    }
  }

  /** Two elements of one collection never share a path. */
  lemma IndexedPathsDistinct(listPath: string, i: nat, j: nat)
    requires i != j
    ensures IndexedPath(listPath, i) != IndexedPath(listPath, j)
  {
    var si, sj := IndexedPath(listPath, i), IndexedPath(listPath, j);
    if si == sj {
      assert si[|listPath| + 1..|si| - 1] == NatToString(i);
      assert sj[|listPath| + 1..|sj| - 1] == NatToString(j);
      NatToStringInjective(i, j);
    }
  }
}
