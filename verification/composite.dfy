/** `CompositeValidator`: an ordered list of configurators and a default condition. Applying it to
    a validator runs every configurator on that validator in registration order; a composite can
    be applied to any number of validators. */
module CompositeValidator {
  import opened Values
  import opened Conditions
  import opened FieldValidator
  import opened FieldValidatorProperties

  /** A new composite: no configurators, and a default condition that always holds. */
  function NewComposite(): (c: Composite)
    ensures c.configurators == []
    ensures forall value, root :: Holds(c.defaultCondition, value, root)
  {
    Composite([], Always)
  }

  /** `add`: registers one more configurator after the others. */
  function Add(c: Composite, configurator: Configurator): (c': Composite)
    ensures c'.configurators == c.configurators + [configurator]
    ensures c'.defaultCondition == c.defaultCondition
  {
    c.(configurators := c.configurators + [configurator])
  }

  /** `withDefaultCondition`: replaces the default condition; the configurators stay. */
  function WithDefaultCondition(c: Composite, cond: Cond): (c': Composite)
    ensures c'.defaultCondition == cond
    ensures c'.configurators == c.configurators
  {
    c.(defaultCondition := cond)
  }

  function GetDefaultCondition(c: Composite): Cond
  {
    c.defaultCondition
  }

  /** The calls of a list of configurators, one configurator after the other. */
  function Calls(configurators: seq<Configurator>): seq<Step>
  {
    if configurators == [] then [] else configurators[0].steps + Calls(configurators[1..])
  }

  lemma {:induction false} CallsAppend(cs: seq<Configurator>, d: Configurator)
    ensures Calls(cs + [d]) == Calls(cs) + d.steps
    decreases |cs|
  {
    if cs == [] {
      assert [] + [d] == [d];
      assert Calls([d]) == d.steps + Calls([]);
    } else {
      assert (cs + [d])[0] == cs[0] && (cs + [d])[1..] == cs[1..] + [d];
      CallsAppend(cs[1..], d);
    }
  }

  /** The last default condition set is the one a composite reports. */
  lemma LastDefaultWins(c: Composite, first: Cond, second: Cond)
    ensures GetDefaultCondition(WithDefaultCondition(WithDefaultCondition(c, first), second)) == second
    ensures WithDefaultCondition(WithDefaultCondition(c, first), second).configurators == c.configurators
  {
  }

  lemma {:induction false} ApplyFromCalls(c: Composite, i: nat, v: Validator)
    requires i <= |c.configurators|
    ensures ApplyFrom(c, i, v) == Configure(v, Calls(c.configurators[i..]))
    decreases |c.configurators| - i
  {
    if i == |c.configurators| {
      assert c.configurators[i..] == [];
    } else {
      var v' := Configure(v, c.configurators[i].steps);
      ApplyFromCalls(c, i + 1, v');
      assert c.configurators[i..][0] == c.configurators[i];
      assert c.configurators[i..][1..] == c.configurators[i + 1..];
      ConfigureAppend(v, c.configurators[i].steps, Calls(c.configurators[i + 1..]));
    }
  }

  /** `applyTo` performs, in registration order, every call every configurator makes. */
  lemma ApplyToRunsEveryConfigurator(c: Composite, v: Validator)
    ensures ApplyTo(c, v) == Configure(v, Calls(c.configurators))
  {
    ApplyFromCalls(c, 0, v);
    assert c.configurators[0..] == c.configurators;
  }

  /** Adding a configurator makes `applyTo` run it after all the earlier ones. */
  lemma ApplyToAdd(c: Composite, configurator: Configurator, v: Validator)
    ensures ApplyTo(Add(c, configurator), v) == Configure(ApplyTo(c, v), configurator.steps)
  {
    ApplyToRunsEveryConfigurator(Add(c, configurator), v);
    ApplyToRunsEveryConfigurator(c, v);
    CallsAppend(c.configurators, configurator);
    ConfigureAppend(v, Calls(c.configurators), configurator.steps);
  }

  /** A new composite changes nothing. */
  lemma ApplyEmptyComposite(v: Validator)
    ensures ApplyTo(NewComposite(), v) == v
  {
  }

  /** Reuse: one composite applied to two validators that agree on laziness and on what is pending
      adds the same rules to each, after the rules each already had. */
  lemma ReusableAcrossValidators(c: Composite, v1: Validator, v2: Validator)
    requires v1.lazy == v2.lazy && v1.currentCondition == v2.currentCondition
    ensures ApplyTo(c, v1).rules[..|v1.rules|] == v1.rules
    ensures ApplyTo(c, v1).rules[|v1.rules|..] == ApplyTo(c, v2).rules[|v2.rules|..]
  {
    ApplyToRunsEveryConfigurator(c, v1);
    ApplyToRunsEveryConfigurator(c, v2);
    ConfigureAddsIndependently(v1, v2, Calls(c.configurators));
  }
}
