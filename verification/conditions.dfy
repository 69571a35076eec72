/** Applicability conditions of field rules: the `BiPredicate<T, R>` values the validators build,
    kept as a small syntax so that how a condition was put together (`and`, `negate`, the lazy
    supplier) stays visible. Every condition is evaluated on (value, root). */
module Conditions {
  import opened Values

  datatype Cond =
    | Always                                  // (t, r) -> true
    | Test(holds: (Value, Value) -> bool)     // a caller's BiPredicate
    | And(left: Cond, right: Cond)            // BiPredicate.and
    | Not(inner: Cond)                        // BiPredicate.negate
    | Deferred(inner: Cond)                   // a supplier that hands back the condition when asked

  predicate Holds(c: Cond, value: Value, root: Value)
  {
    match c
    case Always => true
    case Test(f) => f(value, root)
    case And(l, r) => Holds(l, value, root) && Holds(r, value, root)
    case Not(i) => !Holds(i, value, root)
    case Deferred(i) => Holds(i, value, root)
  }

  /** Negating twice gives back the same applicability. */
  lemma NotNot(c: Cond, value: Value, root: Value)
    ensures Holds(Not(Not(c)), value, root) == Holds(c, value, root)
  {
  }
}
