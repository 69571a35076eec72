/** The objects the validators look at: a small model of a Java object graph, together with
    the few pieces of the Java runtime the rules consult (null, `instanceof`, `toString`,
    `Class.isInstance`, `Comparable.compareTo` and `Pattern.matches`). */
module Values {

  /** A Java reference that may be null: `None` is null. */
  datatype Option<+T> = None | Some(value: T)

  /** The kinds of `java.util.Collection` the engines tell apart: the legacy engine only
      iterates a `List`, the current one any `Collection` (a `Set`, a `Queue`, ...). */
  datatype CollectionKind = ListKind | OtherCollection

  /** One value of the object graph. `Collection` keeps its iteration order; `Object` is a data
      holder whose fields are listed in declaration order. */
  datatype Value =
    | Null
    | Bool(b: bool)
    | Num(n: int)
    | Str(chars: string)
    | Collection(kind: CollectionKind, items: seq<Value>)
    | Array(elems: seq<Value>)
    | Object(cls: string, fields: seq<Field>)

  datatype Field = Field(name: string, value: Value)

  /** A `Class<U>` as used by `forEach`: its simple name, and which non-null values are instances
      of it (subtyping is the caller's business). */
  datatype TypeTag = TypeTag(simpleName: string, accepts: Value -> bool)

  /** `Class.isInstance`: null is an instance of no class. */
  predicate IsInstance(tag: TypeTag, v: Value)
  {
    v != Null && tag.accepts(v)
  }

  /** A `Comparable<T>` bound: its `toString` and its `compareTo` against a value. */
  datatype Bound = Bound(shown: string, compareTo: Value -> int)

  /** An integer bound, comparing as `Integer.compareTo` does (only the sign matters). */
  function IntBound(min: int): (b: Bound)
    ensures b.shown == IntToString(min)
    ensures forall n :: b.compareTo(Num(n)) < 0 <==> min < n
  {
    Bound(IntToString(min), (v: Value) => if v.Num? then (if min < v.n then -1 else if min == v.n then 0 else 1) else 1)
  }

  /** A regular expression: its source text and whether it matches a whole input (`Pattern.matches`). */
  datatype Regex = Regex(pattern: string, fullMatch: string -> bool)

  /** The emptiness test both engines' `notEmpty` rules share: null is empty; a string, a collection
      and an array are non-empty when they have an element; every other value is non-empty. */
  predicate IsNonEmpty(v: Value)
  {
    match v
    case Null => false
    case Str(s) => |s| > 0
    case Collection(_, items) => |items| > 0
    case Array(elems) => |elems| > 0
    case _ => true
  }

  lemma NonEmptyExactly(v: Value)
    ensures !IsNonEmpty(v) <==> v == Null || v == Str("") || (v.Collection? && v.items == []) || v == Array([])
  {
    match v
    case Str(s) => if |s| == 0 { assert s == ""; }
    case Collection(_, items) => if |items| == 0 { assert items == []; }
    case Array(elems) => if |elems| == 0 { assert elems == []; }
    case _ =>
  }

  function DigitChar(d: nat): (c: char)
    requires d < 10
    ensures '0' <= c <= '9'
  {
    "0123456789"[d]
  }

  /** Decimal rendering of a natural number, as `Integer.toString` prints it. */
  function NatToString(n: nat): (s: string)
    ensures |s| > 0
    ensures forall i :: 0 <= i < |s| ==> '0' <= s[i] <= '9'
    ensures n < 10 <==> |s| == 1
    decreases n
  {
    if n < 10 then [DigitChar(n)] else NatToString(n / 10) + [DigitChar(n % 10)]
  }

  function IntToString(i: int): string
  {
    if i < 0 then "-" + NatToString(-i) else NatToString(i)
  }

  lemma DigitCharInjective(a: nat, b: nat)
    requires a < 10 && b < 10
    requires DigitChar(a) == DigitChar(b)
    ensures a == b
  {
  }

  /** Distinct numbers print differently, so an index written into a path identifies the element. */
  lemma {:induction false} NatToStringInjective(a: nat, b: nat)
    requires NatToString(a) == NatToString(b)
    ensures a == b
    decreases a
  {
    var sa, sb := NatToString(a), NatToString(b);
    if a < 10 || b < 10 {
      assert |sa| == 1 && |sb| == 1;
      assert a < 10 && b < 10;
      assert sa[0] == DigitChar(a) && sb[0] == DigitChar(b);
      DigitCharInjective(a, b);
    } else {
      var pa, pb := NatToString(a / 10), NatToString(b / 10);
      assert sa == pa + [DigitChar(a % 10)];
      assert sb == pb + [DigitChar(b % 10)];
      assert sa[..|sa| - 1] == pa;
      assert sb[..|sb| - 1] == pb;
      NatToStringInjective(a / 10, b / 10);
      assert sa[|sa| - 1] == DigitChar(a % 10) && sb[|sb| - 1] == DigitChar(b % 10);
      DigitCharInjective(a % 10, b % 10);
    }
  }

  /** `toString` of a value: strings print as themselves, numbers in decimal, collections as
      `AbstractCollection` prints them, data holders in the form a generated `toString` takes. */
  function Show(v: Value): string
    decreases v, 1
  {
    match v
    case Null => "null"
    case Bool(b) => if b then "true" else "false"
    case Num(n) => IntToString(n)
    case Str(s) => s
    case Collection(_, items) => "[" + ShowAll(v, items, 0) + "]"
    case Array(elems) => "[" + ShowAll(v, elems, 0) + "]"
    case Object(cls, fields) => cls + "(" + ShowFields(v, fields, 0) + ")"
  }

  function ShowAll(owner: Value, items: seq<Value>, i: nat): string
    requires i <= |items|
    requires items == (if owner.Collection? then owner.items else if owner.Array? then owner.elems else [])
    decreases owner, 0, |items| - i
  {
    if i == |items| then ""
    else
      assert items[i] < owner;
      Show(items[i]) + (if i + 1 < |items| then ", " else "") + ShowAll(owner, items, i + 1)
  }

  function ShowFields(owner: Value, fields: seq<Field>, i: nat): string
    requires owner.Object? && fields == owner.fields
    requires i <= |fields|
    decreases owner, 0, |fields| - i
  {
    if i == |fields| then ""
    else
      assert fields[i].value < owner;
      fields[i].name + "=" + Show(fields[i].value) + (if i + 1 < |fields| then ", " else "")
        + ShowFields(owner, fields, i + 1)
  }

  /** Reads a data holder's field by name, as a generated getter does; an absent field reads as null. */
  function Get(v: Value, name: string): Value
  {
    if v.Object? then FieldOf(v.fields, name) else Null
  }

  function FieldOf(fields: seq<Field>, name: string): Value
  {
    if |fields| == 0 then Null
    else if fields[0].name == name then fields[0].value
    else FieldOf(fields[1..], name)
  }
}
