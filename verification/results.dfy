/** The result of one validation run of the current engine: the validated object and the ordered
    (field path, message) records, appended to and never removed. */
module Results {
  import opened Values

  /** One error record. Both parts are fixed at construction; the message is a Java string and
      may be null. */
  datatype Error = Error(fieldPath: string, errorMessage: Option<string>)

  /** `String.valueOf` of a possibly-null string. */
  function Text(s: Option<string>): string
  {
    match s
    case None => "null"
    case Some(t) => t
  }

  /** The printed form of a record: the path, a colon and a space, then the message. */
  function ToString(e: Error): (s: string)
    ensures |s| == |e.fieldPath| + 2 + |Text(e.errorMessage)|
    ensures s[..|e.fieldPath|] == e.fieldPath
    ensures s[|e.fieldPath|..|e.fieldPath| + 2] == ": "
    ensures s[|e.fieldPath| + 2..] == Text(e.errorMessage)
  {
    e.fieldPath + ": " + Text(e.errorMessage)
  }

  datatype Result = Result(validatedObject: Value, errors: seq<Error>)

  /** A new result, bound to the object it reports on. */
  function New(validatedObject: Value): (r: Result)
    ensures IsValid(r)
    ensures r.errors == []
    ensures GetValidatedObject(r) == validatedObject
  {
    Result(validatedObject, [])
  }

  /** Appends one record at the end; the records already there and the object stay as they were. */
  function AddError(r: Result, fieldPath: string, errorMessage: Option<string>): (r': Result)
    ensures |r'.errors| == |r.errors| + 1
    ensures r'.errors[..|r.errors|] == r.errors
    ensures r'.errors[|r.errors|] == Error(fieldPath, errorMessage)
    ensures r'.validatedObject == r.validatedObject
    ensures !IsValid(r')
  {
    Result(r.validatedObject, r.errors + [Error(fieldPath, errorMessage)])
  }

  /** Appends several records, in order. */
  function AddErrors(r: Result, es: seq<Error>): (r': Result)
    ensures r'.errors == r.errors + es
    ensures r'.validatedObject == r.validatedObject
  {
    Result(r.validatedObject, r.errors + es)
  }

  /** Valid exactly when there is no error. */
  predicate IsValid(r: Result)
  {
    |r.errors| == 0
  }

  /** The records, in the order they were added. A Dafny sequence is a value, so what the caller
      receives is a copy: nothing done with it reaches the result. */
  function GetErrors(r: Result): seq<Error>
  {
    r.errors
  }

  function GetValidatedObject(r: Result): Value
  {
    r.validatedObject
  }

  /** Whatever is appended later, the object a result reports on is the one it was created for. */
  lemma {:induction false} ValidatedObjectIsFixed(o: Value, adds: seq<Error>)
    ensures GetValidatedObject(AppendEach(New(o), adds)) == o
    ensures GetErrors(AppendEach(New(o), adds)) == adds
    ensures IsValid(AppendEach(New(o), adds)) <==> adds == []
    decreases |adds|
  {
    if adds != [] {
      ValidatedObjectIsFixed(o, adds[..|adds| - 1]);
      assert adds == adds[..|adds| - 1] + [adds[|adds| - 1]];
    }
  }

  /** Adds the records one `addError` call at a time. */
  function AppendEach(r: Result, adds: seq<Error>): Result
    decreases |adds|
  {
    if adds == [] then r
    else
      var last := adds[|adds| - 1];
      AddError(AppendEach(r, adds[..|adds| - 1]), last.fieldPath, last.errorMessage)
  }
}
