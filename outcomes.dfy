/** Result and Option wrappers, and the errors the deletion-query compiler raises. */
module Outcomes {

  datatype Option<+T> = None | Some(value: T)

  /** Every failure of the compiler is an input-data error: a malformed type
      string, an unknown column or field, a type that cannot be queried, a value
      that does not parse as the column's integer type, or an executor this
      compiler does not know. */
  datatype Error =
    | SchemaNotValid
    | UnknownColumn(column: string)
    | UnknownField(id: string)
    | ArrayNotSupported
    | UnsupportedType(id: string)
    | NotAnInteger(text: string)
    | UnsupportedExecutor(executor: string)

  datatype Result<+T> = Ok(value: T) | Err(error: Error) {
    predicate IsFailure() { Err? }

    function PropagateFailure<U>(): Result<U>
      requires Err?
    {
      Err(error)
    }

    function Extract(): T
      requires Ok?
    {
      value
    }
  }

  /** The two error texts the program reports verbatim. */
  function Message(e: Error): (s: string)
    requires e.SchemaNotValid? || e.UnsupportedType?
    ensures e.UnsupportedType? ==>
      |s| > 7 + |e.id| && s[..7] == "Column " && s[7..7 + |e.id|] == e.id &&
      s[7 + |e.id|..] == " is not a supported column type for querying"
    ensures e.SchemaNotValid? ==> s == "Column schema is not valid"
  {
    match e
    case SchemaNotValid => "Column schema is not valid"
    case UnsupportedType(id) => "Column " + id + " is not a supported column type for querying"
  }

  /** Applies `f` to every element, stopping at the first failure. */
  function Traverse<A, B>(xs: seq<A>, f: A -> Result<B>): (r: Result<seq<B>>)
    ensures r.Ok? <==> forall i :: 0 <= i < |xs| ==> f(xs[i]).Ok?
    ensures r.Ok? ==> |r.value| == |xs| && forall i :: 0 <= i < |xs| ==> r.value[i] == f(xs[i]).value
    ensures r.Err? ==> exists i :: 0 <= i < |xs| && f(xs[i]) == Err(r.error)
  {
    if xs == [] then Ok([])
    else
      var y :- f(xs[0]);
      var ys :- Traverse(xs[1..], f);
      Ok([y] + ys)
  }
}
