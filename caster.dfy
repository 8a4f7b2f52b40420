/** `cast_to_type`: converts a match value (or a partition value) to the type
    of the column it is compared against, so that the generated query compares
    like with like. */
module Caster {
  import opened Outcomes
  import opened Decimal
  import opened Resolver

  /** A value as it arrives in the deletion queue or a partition: text or an integer. */
  datatype Raw = RawStr(s: string) | RawInt(i: int)

  /** A value of a column's type. Double and float columns keep the value they
      were given (`Real`); their floating-point conversion is not modelled. */
  datatype Value = Str(s: string) | Integer(i: int) | Real(raw: Raw)

  predicate IsStringKind(k: Kind) { k == Char || k == String || k == Varchar }

  predicate IsIntegerKind(k: Kind) { k == BigInt || k == Int || k == SmallInt || k == TinyInt }

  /** `str(v)` */
  function StrOf(v: Raw): string {
    match v
    case RawStr(s) => s
    case RawInt(i) => ShowInt(i)
  }

  /** Converts `v` to kind `k`: the string kinds take its text, the integer
      kinds take `int(v)` and fail on text that is not an integer, and the
      floating-point kinds take it as it is. */
  function CastToKind(v: Raw, k: Kind): (r: Result<Value>)
    ensures IsStringKind(k) ==> r == Ok(Str(StrOf(v)))
    ensures IsIntegerKind(k) && v.RawInt? ==> r == Ok(Integer(v.i))
    ensures IsIntegerKind(k) && v.RawStr? ==>
      (r.Ok? <==> ParseInt(v.s).Some?) &&
      (r.Ok? ==> r.value == Integer(ParseInt(v.s).value)) &&
      (r.Err? ==> r.error == NotAnInteger(v.s))
    ensures !IsStringKind(k) && !IsIntegerKind(k) ==> r == Ok(Real(v))
  {
    if IsStringKind(k) then Ok(Str(StrOf(v)))
    else if IsIntegerKind(k) then
      match v
      case RawInt(i) => Ok(Integer(i))
      case RawStr(s) =>
        (match ParseInt(s)
         case Some(n) => Ok(Integer(n))
         case None => Err(NotAnInteger(s)))
    else Ok(Real(v))
  }

  /** `cast_to_type(v, id, table)`: resolves the dotted `id` among the table's
      columns, then converts `v` to the kind found there. */
  function Cast(v: Raw, id: string, cols: seq<Column>): (r: Result<Value>)
    ensures r.Ok? <==> ResolveKind(cols, id).Ok? && CastToKind(v, ResolveKind(cols, id).value).Ok?
    ensures r.Ok? ==> r == CastToKind(v, ResolveKind(cols, id).value)
    ensures ResolveKind(cols, id).Err? ==> r == Err(ResolveKind(cols, id).error)
  {
    var k :- ResolveKind(cols, id);
    CastToKind(v, k)
  }

  /** The value as it would arrive again, to cast it once more. */
  function AsRaw(x: Value): Raw {
    match x
    case Str(s) => RawStr(s)
    case Integer(i) => RawInt(i)
    case Real(v) => v
  }

  /** Casting is idempotent: a value already of the column's type is left as it is. */
  lemma CastToKindIdempotent(v: Raw, k: Kind)
    requires CastToKind(v, k).Ok?
    ensures CastToKind(AsRaw(CastToKind(v, k).value), k) == CastToKind(v, k)
  {
  }

  lemma CastIdempotent(v: Raw, id: string, cols: seq<Column>)
    requires Cast(v, id, cols).Ok?
    ensures Cast(AsRaw(Cast(v, id, cols).value), id, cols) == Cast(v, id, cols)
  {
    CastToKindIdempotent(v, ResolveKind(cols, id).value);
  }

  /** An integer that has gone through a string column casts back to itself on
      an integer column: `int(str(n)) == n`. */
  lemma IntThroughString(n: int, s: Kind, k: Kind)
    requires IsStringKind(s) && IsIntegerKind(k)
    ensures CastToKind(AsRaw(CastToKind(RawInt(n), s).value), k) == Ok(Integer(n))
  {
    ParseShowInt(n);
  }

  /** Every integer-kind cast of text that succeeds read the text as a
      (possibly signed) run of decimal digits, surrounding whitespace aside. */
  lemma IntegerCastNeedsDigits(s: string, k: Kind)
    requires IsIntegerKind(k) && CastToKind(RawStr(s), k).Ok?
    ensures |Strip(s)| > 0 && AllDigits(Strip(s)[1..])
  {
  }
}
