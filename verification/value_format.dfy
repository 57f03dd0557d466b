/** The per-type rendering of one positional argument: `to_string_impl`
    (the default text, used for `{i}`) and the `format_value`
    specialisations (used for `{i:spec}`). */
module ValueFormat {
  import opened Text
  import opened Values
  import opened StringFormat
  import opened NumberFormat

  function BoolText(b: bool): string {
    if b then "true" else "false"
  }

  /** The one-character string a `char` renders as. */
  function CharText(c: int): string {
    [CharOf(c)]
  }

  /** `to_string_impl`: the default text of a value when no custom
      formatter is registered for its type. */
  function DefaultString(p: Platform, v: Value): string {
    match v
    case VBool(b) => BoolText(b)
    case VChar(c) => CharText(c)
    case VInt(_, n) => IntToDecimal(n)
    case VFloat(_, d) => p.doubleToString(d)
    case VString(_, s) => s
    case VOther(_, text) => text
  }

  /** A `char` is rendered as a number when the spec ends in 'd', 'x' or 'o'. */
  predicate CharAsInteger(spec: string) {
    spec != [] && spec[|spec| - 1] in "dxo"
  }

  /** `format_value<T>(value, spec)`, chosen by the value's type. */
  function FormatValue(p: Platform, v: Value, spec: string): string
    requires ValidValue(v)
  {
    match v
    case VFloat(_, d) => FormatDouble(p, d, spec)
    case VInt(k, n) => FormatInteger(p, ToLongLong(k, n), spec)
    case VChar(c) =>
      if CharAsInteger(spec) then FormatInteger(p, c, spec)
      else ApplyStringFormatting(CharText(c), spec)
    case VBool(b) => ApplyStringFormatting(BoolText(b), spec)
    case VString(_, s) => ApplyStringFormatting(s, spec)
    case VOther(_, text) => ApplyStringFormatting(text, spec)
  }

  /** Every integer type renders as the `long long` it is cast to. */
  lemma IntegersRenderAsLongLong(p: Platform, k: IntKind, n: int, spec: string)
    requires InRange(k, n)
    ensures FormatValue(p, VInt(k, n), spec)
         == FormatValue(p, VInt(LongLongKind, ToLongLong(k, n)), spec)
  {
  }

  /** `bool` renders as the word "true"/"false" under string formatting;
      numeric specs have no numeric meaning for it. */
  lemma BoolRendersAsWord(p: Platform, b: bool, spec: string)
    ensures FormatValue(p, VBool(b), spec) == ApplyStringFormatting(BoolText(b), spec)
    ensures spec == [] ==> FormatValue(p, VBool(b), spec) == DefaultString(p, VBool(b))
  {
  }

  /** A `char` renders as its one-character string unless the spec ends in
      d, x or o, in which case it renders as its integer code. */
  lemma CharRouting(p: Platform, c: int, spec: string)
    requires -128 <= c < 128
    ensures CharAsInteger(spec) ==>
              FormatValue(p, VChar(c), spec) == FormatValue(p, VInt(Int, c), spec)
    ensures !CharAsInteger(spec) ==>
              FormatValue(p, VChar(c), spec) == FormatValue(p, VString(StdString, CharText(c)), spec)
  {
  }

  /** An empty spec after the colon renders like the plain placeholder, for
      every value except unsigned 64-bit integers of 2^63 and above. */
  lemma EmptySpecIsDefault(p: Platform, v: Value)
    requires ValidValue(v)
    requires v.VInt? ==> v.n <= LLONG_MAX
    ensures FormatValue(p, v, "") == DefaultString(p, v)
  {
  }

  /** ... for those, `{i:}` prints the wrapped, negative `long long` while
      `{i}` prints the unsigned number. */
  lemma EmptySpecWrapsLargeUnsigned(p: Platform, k: IntKind, n: int)
    requires k == ULong || k == ULongLong
    requires LLONG_MAX < n < TWO_64
    ensures FormatValue(p, VInt(k, n), "")[0] == '-'
    ensures DefaultString(p, VInt(k, n))[0] != '-'
  {
  }
}
