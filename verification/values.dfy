/** The values a ufmt call can receive, their type tags (the key of the
    custom-formatter registry, standing for `std::type_index`), and the
    C library services the renderer delegates to. */
module Values {
  import opened Wrappers
  import opened Text

  const LLONG_MIN: int := -0x8000_0000_0000_0000
  const LLONG_MAX: int := 0x7FFF_FFFF_FFFF_FFFF
  const TWO_64: int := 0x1_0000_0000_0000_0000

  /** A value of C++ type `long long`. */
  type LongLong = n: int | LLONG_MIN <= n <= LLONG_MAX

  /** An IEEE-754 binary64 value, kept opaque: every operation on it goes
      through `Platform`. A `float` argument is carried as its (exact)
      widening to double. */
  datatype Double = Double(bits: bv64)

  datatype IntKind = Int | Long | LongLongKind | UInt | ULong | ULongLong
  datatype FloatKind = Float | DoubleKind
  /** `std::string`, `const char*`, and a string literal (a `char` array)
      are different types to the formatter registry. */
  datatype StringKind = StdString | CharPointer | CharArray

  datatype Value =
    | VBool(b: bool)
    | VChar(code: int)                       // a (signed) `char`, by its code
    | VInt(kind: IntKind, n: int)
    | VFloat(fkind: FloatKind, d: Double)
    | VString(skind: StringKind, s: string)
    | VOther(typeName: string, text: string) // any other type, with its streamed text

  datatype TypeTag =
    | TBool | TChar | TInt(kind: IntKind) | TFloat(fkind: FloatKind)
    | TString(skind: StringKind) | TOther(typeName: string)

  function TagOf(v: Value): TypeTag {
    match v
    case VBool(_) => TBool
    case VChar(_) => TChar
    case VInt(k, _) => TInt(k)
    case VFloat(k, _) => TFloat(k)
    case VString(k, _) => TString(k)
    case VOther(name, _) => TOther(name)
  }

  /** The range of each integer kind on an LP64 platform. */
  predicate InRange(kind: IntKind, n: int) {
    match kind
    case Int => INT_MIN <= n <= INT_MAX
    case Long | LongLongKind => LLONG_MIN <= n <= LLONG_MAX
    case UInt => 0 <= n < 0x1_0000_0000
    case ULong | ULongLong => 0 <= n < TWO_64
  }

  predicate ValidValue(v: Value) {
    match v
    case VChar(c) => -128 <= c < 128
    case VInt(k, n) => InRange(k, n)
    case _ => true
  }

  /** `static_cast<long long>` from any integer kind: unsigned 64-bit values
      of 2^63 and above wrap to negative numbers. */
  function ToLongLong(kind: IntKind, n: int): (r: LongLong)
    requires InRange(kind, n)
    ensures (r - n) % TWO_64 == 0
    ensures LLONG_MIN <= n <= LLONG_MAX ==> r == n
  {
    if n > LLONG_MAX then n - TWO_64 else n
  }

  /** The character a `char` code stands for in a string (its byte). */
  function CharOf(code: int): char {
    (code % 256) as char
  }

  /** The C/C++ library services ufmt calls and this model does not
      interpret: printf-family formatting into a 256-byte buffer,
      `std::to_string(double)`, and the throwing parsers `std::stod` and
      `std::stoll` (None where they throw). */
  datatype Platform = Platform(
    printfDouble: (string, Double) -> string,
    printfInteger: (string, LongLong) -> string,
    doubleToString: Double -> string,
    stod: string -> Option<Double>,
    stoll: string -> Option<LongLong>)
}
