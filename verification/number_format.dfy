/** `format_integer_value` and `format_double_value`: the hand-written
    binary rendering, and the printf delegation for everything else. */
module NumberFormat {
  import opened Wrappers
  import opened Text
  import opened Values

  predicate IsBit(c: char) {
    c == '0' || c == '1'
  }

  predicate AllBits(s: string) {
    forall i :: 0 <= i < |s| ==> IsBit(s[i])
  }

  /** The number a string of binary digits denotes. */
  function BitsValue(s: string): nat
    requires AllBits(s)
  {
    if s == [] then 0 else BitsValue(s[..|s| - 1]) * 2 + (if s[|s| - 1] == '1' then 1 else 0)
  }

  /** Minimal binary digits: at least one digit and a leading '1'. */
  predicate MinimalBinary(s: string) {
    |s| >= 1 && s[0] == '1' && AllBits(s)
  }

  /** The digits the source's shift-and-prepend loop produces for a
      positive `unsigned long long`. */
  function BinaryDigits(u: nat): (b: string)
    requires u > 0
    ensures MinimalBinary(b) && BitsValue(b) == u
  {
    if u == 1 then "1"
    else
      var b := BinaryDigits(u / 2) + [if u % 2 == 1 then '1' else '0'];
      assert b[..|b| - 1] == BinaryDigits(u / 2);
      b
  }

  /** Leading zeros do not change a binary number. */
  lemma {:induction false} ZeroPaddingKeepsValue(n: nat, s: string)
    requires AllBits(s)
    ensures AllBits(Repeat('0', n) + s) && BitsValue(Repeat('0', n) + s) == BitsValue(s)
  {
    if s == [] {
      assert Repeat('0', n) + s == Repeat('0', n);
      AllZerosValue(n);
    } else {
      var z := Repeat('0', n) + s;
      assert z[..|z| - 1] == Repeat('0', n) + s[..|s| - 1];
      ZeroPaddingKeepsValue(n, s[..|s| - 1]);
    }
  }

  lemma {:induction false} AllZerosValue(n: nat)
    ensures AllBits(Repeat('0', n)) && BitsValue(Repeat('0', n)) == 0
  {
    if n > 0 {
      assert Repeat('0', n)[..n - 1] == Repeat('0', n - 1);
      AllZerosValue(n - 1);
    }
  }

  /** The width the binary branch applies, when it applies: the width
      token parses with `std::stoi` and exceeds the digits plus "0b". */
  function BinaryWidth(widthSpec: string, digits: nat): (w: Option<int>)
    ensures w.Some? ==> widthSpec != [] && StoI(widthSpec) == Some(w.value) && w.value > digits + 2
    ensures w.None? ==> widthSpec == [] || StoI(widthSpec).None? || StoI(widthSpec).value <= digits + 2
  {
    if widthSpec == [] then None
    else match StoI(widthSpec)
      case Some(width) => if width > digits + 2 then Some(width) else None
      case None => None
  }

  /** `static_cast<unsigned long long>`: the value modulo 2^64. */
  function ToUnsigned(value: LongLong): (u: nat)
    ensures u < TWO_64 && u == value % TWO_64
    ensures u == 0 <==> value == 0
  {
    if value < 0 then value + TWO_64 else value
  }

  /** The binary branch of `format_integer_value`; `widthSpec` is the spec
      without its final 'b'/'B'. */
  function FormatBinary(value: LongLong, widthSpec: string): (r: string)
    ensures value == 0 ==> r == "0b0"
  {
    if value == 0 then "0b0"
    else
      var binary := BinaryDigits(ToUnsigned(value));
      match BinaryWidth(widthSpec, |binary|)
      case None => Prefixed(binary)
      case Some(width) =>
        if widthSpec[0] == '0' then ZeroPadded(binary, width - |binary| - 2)
        else SpacePadded(binary, width - |binary| - 2)
  }

  /** The layout of the binary token for a non-zero value `u` (the value
      modulo 2^64) with `n` minimal binary digits: "0b" and the digits; when
      the width token asks for more than n + 2 characters, either zeros
      between "0b" and the digits (a token starting with '0') or spaces
      before "0b". */
  lemma BinaryLayout(value: LongLong, widthSpec: string)
    requires value != 0
    ensures var r := FormatBinary(value, widthSpec);
              var u := ToUnsigned(value);
              var n := |BinaryDigits(u)|;
              match BinaryWidth(widthSpec, n)
              case None =>
                |r| == n + 2 && r[..2] == "0b" && MinimalBinary(r[2..]) && BitsValue(r[2..]) == u
              case Some(w) =>
                && |r| == w
                && (widthSpec[0] == '0' ==>
                      r[..2] == "0b" && AllBits(r[2..]) && BitsValue(r[2..]) == u)
                && (widthSpec[0] != '0' ==>
                      && (forall i :: 0 <= i < w - n - 2 ==> r[i] == ' ')
                      && r[w - n - 2..w - n] == "0b"
                      && MinimalBinary(r[w - n..]) && BitsValue(r[w - n..]) == u)
  {
  }

  /** "0b" and the digits. */
  function Prefixed(binary: string): (r: string)
    ensures |r| == |binary| + 2 && r[..2] == "0b" && r[2..] == binary
  {
    "0b" + binary
  }

  /** "0b", then `padding` zeros, then the digits: the number is unchanged. */
  function ZeroPadded(binary: string, padding: nat): (r: string)
    requires AllBits(binary)
    ensures |r| == padding + |binary| + 2 && r[..2] == "0b"
    ensures AllBits(r[2..]) && BitsValue(r[2..]) == BitsValue(binary)
  {
    ZeroPaddingKeepsValue(padding, binary);
    var r := "0b" + (Repeat('0', padding) + binary);
    assert r[2..] == Repeat('0', padding) + binary;
    r
  }

  /** `padding` spaces, then "0b" and the digits. */
  function SpacePadded(binary: string, padding: nat): (r: string)
    ensures |r| == padding + |binary| + 2
    ensures forall i :: 0 <= i < padding ==> r[i] == ' '
    ensures r[padding..padding + 2] == "0b"
    ensures r[padding + 2..] == binary
  {
    var r := Repeat(' ', padding) + "0b" + binary;
    assert r[padding + 2..] == binary;
    r
  }

  /** `format_integer_value(value, spec)`: decimal for an empty spec, the
      binary branch for a spec ending in 'b' or 'B', printf otherwise. */
  function FormatInteger(p: Platform, value: LongLong, spec: string): (r: string)
    ensures spec == [] ==> r == IntToDecimal(value)
    ensures spec != [] && (spec[|spec| - 1] == 'b' || spec[|spec| - 1] == 'B') ==>
              r == FormatBinary(value, spec[..|spec| - 1])
    ensures spec != [] && spec[|spec| - 1] != 'b' && spec[|spec| - 1] != 'B' ==>
              r == p.printfInteger("%" + spec, value)
  {
    if spec == [] then IntToDecimal(value)
    else if spec[|spec| - 1] == 'b' || spec[|spec| - 1] == 'B' then
      FormatBinary(value, spec[..|spec| - 1])
    else p.printfInteger("%" + spec, value)
  }

  /** What `format_integer_value` writes reads back as the value: the
      decimal text through `atoi`, and the bits of a plain "b"/"B" token as
      the value's unsigned 64-bit pattern. */
  lemma FormatIntegerReadsBack(p: Platform, value: LongLong, spec: string)
    ensures spec == [] ==> Atoi(FormatInteger(p, value, spec)) == value
    ensures spec == "b" || spec == "B" ==>
              var r := FormatInteger(p, value, spec);
              && |r| >= 3 && r[..2] == "0b"
              && AllBits(r[2..]) && BitsValue(r[2..]) == ToUnsigned(value)
  {
    if spec == [] {
      AtoiOfIntDecimal(value);
    } else if spec == "b" || spec == "B" {
      assert spec[..|spec| - 1] == [];
      if value == 0 {
        assert FormatInteger(p, value, spec)[2..] == "0";
      } else {
        BinaryLayout(value, []);
      }
    }
  }

  /** `format_double_value(value, spec)`: `std::to_string` for an empty
      spec, printf otherwise. */
  function FormatDouble(p: Platform, value: Double, spec: string): string {
    if spec == [] then p.doubleToString(value) else p.printfDouble("%" + spec, value)
  }

  /** A negative value renders as the bits of its two's-complement pattern:
      -1 is sixty-four ones. */
  lemma MinusOneIsAllOnes()
    ensures FormatBinary(-1, "") == "0b" + Repeat('1', 64)
  {
    var r := FormatBinary(-1, "");
    assert BinaryWidth("", |BinaryDigits(TWO_64 - 1)|) == None;
    Pow2Sixty4();
    AllOnesDigits(64);
  }

  lemma Pow2Sixty4()
    ensures Pow2(64) == TWO_64
  {
    assert Pow2(16) == 0x1_0000 by {
      Pow2Add(8, 8);
      assert Pow2(8) == 0x100;
    }
    Pow2Add(16, 16);
    assert Pow2(32) == 0x1_0000_0000;
    Pow2Add(32, 32);
  }

  lemma {:induction false} Pow2Add(a: nat, b: nat)
    ensures Pow2(a + b) == Pow2(a) * Pow2(b)
  {
    if a > 0 {
      Pow2Add(a - 1, b);
    }
  }

  lemma {:induction false} AllOnesDigits(k: nat)
    requires k >= 1
    ensures BinaryDigits(Pow2(k) - 1) == Repeat('1', k)
  {
    if k > 1 {
      AllOnesDigits(k - 1);
      assert (Pow2(k) - 1) / 2 == Pow2(k - 1) - 1;
      assert Repeat('1', k - 1) + ['1'] == Repeat('1', k);
    }
  }

  function Pow2(k: nat): (r: nat)
    ensures r >= 1
  {
    if k == 0 then 1 else 2 * Pow2(k - 1)
  }
}
