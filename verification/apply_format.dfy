/** `apply_format`: the spec applied to a named variable's stored string.
    The spec is split into an alignment mark, a numeric part and a type
    character; numeric type characters re-parse the stored text as a number,
    and everything else (or a failed parse) falls back to string formatting. */
module ApplyFormat {
  import opened Wrappers
  import opened Text
  import opened Values
  import opened StringFormat
  import opened NumberFormat

  /** Digits and '.' make up widths and precisions. */
  predicate IsNumericChar(c: char) {
    IsDigit(c) || c == '.'
  }

  predicate IsFloatType(c: char) {
    c in "fFgGeE"
  }

  predicate IsIntegerType(c: char) {
    c in "diXxoubB"
  }

  /** Scans `spec[pos..end]` backwards for the last character that is not a
      digit or '.'; this is the source's type-character loop. */
  function LastTypeIndex(spec: string, pos: nat, end: nat): (k: Option<nat>)
    requires pos <= end <= |spec|
    ensures k.Some? ==> pos <= k.value < end && !IsNumericChar(spec[k.value])
    ensures k.Some? ==> forall j :: k.value < j < end ==> IsNumericChar(spec[j])
    ensures k.None? ==> forall j :: pos <= j < end ==> IsNumericChar(spec[j])
    decreases end
  {
    if end == pos then None
    else if !IsNumericChar(spec[end - 1]) then Some(end - 1)
    else LastTypeIndex(spec, pos, end - 1)
  }

  datatype SpecParts = SpecParts(alignment: string, typeChar: Option<char>, numericPart: string)

  /** Splits a spec into `[alignment][numericPart][typeChar]`: the
      alignment is a leading '-' or '^'; the type character is the last
      later character that is neither a digit nor '.'; the numeric part is
      what lies between (everything after the alignment when there is no
      type character). */
  function SplitSpec(spec: string): (sp: SpecParts)
    ensures sp.alignment == spec[..AlignmentLength(spec)]
    ensures sp.typeChar.None? ==>
              sp.numericPart == spec[AlignmentLength(spec)..]
              && forall j :: AlignmentLength(spec) <= j < |spec| ==> IsNumericChar(spec[j])
    ensures sp.typeChar.Some? ==>
              var k := AlignmentLength(spec) + |sp.numericPart|;
              && k < |spec| && spec[k] == sp.typeChar.value && !IsNumericChar(spec[k])
              && spec[AlignmentLength(spec)..k] == sp.numericPart
              && forall j :: k < j < |spec| ==> IsNumericChar(spec[j])
  {
    var pos := AlignmentLength(spec);
    match LastTypeIndex(spec, pos, |spec|)
    case None => SpecParts(spec[..pos], None, spec[pos..])
    case Some(k) => SpecParts(spec[..pos], Some(spec[k]), spec[pos..k])
  }

  /** Splits a numeric part at its first '.': width before, ".precision"
      (dot included) after. */
  function SplitAtDot(numericPart: string): (parts: (string, string))
    ensures parts.0 + parts.1 == numericPart
    ensures '.' !in parts.0
    ensures parts.1 == [] || parts.1[0] == '.'
  {
    FindCharFinds(numericPart, '.', 0);
    match FindChar(numericPart, '.', 0)
    case None => (numericPart, [])
    case Some(dot) =>
      assert numericPart[..dot] + numericPart[dot..] == numericPart;
      (numericPart[..dot], numericPart[dot..])
  }

  /** Renders a parsed number: without an alignment mark the whole numeric
      part goes to the numeric formatter; with one, only ".precision" does
      and the width is applied afterwards as string padding. */
  function AlignNumber(sp: SpecParts, typeChar: char, render: string -> string): string {
    if sp.alignment != [] then
      var (widthPart, precisionPart) := SplitAtDot(sp.numericPart);
      ApplyStringFormatting(render(precisionPart + [typeChar]), sp.alignment + widthPart)
    else render(sp.numericPart + [typeChar])
  }

  /** How `apply_format` treats a spec: by the class of its type character. */
  datatype SpecClass = FloatClass | IntegerClass | StringClass

  function ClassOf(spec: string): (c: SpecClass)
    ensures c == FloatClass <==> SplitSpec(spec).typeChar.Some? && IsFloatType(SplitSpec(spec).typeChar.value)
    ensures c == IntegerClass <==> SplitSpec(spec).typeChar.Some? && IsIntegerType(SplitSpec(spec).typeChar.value)
  {
    match SplitSpec(spec).typeChar
    case Some(c) => if IsFloatType(c) then FloatClass else if IsIntegerType(c) then IntegerClass else StringClass
    case None => StringClass
  }

  /** `apply_format(value, spec)`. */
  function ApplyFormat(p: Platform, value: string, spec: string): (r: string)
    ensures spec == [] ==> r == value
    ensures spec != [] && ClassOf(spec) == StringClass ==> r == ApplyStringFormatting(value, spec)
    ensures spec != [] && ClassOf(spec) == FloatClass && p.stod(value).None? ==>
              r == ApplyStringFormatting(value, spec)
    ensures spec != [] && ClassOf(spec) == IntegerClass && p.stoll(value).None? ==>
              r == ApplyStringFormatting(value, spec)
  {
    if spec == [] then value
    else
      var sp := SplitSpec(spec);
      match ClassOf(spec)
      case FloatClass => (
        match p.stod(value)
        case None => ApplyStringFormatting(value, spec)
        case Some(x) => AlignNumber(sp, sp.typeChar.value, s => FormatDouble(p, x, s)))
      case IntegerClass => (
        match p.stoll(value)
        case None => ApplyStringFormatting(value, spec)
        case Some(n) => AlignNumber(sp, sp.typeChar.value, s => FormatInteger(p, n, s)))
      case StringClass => ApplyStringFormatting(value, spec)
  }

  /** A spec made only of an alignment mark, digits and dots is pure string
      formatting, whatever the stored value looks like. */
  lemma NoTypeCharIsStringFormatting(p: Platform, value: string, spec: string)
    requires forall j :: AlignmentLength(spec) <= j < |spec| ==> IsNumericChar(spec[j])
    ensures ApplyFormat(p, value, spec) == ApplyStringFormatting(value, spec)
  {
    assert SplitSpec(spec).typeChar.None?;
  }

  /** An aligned binary spec such as "-12b" renders the binary token first
      and then pads it as a string, so alignment works for binary output. */
  lemma AlignedBinary(p: Platform, value: string, n: LongLong, width: string)
    requires p.stoll(value) == Some(n) && width != [] && AllDigits(width)
    ensures ApplyFormat(p, value, "-" + width + "b")
         == ApplyStringFormatting(FormatBinary(n, ""), "-" + width)
  {
    var spec := "-" + width + "b";
    assert AlignmentLength(spec) == 1;
    assert LastTypeIndex(spec, 1, |spec|) == Some(|spec| - 1);
    assert spec[1..|spec| - 1] == width;
    var sp := SplitSpec(spec);
    assert sp == SpecParts("-", Some('b'), width);
    assert ClassOf(spec) == IntegerClass;
    assert FindChar(width, '.', 0).None?;
    assert SplitAtDot(width) == (width, []);
    assert FormatInteger(p, n, [] + ['b']) == FormatBinary(n, "");
  }

  /** A number that parses goes to the numeric formatter, which gets the
      numeric part and the type character (whatever follows the type
      character is dropped). With an alignment mark it gets only
      ".precision" and the type character, and the width is applied
      afterwards by string formatting with the same alignment. */
  lemma ParsedIntegerRouting(p: Platform, value: string, spec: string, n: LongLong)
    requires spec != [] && ClassOf(spec) == IntegerClass && p.stoll(value) == Some(n)
    ensures var sp := SplitSpec(spec);
            var (widthPart, precisionPart) := SplitAtDot(sp.numericPart);
            && (sp.alignment == [] ==>
                  ApplyFormat(p, value, spec) == FormatInteger(p, n, sp.numericPart + [sp.typeChar.value]))
            && (sp.alignment != [] ==>
                  ApplyFormat(p, value, spec)
                  == ApplyStringFormatting(FormatInteger(p, n, precisionPart + [sp.typeChar.value]),
                                           sp.alignment + widthPart))
  {
    var sp := SplitSpec(spec);
    assert ApplyFormat(p, value, spec) == AlignNumber(sp, sp.typeChar.value, s => FormatInteger(p, n, s));
  }

  /** The same routing for a floating-point type character. */
  lemma ParsedDoubleRouting(p: Platform, value: string, spec: string, x: Double)
    requires spec != [] && ClassOf(spec) == FloatClass && p.stod(value) == Some(x)
    ensures var sp := SplitSpec(spec);
            var (widthPart, precisionPart) := SplitAtDot(sp.numericPart);
            && (sp.alignment == [] ==>
                  ApplyFormat(p, value, spec) == FormatDouble(p, x, sp.numericPart + [sp.typeChar.value]))
            && (sp.alignment != [] ==>
                  ApplyFormat(p, value, spec)
                  == ApplyStringFormatting(FormatDouble(p, x, precisionPart + [sp.typeChar.value]),
                                           sp.alignment + widthPart))
  {
    var sp := SplitSpec(spec);
    assert ApplyFormat(p, value, spec) == AlignNumber(sp, sp.typeChar.value, s => FormatDouble(p, x, s));
  }
}
