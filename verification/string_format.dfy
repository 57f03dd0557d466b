/** `apply_string_formatting`: alignment, width and `.N` truncation of a
    string, with a spec of the shape `[-|^][width][.maxLen]`. */
module StringFormat {
  import opened Wrappers
  import opened Text

  datatype Align = Right | Left | Center

  /** The parsed spec; `maxLen` is -1 when the spec has no '.'. */
  datatype StringSpec = StringSpec(align: Align, width: int, maxLen: int)

  function AlignmentLength(spec: string): (pos: nat)
    ensures pos <= |spec| && pos <= 1
  {
    if spec != [] && (spec[0] == '-' || spec[0] == '^') then 1 else 0
  }

  /** Reads alignment from position 0, then the width up to the first '.',
      then the truncation length after it; both numbers are read with atoi. */
  function ParseStringSpec(spec: string): (ps: StringSpec)
    ensures spec != [] && spec[0] == '-' ==> ps.align == Left
    ensures spec != [] && spec[0] == '^' ==> ps.align == Center
    ensures spec == [] || (spec[0] != '-' && spec[0] != '^') ==> ps.align == Right
    ensures '.' !in spec[AlignmentLength(spec)..] ==>
              ps.maxLen == -1 && ps.width == Atoi(spec[AlignmentLength(spec)..])
  {
    var pos := AlignmentLength(spec);
    var align := if pos == 0 then Right else if spec[0] == '-' then Left else Center;
    match FindChar(spec, '.', pos)
    case Some(dot) =>
      StringSpec(align, if dot > pos then Atoi(spec[pos..dot]) else 0, Atoi(spec[dot + 1..]))
    case None =>
      assert forall k :: 0 <= k < |spec[pos..]| ==> spec[pos..][k] == spec[pos + k];
      StringSpec(align, if pos < |spec| then Atoi(spec[pos..]) else 0, -1)
  }

  /** With a '.' after the alignment mark, the width is read from the text
      before the first such '.' (0 when there is none) and the truncation
      length from everything after it. */
  lemma DotSplitsWidthAndLength(spec: string, d: nat)
    requires AlignmentLength(spec) <= d < |spec| && spec[d] == '.'
    requires forall j :: AlignmentLength(spec) <= j < d ==> spec[j] != '.'
    ensures var ps := ParseStringSpec(spec);
            var pos := AlignmentLength(spec);
            && ps.maxLen == Atoi(spec[d + 1..])
            && ps.width == (if d > pos then Atoi(spec[pos..d]) else 0)
  {
    var pos := AlignmentLength(spec);
    FindCharIs(spec, '.', pos, d);
    var align := if pos == 0 then Right else if spec[0] == '-' then Left else Center;
    assert ParseStringSpec(spec)
        == StringSpec(align, if d > pos then Atoi(spec[pos..d]) else 0, Atoi(spec[d + 1..]));
  }

  /** Truncation to at most `maxLen` characters: a plain prefix when
      `maxLen` is at most 3, otherwise a prefix ending in "...". */
  function Truncate(value: string, maxLen: int): (t: string)
    ensures maxLen <= 0 || |value| <= maxLen ==> t == value
    ensures 0 < maxLen < |value| ==> |t| == maxLen
    ensures 0 < maxLen <= 3 && maxLen < |value| ==> t == value[..maxLen]
    ensures 3 < maxLen < |value| ==>
              t[..maxLen - 3] == value[..maxLen - 3] && t[maxLen - 3..] == "..."
  {
    if maxLen > 0 && |value| > maxLen then
      if maxLen <= 3 then value[..maxLen] else value[..maxLen - 3] + "..."
    else value
  }

  function Max(a: int, b: int): int {
    if a < b then b else a
  }

  /** Number of spaces placed before the value when padding to `width`:
      none for left alignment, all for right, half (rounded down) for centre. */
  function LeadingSpaces(align: Align, pad: nat): (lead: nat)
    ensures lead <= pad
  {
    match align
    case Left => 0
    case Right => pad
    case Center => pad / 2
  }

  /** Pads `t` with spaces to `width` according to `align`. */
  function Pad(t: string, width: int, align: Align): (r: string)
    ensures |r| == Max(width, |t|)
    ensures width <= |t| ==> r == t
  {
    if width <= 0 || width <= |t| then t
    else
      var pad := width - |t|;
      match align
      case Left => t + Repeat(' ', pad)
      case Center => Repeat(' ', pad / 2) + t + Repeat(' ', pad - pad / 2)
      case Right => Repeat(' ', pad) + t
  }

  /** Where the padded value sits: once, contiguously, after `lead`
      spaces, with spaces after it up to the width. */
  lemma PadLayout(t: string, width: int, align: Align)
    ensures var r := Pad(t, width, align);
            var lead := if width > |t| then LeadingSpaces(align, width - |t|) else 0;
            && lead + |t| <= |r|
            && r[lead..lead + |t|] == t
            && (forall i :: 0 <= i < lead ==> r[i] == ' ')
            && (forall i :: lead + |t| <= i < |r| ==> r[i] == ' ')
  {
    if width > |t| {
      var pad := width - |t|;
      var lead := LeadingSpaces(align, pad);
      var before, after := Repeat(' ', lead), Repeat(' ', pad - lead);
      var r := before + t + after;
      assert Pad(t, width, align) == r by {
        match align
        case Left => assert before == [];
        case Center =>
        case Right => assert after == [];
      }
      assert r[lead..lead + |t|] == t;
      assert forall i :: 0 <= i < lead ==> r[i] == before[i];
      assert forall i :: lead + |t| <= i < |r| ==> r[i] == after[i - lead - |t|];
    }
  }

  /** `apply_string_formatting(value, spec)`: an empty spec returns the
      value; otherwise the value is truncated and then padded. */
  function ApplyStringFormatting(value: string, spec: string): (r: string)
    ensures spec == [] ==> r == value
    ensures spec != [] ==>
              var ps := ParseStringSpec(spec);
              |r| == Max(ps.width, |Truncate(value, ps.maxLen)|)
  {
    if spec == [] then value
    else
      var ps := ParseStringSpec(spec);
      Pad(Truncate(value, ps.maxLen), ps.width, ps.align)
  }

  /** A non-empty spec pads the truncated value. */
  lemma TruncateThenPad(value: string, spec: string)
    requires spec != []
    ensures var ps := ParseStringSpec(spec);
            ApplyStringFormatting(value, spec) == Pad(Truncate(value, ps.maxLen), ps.width, ps.align)
  {
  }

  /** A spec with no '.' never truncates: the padded text is the whole value. */
  lemma WidthOnlyNeverTruncates(value: string, spec: string)
    requires spec != [] && '.' !in spec
    ensures var ps := ParseStringSpec(spec);
            ps.maxLen == -1 && Truncate(value, ps.maxLen) == value
            && |ApplyStringFormatting(value, spec)| == Max(ps.width, |value|)
  {
    var pos := AlignmentLength(spec);
    assert '.' !in spec[pos..] by {
      forall k | 0 <= k < |spec[pos..]|
        ensures spec[pos..][k] != '.'
      {
        assert spec[pos..][k] == spec[pos + k];
      }
    }
  }
}
