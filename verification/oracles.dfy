/** Concrete cases taken from the assertions in the repository's tests
    (tests/test_ufmt.cpp), proved of the model; and small templates that
    show the order of the substitution passes. */
module Oracles {
  import opened Wrappers
  import opened Text
  import opened Values
  import opened StringFormat
  import opened ApplyFormat
  import opened Engine
  import opened Contexts

  // ---------------------------------------------------------------------
  // Small steps the concrete cases share
  // ---------------------------------------------------------------------

  /** A string no longer than the pattern, and different from it, does not
      contain it. */
  lemma ShortNoMatch(s: string, pat: string)
    requires |s| <= |pat| && s != pat
    ensures Find(s, pat, 0) == None
  {
    FindFinds(s, pat, 0);
    assert s[0..] == s;
  }

  /** A `{i}` pass over exactly "{i}" yields the argument's text. */
  lemma WholeMatch(done: string, pat: string, text: string)
    requires pat != []
    ensures SimpleScan(done, pat, pat, text) == done + text
  {
    assert pat[0..] == pat;
    assert pat[..|pat|] == pat;
    assert Find(pat, pat, 0) == Some(0);
    assert pat[|pat|..] == [];
  }

  /** Both positional passes of index `i` over the template "{i}". */
  lemma PlaceholderPasses(i: nat, a: Arg)
    ensures ArgumentPasses(Pattern(i, "}"), a, i) == a.text
  {
    var t := Pattern(i, "}");
    assert |t| == |Pattern(i, ":")| && t != Pattern(i, ":");
    ShortNoMatch(t, Pattern(i, ":"));
    assert SpecScan([], t, Pattern(i, ":"), a.render) == t;
    WholeMatch([], t, a.text);
  }

  lemma PassesOverPlaceholder(i: nat, args: seq<Arg>)
    requires i < |args|
    ensures PositionalPasses(Pattern(i, "}"), args, i) == PositionalPasses(args[i].text, args, i + 1)
  {
    PlaceholderPasses(i, args[i]);
  }

  lemma SmallPatterns()
    ensures Pattern(0, "}") == "{0}" && Pattern(1, "}") == "{1}"
  {
    assert NatToDecimal(0) == "0" && NatToDecimal(1) == "1";
  }

  /** The named pass runs on whatever the positional passes left. */
  lemma NamedAfterPositional(p: Platform, lookup: string -> Option<string>, template: string, args: seq<Arg>, s: string)
    requires PositionalPasses(template, args, 0) == s
    ensures FormatImpl(p, lookup, template, args) == NamedScan(Resolver(p, lookup), [], s)
  {
  }

  // ---------------------------------------------------------------------
  // Order of the passes
  // ---------------------------------------------------------------------

  /** Text inserted for argument 0 is scanned by the pass for argument 1:
      "{0}" with arguments ("{1}", "x") gives "x". */
  lemma LaterPassesRescan(p: Platform, r: string -> string)
    ensures FormatImpl(p, NoVariables, "{0}", [Arg("{1}", r), Arg("x", r)]) == "x"
  {
    PositionalRescans(r);
    NamedAfterPositional(p, NoVariables, "{0}", [Arg("{1}", r), Arg("x", r)], "x");
    NamedScanNoVariables(p, NoVariables, [], "x");
  }

  lemma PositionalRescans(r: string -> string)
    ensures PositionalPasses("{0}", [Arg("{1}", r), Arg("x", r)], 0) == "x"
  {
    SmallPatterns();
    TwoPasses([Arg("{1}", r), Arg("x", r)]);
  }

  /** Two passes in a row: the text for argument 0 is "{1}", which the pass
      for argument 1 then replaces. */
  lemma TwoPasses(args: seq<Arg>)
    requires |args| == 2 && args[0].text == Pattern(1, "}")
    ensures PositionalPasses(Pattern(0, "}"), args, 0) == args[1].text
  {
    PlaceholderPasses(0, args[0]);
    assert PositionalPasses(Pattern(0, "}"), args, 0) == PositionalPasses(Pattern(1, "}"), args, 1);
    PlaceholderPasses(1, args[1]);
    assert PositionalPasses(Pattern(1, "}"), args, 1) == PositionalPasses(args[1].text, args, 2);
  }

  /** A pass never rescans its own output: "{0}" whose argument text is
      "{0}" gives "{0}", not an endless rewrite. */
  lemma SamePassDoesNotRescan(p: Platform, r: string -> string)
    ensures FormatImpl(p, NoVariables, "{0}", [Arg("{0}", r)]) == "{0}"
  {
    var args := [Arg("{0}", r)];
    SmallPatterns();
    PassesOverPlaceholder(0, args);
    assert PositionalPasses("{0}", args, 1) == "{0}";
    NamedAfterPositional(p, NoVariables, "{0}", args, "{0}");
    NamedScanNoVariables(p, NoVariables, [], "{0}");
  }

  function WhoIsBob(name: string): Option<string> {
    if name == "who" then Some("Bob") else None
  }

  lemma WhoResolves(p: Platform)
    ensures NamedScan(Resolver(p, WhoIsBob), [], "{who}") == "Bob"
  {
    assert "{" + "who" + "}" == "{who}";
    SingleNamedPlaceholder(p, WhoIsBob, "who");
    NamedAfterPositional(p, WhoIsBob, "{who}", [], "{who}");
  }

  lemma PositionalInsertsWho(r: string -> string)
    ensures PositionalPasses("{0}", [Arg("{who}", r)], 0) == "{who}"
  {
    var args := [Arg("{who}", r)];
    SmallPatterns();
    PassesOverPlaceholder(0, args);
    assert PositionalPasses("{who}", args, 1) == "{who}";
  }

  /** The named pass runs last and sees what the positional passes
      inserted: "{0}" with argument text "{who}" gives the value of `who`. */
  lemma NamedPassSeesArguments(p: Platform, r: string -> string)
    ensures FormatImpl(p, WhoIsBob, "{0}", [Arg("{who}", r)]) == "Bob"
  {
    PositionalInsertsWho(r);
    NamedAfterPositional(p, WhoIsBob, "{0}", [Arg("{who}", r)], "{who}");
    WhoResolves(p);
  }

  // ---------------------------------------------------------------------
  // Degrade and continue (tests/test_ufmt.cpp:181-186, 405-416)
  // ---------------------------------------------------------------------

  const Incomplete := "Incomplete {0 placeholder"

  /** "Incomplete {0 placeholder" has no '}', so it comes back unchanged. */
  lemma IncompletePlaceholder(p: Platform, lookup: string -> Option<string>, a: Arg)
    ensures FormatImpl(p, lookup, Incomplete, [a]) == Incomplete
  {
    NoCloseTemplate(p, lookup, Incomplete, [a]);
  }

  /** "{1}" with a single argument: no pass for index 1 runs, and the named
      pass skips content that starts with a digit, so it stays verbatim. */
  lemma MissingArgumentStays(p: Platform, lookup: string -> Option<string>, a: Arg)
    ensures FormatImpl(p, lookup, "{1}", [a]) == "{1}"
  {
    var t := "{1}";
    SmallPatterns();
    assert t[1] != Pattern(0, "}")[1];
    ShortNoMatch(t, Pattern(0, ":"));
    ShortNoMatch(t, Pattern(0, "}"));
    assert ArgumentPasses(t, a, 0) == t;
    assert PositionalPasses(t, [a], 0) == t;
    FindCharIs(t, '{', 0, 0);
    FindCharIs(t, '}', 0, 2);
    assert NextPlaceholder(t) == Some((0, 2));
    assert Resolve(p, lookup, t[1..2]) == None;
    assert Piece(Resolver(p, lookup), t, 0, 2) == t;
    assert NamedScan(Resolver(p, lookup), [], t) == NamedScan(Resolver(p, lookup), t, []);
  }

  // ---------------------------------------------------------------------
  // String formatting (tests/test_ufmt.cpp:345-395)
  // ---------------------------------------------------------------------

  lemma ParseCenterTen()
    ensures ParseStringSpec("^10") == StringSpec(Center, 10, -1)
  {
    FindCharFinds("^10", '.', 1);
    assert "^10"[1..] == "10";
    assert NatToDecimal(10) == "10";
    AtoiOfDecimal(10);
  }

  lemma ParseCenterNine()
    ensures ParseStringSpec("^9") == StringSpec(Center, 9, -1)
  {
    FindCharFinds("^9", '.', 1);
    assert "^9"[1..] == "9";
    assert NatToDecimal(9) == "9";
    AtoiOfDecimal(9);
  }

  lemma TomInTen()
    ensures Pad("Tom", 10, Center) == "   Tom    "
  {
    assert Repeat(' ', 3) == "   ";
    assert Repeat(' ', 4) == "    ";
  }

  lemma TomInNine()
    ensures Pad("Tom", 9, Center) == "   Tom   "
  {
    assert Repeat(' ', 3) == "   ";
  }

  lemma CenterEvenPad()
    ensures ApplyStringFormatting("Tom", "^10") == "   Tom    "
  {
    ParseCenterTen();
    ApplyIsPad("Tom", "^10", StringSpec(Center, 10, -1));
    TomInTen();
  }

  lemma CenterOddPad()
    ensures ApplyStringFormatting("Tom", "^9") == "   Tom   "
  {
    ParseCenterNine();
    ApplyIsPad("Tom", "^9", StringSpec(Center, 9, -1));
    TomInNine();
  }

  /** Reading the specs the tests use. */
  lemma ParseDotTen()
    ensures ParseStringSpec(".10") == StringSpec(Right, 0, 10)
  {
    FindCharIs(".10", '.', 0, 0);
    assert ".10"[1..] == "10";
    assert NatToDecimal(10) == "10";
    AtoiOfDecimal(10);
  }

  lemma ParseDotThree()
    ensures ParseStringSpec(".3") == StringSpec(Right, 0, 3)
  {
    FindCharIs(".3", '.', 0, 0);
    assert ".3"[1..] == "3";
    assert NatToDecimal(3) == "3";
    AtoiOfDecimal(3);
  }

  lemma ParseLeftFifteenDotTwelve()
    ensures ParseStringSpec("-15.12") == StringSpec(Left, 15, 12)
  {
    FindCharIs("-15.12", '.', 1, 3);
    assert "-15.12"[1..3] == "15" && "-15.12"[4..] == "12";
    assert NatToDecimal(15) == "15" && NatToDecimal(12) == "12";
    AtoiOfDecimal(15);
    AtoiOfDecimal(12);
  }

  lemma ParseTwenty()
    ensures ParseStringSpec("20") == StringSpec(Right, 20, -1)
  {
    FindCharFinds("20", '.', 0);
    assert "20"[0..] == "20";
    assert NatToDecimal(20) == "20";
    AtoiOfDecimal(20);
  }

  /** With the spec read, string formatting is truncation then padding. */
  lemma ApplyIsPad(value: string, spec: string, ps: StringSpec)
    requires spec != [] && ParseStringSpec(spec) == ps
    ensures ApplyStringFormatting(value, spec) == Pad(Truncate(value, ps.maxLen), ps.width, ps.align)
  {
  }

  /** Right and left padding by `n` spaces. */
  lemma PadBy(t: string, n: nat)
    requires n > 0
    ensures Pad(t, |t| + n, Right) == Repeat(' ', n) + t
    ensures Pad(t, |t| + n, Left) == t + Repeat(' ', n)
  {
  }

  lemma PrefixOfConcat(a: string, b: string, n: nat)
    requires n <= |a|
    ensures (a + b)[..n] == a[..n]
  {
  }

  const LongHead := "This is a"
  const LongText := LongHead + " very long string that needs truncation"

  lemma TruncateToTen()
    ensures Truncate(LongText, 10) == "This is..."
  {
    PrefixOfConcat(LongHead, " very long string that needs truncation", 7);
    assert LongHead[..7] == "This is";
  }

  lemma TruncateToThree()
    ensures Truncate(LongText, 3) == "Thi"
  {
    PrefixOfConcat(LongHead, " very long string that needs truncation", 3);
    assert LongHead[..3] == "Thi";
  }

  lemma TruncateWithEllipsis()
    ensures ApplyStringFormatting(LongText, ".10") == "This is..."
  {
    ParseDotTen();
    ApplyIsPad(LongText, ".10", StringSpec(Right, 0, 10));
    TruncateToTen();
  }

  lemma TruncateShortPrecision()
    ensures ApplyStringFormatting(LongText, ".3") == "Thi"
  {
    ParseDotThree();
    ApplyIsPad(LongText, ".3", StringSpec(Right, 0, 3));
    TruncateToThree();
  }

  lemma TruncateToTwelve()
    ensures Truncate(LongText, 12) == "This is a..."
  {
    PrefixOfConcat(LongHead, " very long string that needs truncation", 9);
    assert LongHead[..9] == LongHead;
  }

  lemma ThreeSpacesAfter()
    ensures "This is a..." + Repeat(' ', 3) == "This is a...   "
  {
    assert Repeat(' ', 3) == "   ";
  }

  lemma TruncateThenAlignLeft()
    ensures ApplyStringFormatting(LongText, "-15.12") == "This is a...   "
  {
    ParseLeftFifteenDotTwelve();
    ApplyIsPad(LongText, "-15.12", StringSpec(Left, 15, 12));
    TruncateToTwelve();
    PadBy("This is a...", 3);
    ThreeSpacesAfter();
  }

  lemma ShortValueNotTruncated()
    ensures ApplyStringFormatting("Hi", ".10") == "Hi"
  {
    ParseDotTen();
  }

  lemma NineSpacesBefore()
    ensures Repeat(' ', 9) + "Hello World" == "         Hello World"
  {
    assert Repeat(' ', 9) == "         ";
  }

  lemma WidthOnlyPadsLeft()
    ensures ApplyStringFormatting("Hello World", "20") == "         Hello World"
  {
    ParseTwenty();
    ApplyIsPad("Hello World", "20", StringSpec(Right, 20, -1));
    PadBy("Hello World", 9);
    NineSpacesBefore();
  }

  /** End to end through a local context: `{name:^10}` with name = "Tom". */
  lemma LocalCenterJustification(p: Platform)
    ensures LocalFormat(p, SetVar(EmptyLocal, "name", "Tom"), "{name:^10}", []) == "   Tom    "
  {
    var c := SetVar(EmptyLocal, "name", "Tom");
    assert "{" + "name" + ":" + "^10" + "}" == "{name:^10}";
    assert BindArgs(p, c.formatters, []) == [];
    SingleNamedSpecPlaceholder(p, LocalLookup(c), "name", "^10");
    NoTypeCharIsStringFormatting(p, "Tom", "^10");
    CenterEvenPad();
  }
}
