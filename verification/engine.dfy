/** `format_impl`: substitution of positional and named placeholders.

    The passes run in the source's order over one growing `result`: for each
    argument index i a `{i:spec}` pass and then a `{i}` pass, and finally a
    single named-variable pass. Every pass moves its cursor past the text it
    inserted, so a pass never rewrites its own output; but later passes do
    scan what earlier passes inserted.

    A pass is written as a scan over two strings: `done`, everything before
    the source's cursor `pos` (the pass never searches it again), and
    `rest`, everything from `pos` on (where `result.find(..., pos)` looks);
    `result` is `done + rest` and `pos` is `|done|`. Each step shrinks
    `rest`, which is the source's `|result| - pos` strictly decreasing. */
module Engine {
  import opened Wrappers
  import opened Text
  import opened Values
  import opened ApplyFormat

  /** A positional argument as the source stores it: its default text (for
      `{i}`) and a closure rendering it against a spec (for `{i:spec}`). */
  datatype Arg = Arg(text: string, render: string -> string)

  /** "{i" followed by `suffix`: the source's "{i:" and "{i}" patterns. */
  function Pattern(i: nat, suffix: string): (pat: string)
    ensures |pat| == 1 + |NatToDecimal(i)| + |suffix| && pat[0] == '{'
    ensures '}' !in suffix ==> '}' !in pat
  {
    "{" + NatToDecimal(i) + suffix
  }

  /** The digits of a pattern are the decimal text of its index, and read
      back as that index. */
  lemma PatternReadsIndex(i: nat, suffix: string)
    ensures var pat := Pattern(i, suffix);
            var d := pat[1..|pat| - |suffix|];
            && d == NatToDecimal(i) && AllDigits(d) && DigitsValue(d) == i
            && pat[|pat| - |suffix|..] == suffix
  {
    var pat := Pattern(i, suffix);
    assert pat[1..|pat| - |suffix|] == NatToDecimal(i);
    NatToDecimalValue(i);
  }

  predicate NoClose(pat: string) {
    '}' !in pat
  }

  /** The first '}' at or after an occurrence of a pattern without '}' lies
      past the pattern. */
  lemma CloseAfterPattern(s: string, pat: string, k: nat, e: nat)
    requires NoClose(pat) && OccursAt(s, pat, k)
    requires k <= e < |s| && s[e] == '}'
    ensures k + |pat| <= e
  {
  }

  // ---------------------------------------------------------------------
  // The three passes, as the source runs them
  // ---------------------------------------------------------------------

  /** The next `{i:spec}` placeholder: the first occurrence `k` of `pat`
      and the first '}' at or after it, `e`. None when `pat` does not occur,
      or no '}' follows it. */
  function NextSpec(s: string, pat: string): (r: Option<(nat, nat)>)
    requires NoClose(pat)
    ensures r.Some? ==> r.value.0 + |pat| <= r.value.1 < |s| && s[r.value.1] == '}'
  {
    match Find(s, pat, 0)
    case None => None
    case Some(k) =>
      match FindChar(s, '}', k)
      case None => None
      case Some(e) =>
        FindOccurs(s, pat, 0);
        CloseAfterPattern(s, pat, k, e);
        Some((k, e))
  }

  /** What `NextSpec` finds: the first occurrence of `pat` and the first '}'
      at or after it; None exactly when no occurrence has a '}' after it. */
  lemma NextSpecFinds(s: string, pat: string)
    requires NoClose(pat)
    ensures var r := NextSpec(s, pat);
            && (r.Some? ==>
                  && OccursAt(s, pat, r.value.0)
                  && (forall j :: 0 <= j < r.value.0 ==> !OccursAt(s, pat, j))
                  && (forall j :: r.value.0 <= j < r.value.1 ==> s[j] != '}'))
            && (r.None? ==>
                  forall k: nat, e :: OccursAt(s, pat, k) && k <= e < |s| ==> s[e] != '}')
  {
    FindFinds(s, pat, 0);
    match Find(s, pat, 0)
    case None =>
    case Some(k) =>
      FindCharFinds(s, '}', k);
  }

  /** What replaces the placeholder found at `k..e`: the closure applied to
      the spec between the pattern and the '}' (the source's
      `result.substr(pos + formatPattern.length(), ...)`). */
  function SpecPiece(render: string -> string, s: string, pat: string, k: nat, e: nat): string
    requires k + |pat| <= e < |s|
  {
    render(s[k + |pat|..e])
  }

  /** The `{i:spec}` pass: each occurrence of `pat` up to the next '}' is
      replaced by `render(spec)`; a pattern with no later '}' ends the pass. */
  function SpecScan(done: string, rest: string, pat: string, render: string -> string): string
    requires NoClose(pat)
    decreases |rest|
  {
    match NextSpec(rest, pat)
    case None => done + rest
    case Some((k, e)) => SpecScan(done + rest[..k] + SpecPiece(render, rest, pat, k, e), rest[e + 1..], pat, render)
  }

  /** The `{i}` pass: each occurrence of `pat` is replaced by `text`. */
  function SimpleScan(done: string, rest: string, pat: string, text: string): string
    requires pat != []
    decreases |rest|
  {
    match Find(rest, pat, 0)
    case None => done + rest
    case Some(k) => SimpleScan(done + rest[..k] + text, rest[k + |pat|..], pat, text)
  }

  /** Splits placeholder content at its first ':' into name and spec. */
  function SplitName(content: string): (parts: (string, string))
    ensures ':' !in parts.0
    ensures ':' in content ==> parts.0 + [':'] + parts.1 == content
    ensures ':' !in content ==> parts == (content, [])
  {
    FindCharFinds(content, ':', 0);
    match FindChar(content, ':', 0)
    case None => (content, [])
    case Some(c) =>
      assert content[..c] + [':'] + content[c + 1..] == content;
      (content[..c], content[c + 1..])
  }

  /** What the named pass does with the content of one `{...}`: None leaves
      it verbatim, Some(v) replaces the whole placeholder by v. Empty content
      and content starting with a digit are skipped; otherwise the name is
      looked up and its value formatted with the spec, if one is given. */
  function Resolve(p: Platform, lookup: string -> Option<string>, content: string): Option<string> {
    if content == [] || IsDigit(content[0]) then None
    else
      var (name, spec) := SplitName(content);
      match lookup(name)
      case None => None
      case Some(v) => Some(if spec != [] then ApplyFormat.ApplyFormat(p, v, spec) else v)
  }

  /** `Resolve` for one context, as the named pass uses it. */
  function Resolver(p: Platform, lookup: string -> Option<string>): string -> Option<string> {
    content => Resolve(p, lookup, content)
  }

  /** The next placeholder the named pass acts on: the first '{' and the
      first '}' after it. None when there is no '{', or no '}' after it. */
  function NextPlaceholder(s: string): (r: Option<(nat, nat)>)
    ensures r.Some? ==> r.value.0 < r.value.1 < |s| && s[r.value.0] == '{' && s[r.value.1] == '}'
  {
    FindCharFinds(s, '{', 0);
    match FindChar(s, '{', 0)
    case None => None
    case Some(b) =>
      FindCharFinds(s, '}', b);
      match FindChar(s, '}', b)
      case None => None
      case Some(e) => Some((b, e))
  }

  /** What `NextPlaceholder` finds: the first '{' and the first '}' after
      it; None exactly when no '{' has a '}' after it. */
  lemma NextPlaceholderFinds(s: string)
    ensures var r := NextPlaceholder(s);
            && (r.Some? ==>
                  && (forall j :: 0 <= j < r.value.0 ==> s[j] != '{')
                  && (forall j :: r.value.0 <= j < r.value.1 ==> s[j] != '}'))
            && (r.None? ==>
                  forall b, e :: 0 <= b <= e < |s| && s[b] == '{' ==> s[e] != '}')
  {
    FindCharFinds(s, '{', 0);
    match FindChar(s, '{', 0)
    case None =>
    case Some(b) =>
      FindCharFinds(s, '}', b);
  }

  /** What the named pass puts in place of the placeholder spanning `b..e`:
      its resolution, or the placeholder itself when it does not resolve. */
  function Piece(resolve: string -> Option<string>, s: string, b: nat, e: nat): string
    requires b < e < |s|
  {
    resolve(s[b + 1..e]).GetOr(s[b..e + 1])
  }

  /** The named-variable pass, resolving placeholder contents with
      `resolve`. Both outcomes move the cursor past the placeholder's '}':
      a resolved placeholder is replaced, an unresolved one is kept as it
      was; a '{' with no later '}' ends the pass. */
  function NamedScan(resolve: string -> Option<string>, done: string, rest: string): string
    decreases |rest|
  {
    match NextPlaceholder(rest)
    case None => done + rest
    case Some((b, e)) => NamedScan(resolve, done + rest[..b] + Piece(resolve, rest, b, e), rest[e + 1..])
  }

  /** Both positional passes for every argument from index `i` on. */
  function PositionalPasses(result: string, args: seq<Arg>, i: nat): string
    requires i <= |args|
    decreases |args| - i
  {
    if i == |args| then result
    else PositionalPasses(ArgumentPasses(result, args[i], i), args, i + 1)
  }

  /** The two passes for argument `i`: `{i:spec}` first, then `{i}`. */
  function ArgumentPasses(result: string, a: Arg, i: nat): string {
    SimpleScan([], SpecScan([], result, Pattern(i, ":"), a.render), Pattern(i, "}"), a.text)
  }

  /** `format_impl(template, args...)` for a context whose variable lookup
      is `lookup`. */
  function FormatImpl(p: Platform, lookup: string -> Option<string>, template: string, args: seq<Arg>): string {
    NamedScan(Resolver(p, lookup), [], PositionalPasses(template, args, 0))
  }

  // ---------------------------------------------------------------------
  // Reference definitions: the passes as left-to-right segmentations
  // ---------------------------------------------------------------------

  /** Everything before the first match is kept, the match is replaced,
      and the rest is processed on its own: replaced text is outside the
      recursive call and is therefore never looked at again. */
  function SpecSegments(s: string, pat: string, render: string -> string): string
    requires NoClose(pat)
    decreases |s|
  {
    match NextSpec(s, pat)
    case None => s
    case Some((k, e)) => s[..k] + SpecPiece(render, s, pat, k, e) + SpecSegments(s[e + 1..], pat, render)
  }

  function SimpleSegments(s: string, pat: string, text: string): string
    requires pat != []
    decreases |s|
  {
    match Find(s, pat, 0)
    case None => s
    case Some(k) => s[..k] + text + SimpleSegments(s[k + |pat|..], pat, text)
  }

  function NamedSegments(resolve: string -> Option<string>, s: string): string
    decreases |s|
  {
    match NextPlaceholder(s)
    case None => s
    case Some((b, e)) => s[..b] + Piece(resolve, s, b, e) + NamedSegments(resolve, s[e + 1..])
  }

  lemma ConcatAssoc(a: string, b: string, c: string, d: string)
    ensures (a + b + c) + d == a + (b + c + d)
  {
  }

  /** The `{i:spec}` pass never rescans what it inserted: it keeps what lies
      before the cursor and segments the rest. */
  lemma {:induction false} SpecScanSegments(done: string, rest: string, pat: string, render: string -> string)
    requires NoClose(pat)
    ensures SpecScan(done, rest, pat, render) == done + SpecSegments(rest, pat, render)
    decreases |rest|
  {
    match NextSpec(rest, pat)
    case None =>
    case Some((k, e)) =>
      var piece := SpecPiece(render, rest, pat, k, e);
      SpecScanSegments(done + rest[..k] + piece, rest[e + 1..], pat, render);
      ConcatAssoc(done, rest[..k], piece, SpecSegments(rest[e + 1..], pat, render));
  }

  /** The `{i}` pass never rescans what it inserted. */
  lemma {:induction false} SimpleScanSegments(done: string, rest: string, pat: string, text: string)
    requires pat != []
    ensures SimpleScan(done, rest, pat, text) == done + SimpleSegments(rest, pat, text)
    decreases |rest|
  {
    match Find(rest, pat, 0)
    case None =>
    case Some(k) =>
      SimpleScanSegments(done + rest[..k] + text, rest[k + |pat|..], pat, text);
      ConcatAssoc(done, rest[..k], text, SimpleSegments(rest[k + |pat|..], pat, text));
  }

  /** The named pass never rescans what it inserted, and a placeholder it
      does not resolve stays verbatim. */
  lemma {:induction false} NamedScanSegments(resolve: string -> Option<string>, done: string, rest: string)
    ensures NamedScan(resolve, done, rest) == done + NamedSegments(resolve, rest)
    decreases |rest|
  {
    match NextPlaceholder(rest)
    case None =>
    case Some((b, e)) =>
      var piece := Piece(resolve, rest, b, e);
      NamedScanSegments(resolve, done + rest[..b] + piece, rest[e + 1..]);
      ConcatAssoc(done, rest[..b], piece, NamedSegments(resolve, rest[e + 1..]));
  }

  // ---------------------------------------------------------------------
  // Properties of the whole substitution
  // ---------------------------------------------------------------------

  /** Every pattern the engine searches for starts with '{', so a string
      without '{' contains none of them. */
  lemma NoBraceNoMatch(s: string, pat: string)
    requires pat != [] && pat[0] == '{' && '{' !in s
    ensures Find(s, pat, 0) == None
  {
    FindOccurs(s, pat, 0);
    OccurrencesEndWith(s, pat);
  }

  lemma {:induction false} PositionalNoBrace(result: string, args: seq<Arg>, i: nat)
    requires i <= |args| && '{' !in result
    ensures PositionalPasses(result, args, i) == result
    decreases |args| - i
  {
    if i < |args| {
      NoBraceNoMatch(result, Pattern(i, ":"));
      NoBraceNoMatch(result, Pattern(i, "}"));
      PositionalNoBrace(result, args, i + 1);
    }
  }

  /** A template without '{' comes back unchanged, whatever the arguments
      and the context's variables. */
  lemma NoBraceTemplate(p: Platform, lookup: string -> Option<string>, template: string, args: seq<Arg>)
    requires '{' !in template
    ensures FormatImpl(p, lookup, template, args) == template
  {
    PositionalNoBrace(template, args, 0);
  }

  /** A '{' (or `{i:`) with no later '}' ends its pass: a template with no
      '}' at all comes back unchanged from every pass. */
  lemma NoCloseNoMatch(s: string, i: nat)
    requires '}' !in s
    ensures Find(s, Pattern(i, "}"), 0) == None
  {
    var pat := Pattern(i, "}");
    FindOccurs(s, pat, 0);
    OccurrencesEndWith(s, pat);
  }

  lemma {:induction false} PositionalNoClose(result: string, args: seq<Arg>, i: nat)
    requires i <= |args| && '}' !in result
    ensures PositionalPasses(result, args, i) == result
    decreases |args| - i
  {
    if i < |args| {
      if Find(result, Pattern(i, ":"), 0).Some? {
        FindCharFinds(result, '}', Find(result, Pattern(i, ":"), 0).value);
      }
      assert SpecScan([], result, Pattern(i, ":"), args[i].render) == result;
      NoCloseNoMatch(result, i);
      PositionalNoClose(result, args, i + 1);
    }
  }

  /** A template without '}' comes back unchanged: every '{' in it is one
      with no later '}'. */
  lemma NoCloseTemplate(p: Platform, lookup: string -> Option<string>, template: string, args: seq<Arg>)
    requires '}' !in template
    ensures FormatImpl(p, lookup, template, args) == template
  {
    PositionalNoClose(template, args, 0);
  }

  /** When no placeholder content resolves, the named pass leaves every
      placeholder as it was, so it returns its input. */
  lemma {:induction false} NamedScanUnresolved(resolve: string -> Option<string>, done: string, rest: string)
    requires forall content :: resolve(content).None?
    ensures NamedScan(resolve, done, rest) == done + rest
    decreases |rest|
  {
    match NextPlaceholder(rest)
    case None =>
    case Some((b, e)) =>
      var piece := Piece(resolve, rest, b, e);
      assert piece == rest[b..e + 1];
      NamedScanUnresolved(resolve, done + rest[..b] + piece, rest[e + 1..]);
      ConcatAssoc(done, rest[..b], piece, rest[e + 1..]);
      assert rest[..b] + piece + rest[e + 1..] == rest;
  }

  /** A context without variables resolves nothing. */
  lemma NamedScanNoVariables(p: Platform, lookup: string -> Option<string>, done: string, rest: string)
    requires forall name :: lookup(name).None?
    ensures NamedScan(Resolver(p, lookup), done, rest) == done + rest
  {
    NamedScanUnresolved(Resolver(p, lookup), done, rest);
  }

  /** A template that is one `{0:spec}` placeholder renders as the first
      argument's closure applied to `spec`, provided the rendered text holds
      no '{' for the later passes to act on. */
  lemma SinglePlaceholder(p: Platform, lookup: string -> Option<string>, spec: string, a: Arg)
    requires '}' !in spec && '{' !in a.render(spec)
    ensures FormatImpl(p, lookup, "{0:" + spec + "}", [a]) == a.render(spec)
  {
    var pat := Pattern(0, ":");
    assert pat == "{0:";
    var t := pat + spec + "}";
    var w := a.render(spec);
    assert t[0..] == t && t[..|pat|] == pat;
    assert Find(t, pat, 0) == Some(0);
    FindCharIs(t, '}', 0, |t| - 1);
    assert t[|pat|..|t| - 1] == spec;
    assert t[|t| - 1 + 1..] == [];
    assert SpecScan([], t, pat, a.render) == SpecScan(w, [], pat, a.render) == w;
    NoBraceNoMatch(w, Pattern(0, "}"));
    assert SimpleScan([], w, Pattern(0, "}"), a.text) == w;
    assert PositionalPasses(t, [a], 0) == PositionalPasses(w, [a], 1);
  }

  /** A template that is one `{name}` placeholder renders as the variable's
      value when the name resolves, and stays verbatim when it does not. */
  lemma SingleNamedPlaceholder(p: Platform, lookup: string -> Option<string>, name: string)
    requires name != [] && !IsDigit(name[0]) && ':' !in name && '}' !in name
    ensures lookup(name).Some? ==> FormatImpl(p, lookup, "{" + name + "}", []) == lookup(name).value
    ensures lookup(name).None? ==> FormatImpl(p, lookup, "{" + name + "}", []) == "{" + name + "}"
  {
    var t := "{" + name + "}";
    FindCharIs(t, '{', 0, 0);
    FindCharIs(t, '}', 0, |t| - 1);
    assert NextPlaceholder(t) == Some((0, |t| - 1));
    assert t[1..|t| - 1] == name;
    assert t[|t| - 1 + 1..] == [];
    assert t[0..|t| - 1 + 1] == t;
    assert SplitName(name) == (name, []);
    assert Resolve(p, lookup, name) == lookup(name);
    assert PositionalPasses(t, [], 0) == t;
    match lookup(name)
    case Some(v) =>
      assert NamedScan(Resolver(p, lookup), [], t) == NamedScan(Resolver(p, lookup), v, []);
    case None =>
      assert NamedScan(Resolver(p, lookup), [], t) == NamedScan(Resolver(p, lookup), t, []);
  }

  /** How the scans see `{name:spec}`: the braces found at both ends and
      the content split at the first ':' into the name and the spec. */
  lemma NamedSpecShape(name: string, spec: string)
    requires ':' !in name && '}' !in name && '}' !in spec
    ensures var t := "{" + name + ":" + spec + "}";
            && NextPlaceholder(t) == Some((0, |t| - 1))
            && t[1..|t| - 1] == name + ":" + spec
            && t[|t| - 1 + 1..] == []
            && SplitName(name + ":" + spec) == (name, spec)
  {
    var content := name + ":" + spec;
    var t := "{" + name + ":" + spec + "}";
    assert t == "{" + content + "}";
    FindCharIs(t, '{', 0, 0);
    forall j | 0 <= j < |t| - 1
      ensures t[j] != '}'
    {
      if 0 < j {
        assert t[j] == content[j - 1];
      }
    }
    FindCharIs(t, '}', 0, |t| - 1);
    assert NextPlaceholder(t) == Some((0, |t| - 1));
    FindCharIs(content, ':', 0, |name|);
    assert content[..|name|] == name && content[|name| + 1..] == spec;
    assert t[1..|t| - 1] == content;
  }

  /** A template that is one `{name:spec}` placeholder renders as the
      variable's value put through `apply_format` with that spec. The named
      pass moves its cursor past the inserted text, so the rendered value
      is never scanned again, whatever braces it holds. */
  lemma SingleNamedSpecPlaceholder(p: Platform, lookup: string -> Option<string>, name: string, spec: string)
    requires name != [] && !IsDigit(name[0]) && ':' !in name && '}' !in name
    requires spec != [] && '}' !in spec
    ensures lookup(name).Some? ==>
              FormatImpl(p, lookup, "{" + name + ":" + spec + "}", [])
              == ApplyFormat.ApplyFormat(p, lookup(name).value, spec)
  {
    var t := "{" + name + ":" + spec + "}";
    NamedSpecShape(name, spec);
    assert PositionalPasses(t, [], 0) == t;
    if lookup(name).Some? {
      var value := ApplyFormat.ApplyFormat(p, lookup(name).value, spec);
      var e := |t| - 1;
      assert Resolve(p, lookup, t[0 + 1..e]) == Some(value);
      assert [] + t[..0] + value == value;
      assert NamedScan(Resolver(p, lookup), [], t) == NamedScan(Resolver(p, lookup), value, t[e + 1..]);
      assert NamedScan(Resolver(p, lookup), value, []) == value;
    }
  }
}
