/** The contexts a template is formatted in: what `format_impl` reads from
    them (a variable lookup and the custom-formatter registry), how
    positional arguments are bound (`add_args_to_vector`), the internal
    context behind the free `format` function, and `local_context`. */
module Contexts {
  import opened Wrappers
  import opened Text
  import opened Values
  import opened ValueFormat
  import opened Engine

  /** Custom formatters by type; a formatter sees only the value, never
      the spec. */
  type Formatters = map<TypeTag, Value -> string>

  /** A context's `to_string`: the custom formatter for the value's type if
      one is registered, else the default text. */
  function ToText(p: Platform, formatters: Formatters, v: Value): (text: string)
    ensures TagOf(v) in formatters ==> text == formatters[TagOf(v)](v)
    ensures TagOf(v) !in formatters ==> text == DefaultString(p, v)
  {
    if TagOf(v) in formatters then formatters[TagOf(v)](v) else DefaultString(p, v)
  }

  /** The closure stored with each argument: the custom formatter if one
      is registered (the spec is dropped), else `format_value`. */
  function Render(p: Platform, formatters: Formatters, v: Value, spec: string): string
    requires ValidValue(v)
  {
    if TagOf(v) in formatters then formatters[TagOf(v)](v) else FormatValue(p, v, spec)
  }

  /** `add_args_to_vector` for one argument. */
  function BindArg(p: Platform, formatters: Formatters, v: Value): Arg
    requires ValidValue(v)
  {
    Arg(ToText(p, formatters, v), spec => Render(p, formatters, v, spec))
  }

  /** `add_args_to_vector` for all arguments, in order. */
  function BindArgs(p: Platform, formatters: Formatters, vs: seq<Value>): (args: seq<Arg>)
    requires forall i :: 0 <= i < |vs| ==> ValidValue(vs[i])
    ensures |args| == |vs|
    ensures forall i :: 0 <= i < |vs| ==> args[i].text == ToText(p, formatters, vs[i])
    ensures forall i, spec :: 0 <= i < |vs| ==> args[i].render(spec) == Render(p, formatters, vs[i], spec)
  {
    seq(|vs|, i requires 0 <= i < |vs| => BindArg(p, formatters, vs[i]))
  }

  /** While a formatter for the value's type is registered, both the
      default text and every spec render as that formatter's output. */
  lemma FormatterIgnoresSpec(p: Platform, formatters: Formatters, v: Value, spec: string)
    requires ValidValue(v) && TagOf(v) in formatters
    ensures BindArg(p, formatters, v).text == formatters[TagOf(v)](v)
    ensures BindArg(p, formatters, v).render(spec) == formatters[TagOf(v)](v)
  {
  }

  /** Without one, the default text and `format_value` apply. */
  lemma NoFormatterUsesFormatValue(p: Platform, formatters: Formatters, v: Value, spec: string)
    requires ValidValue(v) && TagOf(v) !in formatters
    ensures BindArg(p, formatters, v).text == DefaultString(p, v)
    ensures BindArg(p, formatters, v).render(spec) == FormatValue(p, v, spec)
  {
  }

  // ---------------------------------------------------------------------
  // internal_context: no variables, no formatters
  // ---------------------------------------------------------------------

  function NoVariables(name: string): (r: Option<string>)
    ensures r.None?
  {
    None
  }

  /** The free function `format(template, args...)`. */
  function InternalFormat(p: Platform, template: string, vs: seq<Value>): string
    requires forall i :: 0 <= i < |vs| ==> ValidValue(vs[i])
  {
    FormatImpl(p, NoVariables, template, BindArgs(p, map[], vs))
  }

  /** Without arguments the internal context returns the template verbatim:
      there is nothing positional to substitute and no variable resolves. */
  lemma InternalFormatNoArgs(p: Platform, template: string)
    ensures InternalFormat(p, template, []) == template
  {
    NamedScanNoVariables(p, NoVariables, [], template);
  }

  // ---------------------------------------------------------------------
  // local_context: a variable map and a formatter map
  // ---------------------------------------------------------------------

  datatype LocalContext = LocalContext(vars: map<string, string>, formatters: Formatters)

  const EmptyLocal := LocalContext(map[], map[])

  predicate HasVar(c: LocalContext, name: string) {
    name in c.vars
  }

  /** `get_var`: the value, or the empty string for a missing name. */
  function GetVar(c: LocalContext, name: string): (value: string)
    ensures !HasVar(c, name) ==> value == []
  {
    if name in c.vars then c.vars[name] else []
  }

  /** The base class's `find_var`: `has_var`, then `get_var`. */
  function FindVar(c: LocalContext, name: string): (r: Option<string>)
    ensures r.Some? <==> HasVar(c, name)
    ensures r.Some? ==> r.value == GetVar(c, name)
  {
    if HasVar(c, name) then Some(GetVar(c, name)) else None
  }

  function SetVar(c: LocalContext, name: string, value: string): (r: LocalContext)
    ensures HasVar(r, name) && GetVar(r, name) == value
    ensures forall n :: n != name ==> FindVar(r, n) == FindVar(c, n)
    ensures r.formatters == c.formatters
  {
    c.(vars := c.vars[name := value])
  }

  function ClearVar(c: LocalContext, name: string): (r: LocalContext)
    ensures !HasVar(r, name) && GetVar(r, name) == []
    ensures forall n :: n != name ==> FindVar(r, n) == FindVar(c, n)
    ensures r.formatters == c.formatters
  {
    c.(vars := c.vars - {name})
  }

  /** The `set_var` template for non-string values: the value is converted
      with the context's `to_string`, so a registered formatter applies. */
  function SetVarValue(p: Platform, c: LocalContext, name: string, v: Value): (r: LocalContext)
    ensures HasVar(r, name) && GetVar(r, name) == ToText(p, c.formatters, v)
    ensures forall n :: n != name ==> FindVar(r, n) == FindVar(c, n)
    ensures r.formatters == c.formatters
  {
    SetVar(c, name, ToText(p, c.formatters, v))
  }

  predicate HasFormatter(c: LocalContext, tag: TypeTag) {
    tag in c.formatters
  }

  function SetFormatter(c: LocalContext, tag: TypeTag, f: Value -> string): (r: LocalContext)
    ensures HasFormatter(r, tag) && r.formatters[tag] == f
    ensures forall t :: t != tag ==> (HasFormatter(r, t) <==> HasFormatter(c, t))
    ensures r.formatters - {tag} == c.formatters - {tag}
    ensures r.vars == c.vars
  {
    c.(formatters := c.formatters[tag := f])
  }

  function ClearFormatter(c: LocalContext, tag: TypeTag): (r: LocalContext)
    ensures !HasFormatter(r, tag)
    ensures forall t :: t != tag ==> (HasFormatter(r, t) <==> HasFormatter(c, t))
    ensures r.formatters - {tag} == c.formatters - {tag}
    ensures r.vars == c.vars
  {
    c.(formatters := c.formatters - {tag})
  }

  function LocalLookup(c: LocalContext): string -> Option<string> {
    name => FindVar(c, name)
  }

  /** `local_context::format(template, args...)`. */
  function LocalFormat(p: Platform, c: LocalContext, template: string, vs: seq<Value>): string
    requires forall i :: 0 <= i < |vs| ==> ValidValue(vs[i])
  {
    FormatImpl(p, LocalLookup(c), template, BindArgs(p, c.formatters, vs))
  }

  /** Setting a name and then clearing it leaves every lookup as clearing
      alone would. */
  lemma SetThenClear(c: LocalContext, name: string, value: string)
    ensures forall n :: FindVar(ClearVar(SetVar(c, name, value), name), n) == FindVar(ClearVar(c, name), n)
  {
  }

  /** The last `set_var` of a name wins. */
  lemma LastSetWins(c: LocalContext, name: string, v1: string, v2: string)
    ensures SetVar(SetVar(c, name, v1), name, v2) == SetVar(c, name, v2)
  {
  }

  /** End to end: in a local context with a formatter for the argument's
      type, `{0:spec}` renders as the formatter's output for every spec
      (when that output holds no '{' for the named pass to act on). */
  lemma LocalFormatterIgnoresSpec(p: Platform, c: LocalContext, v: Value, spec: string)
    requires ValidValue(v) && TagOf(v) in c.formatters
    requires '}' !in spec && '{' !in c.formatters[TagOf(v)](v)
    ensures LocalFormat(p, c, "{0:" + spec + "}", [v]) == c.formatters[TagOf(v)](v)
  {
    var a := BindArg(p, c.formatters, v);
    assert BindArgs(p, c.formatters, [v]) == [a];
    FormatterIgnoresSpec(p, c.formatters, v, spec);
    SinglePlaceholder(p, LocalLookup(c), spec, a);
  }

  /** End to end: after `set_var(name, value)` the template `{name}`
      renders as `value`; after `clear_var(name)` it stays verbatim. */
  lemma LocalVariableRoundTrip(p: Platform, c: LocalContext, name: string, value: string)
    requires name != [] && !IsDigit(name[0]) && ':' !in name && '}' !in name
    ensures LocalFormat(p, SetVar(c, name, value), "{" + name + "}", []) == value
    ensures LocalFormat(p, ClearVar(c, name), "{" + name + "}", []) == "{" + name + "}"
  {
    assert BindArgs(p, c.formatters, []) == [];
    SingleNamedPlaceholder(p, LocalLookup(SetVar(c, name, value)), name);
    SingleNamedPlaceholder(p, LocalLookup(ClearVar(c, name)), name);
  }
}
