# ufmt in Dafny

A functional model of the core of **ufmt**, a header-only C++ runtime
string-template library (`include/ufmt/ufmt.h`). A template such as
`"Hello {0}, {name:^10}!"` is filled in from positional arguments and from
named variables held by a context. The model covers four parts.

- **Value rendering** (`string_format.dfy`, `number_format.dfy`,
  `apply_format.dfy`, `value_format.dfy`):
  - `apply_string_formatting`: alignment, width and `.N` truncation;
  - the binary branch of `format_integer_value`;
  - `apply_format`, which splits a spec for named variables and falls back
    to string formatting;
  - the per-type `format_value` dispatch and `to_string_impl`.
- **Substitution** (`engine.dfy`): `format_impl`.
  - Per argument index i, a `{i:spec}` pass runs, then a `{i}` pass.
  - A named-variable pass runs last.
  - All passes rewrite the same growing result.
  - Within a pass the cursor moves past inserted text. Later passes do
    rescan it.
  - Each pass is a recursive function over a (done, rest) split that
    decreases `|rest|`. It is proved equal to a segment-wise reference
    definition that never looks at inserted text.
- **Contexts** (`contexts.dfy`, `shared.dfy`):
  - how arguments are bound (`add_args_to_vector`);
  - `internal_context`, which has no variables and no formatters;
  - `local_context`, which is two maps;
  - `shared_context`, where writes are routed to the shared map or the
    calling thread's overlay;
  - the `context_manager` registry.
- **Cases from the repository's tests** (`oracles.dfy`): concrete templates
  and specs from `tests/test_ufmt.cpp`, proved of the model.

Library services that ufmt calls but the model does not interpret are
fields of a `Platform` value passed as a parameter:
- `snprintf` for doubles and for non-binary integers;
- `std::to_string(double)`;
- `std::stod` and `std::stoll`. They are partial, with `None` where they
  throw.

The calling thread is an explicit `ThreadId` parameter. All shared state is
one `World` value:
- the static main-thread id;
- the `static thread_local` overlays, keyed by thread only;
- each shared context's own maps;
- the registry.

Where the description and the code differ, the model follows the code:
- Width and precision are read with C `atoi`, which also skips leading
  white space before the optional sign and the digits (`Text.Atoi`).
- The binary width is read with `std::stoi`, which fails on a token with no
  digits or one outside `int`; the width is then ignored.

## Model

| member | source | states |
|---|---|---|
| Text.AtoiOfDecimal | include/ufmt/ufmt.h:417-423 | `atoi` reads back exactly the number that the decimal rendering wrote |
| Text.AtoiOfNonNumeric | include/ufmt/ufmt.h:417-423 | a width or precision token that is empty or starts with no space, sign or digit reads as 0 |
| Text.StoI | include/ufmt/ufmt.h:356 | `stoi` succeeds exactly when there are leading digits and the value fits in `int`, and then agrees with `atoi` |
| Text.AtoiOfIntDecimal | include/ufmt/ufmt.h:333 | `atoi` reads back every `long long` that `std::to_string` wrote, through the '-' sign for negative values |
| Text.NatToDecimalValue | include/ufmt/ufmt.h:333 | the digits `std::to_string` produces for a natural number denote that number |
| StringFormat.ParseStringSpec | include/ufmt/ufmt.h:400-426 | a leading '-' means left and '^' means centre, otherwise right; without a '.', there is no truncation and the width is the `atoi` of the rest |
| StringFormat.DotSplitsWidthAndLength | include/ufmt/ufmt.h:413-420 | with a '.', the width is the `atoi` of the text before the first '.' (0 if there is none) and the truncation length is the `atoi` of everything after it |
| StringFormat.Truncate | include/ufmt/ufmt.h:428-437 | N ≤ 0, or a value no longer than N, is kept; otherwise the result has exactly N characters: a plain prefix for N ≤ 3, else a prefix of N−3 characters then "..." |
| StringFormat.Pad | include/ufmt/ufmt.h:439-456 | the padded length is max(width, \|t\|), and t is unchanged when the width does not exceed it |
| StringFormat.PadLayout | include/ufmt/ufmt.h:443-456 | t appears once and contiguously after `lead` spaces (none for '-', all for right, floor(pad/2) for '^'), and every other character is a space |
| StringFormat.ApplyStringFormatting | include/ufmt/ufmt.h:384-457 | an empty spec returns the value unchanged; otherwise the result length is max(width, \|truncated value\|) |
| StringFormat.WidthOnlyNeverTruncates | include/ufmt/ufmt.h:421-428 | a spec with no '.' never truncates, so the output length is max(width, \|value\|) |
| NumberFormat.BinaryDigits | include/ufmt/ufmt.h:343-350 | the digit loop yields binary digits with a leading '1' whose value is the number |
| NumberFormat.ToUnsigned | include/ufmt/ufmt.h:344 | the cast to `unsigned long long` is the value modulo 2^64, and it is zero only for zero |
| NumberFormat.BinaryWidth | include/ufmt/ufmt.h:353-358 | a width applies exactly when the token is non-empty, `stoi` succeeds, and the value exceeds digits + 2; otherwise the token is ignored |
| NumberFormat.FormatBinary | include/ufmt/ufmt.h:339-341 | 0 renders as "0b0" |
| NumberFormat.BinaryLayout | include/ufmt/ufmt.h:343-372 | a non-zero value renders as "0b" plus its minimal digits of the value mod 2^64. A wider width makes the length exactly W: zeros between "0b" and the digits when the token starts with '0', spaces before "0b" otherwise |
| NumberFormat.ZeroPaddingKeepsValue | include/ufmt/ufmt.h:359-362 | zero padding after "0b" does not change the binary value |
| NumberFormat.MinusOneIsAllOnes | include/ufmt/ufmt.h:344-350 | −1 renders as "0b" followed by sixty-four '1's (its two's-complement bits) |
| NumberFormat.FormatIntegerReadsBack | include/ufmt/ufmt.h:331-372 | the text written for an empty spec reads back through `atoi` as the value, negative values included. For a plain "b"/"B" spec, the token is "0b" followed by bits that denote the value's unsigned 64-bit pattern |
| ApplyFormat.LastTypeIndex | include/ufmt/ufmt.h:559-567 | the backward scan finds the last character that is not a digit or '.', and everything after it is digits and dots |
| ApplyFormat.SplitSpec | include/ufmt/ufmt.h:548-573 | spec = alignment mark + numeric part + type character + digits and dots; with no type character, the numeric part is all that follows the alignment |
| ApplyFormat.SplitAtDot | include/ufmt/ufmt.h:585-592 | width part + precision part = numeric part; the width has no '.', and the precision part starts with '.' when it is not empty |
| ApplyFormat.ClassOf | include/ufmt/ufmt.h:575-576 | a spec is a floating spec exactly when its type character is one of fFgGeE, and an integer spec exactly when it is one of diXxoubB |
| ApplyFormat.ApplyFormat | include/ufmt/ufmt.h:539-650 | string formatting of the original spec applies when the spec has no numeric type character, or when `stod`/`stoll` cannot parse the stored value |
| ApplyFormat.ParsedIntegerRouting | include/ufmt/ufmt.h:612-641 | a parsed integer is formatted with the numeric part and type character; with an alignment mark, only the precision goes to the formatter and the width is applied as string padding |
| ApplyFormat.ParsedDoubleRouting | include/ufmt/ufmt.h:575-604 | the same routing for floating type characters |
| ApplyFormat.NoTypeCharIsStringFormatting | include/ufmt/ufmt.h:569-572 | a spec made only of an alignment mark, digits and dots is pure string formatting |
| ApplyFormat.AlignedBinary | include/ufmt/ufmt.h:620-636 | "-Wb" renders the binary token without a width first, then left-justifies it in W columns as a string, with the spaces after the token |
| Values.ToLongLong | include/ufmt/ufmt.h:504-506 | the cast to `long long` is congruent to the value modulo 2^64 and is the identity within range |
| ValueFormat.IntegersRenderAsLongLong | include/ufmt/ufmt.h:479-506 | every integer type renders as the `long long` it is cast to |
| ValueFormat.BoolRendersAsWord | include/ufmt/ufmt.h:519-523 | `bool` is string formatting of "true"/"false", and with an empty spec it is its default text |
| ValueFormat.CharRouting | include/ufmt/ufmt.h:509-517 | a `char` whose spec ends in d, x or o renders as the `int` of its code; otherwise it renders as its one-character string |
| ValueFormat.EmptySpecIsDefault | include/ufmt/ufmt.h:462-533 | `{i:}` renders like `{i}` for every value except unsigned 64-bit integers of 2^63 and above |
| ValueFormat.EmptySpecWrapsLargeUnsigned | include/ufmt/ufmt.h:499-506 | for an `unsigned long` or `unsigned long long` of 2^63 and above, `{i:}` prints a negative number while `{i}` does not |
| Engine.Pattern | include/ufmt/ufmt.h:754 | a pattern starts with '{' and holds no '}' unless its suffix does |
| Engine.PatternReadsIndex | include/ufmt/ufmt.h:754 | between the '{' and the suffix, a pattern holds the decimal digits of its index, which read back as that index |
| Engine.NextSpecFinds | include/ufmt/ufmt.h:756-759 | the `{i:spec}` pass acts on the first occurrence of the pattern and the first '}' at or after it. It stops exactly when no occurrence has a '}' after it |
| Engine.NextPlaceholderFinds | include/ufmt/ufmt.h:786-788 | the named pass acts on the first '{' and the first '}' after it. It stops exactly when no '{' has a '}' after it |
| Engine.SplitName | include/ufmt/ufmt.h:796-802 | content splits at its first ':' into name and spec, and rejoins to the content; without ':', the spec is empty |
| Engine.SpecScanSegments | include/ufmt/ufmt.h:754-772 | the `{i:spec}` pass equals a segment-wise rewrite that never rescans inserted text, and a pattern with no later '}' ends the pass |
| Engine.SimpleScanSegments | include/ufmt/ufmt.h:775-780 | the same for the `{i}` pass |
| Engine.NamedScanSegments | include/ufmt/ufmt.h:783-818 | the same for the named pass, where an unresolved placeholder is kept verbatim |
| Engine.NoBraceTemplate | include/ufmt/ufmt.h:740-822 | a template with no '{' comes back unchanged for all arguments and variables |
| Engine.NoCloseTemplate | include/ufmt/ufmt.h:769-771 | a template with no '}' comes back unchanged, because every pass stops at a '{' with no later '}' |
| Engine.NamedScanUnresolved | include/ufmt/ufmt.h:791-814 | when nothing resolves, the named pass returns its input |
| Engine.NamedScanNoVariables | include/ufmt/ufmt.h:804-814 | a context with no variables leaves the named pass's input unchanged |
| Engine.SinglePlaceholder | include/ufmt/ufmt.h:754-768 | "{0:spec}", with a spec holding no '}', renders as the first argument's closure applied to spec, provided that rendered text holds no '{' for a later pass to act on |
| Engine.SingleNamedPlaceholder | include/ufmt/ufmt.h:786-814 | "{name}" renders as the variable's value when it resolves, and stays verbatim when it does not |
| Engine.SingleNamedSpecPlaceholder | include/ufmt/ufmt.h:796-811 | "{name:spec}" renders as `apply_format` of the variable's value with that spec |
| Contexts.ToText | include/ufmt/ufmt.h:728-737 | the default text is the registered formatter's output if there is one, else `to_string_impl` |
| Contexts.FormatterIgnoresSpec | include/ufmt/ufmt.h:831-850 | with a formatter registered for the type, both `{i}` and every `{i:spec}` render as the formatter's output |
| Contexts.NoFormatterUsesFormatValue | include/ufmt/ufmt.h:831-850 | without one, `{i}` renders the default text and `{i:spec}` uses `format_value` |
| Contexts.NoVariables | include/ufmt/ufmt.h:988-994 | the internal context has no variables |
| Contexts.InternalFormatNoArgs | tests/test_ufmt.cpp:173-178 | the free `format` with no arguments returns its template verbatim |
| Contexts.GetVar | include/ufmt/ufmt.h:1047-1050 | a missing name reads as the empty string |
| Contexts.FindVar | include/ufmt/ufmt.h:717-723 | `find_var` finds a name exactly when `has_var` holds, with the value `get_var` returns |
| Contexts.SetVar | include/ufmt/ufmt.h:1034-1036 | after `set_var(n, v)`, `has_var(n)` holds and `get_var(n)` = v; other names and the formatters are unchanged |
| Contexts.ClearVar | include/ufmt/ufmt.h:1038-1040 | after `clear_var(n)`, `has_var(n)` is false; other names and the formatters are unchanged |
| Contexts.BindArgs | include/ufmt/ufmt.h:826-857 | one entry per argument, in order: its text is the context's `to_string` (the formatter if one is registered), and its closure renders through the formatter or `format_value` |
| Contexts.SetVarValue | include/ufmt/ufmt.h:879-881 | the typed `set_var` defines the name with the context's text of the value; other names and the formatters are unchanged |
| Contexts.SetFormatter | include/ufmt/ufmt.h:1052-1054 | the type gets this formatter; every other type keeps its formatter (or lack of one), and the variables are unchanged |
| Contexts.ClearFormatter | include/ufmt/ufmt.h:1056-1058 | the type loses its formatter; every other type keeps its formatter (or lack of one), and the variables are unchanged |
| Contexts.SetThenClear | include/ufmt/ufmt.h:1034-1040 | set then clear of a name reads like clear alone |
| Contexts.LastSetWins | include/ufmt/ufmt.h:1034-1036 | a second `set_var` of a name overrides the first |
| Contexts.LocalFormatterIgnoresSpec | include/ufmt/ufmt.h:1064-1070 | in a local context, "{0:spec}" (a spec holding no '}') of a value whose type has a formatter renders as the formatter's output, provided that output holds no '{' for the named pass to act on |
| Contexts.LocalVariableRoundTrip | include/ufmt/ufmt.h:1034-1050 | "{name}" renders as the value just set, and stays verbatim after `clear_var` |
| Shared.FixMain | include/ufmt/ufmt.h:942-951 | the first call fixes the main thread to the caller, and later calls keep it |
| Shared.SharedSetVar | include/ufmt/ufmt.h:1107-1116 | `set_var` keeps the world's invariant, leaves the registry and the set of contexts as they were, and changes no lookup of any other name, in any context and on any thread |
| Shared.SharedClearVar | include/ufmt/ufmt.h:1118-1127 | the same for `clear_var`: only lookups of the cleared name can change |
| Shared.SharedFindVar | include/ufmt/ufmt.h:1155-1171 | `find_var` agrees with `has_var` and `get_var`: overlay entry first, else the shared entry |
| Shared.SharedSetFormatter | include/ufmt/ufmt.h:1173-1176 | the context gets the formatter. Its other formatters and its variables, every other context, the overlays, the main thread and the registry are unchanged |
| Shared.SharedClearFormatter | include/ufmt/ufmt.h:1178-1181 | the context loses the formatter. Its other formatters and its variables, every other context, the overlays, the main thread and the registry are unchanged |
| Shared.SharedSetVarValue | include/ufmt/ufmt.h:879-881 | the typed `set_var` on a shared context stores the context's text of the value, and the calling thread reads that text back. No lookup of any other name changes, in any context or thread. A worker's write leaves every shared map alone and is invisible to every other thread |
| Shared.CreateSharedContext | include/ufmt/ufmt.h:1308-1310 | a new, empty context with a fresh id; every existing context, the overlays and the main thread are untouched |
| Shared.GetContext | include/ufmt/ufmt.h:1232-1244 | get-or-create: a registered name returns its context unchanged; a new name gets a fresh empty context; other names, existing contexts, the overlays and the main thread are untouched |
| Shared.RemoveContext | include/ufmt/ufmt.h:1247-1250 | the name is unregistered; every other name keeps the context it had, and no context, overlay or main thread changes |
| Shared.ClearAllContexts | include/ufmt/ufmt.h:1255-1258 | every name is unregistered; the contexts, the overlays, the main thread and the id counter are untouched |
| Shared.MainThreadFixedOnce | include/ufmt/ufmt.h:938-951 | the main thread is whoever made the first shared `set_var`/`clear_var`. No later variable write, formatter change or registry operation changes it |
| Shared.SetVarReadBack | include/ufmt/ufmt.h:1107-1152 | whichever thread writes a variable reads back its value |
| Shared.MainWriteIsShared | include/ufmt/ufmt.h:1108-1111 | a main-thread write updates the shared map: every thread without its own overlay entry sees it, a thread with one keeps seeing its own value, and other contexts are untouched |
| Shared.WorkerWriteIsPrivate | include/ufmt/ufmt.h:1112-1115 | a worker's write changes no lookup by any other thread, including the main thread |
| Shared.WorkerWriteCrossesContexts | include/ufmt/ufmt.h:1097 | the worker's overlay is per thread only, so its write shows in every shared context for that thread |
| Shared.WorkerClearUncoversShared | include/ufmt/ufmt.h:1123-1125 | a worker's `clear_var` removes only its overlay entry: the shared value shows again for it, no shared map changes, and no other thread sees a difference in any context |
| Shared.MainClearIsShared | include/ufmt/ufmt.h:1119-1122 | a main-thread `clear_var` removes the shared entry for every thread without an overlay entry. Threads with one, the overlays and every other context are unchanged |
| Shared.WorkerFormatsOwnValue | tests/test_multithreading.cpp:416-492 | after a worker writes, formatting "{name}" on that worker gives its value, and on any other thread gives what it gave before |
| Shared.GetContextIsStable | include/ufmt/ufmt.h:1232-1244 | a second `get_context` of the same name returns the same context and changes nothing |
| Shared.RemoveThenGetIsFresh | include/ufmt/ufmt.h:1247-1250 | after `remove_context`, `get_context` of that name creates a new, empty context, while the old one lives on unchanged |
| Shared.ClearAllThenGetIsFresh | include/ufmt/ufmt.h:1255-1258 | after `clear_all_contexts`, every `get_context` creates a new context |
| Shared.DistinctNamesAreIsolated | include/ufmt/ufmt.h:1095 | a main-thread write through one named context changes no lookup in another named context |
| Oracles.LaterPassesRescan | include/ufmt/ufmt.h:752-781 | text inserted for argument 0 is rewritten by the pass for argument 1: "{0}" with ("{1}", "x") gives "x" |
| Oracles.SamePassDoesNotRescan | include/ufmt/ufmt.h:777-780 | a pass never rewrites its own output: "{0}" whose text is "{0}" gives "{0}" |
| Oracles.NamedPassSeesArguments | include/ufmt/ufmt.h:783-811 | the named pass resolves names that positional arguments inserted |
| Oracles.IncompletePlaceholder | tests/test_ufmt.cpp:181-182 | "Incomplete {0 placeholder" comes back unchanged |
| Oracles.MissingArgumentStays | tests/test_ufmt.cpp:415-416 | "{1}" with one argument stays verbatim |
| Oracles.CenterEvenPad | tests/test_ufmt.cpp:353-354 | "Tom" with "^10" is "   Tom    " |
| Oracles.CenterOddPad | tests/test_ufmt.cpp:365-366 | "Tom" with "^9" is "   Tom   " |
| Oracles.TruncateWithEllipsis | tests/test_ufmt.cpp:378-379 | ".10" gives "This is..." |
| Oracles.TruncateShortPrecision | tests/test_ufmt.cpp:382-383 | ".3" gives "Thi" |
| Oracles.TruncateThenAlignLeft | tests/test_ufmt.cpp:386-387 | "-15.12" gives "This is a...   " |
| Oracles.ShortValueNotTruncated | tests/test_ufmt.cpp:394-395 | "Hi" with ".10" stays "Hi" |
| Oracles.WidthOnlyPadsLeft | tests/test_ufmt.cpp:398-399 | "Hello World" with "20" gets nine spaces in front |
| Oracles.LocalCenterJustification | tests/test_ufmt.cpp:345-354 | a local context with name = "Tom" formats "{name:^10}" as "   Tom    " |

## Left out

- Floating-point and printf semantics are uninterpreted `Platform` fields: `format_double_value` (include/ufmt/ufmt.h:317-326), the non-binary integer path (375-378), and `std::to_string(double)`. The model fixes only which format string each receives. A `Double` is an opaque 64-bit pattern.
- `std::stod` and `std::stoll` are opaque partial functions. Whether a given string parses as a number is not modelled.
- `safe_to_string` and the ustr hook (include/ufmt/ufmt.h:180-223) use streams, type names, addresses and foreign code. A value of another type (`VOther`) carries its default text instead.
- `typeid`/`type_index` type erasure is replaced by a tagged `Value` datatype, and formatters by a map from `TypeTag` to a function.
- Mutexes, real `thread_local` storage and the double-checked initialisation of the main-thread id (include/ufmt/ufmt.h:942-951) are left out. Each operation is one atomic step on a `World` value, and interleavings of threads are not modelled.
- Shared contexts are values in `World.stores`, not reference-counted objects. A context removed from the registry stays in `stores` as a live object would for its holders. It is never freed.
- The exception classes (include/ufmt/ufmt.h:120-144) are never thrown, and the `FormatSpec` struct (152-160) is never used. Both are left out.
- Tests, demos and benchmarks use threads, timing and console I/O. Their assertions appear only as the concrete cases in `oracles.dfy`.
- `std::string` holds bytes, and its length, `substr` truncation and padding all count bytes. A `string` here is a `seq<char>` in which every character stands for one byte. The model therefore does not show that truncation can cut a multi-byte UTF-8 character in two.
- The integer widths are those of an LP64 platform: `int` is 32 bits, and `long`, `long long` and their unsigned forms are 64 bits (`Values.InRange`). On a platform with a 32-bit `long`, `unsigned long` cannot wrap to a negative `long long`.
- `char` is taken to be signed, with codes -128..127 (`Values.ValidValue`). Where `char` is unsigned, byte 0xE9 with `{0:d}` prints 233 rather than -23.
- One `StringKind.CharArray` tag stands for `char[N]` of every length N. A formatter registered for a string literal of one length therefore applies here to literals of every length, while C++'s `type_index` tells `char[5]` and `char[7]` apart.
- Text.Atoi: unbounded, so the undefined behaviour of C `atoi` on overflow is not modelled.
- StringFormat.ApplyStringFormatting: its contract states only the empty-spec case and the length. Where the value sits is stated by StringFormat.PadLayout, and TruncateThenPad links the two.
- NumberFormat.FormatBinary: its contract states only the zero case. The layout for other values is stated by NumberFormat.BinaryLayout.
- Engine.NamedScan: the source leaves an unresolved placeholder where it is and only moves its cursor past the '}' (include/ufmt/ufmt.h:812-813). The model moves the placeholder's text into the done part instead. The resulting string is the same.
- Engine.NextSpec: its contract states only the bounds of the span found. What it finds is stated by Engine.NextSpecFinds.
- Engine.NextPlaceholder: its contract states only the bounds of the span found. What it finds is stated by Engine.NextPlaceholderFinds.
- NumberFormat.FormatInteger: its contract states which branch handles a spec. What the decimal and plain binary outputs mean is stated by NumberFormat.FormatIntegerReadsBack, and the padded binary layout by NumberFormat.BinaryLayout.
- The `{i:spec}` and `{i}` passes, and the named pass, take the template after all earlier passes. No claim is made about `format_impl` on a template whose inserted texts themselves contain placeholders, beyond the concrete cases in `oracles.dfy`.
