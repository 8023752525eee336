# message-format: the ICU message engine, modelled in Dafny

This project models the live ICU message-format engine of the Rust crate
`message-format`. A localized message is a sequence of parts. Each part is
one of five node kinds:

- plain text;
- a simple `{name}` substitution;
- a placeholder that prints the context's placeholder value;
- a plural format that picks a sub-message by the numeric value of a variable, an offset and an English classifier;
- a select format that picks a sub-message by the string value of a variable.

Values reach the nodes through an argument chain. The chain is a linked list
of `(name, value)` links. It is searched from the newest link, so a later
argument shadows an earlier one. Values are 64-bit integers or strings.
The integer conversions from `i32`, `u32`, `i64`, `u64` and `usize` are
modelled with the `u64`/`usize` wrap-around written out.

The ICU parser reads `{name}` and runs of text into a message. Formatting
writes each part to an output stream in order and stops at the first part
that fails. `format_message` keeps what was written before the failure and
drops the error.

Modules, one per file:

| file | module | what |
|---|---|---|
| wrappers.dfy | Wrappers | `Option`, `Result` |
| values.dfy | Values | `Value`, the `AsValue` conversions, decimal `Display` and its inverse |
| arguments.dfy | Arguments | the argument chain: `arg`, `Args::arg`, `get`, and what the chain means as a map |
| contexts.dfy | Contexts | `Context` with its placeholder value |
| plural_categories.dfy | PluralCategories | `PluralCategory` and the English cardinal classifier |
| messages.dfy | Messages | `Message`, the five part kinds, plural and select message lookup |
| format_builders.dfy | FormatBuilders | `PluralFormat::new` and its setters, `SelectFormat::new` and `map`, as classes whose methods update fields in place |
| rendering.dfy | Rendering | the pure render functions, and the in-place `apply_format` / `write_message` / `format_message` methods proved against them |
| icu_parse.dfy | IcuParse | the nom parser as functions over the remaining input, with soundness and completeness lemmas |
| render_properties.dfy | RenderProperties | what rendering promises: part by part, per node kind, and for parsed templates |
| scenarios.dfy | Scenarios | the crate's own examples and tests, stated as lemmas and methods |

Where the code and its documentation disagree, the model follows the code:

- A plural format hands its sub-message the enclosing context unchanged. The computed offset value is not given to a placeholder inside it, as the comments at src/icu/ast/plural_format.rs:109-110 admit.
- `format_message` swallows the error of `write_message`. It returns the output written up to the failing part.
- The ICU parser reads only `{name}` and plain text. Plural and select syntax is not parsed: `{count, plural, ...}` becomes a simple format named by everything up to the first `}`.
- A plural or select format whose variable is absent writes nothing and succeeds. A wrong value type panics in the source. Here it is the error `WrongVariableType`.

## Model

| member | source | states |
|---|---|---|
| Values.FromI32 | src/value.rs:32-36 | an `i32` becomes a number with the same value |
| Values.FromU32 | src/value.rs:38-42 | a `u32` becomes a number with the same value |
| Values.FromI64 | src/value.rs:44-48 | an `i64` is kept as it is |
| Values.WrapToI64 | src/value.rs:50-54 | the `as i64` cast of an unsigned 64-bit value: the result is congruent to the input modulo 2^64 |
| Values.WrapToI64Unique | src/value.rs:50-54 | exactly one `i64` is congruent to a given unsigned 64-bit value, so the cast is determined |
| Values.FromU64 | src/value.rs:50-54 | a `u64` below 2^63 keeps its value; from 2^63 up it wraps to a negative number |
| Values.FromUsize | src/value.rs:56-60 | the same wrap-around for a 64-bit `usize` |
| Values.FromStr | src/value.rs:62-66 | a string becomes a string value with the same contents |
| Values.NatDigits | src/value.rs:68-76 | the decimal digits of a natural number: non-empty, all digits, a leading `0` only for 0 itself |
| Values.NatDigitsRoundTrip | src/value.rs:68-76 | reading the printed digits back gives the number |
| Values.DecimalRoundTrip | src/value.rs:68-76 | reading a printed integer back, sign included, gives the integer |
| Values.DecimalStringCanonical | src/value.rs:68-76 | the decimal form of any integer is canonical: an optional `-`, digits without a leading zero (except "0" itself), never "-0" |
| Values.CanonicalDigitsUnique | src/value.rs:68-76 | a canonical run of digits is exactly the decimal form of the number it reads as |
| Values.CanonicalDecimalUnique | src/value.rs:68-76 | a canonical decimal string that reads back as `n` is the decimal form of `n`: no other string has both properties |
| Values.Display | src/value.rs:68-76 | a string displays as itself; a number displays as canonical decimal text that reads back to it, with a leading `-` exactly when it is negative, which by `CanonicalDecimalUnique` fixes the text |
| Values.DisplayNumberInjective | src/value.rs:68-76 | two numbers that display the same are equal |
| Values.ConversionExamples | src/value.rs:32-60 | sample conversions: `u64::MAX` becomes -1, `usize` 2^63 becomes the `i64` minimum, numbers display in decimal |
| Arguments.Arg | src/args.rs:17-23 | a one-link chain finds its own name and nothing else |
| Arguments.Args.Arg | src/args.rs:27-35 | the new link finds its own name; every other name is looked up as in the old chain |
| Arguments.Args.Fmt | src/args.rs:45-47 | `Display` of a link forwards to its value (src/args.rs:60-64): a string as it is, a number as canonical decimal reading back to it |
| Arguments.Args.Get | src/args.rs:49-57 | a link that is found carries the queried name; a miss means the newest link does not carry it |
| Arguments.GetAgreesWithBindings | src/args.rs:49-57 | lookup finds a name exactly when the chain binds it, and then yields the newest value bound to it |
| Arguments.Shadowing | src/args.rs:27-35 | attaching a name twice makes lookup yield the later value |
| Arguments.ArgsExamples | src/args.rs:72-90 | the chain's own tests: displaying `George`, getting `John`, displaying the number 3 as `3` |
| Contexts.New | src/context.rs:16-18 | the context holds the given placeholder value |
| Contexts.Default | src/context.rs:21-24 | the default context has no placeholder value |
| Contexts.DefaultIsNewNone | src/context.rs:16-24 | the default context is `Context::new(None)` |
| PluralCategories.EnglishCardinalClassifier | src/plural_classifiers.rs:21-26 | the category is `One` exactly for 1, and `Other` for every other value |
| PluralCategories.EnglishCardinalExamples | src/plural_classifiers.rs:21-26 | 0 and 2 are `Other`, 1 is `One` |
| Messages.PluralFormat.CategoryMessage | src/icu/ast/plural_format.rs:86-93 | each of `zero`..`many` picks its own branch when it is set, and `other` when it is unset; the `Other` category picks `other` |
| Messages.PluralFormat.LookupMessage | src/icu/ast/plural_format.rs:81-95 | a literal for the value wins; otherwise the English category's branch, falling back to `other` |
| Messages.SelectFormat.LookupMessage | src/icu/ast/select_format.rs:39-41 | the mapped message for the value, or the default when it is not mapped |
| Messages.EnglishLookup | src/icu/ast/plural_format.rs:81-95 | without a literal, 1 picks `one` when it is set, and everything else picks `other` |
| Messages.LiteralOverrides | src/icu/ast/plural_format.rs:46-48 | registering a literal for any value makes that value select it, whatever branches are set, and leaves the lookup of every other value unchanged |
| FormatBuilders.PluralFormatBuilder.constructor | src/icu/ast/plural_format.rs:30-43 | name and `other` as given, offset 0, no literals, every optional branch unset |
| FormatBuilders.PluralFormatBuilder.Literal | src/icu/ast/plural_format.rs:46-48 | the literal map gains or replaces one entry; nothing else changes |
| FormatBuilders.PluralFormatBuilder.Offset | src/icu/ast/plural_format.rs:51-53 | only the offset changes |
| FormatBuilders.PluralFormatBuilder.Zero | src/icu/ast/plural_format.rs:56-58 | only the `zero` branch changes |
| FormatBuilders.PluralFormatBuilder.One | src/icu/ast/plural_format.rs:61-63 | only the `one` branch changes |
| FormatBuilders.PluralFormatBuilder.Two | src/icu/ast/plural_format.rs:66-68 | only the `two` branch changes |
| FormatBuilders.PluralFormatBuilder.Few | src/icu/ast/plural_format.rs:71-73 | only the `few` branch changes |
| FormatBuilders.PluralFormatBuilder.Many | src/icu/ast/plural_format.rs:76-78 | only the `many` branch changes |
| FormatBuilders.SelectFormatBuilder.constructor | src/icu/ast/select_format.rs:25-31 | name and default as given, no mappings |
| FormatBuilders.SelectFormatBuilder.Map | src/icu/ast/select_format.rs:34-36 | the mapping gains or replaces one entry; nothing else changes |
| Rendering.RenderPart | src/message.rs:70-72 | plain text never fails, and a failing simple format or placeholder writes nothing and reports `fmt::Error`; the full meaning of each node kind is in PlainTextRender, SimpleFormatRender, PlaceholderRender, PluralFormatRender and SelectFormatRender |
| Rendering.RenderParts | src/message.rs:65-74 | no contract of its own; characterised by RenderPartsAppend, PassIffEveryPartPasses and FailureIsFirstFailingPart, and the methods `WriteMessage` and `FormatPluralMessage` are proved against it |
| Rendering.Output.constructor | src/message.rs:58 | the output string starts empty |
| Rendering.Output.WriteStr | src/icu/ast/plain_text.rs:33 | writing appends to the output |
| Rendering.ApplyPlainText | src/icu/ast/plain_text.rs:27-35 | appends the text and passes |
| Rendering.ApplySimpleFormat | src/icu/ast/simple_format.rs:28-40 | appends the displayed value of the newest link with the name, or fails with `fmt::Error` and writes nothing |
| Rendering.ApplyPlaceholderFormat | src/icu/ast/placeholder_format.rs:24-35 | appends the context's placeholder value in decimal, or fails when the context has none |
| Rendering.ApplyPluralFormat | src/icu/ast/plural_format.rs:118-129 | an absent variable writes nothing and passes; a string value is an error; a number minus the offset selects the sub-message, which is rendered in place |
| Rendering.FormatPluralMessage | src/icu/ast/plural_format.rs:102-114 | the chosen sub-message's parts are appended in order, stopping at the first failure |
| Rendering.ApplySelectFormat | src/icu/ast/select_format.rs:45-57 | an absent variable writes nothing and passes; a number is an error; a string selects the sub-message, which is rendered in place |
| Rendering.ApplyFormat | src/message.rs:70-72 | each part kind appends what its render function says |
| Rendering.WriteMessage | src/message.rs:65-74 | appends the parts in order, stopping at the first failure, and returns that failure |
| Rendering.FormatMessage | src/message.rs:57-62 | returns what a fresh output holds after writing the message with `Context::new(None)`, with any error dropped |
| Rendering.RenderPartsAppend | src/message.rs:70-73 | rendering two part lists back to back is rendering the first, then the second unless the first failed |
| Rendering.RenderPrefixStep | src/message.rs:70-73 | the loop invariant of `write_message`: one more part extends the rendered prefix; after a failing part the message's result is fixed |
| RenderProperties.PassIffEveryPartPasses | src/message.rs:65-74 | a message passes exactly when every one of its parts passes |
| RenderProperties.FailsFirstShift | src/message.rs:70-72 | a passing part in front moves the first failing position one place on |
| RenderProperties.FailureIsFirstFailingPart | src/message.rs:70-72 | a failing message fails at a part before which all parts pass; its output is their output plus what that part wrote |
| RenderProperties.PlainTextRender | src/icu/ast/plain_text.rs:27-35 | plain text writes itself and passes, whatever the context and arguments |
| RenderProperties.SimpleFormatRender | src/icu/ast/simple_format.rs:28-40 | ignores the context; passes exactly when the name is bound, writing the bound value's display |
| RenderProperties.PlaceholderRender | src/icu/ast/placeholder_format.rs:24-35 | ignores the arguments; passes exactly when the context has a value, writing the canonical decimal text that reads back to it |
| RenderProperties.PluralFormatRender | src/icu/ast/plural_format.rs:118-129 | all three outcomes by the variable's binding: absent, a string, a number with or without overflow |
| RenderProperties.SelectFormatRender | src/icu/ast/select_format.rs:45-57 | all three outcomes by the variable's binding: absent, a number, a string |
| RenderProperties.PluralPlaceholderSeesEnclosingContext | src/icu/ast/plural_format.rs:102-114 | a placeholder inside a plural sub-message prints the enclosing context's value, not the offset value |
| RenderProperties.ParsedPartsRender | src/icu/parse.rs:37-50 | a parsed template passes exactly when all its names are bound, and then renders to its expansion under the chain's bindings |
| RenderProperties.ParseThenRender | src/icu/parse.rs:60-66 | a parsed template with every name supplied formats without error |
| RenderProperties.TemplateWithoutBraces | src/icu/parse.rs:46-47 | a template without `{` parses and formats to itself |
| RenderProperties.SimpleTemplateRoundTrip | src/icu/parse.rs:40-44 | `{name}` parses to one simple format, which formats to the bound string |
| IcuParse.IndexOf | src/icu/parse.rs:38 | the first position of the character, or the length: no earlier occurrence |
| IcuParse.IsNot | src/icu/parse.rs:38 | `is_not!`: errs only on an immediate delimiter, otherwise splits off the longest delimiter-free prefix |
| IcuParse.Char | src/icu/parse.rs:41-44 | `char!`: done exactly when the input starts with the character, consuming just that one; incomplete exactly on empty input |
| IcuParse.FormatBody | src/icu/parse.rs:37-38 | the name is the longest prefix without `}`; never incomplete; errs exactly when the input starts with `}` |
| IcuParse.Format | src/icu/parse.rs:40-44 | reads exactly `{name}` with a non-empty name free of `}`; incomplete exactly on empty input or a `{` never closed; errs exactly when the input does not start with `{` or starts with `{}` |
| IcuParse.PlainTextRun | src/icu/parse.rs:46-47 | the text is the longest prefix without `{`, non-empty for non-empty input, followed by the end or `{`; errs exactly when the input starts with `{` |
| IcuParse.AltPart | src/icu/parse.rs:50 | a successful step always consumes input |
| IcuParse.AltPartUnparse | src/icu/parse.rs:49-50 | a step consumes exactly the source text of the part it yields |
| IcuParse.AltPartShape | src/icu/parse.rs:37-47 | a step yields a non-empty text without `{` or a non-empty name without `}`; text stops at the end or at `{` |
| IcuParse.AltPartFailure | src/icu/parse.rs:40-47 | a step errs only on `{}`, and is incomplete only on a `{` never closed |
| IcuParse.AltPartOnText | src/icu/parse.rs:46-47 | text up to the end or up to a `{` is read as one text run |
| IcuParse.AltPartOnSimple | src/icu/parse.rs:40-44 | `{name}` is read as a simple format |
| IcuParse.AltPartOnEmptyBraces | src/icu/parse.rs:37-44 | `{}` makes a step err |
| IcuParse.MessageParts | src/icu/parse.rs:49-50 | no contract of its own; characterised by MessagePartsUnparse, MessagePartsShape, MessagePartsLeftover, MessagePartsComplete and IncompleteMeansUnclosedBrace |
| IcuParse.MessagePartsUnparse | src/icu/parse.rs:49-50 | printing the parts back gives the consumed prefix of the input |
| IcuParse.MessagePartsShape | src/icu/parse.rs:49-50 | the parts are parser-shaped: never two text runs in a row |
| IcuParse.MessagePartsLeftover | src/icu/parse.rs:49-50 | the unread input is empty or starts with `{}` |
| IcuParse.MessagePartsComplete | src/icu/parse.rs:49-55 | parser-shaped parts, printed and followed by a valid leftover, parse back to exactly those parts |
| IcuParse.IncompleteMeansUnclosedBrace | src/icu/parse.rs:49-50 | an incomplete parse means the input has a `{` with no `}` after it |
| IcuParse.UnclosedBraceIsIncomplete | src/icu/parse.rs:60-66 | an input with `{` and no `}` is a parse error |
| IcuParse.ParseMessage | src/icu/parse.rs:60-66 | fails only when some `{` has no `}` after it; a message it returns is parser-shaped (see also ParseMessageOk, UnclosedBraceIsIncomplete) |
| IcuParse.ParseMessageOk | src/icu/parse.rs:60-66 | a successful parse yields parser-shaped parts whose text plus a valid leftover is the input |
| Scenarios.ParseHendrikTemplate | src/icu/parse.rs:75 | `{name} is from {city}.` parses to two simple formats and two text runs |
| Scenarios.ParseAndFormatHendrik | src/icu/parse.rs:74-82 | the parser test formats to `Hendrik is from Berlin.` |
| Scenarios.TemplateOrderNotArgumentOrder | src/macros.rs:143-149 | `{a}{c}{b}` with a=1, b=2, c=3 gives `132` |
| Scenarios.MissingArgument | src/icu/ast/simple_format.rs:34-39 | an unbound name, or no arguments at all, fails and writes nothing |
| Scenarios.FormatStopsAtFailure | src/message.rs:57-62 | `format_message` returns the text written before the failing part |
| Scenarios.UnclosedBraceExample | src/icu/parse.rs:60-66 | `ab{cd` is a parse error |
| Scenarios.EmptyBracesExample | src/icu/parse.rs:49-50 | `ab{}cd` parses to the text `ab` alone |
| Scenarios.PluralSyntaxIsASimpleFormat | src/icu/parse.rs:37-38 | ICU plural syntax is read as a simple format and text runs |
| Scenarios.PlainTextTest | src/icu/ast/plain_text.rs:43-51 | the plain-text test writes `Test text.` |
| Scenarios.SimpleFormatTest | src/icu/ast/simple_format.rs:48-58 | the simple-format test writes `John` |
| Scenarios.PlaceholderFormatTest | src/icu/ast/placeholder_format.rs:43-51 | the placeholder test writes `3` |
| Scenarios.ParseText | src/icu/parse.rs:46-47 | a brace-free template parses to one text run |
| Scenarios.OneOtherRender | src/icu/ast/plural_format.rs:81-95 | with only `one` and `other`, count 1 gives `One` and every other count `Other` |
| Scenarios.BuildOneOther | src/icu/ast/plural_format.rs:140-141 | `new` then `one` builds the expected plural format |
| Scenarios.PluralFormatTest | src/icu/ast/plural_format.rs:138-154 | counts 0, 1 and 3 give `Other`, `One` and `Other` |
| Scenarios.PluralOffsetAndLiteral | src/icu/ast/plural_format.rs:118-129 | offset 1 turns 2 into `one`; a literal beats the category; a string value and an absent variable behave as the source does |
| Scenarios.BlockOrDefaultRender | src/icu/ast/select_format.rs:39-41 | only `block` picks `Block`; every other string picks `Default` |
| Scenarios.BuildBlockOrDefault | src/icu/ast/select_format.rs:68-69 | `new` then `map` builds the expected select format |
| Scenarios.SelectFormatTest | src/icu/ast/select_format.rs:66-78 | `block` gives `Block` and `span` gives `Default` |

## Left out

- Byte-level parsing: the parser works on characters. The source parses UTF-8 bytes and decodes each run with `from_utf8(..).unwrap()`, which cannot fail on slices of valid UTF-8 split at ASCII braces.
- nom internals: `is_not!`, `char!`, `alt!`, `many0!` and `chain!` are modelled by their nom 2 behaviour on complete input. `is_not!` with no delimiter consumes the rest; `char!` on empty input is incomplete; `alt!` tries the next branch only on an error; `many0!` stops at an error and propagates incompleteness. The nom source is not part of this model.
- Stream failures: the output is a `String`, whose `fmt::Write` never fails. A failing stream is not modelled.
- Rendering.ApplyPluralFormat: `value - offset` panics on overflow in a debug build and wraps in a release build. Both are modelled as the error `OffsetOverflow`; the release-build wrap-around is not modelled.
- Rendering.ApplyPluralFormat, Rendering.ApplySelectFormat: `panic!("Wrong variable type.")` becomes the error `WrongVariableType`, so a render reports it instead of unwinding.
- Pluggable classifiers: `PluralFormat` stores a classifier function, but `new` always installs the English one and nothing sets another. The model fixes it to English.
- A language tag on the context: the context holds only a placeholder value. No language field exists in src/context.rs.
- API revisions: the nodes take the arguments either as `&Args` or as `Option<&Args>`, with or without a context. All share the one signature `(context, output, optional arguments)` here. With no arguments, plural and select behave as for an absent variable.
- Macros: `format_message!`, `write_message!` and `message_args!` (src/macros.rs) are not part of this model. Of their seven tests (src/macros.rs:104-169) only `format_three_args` is a scenario, `Scenarios.TemplateOrderNotArgumentOrder`. The other six are instances of general lemmas rather than scenarios of their own: `format_without_args` and `write_without_args` of `RenderProperties.TemplateWithoutBraces`; `format_single_arg`, `format_single_named_arg` and `write_single_arg` of `RenderProperties.SimpleTemplateRoundTrip`; `format_two_args` of `RenderProperties.ParseThenRender`. `Context::format` and `Context::write` are not part of this model.
- The older `src/ast` tree and the l20n parser are not part of this model.
- `Clone` on `Context` and `Debug` on the nodes: values are immutable here, so a copy is the value itself.
- `PlaceholderFormat::new`, `PlainText::new`, `SimpleFormat::new` and `Message::new` are the datatype constructors `Placeholder`, `PlainText`, `Simple` and `Message`.
- `ParseError` `Display` and `description` text are not modelled.
- Arguments.Args: each link holds a `Value`. In src/args.rs:10-14, 17 and 27 a link holds any `&T` with `T: Display`, and `fmt_value` (src/args.rs:45-47) forwards to `T`'s own `Display`. Arguments of other `Display` types are not modelled. The nodes read a link's value through an `arg.value()` accessor (src/icu/ast/plural_format.rs:120, src/icu/ast/select_format.rs:47, src/icu/ast/simple_format.rs:35). The `Args` trait in src/args.rs does not declare that accessor; the model assumes it returns the stored `Value`.
- Values.FromUsize: `usize` is taken to be 64 bits wide. On a 32-bit target `usize as i64` never wraps, and every `usize` keeps its value.
