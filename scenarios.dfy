/**
 * The examples and tests of the source, stated over the model: parsing and
 * formatting whole templates, each node kind on its own, and the plural and
 * select formats built through their setters.
 */
module Scenarios {
  import opened Wrappers
  import opened Values
  import opened Arguments
  import opened Contexts
  import opened PluralCategories
  import opened Messages
  import opened FormatBuilders
  import opened Rendering
  import opened IcuParse
  import opened RenderProperties

  /** Parser-shaped parts that read back as `text`. */
  predicate Template(parts: seq<Part>, text: string) {
    Parsed(parts) && Unparse(parts) == text
  }

  lemma TemplateEnd()
    ensures Template([], "")
  {
  }

  lemma TemplateText(text: string, tail: seq<Part>, s: string)
    requires text != [] && '{' !in text
    requires Template(tail, s) && (tail != [] ==> !tail[0].PlainText?)
    ensures Template([PlainText(text)] + tail, text + s)
  {
    ParsedCons(PlainText(text), tail);
    UnparseCons(PlainText(text), tail);
  }

  lemma TemplateSimple(name: string, tail: seq<Part>, s: string)
    requires name != [] && '}' !in name
    requires Template(tail, s)
    ensures Template([Simple(name)] + tail, "{" + name + "}" + s)
  {
    ParsedCons(Simple(name), tail);
    UnparseCons(Simple(name), tail);
  }

  /** A whole template that reads back from parser-shaped parts parses to exactly those parts. */
  lemma ParsesAs(parts: seq<Part>, text: string)
    requires Template(parts, text)
    ensures ParseMessage(text) == Ok(Message(parts))
  {
    MessagePartsComplete(parts, []);
    assert Unparse(parts) + [] == text;
  }

  lemma HendrikCity()
    ensures Template([Simple("city"), PlainText(".")], "{city}.")
  {
    assert "{" + "city" + "}" + "." == "{city}.";
    TemplateEnd();
    TemplateText(".", [], "");
    TemplateSimple("city", [PlainText(".")], ".");
  }

  lemma HendrikTail()
    ensures Template([PlainText(" is from "), Simple("city"), PlainText(".")], " is from {city}.")
  {
    HendrikCity();
    TemplateText(" is from ", [Simple("city"), PlainText(".")], "{city}.");
  }

  /**
   * Proof step only: the template split at its first substitution. Kept as
   * a separate lemma because the string-literal equality is costly for the
   * solver inside a larger proof.
   */
  lemma HendrikText()
    ensures "{" + "name" + "}" + " is from {city}." == "{name} is from {city}."
  {
  }

  /** `{name} is from {city}.` splits into two substitutions and two text runs. */
  lemma ParseHendrikTemplate()
    ensures ParseMessage("{name} is from {city}.") ==
      Ok(Message([Simple("name"), PlainText(" is from "), Simple("city"), PlainText(".")]))
  {
    HendrikText();
    HendrikTail();
    TemplateSimple("name", [PlainText(" is from "), Simple("city"), PlainText(".")], " is from {city}.");
    ParsesAs([Simple("name"), PlainText(" is from "), Simple("city"), PlainText(".")], "{name} is from {city}.");
  }

  /** A part that passes, in front of a rendered remainder. */
  lemma RenderCons(ctx: Context, args: Option<Args>, p: Part, tail: seq<Part>, text: string, rest: Rendered)
    requires RenderPart(ctx, args, p) == Rendered(text, Pass) && RenderParts(ctx, args, tail) == rest
    ensures RenderParts(ctx, args, [p] + tail) == Rendered(text + rest.text, rest.outcome)
  {
    assert ([p] + tail)[0] == p && ([p] + tail)[1..] == tail;
  }

  /** Proof step only: the output glued from its pieces (see `HendrikText`). */
  lemma HendrikOutput()
    ensures "Hendrik" + " is from Berlin." == "Hendrik is from Berlin."
  {
  }

  lemma RenderHendrikTail(args: Args, tail: seq<Part>)
    requires args == Arg("name", Str("Hendrik")).Arg("city", Str("Berlin"))
    requires tail == [PlainText(" is from "), Simple("city"), PlainText(".")]
    ensures RenderParts(Contexts.New(None), Some(args), tail) == Rendered(" is from Berlin.", Pass)
  {
    var ctx := Contexts.New(None);
    RenderText(ctx, Some(args), ".");
    assert RenderPart(ctx, Some(args), Simple("city")) == Rendered("Berlin", Pass);
    RenderCons(ctx, Some(args), Simple("city"), [PlainText(".")], "Berlin", Rendered(".", Pass));
    assert [Simple("city")] + [PlainText(".")] == tail[1..];
    RenderCons(ctx, Some(args), PlainText(" is from "), tail[1..], " is from ", Rendered("Berlin.", Pass));
    assert [PlainText(" is from ")] + tail[1..] == tail;
  }

  lemma RenderHendrik(args: Args, message: Message)
    requires args == Arg("name", Str("Hendrik")).Arg("city", Str("Berlin"))
    requires message == Message([Simple("name"), PlainText(" is from "), Simple("city"), PlainText(".")])
    ensures RenderMessage(Contexts.New(None), Some(args), message) == Rendered("Hendrik is from Berlin.", Pass)
  {
    var ctx := Contexts.New(None);
    var tail := message.parts[1..];
    RenderHendrikTail(args, tail);
    assert RenderPart(ctx, Some(args), Simple("name")) == Rendered("Hendrik", Pass);
    RenderCons(ctx, Some(args), Simple("name"), tail, "Hendrik", Rendered(" is from Berlin.", Pass));
    assert [Simple("name")] + tail == message.parts;
    HendrikOutput();
  }

  /** The parser test of src/icu/parse.rs, through `format_message`. */
  method ParseAndFormatHendrik() returns (s: string)
    ensures s == "Hendrik is from Berlin."
  {
    ParseHendrikTemplate();
    var message := ParseMessage("{name} is from {city}.").value;
    var args := Arg("name", Str("Hendrik")).Arg("city", Str("Berlin"));
    RenderHendrik(args, message);
    s := FormatMessage(message, args);
  }

  /** Proof step only: the template assembled from its three substitutions (see `HendrikText`). */
  lemma ABCText()
    ensures "{" + "b" + "}" + "" == "{b}"
    ensures "{" + "c" + "}" + "{b}" == "{c}{b}"
    ensures "{" + "a" + "}" + "{c}{b}" == "{a}{c}{b}"
  {
  }

  /** Output follows the template's order, not the order the arguments were attached in. */
  lemma ParseABC()
    ensures ParseMessage("{a}{c}{b}") == Ok(Message([Simple("a"), Simple("c"), Simple("b")]))
  {
    ABCText();
    TemplateEnd();
    TemplateSimple("b", [], "");
    TemplateSimple("c", [Simple("b")], "{b}");
    TemplateSimple("a", [Simple("c"), Simple("b")], "{c}{b}");
    ParsesAs([Simple("a"), Simple("c"), Simple("b")], "{a}{c}{b}");
  }

  lemma RenderABC(args: Args)
    requires args == Arg("a", Str("1")).Arg("b", Str("2")).Arg("c", Str("3"))
    ensures RenderMessage(Contexts.Default(), Some(args), Message([Simple("a"), Simple("c"), Simple("b")])) ==
      Rendered("132", Pass)
  {
    var parts := [Simple("a"), Simple("c"), Simple("b")];
    assert RenderParts(Contexts.Default(), Some(args), parts[2..]) == Rendered("2", Pass);
    assert RenderParts(Contexts.Default(), Some(args), parts[1..]) == Rendered("32", Pass);
  }

  lemma TemplateOrderNotArgumentOrder(args: Args)
    requires args == Arg("a", Str("1")).Arg("b", Str("2")).Arg("c", Str("3"))
    ensures ParseMessage("{a}{c}{b}").Ok?
    ensures RenderMessage(Contexts.Default(), Some(args), ParseMessage("{a}{c}{b}").value) == Rendered("132", Pass)
  {
    ParseABC();
    RenderABC(args);
  }

  /** A missing argument is an error, and nothing is written for it. */
  lemma MissingArgument()
    ensures ParseMessage("{name}") == Ok(Message([Simple("name")]))
    ensures RenderMessage(Contexts.Default(), Some(Arg("other", Str("x"))), Message([Simple("name")])) ==
      Rendered("", Fail(FmtError))
    ensures RenderMessage(Contexts.Default(), None, Message([Simple("name")])) == Rendered("", Fail(FmtError))
  {
    TemplateEnd();
    TemplateSimple("name", [], "");
    assert "{" + "name" + "}" + "" == "{name}";
    ParsesAs([Simple("name")], "{name}");
  }

  /** `format_message` keeps what was written before a failing part and drops the error. */
  method FormatStopsAtFailure() returns (s: string)
    ensures s == "1 and "
  {
    var message := Message([Simple("a"), PlainText(" and "), Simple("b"), PlainText(" end")]);
    var args := Arg("a", Str("1"));
    s := FormatMessage(message, args);
    assert RenderParts(Contexts.New(None), Some(args), message.parts[2..]) == Rendered("", Fail(FmtError));
    assert RenderParts(Contexts.New(None), Some(args), message.parts[1..]) == Rendered(" and ", Fail(FmtError));
  }

  /** A `{` the template never closes is a parse error. */
  lemma UnclosedBraceExample()
    ensures ParseMessage("ab{cd") == Err(NotImplemented)
  {
    UnclosedBraceIsIncomplete("ab{cd");
  }

  /** An empty `{}` ends parsing quietly: what precedes it is kept, the rest is dropped. */
  lemma EmptyBracesExample()
    ensures ParseMessage("ab{}cd") == Ok(Message([PlainText("ab")]))
  {
    MessagePartsComplete([PlainText("ab")], "{}cd");
    assert Unparse([PlainText("ab")]) + "{}cd" == "ab{}cd";
  }

  lemma PluralSyntaxY()
    ensures Template([Simple("y"), PlainText("}")], "{y}}")
  {
    assert "{" + "y" + "}" + "}" == "{y}}";
    TemplateEnd();
    TemplateText("}", [], "");
    TemplateSimple("y", [PlainText("}")], "}");
  }

  lemma PluralSyntaxTail()
    ensures Template([PlainText(" other "), Simple("y"), PlainText("}")], " other {y}}")
  {
    PluralSyntaxY();
    TemplateText(" other ", [Simple("y"), PlainText("}")], "{y}}");
  }

  /** Proof step only: the template split at its first `}` (see `HendrikText`). */
  lemma PluralSyntaxText()
    ensures "{" + "count, plural, one {x" + "}" + " other {y}}" == "{count, plural, one {x} other {y}}"
  {
  }

  lemma PluralSyntaxTemplate(parts: seq<Part>)
    requires parts == [Simple("count, plural, one {x"), PlainText(" other "), Simple("y"), PlainText("}")]
    ensures Template(parts, "{count, plural, one {x} other {y}}")
  {
    PluralSyntaxText();
    PluralSyntaxTail();
    assert '}' !in "count, plural, one {x";
    TemplateSimple("count, plural, one {x", parts[1..], " other {y}}");
    assert [parts[0]] + parts[1..] == parts;
  }

  /** Plural syntax is not parsed: the whole header up to the first `}` is one variable name. */
  lemma PluralSyntaxIsASimpleFormat()
    ensures ParseMessage("{count, plural, one {x} other {y}}") ==
      Ok(Message([Simple("count, plural, one {x"), PlainText(" other "), Simple("y"), PlainText("}")]))
  {
    var parts := [Simple("count, plural, one {x"), PlainText(" other "), Simple("y"), PlainText("}")];
    PluralSyntaxTemplate(parts);
    ParsesAs(parts, "{count, plural, one {x} other {y}}");
  }

  // ---------------------------------------------------------------------------
  // The node tests of src/icu/ast/

  /** src/icu/ast/plain_text.rs: the text comes out as it went in. */
  method PlainTextTest() returns (s: string)
    ensures s == "Test text."
  {
    var message := Message([PlainText("Test text.")]);
    var out := new Output();
    var outcome := WriteMessage(message, Contexts.Default(), out, None);
    s := out.buffer;
    assert message.parts[1..] == [];
  }

  /** src/icu/ast/simple_format.rs: `name => "John"` gives `John`. */
  method SimpleFormatTest() returns (s: string)
    ensures s == "John"
  {
    var message := Message([Simple("name")]);
    var out := new Output();
    var outcome := WriteMessage(message, Contexts.Default(), out, Some(Arg("name", Str("John"))));
    s := out.buffer;
    assert message.parts[1..] == [];
  }

  /** src/icu/ast/placeholder_format.rs: a context holding 3 gives `3`. */
  method PlaceholderFormatTest() returns (s: string, outcome: Outcome)
    ensures s == "3" && outcome == Pass
  {
    var out := new Output();
    outcome := ApplyPlaceholderFormat(Contexts.New(Some(3)), out, Some(Arg("count", FromI32(0))));
    s := out.buffer;
  }

  /** A template without braces parses to one run of text. */
  lemma ParseText(text: string)
    requires text != [] && '{' !in text
    ensures ParseMessage(text) == Ok(Message([PlainText(text)]))
  {
    TemplateEnd();
    TemplateText(text, [], "");
    assert [PlainText(text)] + [] == [PlainText(text)] && text + "" == text;
    ParsesAs([PlainText(text)], text);
  }

  lemma RenderText(ctx: Context, args: Option<Args>, text: string)
    ensures RenderMessage(ctx, args, Message([PlainText(text)])) == Rendered(text, Pass)
  {
    var parts := [PlainText(text)];
    assert parts[1..] == [];
    assert RenderPart(ctx, args, parts[0]) == Rendered(text, Pass);
    assert RenderParts(ctx, args, parts[1..]) == Rendered("", Pass);
    assert text + "" == text;
  }

  function OneOther(): PluralFormat {
    PluralFormat("count", map[], 0, None, Some(Message([PlainText("One")])), None, None, None,
                 Message([PlainText("Other")]))
  }

  /** With only `one` and `other` given, a count of 1 picks `one` and every other count picks `other`. */
  lemma OneOtherRender(count: i32)
    ensures RenderPart(Contexts.Default(), Some(Arg("count", FromI32(count))), Plural(OneOther())) ==
      Rendered(if count == 1 then "One" else "Other", Pass)
  {
    var f := OneOther();
    var n := FromI32(count).n;
    assert n as int == count as int;
    assert f.LookupMessage(n) == if count == 1 then Message([PlainText("One")]) else Message([PlainText("Other")]);
    RenderText(Contexts.Default(), Some(Arg("count", FromI32(count))), "One");
    RenderText(Contexts.Default(), Some(Arg("count", FromI32(count))), "Other");
  }

  /** `PluralFormat::new` with `other`, then `one`, as the plural test builds it. */
  lemma OneOtherTexts(otherText: string, oneText: string)
    requires otherText == "Other" && oneText == "One"
    ensures ParseMessage(otherText) == Ok(Message([PlainText("Other")]))
    ensures ParseMessage(oneText) == Ok(Message([PlainText("One")]))
  {
    ParseText(otherText);
    ParseText(oneText);
  }

  method BuildOneOther() returns (f: PluralFormat)
    ensures f == OneOther()
  {
    var otherText, oneText := "Other", "One";
    OneOtherTexts(otherText, oneText);
    var builder := new PluralFormatBuilder("count", ParseMessage(otherText).value);
    builder.One(ParseMessage(oneText).value);
    f := builder.Build();
  }

  method RenderPlural(f: PluralFormat, count: i32) returns (s: string)
    ensures s == RenderPart(Contexts.Default(), Some(Arg("count", FromI32(count))), Plural(f)).text
  {
    var out := new Output();
    var outcome := ApplyPluralFormat(f, Contexts.Default(), out, Some(Arg("count", FromI32(count))));
    s := out.buffer;
  }

  /** The plural test of src/icu/ast/plural_format.rs. */
  method PluralFormatTest() returns (zero: string, one: string, three: string)
    ensures zero == "Other" && one == "One" && three == "Other"
  {
    var f := BuildOneOther();
    zero := RenderPlural(f, 0);
    one := RenderPlural(f, 1);
    three := RenderPlural(f, 3);
    OneOtherRender(0);
    OneOtherRender(1);
    OneOtherRender(3);
  }

  /** With offset 1 the raw value 2 is classified as 1, picking `one`; a literal beats both. */
  lemma PluralOffsetAndLiteral()
    ensures var f := PluralFormat("count", map[], 1, None, Some(Message([PlainText("One")])), None, None, None,
                                  Message([PlainText("Other")]));
      && RenderPart(Contexts.Default(), Some(Arg("count", Number(2))), Plural(f)) == Rendered("One", Pass)
      && RenderPart(Contexts.Default(), Some(Arg("count", Number(1))), Plural(f)) == Rendered("Other", Pass)
      && RenderPart(Contexts.Default(), Some(Arg("count", Number(2))),
                    Plural(f.(literals := map[1 := Message([PlainText("Exactly one")])]))) ==
           Rendered("Exactly one", Pass)
      && RenderPart(Contexts.Default(), Some(Arg("count", Str("two"))), Plural(f)) ==
           Rendered("", Fail(WrongVariableType))
      && RenderPart(Contexts.Default(), Some(Arg("other", Number(2))), Plural(f)) == Rendered("", Pass)
  {
    assert [PlainText("One")][1..] == [];
    assert [PlainText("Other")][1..] == [];
    assert [PlainText("Exactly one")][1..] == [];
  }

  function BlockOrDefault(): SelectFormat {
    SelectFormat("type", map["block" := Message([PlainText("Block")])], Message([PlainText("Default")]))
  }

  /** Only the mapped value `block` picks its message; every other string falls back to the default. */
  lemma BlockOrDefaultRender(value: string)
    ensures RenderPart(Contexts.Default(), Some(Arg("type", Str(value))), Select(BlockOrDefault())) ==
      Rendered(if value == "block" then "Block" else "Default", Pass)
  {
    RenderText(Contexts.Default(), Some(Arg("type", Str(value))), "Block");
    RenderText(Contexts.Default(), Some(Arg("type", Str(value))), "Default");
  }

  lemma BlockOrDefaultTexts(defaultText: string, blockText: string)
    requires defaultText == "Default" && blockText == "Block"
    ensures ParseMessage(defaultText) == Ok(Message([PlainText("Default")]))
    ensures ParseMessage(blockText) == Ok(Message([PlainText("Block")]))
  {
    ParseText(defaultText);
    ParseText(blockText);
  }

  lemma BlockOrDefaultFrom(default: Message, block: Message)
    requires default == Message([PlainText("Default")]) && block == Message([PlainText("Block")])
    ensures SelectFormat("type", map[]["block" := block], default) == BlockOrDefault()
  {
  }

  /** `SelectFormat::new` with a default, then `map` for `block`, as the select test builds it. */
  method BuildBlockOrDefault() returns (f: SelectFormat)
    ensures f == BlockOrDefault()
  {
    var defaultText, blockText := "Default", "Block";
    BlockOrDefaultTexts(defaultText, blockText);
    var default, block := ParseMessage(defaultText).value, ParseMessage(blockText).value;
    var builder := new SelectFormatBuilder("type", default);
    builder.Map("block", block);
    f := builder.Build();
    BlockOrDefaultFrom(default, block);
  }

  method RenderSelect(f: SelectFormat, value: string) returns (s: string)
    ensures s == RenderPart(Contexts.Default(), Some(Arg("type", Str(value))), Select(f)).text
  {
    var out := new Output();
    var outcome := ApplySelectFormat(f, Contexts.Default(), out, Some(Arg("type", Str(value))));
    s := out.buffer;
  }

  /** The select test of src/icu/ast/select_format.rs. */
  method SelectFormatTest() returns (block: string, span: string)
    ensures block == "Block" && span == "Default"
  {
    var f := BuildBlockOrDefault();
    block := RenderSelect(f, "block");
    span := RenderSelect(f, "span");
    BlockOrDefaultRender("block");
    BlockOrDefaultRender("span");
  }
}
