/**
 * What rendering promises, stated over the pure render functions: how a
 * message's output is put together from its parts, what each node kind
 * reads and ignores, and what a parsed template renders to.
 */
module RenderProperties {
  import opened Wrappers
  import opened Values
  import opened Arguments
  import opened Contexts
  import opened Messages
  import opened Rendering
  import opened IcuParse

  /** A message passes exactly when every one of its parts passes. */
  lemma {:induction false} PassIffEveryPartPasses(ctx: Context, args: Option<Args>, parts: seq<Part>)
    ensures RenderParts(ctx, args, parts).outcome.Pass? <==>
      forall i :: 0 <= i < |parts| ==> RenderPart(ctx, args, parts[i]).outcome.Pass?
    decreases parts
  {
    if parts != [] {
      PassIffEveryPartPasses(ctx, args, parts[1..]);
      assert forall i :: 1 <= i < |parts| ==> parts[i] == parts[1..][i - 1];
    }
  }

  /**
   * Part `i` is where rendering `parts` stops: every part before it passes,
   * it fails with the message's error, and the message's output is the
   * output of the parts before it followed by whatever it wrote.
   */
  predicate FailsFirstAt(ctx: Context, args: Option<Args>, parts: seq<Part>, i: int) {
    && 0 <= i < |parts|
    && RenderParts(ctx, args, parts[..i]).outcome.Pass?
    && RenderPart(ctx, args, parts[i]).outcome == RenderParts(ctx, args, parts).outcome
    && RenderParts(ctx, args, parts).text ==
         RenderParts(ctx, args, parts[..i]).text + RenderPart(ctx, args, parts[i]).text
  }

  /** A passing part in front moves the first failing part one place on. */
  lemma FailsFirstShift(ctx: Context, args: Option<Args>, parts: seq<Part>, i: int)
    requires parts != [] && RenderPart(ctx, args, parts[0]).outcome.Pass?
    requires FailsFirstAt(ctx, args, parts[1..], i)
    ensures FailsFirstAt(ctx, args, parts, i + 1)
  {
    var tail := parts[1..];
    var head := RenderPart(ctx, args, parts[0]);
    assert RenderParts(ctx, args, parts[..i + 1]) == Rendered(head.text + RenderParts(ctx, args, tail[..i]).text, Pass) by {
      assert parts[..i + 1] == [parts[0]] + tail[..i];
      RenderPartsAppend(ctx, args, [parts[0]], tail[..i]);
      assert [parts[0]][1..] == [];
    }
    assert RenderParts(ctx, args, parts) ==
      Rendered(head.text + RenderParts(ctx, args, tail).text, RenderParts(ctx, args, tail).outcome);
    assert parts[i + 1] == tail[i];
  }

  /** A failing message fails at its first failing part. */
  lemma {:induction false} FailureIsFirstFailingPart(ctx: Context, args: Option<Args>, parts: seq<Part>)
    requires RenderParts(ctx, args, parts).outcome.Fail?
    ensures exists i :: FailsFirstAt(ctx, args, parts, i)
    decreases parts
  {
    if RenderPart(ctx, args, parts[0]).outcome.Fail? {
      assert parts[..0] == [];
      assert FailsFirstAt(ctx, args, parts, 0);
    } else {
      FailureIsFirstFailingPart(ctx, args, parts[1..]);
      var i :| FailsFirstAt(ctx, args, parts[1..], i);
      FailsFirstShift(ctx, args, parts, i);
    }
  }

  /** Plain text writes itself, whatever the context and arguments, and never fails. */
  lemma PlainTextRender(ctx: Context, ctx': Context, args: Option<Args>, args': Option<Args>, text: string)
    ensures RenderPart(ctx, args, PlainText(text)) == RenderPart(ctx', args', PlainText(text))
    ensures RenderPart(ctx, args, PlainText(text)) == Rendered(text, Pass)
  {
  }

  /**
   * A simple format ignores the context. It writes the display form of the
   * value most recently bound to its name, or, when the name is unbound or
   * there are no arguments, writes nothing and fails.
   */
  lemma SimpleFormatRender(ctx: Context, ctx': Context, args: Option<Args>, name: string)
    ensures RenderPart(ctx, args, Simple(name)) == RenderPart(ctx', args, Simple(name))
    ensures var r := RenderPart(ctx, args, Simple(name));
      r.outcome.Pass? <==> args.Some? && name in args.value.Bindings()
    ensures var r := RenderPart(ctx, args, Simple(name));
      r.outcome.Pass? ==> r.text == Display(args.value.Bindings()[name])
    ensures var r := RenderPart(ctx, args, Simple(name));
      r.outcome.Fail? ==> r == Rendered("", Fail(FmtError))
  {
    if args.Some? {
      GetAgreesWithBindings(args.value, name);
    }
  }

  /**
   * A placeholder ignores the arguments. It writes the context's placeholder
   * value in decimal (the canonical form `i64`'s `Display` writes, which no
   * other string shares), or, when the context has none, writes nothing and fails.
   */
  lemma PlaceholderRender(ctx: Context, args: Option<Args>, args': Option<Args>)
    ensures RenderPart(ctx, args, Placeholder) == RenderPart(ctx, args', Placeholder)
    ensures var r := RenderPart(ctx, args, Placeholder);
      r.outcome.Pass? <==> ctx.placeholderValue.Some?
    ensures var r := RenderPart(ctx, args, Placeholder);
      r.outcome.Pass? ==> ParseDecimal(r.text) == ctx.placeholderValue.value as int
    ensures var r := RenderPart(ctx, args, Placeholder);
      r.outcome.Pass? ==> CanonicalDecimal(r.text)
    ensures var r := RenderPart(ctx, args, Placeholder);
      r.outcome.Fail? ==> r == Rendered("", Fail(FmtError))
  {
    if ctx.placeholderValue.Some? {
      DecimalRoundTrip(ctx.placeholderValue.value as int);
      DecimalStringCanonical(ctx.placeholderValue.value as int);
    }
  }

  /**
   * A plural format with its variable bound to a number renders the message
   * `LookupMessage` picks for the value less the offset, with the same
   * context and the same arguments. Unbound, it writes nothing and passes;
   * bound to a string, it fails.
   */
  lemma PluralFormatRender(ctx: Context, args: Args, f: PluralFormat)
    ensures f.variableName !in args.Bindings() ==> RenderPart(ctx, Some(args), Plural(f)) == Rendered("", Pass)
    ensures f.variableName in args.Bindings() && args.Bindings()[f.variableName].Str? ==>
      RenderPart(ctx, Some(args), Plural(f)) == Rendered("", Fail(WrongVariableType))
    ensures f.variableName in args.Bindings() && args.Bindings()[f.variableName].Number? ==>
      var offsetValue := args.Bindings()[f.variableName].n as int - f.offset as int;
      RenderPart(ctx, Some(args), Plural(f)) ==
        if InI64(offsetValue) then RenderMessage(ctx, Some(args), f.LookupMessage(offsetValue as i64))
        else Rendered("", Fail(OffsetOverflow))
  {
    GetAgreesWithBindings(args, f.variableName);
  }

  /**
   * A select format with its variable bound to a string renders the message
   * mapped to exactly that string, else the default, with the same context
   * and arguments. Unbound, it writes nothing and passes; bound to a number,
   * it fails.
   */
  lemma SelectFormatRender(ctx: Context, args: Args, f: SelectFormat)
    ensures f.variableName !in args.Bindings() ==> RenderPart(ctx, Some(args), Select(f)) == Rendered("", Pass)
    ensures f.variableName in args.Bindings() && args.Bindings()[f.variableName].Number? ==>
      RenderPart(ctx, Some(args), Select(f)) == Rendered("", Fail(WrongVariableType))
    ensures f.variableName in args.Bindings() && args.Bindings()[f.variableName].Str? ==>
      var value := args.Bindings()[f.variableName].s;
      RenderPart(ctx, Some(args), Select(f)) ==
        RenderMessage(ctx, Some(args), if value in f.mappings then f.mappings[value] else f.default)
  {
    GetAgreesWithBindings(args, f.variableName);
  }

  /**
   * The offset value is not passed on: a placeholder in the branch a plural
   * format picks reads the enclosing context, so with no placeholder value
   * there it fails.
   */
  lemma PluralPlaceholderSeesEnclosingContext(ctx: Context, args: Args, f: PluralFormat, n: i64)
    requires args.Get(f.variableName).Some? && args.Get(f.variableName).value.value == Number(n)
    requires InI64(n as int - f.offset as int)
    requires f.LookupMessage((n as int - f.offset as int) as i64) == Message([Placeholder])
    ensures RenderPart(ctx, Some(args), Plural(f)) == RenderPart(ctx, Some(args), Placeholder)
    ensures ctx.placeholderValue.None? ==> RenderPart(ctx, Some(args), Plural(f)).outcome == Fail(FmtError)
  {
    var inner := RenderPart(ctx, Some(args), Placeholder);
    assert RenderPart(ctx, Some(args), Plural(f)) == RenderParts(ctx, Some(args), [Placeholder]);
    assert [Placeholder][1..] == [];
    assert RenderParts(ctx, Some(args), [Placeholder]) == inner by {
      if inner.outcome.Pass? {
        assert inner.text + "" == inner.text;
      }
    }
  }

  // ---------------------------------------------------------------------------
  // Parsed templates

  /** The text a template of text runs and simple formats should expand to under `env`. */
  function Expand(parts: seq<Part>, env: map<string, Value>): string {
    if parts == [] then ""
    else
      var head := match parts[0]
        case PlainText(text) => text
        case Simple(name) => if name in env then Display(env[name]) else ""
        case _ => "";
      head + Expand(parts[1..], env)
  }

  predicate AllBound(parts: seq<Part>, env: map<string, Value>) {
    forall i :: 0 <= i < |parts| && parts[i].Simple? ==> parts[i].variableName in env
  }

  /**
   * A parsed template renders without error exactly when every name it
   * substitutes is bound, and then renders to its expansion under the
   * chain's bindings.
   */
  lemma {:induction false} ParsedPartsRender(ctx: Context, args: Args, parts: seq<Part>)
    requires Parsed(parts)
    ensures RenderParts(ctx, Some(args), parts).outcome.Pass? <==> AllBound(parts, args.Bindings())
    ensures AllBound(parts, args.Bindings()) ==>
      RenderParts(ctx, Some(args), parts) == Rendered(Expand(parts, args.Bindings()), Pass)
    decreases parts
  {
    if parts != [] {
      var tail := parts[1..];
      assert Parsed(tail) by {
        forall i | 0 <= i < |tail| - 1
          ensures !(tail[i].PlainText? && tail[i + 1].PlainText?)
        {
          assert tail[i] == parts[i + 1] && tail[i + 1] == parts[i + 2];
        }
      }
      ParsedPartsRender(ctx, args, tail);
      assert forall i :: 1 <= i < |parts| ==> parts[i] == tail[i - 1];
      assert ParsedPart(parts[0]);
      if parts[0].Simple? {
        SimpleFormatRender(ctx, ctx, Some(args), parts[0].variableName);
      }
    }
  }

  /** Every well-parsed template with all its names supplied renders without error. */
  lemma ParseThenRender(ctx: Context, args: Args, template: string)
    requires ParseMessage(template).Ok?
    requires AllBound(ParseMessage(template).value.parts, args.Bindings())
    ensures RenderMessage(ctx, Some(args), ParseMessage(template).value) ==
      Rendered(Expand(ParseMessage(template).value.parts, args.Bindings()), Pass)
  {
    ParseMessageOk(template);
    ParsedPartsRender(ctx, args, ParseMessage(template).value.parts);
  }

  /** A template without `{` parses and renders to itself, whatever the arguments. */
  lemma TemplateWithoutBraces(ctx: Context, args: Option<Args>, template: string)
    requires '{' !in template
    ensures ParseMessage(template).Ok?
    ensures RenderMessage(ctx, args, ParseMessage(template).value) == Rendered(template, Pass)
  {
    var parts := if template == [] then [] else [PlainText(template)];
    MessagePartsComplete(parts, []);
    assert Unparse(parts) + [] == template;
    assert ParseMessage(template) == Ok(Message(parts));
    if template != [] {
      assert parts[1..] == [];
      assert RenderParts(ctx, args, parts[1..]) == Rendered("", Pass);
      assert RenderPart(ctx, args, parts[0]) == Rendered(template, Pass);
      assert template + "" == template;
      assert RenderParts(ctx, args, parts) == Rendered(template, Pass);
    }
  }

  /** `{name}` parses to one simple format, and rendering it with `name` bound to a string gives that string. */
  lemma SimpleTemplateRoundTrip(ctx: Context, args: Args, name: string, s: string)
    requires name != [] && '}' !in name
    requires args.Get(name).Some? && args.Get(name).value.value == Str(s)
    ensures ParseMessage("{" + name + "}") == Ok(Message([Simple(name)]))
    ensures RenderMessage(ctx, Some(args), ParseMessage("{" + name + "}").value) == Rendered(s, Pass)
  {
    MessagePartsComplete([Simple(name)], []);
    assert Unparse([Simple(name)]) + [] == "{" + name + "}";
    assert [Simple(name)][1..] == [];
    assert RenderParts(ctx, Some(args), [Simple(name)][1..]) == Rendered("", Pass);
    assert RenderPart(ctx, Some(args), Simple(name)) == Rendered(s, Pass);
    assert s + "" == s;
  }
}
