/**
 * Rendering a message (src/message.rs and the `apply_format` of each node
 * in src/icu/ast/). The pure functions `RenderPart` and `RenderParts` say
 * what a render writes and how it ends; the methods below append to an
 * output buffer in place, as the source does, and are proved against them.
 *
 * All nodes take the one signature `(context, output, args)` with the
 * argument chain optional: `SimpleFormat` and `PlainText` accept "no
 * arguments at all", and for the other nodes no arguments behaves like an
 * absent variable.
 */
module Rendering {
  import opened Wrappers
  import opened Values
  import opened Arguments
  import opened Contexts
  import opened PluralCategories
  import opened Messages

  datatype RenderError =
    | FmtError          // `fmt::Error`: a missing argument or a missing placeholder value
    | WrongVariableType // the `panic!("Wrong variable type.")` of plural and select
    | OffsetOverflow    // `value - offset` leaves the `i64` range (a panic in Rust)

  datatype Outcome = Pass | Fail(error: RenderError)

  /** What a render wrote, and how it ended. Text written before a failure stays written. */
  datatype Rendered = Rendered(text: string, outcome: Outcome)

  function Lookup(args: Option<Args>, name: string): Option<Args> {
    match args
    case None => None
    case Some(a) => a.Get(name)
  }

  predicate InI64(x: int) {
    -0x8000_0000_0000_0000 <= x < 0x8000_0000_0000_0000
  }

  /**
   * One node's render. Plain text never fails; only plural and select can
   * end in anything but `fmt::Error`, and only their sub-messages can leave
   * text behind a failure.
   */
  function RenderPart(ctx: Context, args: Option<Args>, part: Part): (r: Rendered)
    ensures part.PlainText? ==> r.outcome.Pass?
    ensures r.outcome.Fail? && !part.Plural? && !part.Select? ==> r == Rendered("", Fail(FmtError))
    decreases part
  {
    match part
    case PlainText(text) => Rendered(text, Pass)
    case Simple(name) =>
      (match Lookup(args, name)
       case Some(link) => Rendered(link.Fmt(), Pass)
       case None => Rendered("", Fail(FmtError)))
    case Placeholder =>
      (match ctx.placeholderValue
       case Some(v) => Rendered(DecimalString(v as int), Pass)
       case None => Rendered("", Fail(FmtError)))
    case Plural(f) =>
      (match Lookup(args, f.variableName)
       case None => Rendered("", Pass)
       case Some(link) =>
         (match link.value
          case Str(_) => Rendered("", Fail(WrongVariableType))
          case Number(n) =>
            var offsetValue := n as int - f.offset as int;
            if !InI64(offsetValue) then Rendered("", Fail(OffsetOverflow))
            // The offset value is not handed to the sub-message: it is
            // rendered with the enclosing context unchanged.
            else RenderParts(ctx, args, f.LookupMessage(offsetValue as i64).parts)))
    case Select(f) =>
      (match Lookup(args, f.variableName)
       case None => Rendered("", Pass)
       case Some(link) =>
         (match link.value
          case Number(_) => Rendered("", Fail(WrongVariableType))
          case Str(s) => RenderParts(ctx, args, f.LookupMessage(s).parts)))
  }

  /** The parts in order, stopping at the first that fails. */
  function RenderParts(ctx: Context, args: Option<Args>, parts: seq<Part>): Rendered
    decreases parts
  {
    if parts == [] then Rendered("", Pass)
    else
      var first := RenderPart(ctx, args, parts[0]);
      if first.outcome.Fail? then first
      else
        var rest := RenderParts(ctx, args, parts[1..]);
        Rendered(first.text + rest.text, rest.outcome)
  }

  function RenderMessage(ctx: Context, args: Option<Args>, message: Message): Rendered {
    RenderParts(ctx, args, message.parts)
  }

  /**
   * Rendering a concatenation: the first half alone if it fails, otherwise
   * both texts in order with the second half's outcome.
   */
  lemma {:induction false} RenderPartsAppend(ctx: Context, args: Option<Args>, a: seq<Part>, b: seq<Part>)
    ensures var ra, rb := RenderParts(ctx, args, a), RenderParts(ctx, args, b);
      RenderParts(ctx, args, a + b) ==
        if ra.outcome.Fail? then ra else Rendered(ra.text + rb.text, rb.outcome)
    decreases a
  {
    if a != [] {
      assert (a + b)[0] == a[0];
      assert (a + b)[1..] == a[1..] + b;
      RenderPartsAppend(ctx, args, a[1..], b);
    } else {
      assert a + b == b;
    }
  }

  /**
   * One step of rendering a message part by part: after a passing prefix,
   * the next part's output is appended, and if it fails the whole message
   * ends there.
   */
  lemma RenderPrefixStep(ctx: Context, args: Option<Args>, parts: seq<Part>, i: nat)
    requires i < |parts| && RenderParts(ctx, args, parts[..i]).outcome == Pass
    ensures var prefix, next := RenderParts(ctx, args, parts[..i]), RenderPart(ctx, args, parts[i]);
      RenderParts(ctx, args, parts[..i + 1]) == Rendered(prefix.text + next.text, next.outcome)
    ensures RenderPart(ctx, args, parts[i]).outcome.Fail? ==>
      RenderParts(ctx, args, parts) == RenderParts(ctx, args, parts[..i + 1])
  {
    RenderPartsAppend(ctx, args, parts[..i], [parts[i]]);
    assert parts[..i + 1] == parts[..i] + [parts[i]];
    RenderPartsAppend(ctx, args, parts[..i + 1], parts[i + 1..]);
    assert parts[..i + 1] + parts[i + 1..] == parts;
  }

  // ---------------------------------------------------------------------------
  // The output stream and the in-place renderers

  /** A `String` used as the `fmt::Write` stream. Writing to it never fails. */
  class Output {
    var buffer: string

    constructor ()
      ensures buffer == ""
    {
      buffer := "";
    }

    method WriteStr(s: string)
      modifies this
      ensures buffer == old(buffer) + s
    {
      buffer := buffer + s;
    }
  }

  /** `PlainText::apply_format` (src/icu/ast/plain_text.rs). */
  method ApplyPlainText(text: string, ctx: Context, out: Output, args: Option<Args>) returns (outcome: Outcome)
    modifies out
    ensures out.buffer == old(out.buffer) + RenderPart(ctx, args, PlainText(text)).text
    ensures outcome == RenderPart(ctx, args, PlainText(text)).outcome
  {
    out.WriteStr(text);
    outcome := Pass;
  }

  /** `SimpleFormat::apply_format` (src/icu/ast/simple_format.rs). */
  method ApplySimpleFormat(variableName: string, ctx: Context, out: Output, args: Option<Args>)
    returns (outcome: Outcome)
    modifies out
    ensures out.buffer == old(out.buffer) + RenderPart(ctx, args, Simple(variableName)).text
    ensures outcome == RenderPart(ctx, args, Simple(variableName)).outcome
  {
    var found := Lookup(args, variableName);
    if found.Some? {
      out.WriteStr(found.value.Fmt());
      outcome := Pass;
    } else {
      outcome := Fail(FmtError);
    }
  }

  /** `PlaceholderFormat::apply_format` (src/icu/ast/placeholder_format.rs). */
  method ApplyPlaceholderFormat(ctx: Context, out: Output, args: Option<Args>) returns (outcome: Outcome)
    modifies out
    ensures out.buffer == old(out.buffer) + RenderPart(ctx, args, Placeholder).text
    ensures outcome == RenderPart(ctx, args, Placeholder).outcome
  {
    if ctx.placeholderValue.Some? {
      out.WriteStr(DecimalString(ctx.placeholderValue.value as int));
      outcome := Pass;
    } else {
      outcome := Fail(FmtError);
    }
  }

  /** `PluralFormat::apply_format` (src/icu/ast/plural_format.rs). */
  method ApplyPluralFormat(f: PluralFormat, ctx: Context, out: Output, args: Option<Args>)
    returns (outcome: Outcome)
    modifies out
    ensures out.buffer == old(out.buffer) + RenderPart(ctx, args, Plural(f)).text
    ensures outcome == RenderPart(ctx, args, Plural(f)).outcome
    decreases f, 2
  {
    var found := Lookup(args, f.variableName);
    if found.None? {
      return Pass;
    }
    match found.value.value
    case Str(_) =>
      outcome := Fail(WrongVariableType);
    case Number(n) =>
      var offsetValue := n as int - f.offset as int;
      if !InI64(offsetValue) {
        return Fail(OffsetOverflow);
      }
      var message := f.LookupMessage(offsetValue as i64);
      outcome := FormatPluralMessage(f, out, message, offsetValue as i64, ctx, args);
  }

  /**
   * `format_plural_message`: the chosen message's parts in order, stopping
   * at the first failure. `offsetValue` is not used: the parts see the
   * enclosing context, exactly as in the source.
   */
  method FormatPluralMessage(f: PluralFormat, out: Output, message: Message, offsetValue: i64,
                             ctx: Context, args: Option<Args>)
    returns (outcome: Outcome)
    modifies out
    ensures out.buffer == old(out.buffer) + RenderMessage(ctx, args, message).text
    ensures outcome == RenderMessage(ctx, args, message).outcome
    decreases message, 1
  {
    var i := 0;
    while i < |message.parts|
      invariant 0 <= i <= |message.parts|
      invariant RenderParts(ctx, args, message.parts[..i]).outcome == Pass
      invariant out.buffer == old(out.buffer) + RenderParts(ctx, args, message.parts[..i]).text
    {
      outcome := ApplyFormat(message.parts[i], ctx, out, args);
      RenderPrefixStep(ctx, args, message.parts, i);
      if outcome.Fail? {
        return;
      }
      i := i + 1;
    }
    assert message.parts[..i] == message.parts;
    outcome := Pass;
  }

  /** `SelectFormat::apply_format` (src/icu/ast/select_format.rs). */
  method ApplySelectFormat(f: SelectFormat, ctx: Context, out: Output, args: Option<Args>)
    returns (outcome: Outcome)
    modifies out
    ensures out.buffer == old(out.buffer) + RenderPart(ctx, args, Select(f)).text
    ensures outcome == RenderPart(ctx, args, Select(f)).outcome
    decreases f, 2
  {
    var found := Lookup(args, f.variableName);
    if found.None? {
      return Pass;
    }
    match found.value.value
    case Number(_) =>
      outcome := Fail(WrongVariableType);
    case Str(s) =>
      var message := f.LookupMessage(s);
      outcome := WriteMessage(message, ctx, out, args);
  }

  /** The `MessagePart::apply_format` dispatch over the five node kinds. */
  method ApplyFormat(part: Part, ctx: Context, out: Output, args: Option<Args>) returns (outcome: Outcome)
    modifies out
    ensures out.buffer == old(out.buffer) + RenderPart(ctx, args, part).text
    ensures outcome == RenderPart(ctx, args, part).outcome
    decreases part, 3
  {
    match part
    case PlainText(text) => outcome := ApplyPlainText(text, ctx, out, args);
    case Simple(name) => outcome := ApplySimpleFormat(name, ctx, out, args);
    case Placeholder => outcome := ApplyPlaceholderFormat(ctx, out, args);
    case Plural(f) => outcome := ApplyPluralFormat(f, ctx, out, args);
    case Select(f) => outcome := ApplySelectFormat(f, ctx, out, args);
  }

  /** `Message::write_message`: each part in order, stopping at the first failure. */
  method WriteMessage(message: Message, ctx: Context, out: Output, args: Option<Args>)
    returns (outcome: Outcome)
    modifies out
    ensures out.buffer == old(out.buffer) + RenderMessage(ctx, args, message).text
    ensures outcome == RenderMessage(ctx, args, message).outcome
    decreases message, 1
  {
    var i := 0;
    while i < |message.parts|
      invariant 0 <= i <= |message.parts|
      invariant RenderParts(ctx, args, message.parts[..i]).outcome == Pass
      invariant out.buffer == old(out.buffer) + RenderParts(ctx, args, message.parts[..i]).text
    {
      outcome := ApplyFormat(message.parts[i], ctx, out, args);
      RenderPrefixStep(ctx, args, message.parts, i);
      if outcome.Fail? {
        return;
      }
      i := i + 1;
    }
    assert message.parts[..i] == message.parts;
    outcome := Pass;
  }

  /**
   * `Message::format_message`: render into a fresh string with a context
   * that has no placeholder value, and return whatever was written, the
   * outcome being dropped.
   */
  method FormatMessage(message: Message, args: Args) returns (s: string)
    ensures s == RenderMessage(Contexts.New(None), Some(args), message).text
  {
    var out := new Output();
    var ignored := WriteMessage(message, Contexts.New(None), out, Some(args));
    s := out.buffer;
  }
}
