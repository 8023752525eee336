/**
 * The ICU template parser (src/icu/parse.rs). The source composes parser
 * combinators; here each combinator is a function from the remaining input
 * to a step result with the combinator library's three outcomes: done (with
 * the remaining input and the output), error (this alternative does not
 * apply) and incomplete (the input ended where more was needed).
 *
 * Grammar as the source implements it:
 *   message    := part*                      (many0: stop at the first error)
 *   part       := format | plain_text        (alt: tried in this order)
 *   format     := '{' format_body '}'
 *   format_body := non-empty run of chars other than '}'   -> SimpleFormat
 *   plain_text := non-empty run of chars other than '{'    -> PlainText
 * `{n, plural, ...}` is therefore a `SimpleFormat` named "n, plural, ...".
 *
 * The source works on UTF-8 bytes and cuts only at the ASCII bytes `{` and
 * `}`, so each cut slice is whole characters; this model works on characters.
 */
module IcuParse {
  import opened Wrappers
  import opened Messages

  /** `ParseError`: every failure is reported as this one value. */
  datatype ParseError = NotImplemented

  datatype Step<T> = Done(rest: string, output: T) | Error | Incomplete

  datatype PartsResult = PartsDone(rest: string, parts: seq<Part>) | PartsIncomplete

  /** Index of the first `c` in `s`, or `|s|` when there is none. */
  function IndexOf(s: string, c: char): (i: nat)
    ensures i <= |s|
    ensures forall j :: 0 <= j < i ==> s[j] != c
    ensures i < |s| ==> s[i] == c
  {
    if s == [] then 0 else if s[0] == c then 0 else 1 + IndexOf(s[1..], c)
  }

  /**
   * `is_not!`: the longest prefix free of `c`. Empty when `s` starts with `c`,
   * which is an error; when `s` has no `c` at all the whole of `s` is taken
   * (also when `s` is empty).
   */
  function IsNot(s: string, c: char): (r: Step<string>)
    ensures !r.Incomplete?
    ensures r.Error? <==> |s| > 0 && s[0] == c
    ensures r.Done? ==> r.output + r.rest == s && c !in r.output
    ensures r.Done? ==> r.rest == [] || r.rest[0] == c
  {
    var i := IndexOf(s, c);
    assert s[..i] + s[i..] == s;
    if i == 0 && i < |s| then Error else Done(s[i..], s[..i])
  }

  /** `char!(c)`: consumes one `c`; errs on any other character, incomplete on empty input. */
  function Char(s: string, c: char): (r: Step<char>)
    ensures r.Incomplete? <==> s == []
    ensures r.Done? <==> |s| > 0 && s[0] == c
    ensures r.Done? ==> r.output == c && [c] + r.rest == s
  {
    if |s| == 0 then Incomplete else if s[0] == c then Done(s[1..], c) else Error
  }

  /**
   * `format_body`: the name is everything up to the first `}` (all of `s`
   * when there is none); an empty name, at a `}`, is an error.
   */
  function FormatBody(s: string): (r: Step<Part>)
    ensures !r.Incomplete?
    ensures r.Error? <==> |s| > 0 && s[0] == '}'
    ensures r.Done? ==> r.output.Simple? && r.output.variableName + r.rest == s
    ensures r.Done? ==> '}' !in r.output.variableName && (r.rest == [] || r.rest[0] == '}')
  {
    match IsNot(s, '}')
    case Done(rest, name) => Done(rest, Simple(name))
    case Error => Error
    case Incomplete => Incomplete
  }

  /**
   * `format`: `{`, a body, `}`. It reads exactly `{name}` with a non-empty
   * name free of `}`; it is incomplete on a `{` never closed and errs on
   * anything not starting with `{` and on an empty `{}`.
   */
  function Format(s: string): (r: Step<Part>)
    ensures r.Done? ==> r.output.Simple? && "{" + r.output.variableName + "}" + r.rest == s
    ensures r.Done? ==> r.output.variableName != [] && '}' !in r.output.variableName
    ensures r.Incomplete? <==> s == [] || (s[0] == '{' && '}' !in s[1..])
    ensures r.Error? <==> s != [] && (s[0] != '{' || (|s| >= 2 && s[1] == '}'))
  {
    match Char(s, '{')
    case Error => Error
    case Incomplete => Incomplete
    case Done(afterOpen, _) =>
      assert afterOpen == s[1..];
      match FormatBody(afterOpen)
      case Error => Error
      case Incomplete => Incomplete
      case Done(afterBody, part) =>
        match Char(afterBody, '}')
        case Error => Error
        case Incomplete =>
          assert afterOpen == part.variableName;
          Incomplete
        case Done(afterClose, _) =>
          assert s == "{" + part.variableName + "}" + afterClose;
          assert afterOpen[|part.variableName|] == '}';
          Done(afterClose, part)
  }

  /**
   * `plain_text`: a run of characters other than `{`, kept verbatim, up to
   * the next `{` or the end; it errs when `s` starts with `{`.
   */
  function PlainTextRun(s: string): (r: Step<Part>)
    ensures !r.Incomplete?
    ensures r.Error? <==> |s| > 0 && s[0] == '{'
    ensures r.Done? ==> r.output.PlainText? && r.output.text + r.rest == s
    ensures r.Done? ==> '{' !in r.output.text && (r.rest == [] || r.rest[0] == '{')
    ensures r.Done? && s != [] ==> r.output.text != []
  {
    match IsNot(s, '{')
    case Done(rest, text) => Done(rest, PlainText(text))
    case Error => Error
    case Incomplete => Incomplete
  }

  /** `alt!(format | plain_text)`: plain text is tried only when `format` errs. */
  function AltPart(s: string): (r: Step<Part>)
    ensures r.Done? ==> |r.rest| < |s|
  {
    match Format(s)
    case Error => PlainTextRun(s)
    case other => other
  }

  /**
   * `message_parts`: `many0!` over `AltPart`. It stops with what it has at
   * the end of the input or at the first error, and an incomplete part
   * makes the whole result incomplete. (A part that consumes nothing would
   * also end it, but `AltPart` always consumes.)
   */
  function MessageParts(s: string): PartsResult
    decreases |s|
  {
    if |s| == 0 then PartsDone(s, [])
    else match AltPart(s)
      case Error => PartsDone(s, [])
      case Incomplete => PartsIncomplete
      case Done(rest, part) =>
        match MessageParts(rest)
        case PartsIncomplete => PartsIncomplete
        case PartsDone(leftover, parts) => PartsDone(leftover, [part] + parts)
  }

  /**
   * `parse_message`: any failure becomes `NotImplemented`; unparsed input is
   * dropped. It fails only on a template with an unclosed `{`, and what it
   * returns is parser-shaped.
   */
  function ParseMessage(text: string): (r: Result<Message, ParseError>)
    ensures r.Err? ==> exists i :: UnclosedAt(text, i)
    ensures r.Ok? ==> Parsed(r.value.parts)
  {
    match MessageParts(text)
    case PartsIncomplete =>
      IncompleteMeansUnclosedBrace(text);
      Err(NotImplemented)
    case PartsDone(_, parts) =>
      MessagePartsShape(text);
      Ok(Message(parts))
  }

  // ---------------------------------------------------------------------------
  // The shape of parsed messages and the text they came from

  /** The template text of a parsed part: text as is, a simple format as `{name}`. */
  function PartSource(p: Part): string {
    match p
    case PlainText(text) => text
    case Simple(name) => "{" + name + "}"
    case _ => ""
  }

  function Unparse(parts: seq<Part>): string {
    if parts == [] then "" else PartSource(parts[0]) + Unparse(parts[1..])
  }

  /** A part the parser can produce. */
  predicate ParsedPart(p: Part) {
    match p
    case PlainText(text) => text != [] && '{' !in text
    case Simple(name) => name != [] && '}' !in name
    case _ => false
  }

  /** Parts the parser can produce: parsed parts, never two runs of text in a row. */
  predicate Parsed(parts: seq<Part>) {
    && (forall i :: 0 <= i < |parts| ==> ParsedPart(parts[i]))
    && (forall i :: 0 <= i < |parts| - 1 ==> !(parts[i].PlainText? && parts[i + 1].PlainText?))
  }

  /** What the parser leaves unread: nothing, or input starting with an empty `{}`. */
  predicate Leftover(rest: string) {
    rest == [] || (|rest| >= 2 && rest[0] == '{' && rest[1] == '}')
  }

  predicate EmptyOrBrace(s: string) {
    s == [] || s[0] == '{'
  }

  lemma IndexOfConcat(a: string, b: string, c: char)
    requires c !in a && (b == [] || b[0] == c)
    ensures IndexOf(a + b, c) == |a|
  {
    assert forall j :: 0 <= j < |a| ==> (a + b)[j] == a[j];
    if b != [] {
      assert (a + b)[|a|] == c;
    }
  }

  /** Prepending a parser-shaped part that cannot merge with the next one keeps the parts parser-shaped. */
  lemma ParsedCons(p: Part, tail: seq<Part>)
    requires ParsedPart(p) && Parsed(tail)
    requires p.PlainText? && tail != [] ==> !tail[0].PlainText?
    ensures Parsed([p] + tail)
  {
    var parts := [p] + tail;
    forall i | 0 <= i < |parts| - 1
      ensures !(parts[i].PlainText? && parts[i + 1].PlainText?)
    {
      if i > 0 {
        assert parts[i] == tail[i - 1] && parts[i + 1] == tail[i];
      }
    }
  }

  lemma UnparseCons(p: Part, tail: seq<Part>)
    ensures Unparse([p] + tail) == PartSource(p) + Unparse(tail)
  {
    assert ([p] + tail)[1..] == tail;
  }

  /** A step of `AltPart` consumes exactly the source text of the part it yields. */
  lemma AltPartUnparse(s: string)
    requires AltPart(s).Done?
    ensures PartSource(AltPart(s).output) + AltPart(s).rest == s
  {
    if s[0] == '{' {
      var body := IsNot(s[1..], '}');
      assert s == "{" + body.output + body.rest;
      assert s == "{" + body.output + "}" + body.rest[1..];
    }
  }

  /** A step of `AltPart` yields a parser-shaped part; a text run stops at `{` or the end. */
  lemma AltPartShape(s: string)
    requires AltPart(s).Done?
    ensures ParsedPart(AltPart(s).output)
    ensures AltPart(s).output.PlainText? ==> EmptyOrBrace(AltPart(s).rest)
    ensures s[0] == '{' ==> AltPart(s).output.Simple?
  {
  }

  /** `AltPart` errs only on an empty `{}`, and is incomplete only on a `{` never closed. */
  lemma AltPartFailure(s: string)
    requires |s| > 0
    ensures AltPart(s).Error? ==> |s| >= 2 && s[0] == '{' && s[1] == '}'
    ensures AltPart(s).Incomplete? ==> s[0] == '{' && '}' !in s[1..]
  {
  }

  lemma AltPartOnText(text: string, after: string)
    requires text != [] && '{' !in text && EmptyOrBrace(after)
    ensures AltPart(text + after) == Done(after, PlainText(text))
  {
    var s := text + after;
    IndexOfConcat(text, after, '{');
    assert s[..|text|] == text && s[|text|..] == after;
  }

  lemma AltPartOnSimple(name: string, after: string)
    requires name != [] && '}' !in name
    ensures AltPart("{" + name + "}" + after) == Done(after, Simple(name))
  {
    var s := "{" + name + "}" + after;
    var afterOpen := name + "}" + after;
    var afterBody := "}" + after;
    assert s[0] == '{' && s[1..] == afterOpen;
    assert Char(s, '{') == Done(afterOpen, '{');
    IndexOfConcat(name, afterBody, '}');
    assert afterOpen[..|name|] == name && afterOpen[|name|..] == afterBody;
    assert FormatBody(afterOpen) == Done(afterBody, Simple(name));
    assert afterBody[0] == '}' && afterBody[1..] == after;
    assert Char(afterBody, '}') == Done(after, '}');
  }

  lemma AltPartOnEmptyBraces(rest: string)
    requires Leftover(rest) && rest != []
    ensures AltPart(rest).Error?
  {
    assert IsNot(rest[1..], '}').Error?;
  }

  /** Printing the parts back gives exactly the consumed prefix of the input. */
  lemma {:induction false} MessagePartsUnparse(s: string)
    requires MessageParts(s).PartsDone?
    ensures Unparse(MessageParts(s).parts) + MessageParts(s).rest == s
    decreases |s|
  {
    if |s| > 0 {
      var step := AltPart(s);
      if step.Done? {
        AltPartUnparse(s);
        var tail := MessageParts(step.rest);
        assert MessageParts(s) == PartsDone(tail.rest, [step.output] + tail.parts);
        MessagePartsUnparse(step.rest);
        UnparseCons(step.output, tail.parts);
        assert PartSource(step.output) + Unparse(tail.parts) + tail.rest
            == PartSource(step.output) + (Unparse(tail.parts) + tail.rest);
      }
    }
  }

  /**
   * The parts are parser-shaped: text runs and simple formats with non-empty
   * contents, never two text runs in a row; input starting with `{` starts
   * with a simple format.
   */
  lemma {:induction false} MessagePartsShape(s: string)
    requires MessageParts(s).PartsDone?
    ensures Parsed(MessageParts(s).parts)
    ensures MessageParts(s).parts != [] && s[0] == '{' ==> MessageParts(s).parts[0].Simple?
    decreases |s|
  {
    if |s| > 0 {
      var step := AltPart(s);
      if step.Done? {
        AltPartShape(s);
        var tail := MessageParts(step.rest);
        assert MessageParts(s) == PartsDone(tail.rest, [step.output] + tail.parts);
        MessagePartsShape(step.rest);
        assert step.rest == [] ==> tail.parts == [];
        ParsedCons(step.output, tail.parts);
      }
    }
  }

  /** What the parser leaves unread is nothing, or starts with `{}`. */
  lemma {:induction false} MessagePartsLeftover(s: string)
    requires MessageParts(s).PartsDone?
    ensures Leftover(MessageParts(s).rest)
    decreases |s|
  {
    if |s| > 0 {
      AltPartFailure(s);
      var step := AltPart(s);
      if step.Done? {
        MessagePartsLeftover(step.rest);
      }
    }
  }

  lemma ParsedTail(parts: seq<Part>)
    requires Parsed(parts) && parts != []
    ensures Parsed(parts[1..])
  {
    var tail := parts[1..];
    forall i | 0 <= i < |tail| - 1
      ensures !(tail[i].PlainText? && tail[i + 1].PlainText?)
    {
      assert tail[i] == parts[i + 1] && tail[i + 1] == parts[i + 2];
    }
  }

  /** After a text run, the printed rest of a parser-shaped message is empty or opens a brace. */
  lemma TextIsFollowedByBrace(tail: seq<Part>, rest: string)
    requires Parsed(tail) && Leftover(rest)
    requires tail != [] ==> !tail[0].PlainText?
    ensures EmptyOrBrace(Unparse(tail) + rest)
  {
    if tail != [] {
      assert ParsedPart(tail[0]);
      UnparseCons(tail[0], tail[1..]);
      assert tail == [tail[0]] + tail[1..];
    }
  }

  /** One step of `many0!`: a part that is read and then followed by a successful parse. */
  lemma MessagePartsStep(s: string, after: string, p: Part, result: PartsResult)
    requires |s| > 0 && AltPart(s) == Done(after, p)
    requires MessageParts(after) == result && result.PartsDone?
    ensures MessageParts(s) == PartsDone(result.rest, [p] + result.parts)
  {
  }

  /** A parser-shaped part in front of a parsed remainder is read first and kept. */
  lemma MessagePartsCons(p: Part, tail: seq<Part>, rest: string)
    requires ParsedPart(p) && Parsed(tail) && Leftover(rest)
    requires p.PlainText? && tail != [] ==> !tail[0].PlainText?
    requires MessageParts(Unparse(tail) + rest) == PartsDone(rest, tail)
    ensures MessageParts(PartSource(p) + (Unparse(tail) + rest)) == PartsDone(rest, [p] + tail)
  {
    var after := Unparse(tail) + rest;
    var s := PartSource(p) + after;
    if p.PlainText? {
      TextIsFollowedByBrace(tail, rest);
      AltPartOnText(p.text, after);
    } else {
      AltPartOnSimple(p.variableName, after);
    }
    MessagePartsStep(s, after, p, MessageParts(after));
  }

  /**
   * Completeness of the parser: parser-shaped parts, printed and followed by
   * a valid leftover, parse back to exactly those parts and that leftover.
   */
  lemma {:induction false} MessagePartsComplete(parts: seq<Part>, rest: string)
    requires Parsed(parts) && Leftover(rest)
    ensures MessageParts(Unparse(parts) + rest) == PartsDone(rest, parts)
    decreases |parts|
  {
    if parts == [] {
      assert Unparse(parts) + rest == rest;
      if rest != [] {
        AltPartOnEmptyBraces(rest);
      }
    } else {
      var p, tail := parts[0], parts[1..];
      assert ParsedPart(p) && Parsed(tail) && (p.PlainText? && tail != [] ==> !tail[0].PlainText?) by {
        ParsedTail(parts);
        assert tail != [] ==> tail[0] == parts[1];
      }
      var source := Unparse(parts) + rest;
      assert source == PartSource(p) + (Unparse(tail) + rest) by {
        UnparseCons(p, tail);
        assert [p] + tail == parts;
      }
      MessagePartsComplete(tail, rest);
      MessagePartsCons(p, tail, rest);
      assert [p] + tail == parts;
    }
  }

  /** Position `i` of `s` holds a `{` with no `}` anywhere after it. */
  predicate UnclosedAt(s: string, i: int) {
    0 <= i < |s| && s[i] == '{' && '}' !in s[i + 1..]
  }

  lemma UnclosedShift(prefix: string, s: string, i: int)
    requires UnclosedAt(s, i)
    ensures UnclosedAt(prefix + s, |prefix| + i)
  {
    assert (prefix + s)[|prefix| + i + 1..] == s[i + 1..];
  }

  /** A template fails to parse only because some `{` has no `}` after it. */
  lemma {:induction false} IncompleteMeansUnclosedBrace(s: string)
    requires MessageParts(s).PartsIncomplete?
    ensures exists i :: UnclosedAt(s, i)
    decreases |s|
  {
    AltPartFailure(s);
    var step := AltPart(s);
    if step.Incomplete? {
      assert UnclosedAt(s, 0);
    } else {
      AltPartUnparse(s);
      IncompleteMeansUnclosedBrace(step.rest);
      var i :| UnclosedAt(step.rest, i);
      UnclosedShift(PartSource(step.output), step.rest, i);
    }
  }

  /** A template with a `{` and no `}` at all fails to parse. */
  lemma {:induction false} UnclosedBraceIsIncomplete(s: string)
    requires '{' in s && '}' !in s
    ensures MessageParts(s).PartsIncomplete?
    ensures ParseMessage(s) == Err(NotImplemented)
    decreases |s|
  {
    if s[0] == '{' {
      assert '}' !in s[1..];
      assert IndexOf(s[1..], '}') == |s[1..]|;
    } else {
      var step := IsNot(s, '{');
      assert step.Done?;
      assert '{' in step.rest && '}' !in step.rest by {
        assert step.rest == s[|step.output|..];
      }
      UnclosedBraceIsIncomplete(step.rest);
    }
  }

  /** Parsing succeeds exactly on the printed forms of parser-shaped parts, followed by a leftover. */
  lemma ParseMessageOk(s: string)
    requires ParseMessage(s).Ok?
    ensures Parsed(ParseMessage(s).value.parts)
    ensures exists rest :: Leftover(rest) && s == Unparse(ParseMessage(s).value.parts) + rest
  {
    MessagePartsUnparse(s);
    MessagePartsShape(s);
    MessagePartsLeftover(s);
  }
}
