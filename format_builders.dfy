/**
 * The mutable construction of plural and select nodes: `PluralFormat::new`
 * and its setters (src/icu/ast/plural_format.rs), `SelectFormat::new` and
 * `map` (src/icu/ast/select_format.rs). Each setter changes its own field
 * and nothing else. `Build` yields the node value that goes into a message.
 */
module FormatBuilders {
  import opened Wrappers
  import opened Values
  import opened Messages

  class PluralFormatBuilder {
    var variableName: string
    var literals: map<i64, Message>
    var offset: i64
    var zero: Option<Message>
    var one: Option<Message>
    var two: Option<Message>
    var few: Option<Message>
    var many: Option<Message>
    var other: Message

    /** `PluralFormat::new`: offset 0, no literals, every optional branch unset. */
    constructor (variableName: string, other: Message)
      ensures this.variableName == variableName && this.other == other
      ensures literals == map[] && offset == 0
      ensures zero.None? && one.None? && two.None? && few.None? && many.None?
    {
      this.variableName := variableName;
      this.literals := map[];
      this.offset := 0;
      this.zero, this.one, this.two, this.few, this.many := None, None, None, None, None;
      this.other := other;
    }

    /** `literal`: a later message for the same value replaces the earlier one. */
    method Literal(literal: i64, message: Message)
      modifies this`literals
      ensures literals == old(literals)[literal := message]
    {
      literals := literals[literal := message];
    }

    method Offset(offset: i64)
      modifies this`offset
      ensures this.offset == offset
    {
      this.offset := offset;
    }

    method Zero(message: Message)
      modifies this`zero
      ensures zero == Some(message)
    {
      zero := Some(message);
    }

    method One(message: Message)
      modifies this`one
      ensures one == Some(message)
    {
      one := Some(message);
    }

    method Two(message: Message)
      modifies this`two
      ensures two == Some(message)
    {
      two := Some(message);
    }

    method Few(message: Message)
      modifies this`few
      ensures few == Some(message)
    {
      few := Some(message);
    }

    method Many(message: Message)
      modifies this`many
      ensures many == Some(message)
    {
      many := Some(message);
    }

    function Build(): PluralFormat
      reads this
    {
      PluralFormat(variableName, literals, offset, zero, one, two, few, many, other)
    }
  }

  class SelectFormatBuilder {
    var variableName: string
    var mappings: map<string, Message>
    var default: Message

    /** `SelectFormat::new`: no mappings. */
    constructor (variableName: string, default: Message)
      ensures this.variableName == variableName && this.default == default
      ensures mappings == map[]
    {
      this.variableName := variableName;
      this.mappings := map[];
      this.default := default;
    }

    /** `map`: a later message for the same value replaces the earlier one. */
    method Map(value: string, message: Message)
      modifies this`mappings
      ensures mappings == old(mappings)[value := message]
    {
      mappings := mappings[value := message];
    }

    function Build(): SelectFormat
      reads this
    {
      SelectFormat(variableName, mappings, default)
    }
  }
}
