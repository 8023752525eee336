/**
 * The message tree: a `Message` (src/message.rs) is an ordered sequence of
 * parts, and a part is one of the five ICU format nodes (src/icu/ast/). The
 * datatype constructors are the nodes' `new` functions: they store their
 * arguments unchanged, in order.
 */
module Messages {
  import opened Wrappers
  import opened Values
  import opened PluralCategories

  datatype Message = Message(parts: seq<Part>)

  datatype Part =
    | PlainText(text: string)
    | Simple(variableName: string)
    | Placeholder
    | Plural(pluralFormat: PluralFormat)
    | Select(selectFormat: SelectFormat)

  /**
   * A `PluralFormat` (src/icu/ast/plural_format.rs). Its classifier is
   * always the English cardinal one: `new` installs it and nothing replaces it.
   */
  datatype PluralFormat = PluralFormat(
    variableName: string,
    literals: map<i64, Message>,
    offset: i64,
    zero: Option<Message>,
    one: Option<Message>,
    two: Option<Message>,
    few: Option<Message>,
    many: Option<Message>,
    other: Message)
  {
    /** The optional branch a category selects; `other` has no optional branch of its own. */
    function Branch(category: PluralCategory): Option<Message> {
      match category
      case Zero => zero
      case One => one
      case Two => two
      case Few => few
      case Many => many
      case Other => None
    }

    /** The branch registered for `category`, falling back to `other` when it is unset. */
    function CategoryMessage(category: PluralCategory): (m: Message)
      ensures Branch(category).Some? ==> m == Branch(category).value
      ensures Branch(category).None? ==> m == other
      ensures category == Other ==> m == other
      ensures m == other || Some(m) in {zero, one, two, few, many}
    {
      var branch := Branch(category);
      if branch.Some? then branch.value else other
    }

    /**
     * `lookup_message`: a literal registered for the offset value wins;
     * otherwise the classifier's category picks its branch, or `other`.
     */
    function LookupMessage(offsetValue: i64): (m: Message)
      ensures offsetValue in literals ==> m == literals[offsetValue]
      ensures offsetValue !in literals ==>
        m == CategoryMessage(EnglishCardinalClassifier(offsetValue))
      ensures m == other || m in literals.Values || Some(m) in {zero, one, two, few, many}
    {
      if offsetValue in literals then literals[offsetValue]
      else CategoryMessage(EnglishCardinalClassifier(offsetValue))
    }
  }

  /** A `SelectFormat` (src/icu/ast/select_format.rs). */
  datatype SelectFormat = SelectFormat(
    variableName: string,
    mappings: map<string, Message>,
    default: Message)
  {
    /** `lookup_message`: the message mapped to exactly `value`, else `default`. */
    function LookupMessage(value: string): (m: Message)
      ensures value in mappings ==> m == mappings[value]
      ensures value !in mappings ==> m == default
      ensures m == default || m in mappings.Values
    {
      if value in mappings then mappings[value] else default
    }
  }

  /** Under the English classifier only a literal or the value 1 can leave the `other` branch. */
  lemma EnglishLookup(f: PluralFormat, offsetValue: i64)
    requires offsetValue !in f.literals
    ensures offsetValue == 1 && f.one.Some? ==> f.LookupMessage(offsetValue) == f.one.value
    ensures offsetValue != 1 || f.one.None? ==> f.LookupMessage(offsetValue) == f.other
    ensures f.LookupMessage(offsetValue) != f.other ==> f.one == Some(f.LookupMessage(offsetValue))
  {
  }

  /**
   * Registering a literal for a value makes that value select it, whatever
   * category branches are set, and leaves the lookup of every other value
   * as it was.
   */
  lemma LiteralOverrides(f: PluralFormat, value: i64, m: Message, other: i64)
    ensures f.(literals := f.literals[value := m]).LookupMessage(value) == m
    ensures other != value ==>
      f.(literals := f.literals[value := m]).LookupMessage(other) == f.LookupMessage(other)
  {
  }
}
