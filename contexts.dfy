/**
 * The render context (src/context.rs): an immutable record carrying the
 * value a `PlaceholderFormat` writes. Being a value, a clone is an equal,
 * independent copy, and nothing can change a context in place.
 */
module Contexts {
  import opened Wrappers
  import opened Values

  datatype Context = Context(placeholderValue: Option<i64>)

  /** `Context::new`. */
  function New(placeholderValue: Option<i64>): (c: Context)
    ensures c.placeholderValue == placeholderValue
  {
    Context(placeholderValue)
  }

  /** `Context::default()`: no placeholder value. */
  function Default(): (c: Context)
    ensures c.placeholderValue.None?
  {
    Context(None)
  }

  lemma DefaultIsNewNone()
    ensures Default() == New(None)
  {
  }
}
