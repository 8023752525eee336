/**
 * Grammatical-number categories (src/plural_category.rs) and the English
 * cardinal classifier (src/plural_classifiers.rs).
 */
module PluralCategories {
  import opened Values

  datatype PluralCategory = Zero | One | Two | Few | Many | Other

  /** A single item is `One`; every other number is `Other`. */
  function EnglishCardinalClassifier(value: i64): (c: PluralCategory)
    ensures c == One <==> value == 1
    ensures c == One || c == Other
  {
    match value
    case 1 => One
    case _ => Other
  }

  /** The documentation example of src/plural_classifiers.rs. */
  lemma EnglishCardinalExamples()
    ensures EnglishCardinalClassifier(0) == Other
    ensures EnglishCardinalClassifier(1) == One
    ensures EnglishCardinalClassifier(2) == Other
  {
  }
}
