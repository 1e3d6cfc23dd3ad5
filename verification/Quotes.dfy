/**
 * The quote record and the constants the quote generator is built around:
 * the built-in default quotes, the `'all'` filter and the `'uncategorized'`
 * label a quote without a category is shown under.
 */
module Quotes {
  import opened Wrappers

  /**
   * One quote. `category` is `None` when the record has no category at all
   * (a record loaded from storage may lack it); `Some("")` is an empty one.
   */
  datatype Quote = Quote(text: string, category: Option<string>)

  /** The filter value meaning "every category". */
  const All: string := "all"

  /** The label of quotes whose category is missing or empty. */
  const Uncategorized: string := "uncategorized"

  /** `q.category || 'uncategorized'`: the category a quote is grouped and filtered under. */
  function EffectiveCategory(q: Quote): (c: string)
    ensures c != []
    ensures q.category.Some? && q.category.value != [] ==> c == q.category.value
    ensures q.category == None || q.category == Some([]) ==> c == Uncategorized
  {
    match q.category
    case Some(c) => if c == [] then Uncategorized else c
    case None => Uncategorized
  }

  /** The four quotes the collection is seeded with when nothing usable is stored. */
  const Defaults: seq<Quote> := [
    Quote("The only limit to our realization of tomorrow is our doubts of today.", Some("inspiration")),
    Quote("Simplicity is the soul of efficiency.", Some("productivity")),
    Quote("Write code as if the person who maintains it is a violent psychopath who knows where you live.", Some("dev")),
    Quote("Small daily improvements are the key to staggering long-term results.", Some("habit"))
  ]
}
