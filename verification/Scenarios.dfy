/**
 * Whole-session walk-throughs of the quote generator on concrete input.
 *
 * The helper lemmas take the concrete strings as parameters fixed by a
 * `requires` rather than as literals in their contracts: on a literal the
 * verifier unfolds `Trim`, `Lower` and `Filter` character by character, which
 * costs far more than reasoning from their contracts.
 */
module Scenarios {
  import opened Wrappers
  import opened Text
  import opened Quotes
  import opened Views
  import opened Store

  /** The quote added in the first session. */
  const Focus: Quote := Quote("Focus wins.", Some("discipline"))

  /**
   * Nothing stored: start-up seeds the four defaults, and adding "Focus wins."
   * under "discipline" makes a fifth quote.
   */
  lemma FirstSessionAdd(parse: string -> Parsed<Quote>)
    ensures Load(None, parse) == Loaded(Defaults, true)
    ensures AddQuote(Defaults, "Focus wins.", "discipline") == Success(Defaults + [Focus])
    ensures |Defaults + [Focus]| == 5
  {
    AddFocus("Focus wins.", "discipline");
  }

  /** After that add, the "discipline" filter lists only the new quote, and deleting it restores the defaults. */
  lemma FirstSessionFilterAndDelete()
    ensures FilteredQuotes(Defaults + [Focus], "discipline") == [Focus]
    ensures DeleteQuote(Defaults + [Focus], 4, true) == Defaults
  {
    FilterDiscipline(Focus);
    assert (Defaults + [Focus])[..4] == Defaults;
  }

  /** The add of the first session, with the text and category as already normalised input. */
  lemma AddFocus(text: string, category: string)
    requires text == "Focus wins." && category == "discipline"
    ensures AddQuote(Defaults, text, category) == Success(Defaults + [Quote(text, Some(category))])
  {
    TrimKeepsTrimmed(text);
    TrimKeepsTrimmed(category);
    AddStoresNormalisedInput(Defaults, text, category);
  }

  /** No default quote is in category "discipline", so the filter lists only the added one. */
  lemma FilterDiscipline(q: Quote)
    requires q == Quote("Focus wins.", Some("discipline"))
    ensures FilteredQuotes(Defaults + [q], "discipline") == [q]
  {
    var f := InCategory("discipline");
    var qs := Defaults + [q];
    assert forall i :: 0 <= i < 4 ==> !f(Defaults[i]);
    Seqs.FilterRejectsAll(Defaults, f);
    assert qs[..4] == Defaults;
  }

  /**
   * A file holding one usable record and one with empty text: exactly the
   * usable one is admitted, its text as given and its category in lower case.
   */
  lemma ImportOneOfTwo(quotes: seq<Quote>, text: string, category: string)
    requires !IsBlank(text)
    ensures var file := [Item(Truthy(text), Truthy(category)), Item(Falsy, Truthy(category))];
            Import(quotes, Array(file)) == Success(Imported(quotes + [Quote(text, Some(Lower(category)))], 1))
  {
    var items := [Item(Truthy(text), Truthy(category)), Item(Falsy, Truthy(category))];
    assert Throwing !in items;
    SanitizeOneOfTwo(items, text, category);
    var added := Sanitize(items);
    assert (quotes + added)[..|quotes|] == quotes;
  }

  /** The sanitise step of that import keeps the first record only. */
  lemma SanitizeOneOfTwo(items: seq<RawItem>, text: string, category: string)
    requires !IsBlank(text)
    requires items == [Item(Truthy(text), Truthy(category)), Item(Falsy, Truthy(category))]
    ensures Throwing !in items
    ensures Sanitize(items) == [Quote(text, Some(Lower(category)))]
  {
    var good, empty := Quote(text, Some(Lower(category))), Quote("", Some(Lower(category)));
    MapOneOfTwo(items, text, category);
    KeepFirstOfTwo(good, empty);
  }

  /** The map step of that import: the first record as given, the second with empty text. */
  lemma MapOneOfTwo(items: seq<RawItem>, text: string, category: string)
    requires items == [Item(Truthy(text), Truthy(category)), Item(Falsy, Truthy(category))]
    ensures Throwing !in items
    ensures SanitizeEach(items) == [Quote(text, Some(Lower(category))), Quote("", Some(Lower(category)))]
  {
  }

  /** The blank-text filter on two records, the second with empty text. */
  lemma KeepFirstOfTwo(good: Quote, empty: Quote)
    requires HasText(good) && empty.text == ""
    ensures Seqs.Filter([good, empty], HasText) == [good]
  {
    Seqs.FilterSnoc([], good, HasText);
    assert [] + [good] == [good];
    Seqs.FilterSnoc([good], empty, HasText);
    assert [good] + [empty] == [good, empty];
  }
}
