/**
 * What the page shows of the collection: the quotes a category filter lets
 * through, the category list of the filter drop-down, and the random pick.
 */
module Views {
  import opened Wrappers
  import opened Seqs
  import opened Lex
  import opened Quotes

  /** `sel.value || 'all'`: an empty selection means no filter. */
  function FilterValue(selected: string): (f: string)
    ensures f != []
    ensures selected == [] ==> f == All
    ensures selected != [] ==> f == selected
  {
    if selected == [] then All else selected
  }

  /** The test `getFilteredQuotes` hands to `filter`. */
  function InCategory(f: string): Quote -> bool {
    q => EffectiveCategory(q) == f
  }

  /** Whether filter `f` lets quote `q` through. */
  predicate Admits(f: string, q: Quote) {
    f == All || EffectiveCategory(q) == f
  }

  /**
   * `getFilteredQuotes`, with the drop-down value as a parameter: the whole
   * collection under `'all'`, otherwise the quotes of that effective category.
   */
  function FilteredQuotes(quotes: seq<Quote>, selected: string): (r: seq<Quote>)
    ensures FilterValue(selected) == All ==> r == quotes
    ensures |r| <= |quotes|
    ensures forall q :: q in r ==> q in quotes && Admits(FilterValue(selected), q)
    ensures forall q :: q in quotes && Admits(FilterValue(selected), q) ==> q in r
  {
    var f := FilterValue(selected);
    if f == All then quotes else Filter(quotes, InCategory(f))
  }

  /** An empty drop-down value filters nothing: the whole collection is listed, in order. */
  lemma EmptyFilterListsAll(quotes: seq<Quote>)
    ensures FilteredQuotes(quotes, "") == quotes
  {
  }

  /**
   * The positions in `quotes` of the quotes `FilteredQuotes` lists: the
   * filtered list is the collection restricted to exactly the positions whose
   * quotes the filter admits, in collection order.
   */
  function ListedPositions(quotes: seq<Quote>, selected: string): (idx: seq<nat>)
    ensures PicksAt(FilteredQuotes(quotes, selected), quotes, idx)
    ensures forall i :: 0 <= i < |quotes| ==> (i in idx <==> Admits(FilterValue(selected), quotes[i]))
  {
    var f := FilterValue(selected);
    if f == All then
      var idx := seq(|quotes|, i requires 0 <= i < |quotes| => i as nat);
      assert forall i :: 0 <= i < |quotes| ==> idx[i] == i;
      idx
    else
      FilterPicksKeptPositions(quotes, InCategory(f));
      KeptPositions(quotes, InCategory(f))
  }

  /** Some quote of the collection has effective category `c`. */
  ghost predicate HasCategory(quotes: seq<Quote>, c: string) {
    exists q :: q in quotes && EffectiveCategory(q) == c
  }

  /** `quotes.map(q => q.category || 'uncategorized')`. */
  function Labels(quotes: seq<Quote>): (labels: seq<string>)
    ensures |labels| == |quotes|
    ensures forall i :: 0 <= i < |quotes| ==> labels[i] == EffectiveCategory(quotes[i])
    ensures forall c :: c in labels <==> HasCategory(quotes, c)
  {
    var labels := seq(|quotes|, i requires 0 <= i < |quotes| => EffectiveCategory(quotes[i]));
    forall q | q in quotes ensures EffectiveCategory(q) in labels {
      var i :| 0 <= i < |quotes| && quotes[i] == q;
      assert labels[i] == EffectiveCategory(q);
    }
    forall c | c in labels ensures HasCategory(quotes, c) {
      var i :| 0 <= i < |quotes| && labels[i] == c;
      assert quotes[i] in quotes;
    }
    labels
  }

  /**
   * The expression in `populateCategories`: every effective category once,
   * sorted as `Array.prototype.sort` sorts strings.
   */
  function Categories(quotes: seq<Quote>): (r: seq<string>)
    ensures Sorted(r)
    ensures NoDuplicates(r)
    ensures forall c :: c in r <==> HasCategory(quotes, c)
  {
    Sort(Dedup(Labels(quotes)))
  }

  /**
   * The drop-down value after its options are rebuilt: the previous choice
   * if it is still offered, otherwise the first option, `'all'`.
   */
  function RestoreSelection(categories: seq<string>, current: string): (r: string)
    ensures r == All || r in categories
    ensures FilterValue(current) == All || FilterValue(current) in categories ==> r == FilterValue(current)
    ensures FilterValue(current) != All && FilterValue(current) !in categories ==> r == All
  {
    var selected := FilterValue(current);
    if selected == All || selected in categories then selected else All
  }

  /** `Math.floor(x * n)` for a draw `x` of `Math.random()`. */
  function ScaledIndex(x: real, n: nat): (k: nat)
    requires 0.0 <= x < 1.0 && n > 0
    ensures k < n
    ensures k as real <= x * n as real < k as real + 1.0
  {
    assert x * n as real < n as real;
    (x * n as real).Floor
  }

  /** A quote chosen for display, with its position in the collection. */
  datatype Pick = Pick(quote: Quote, position: nat)

  /**
   * `showRandomQuote`, with the draw of `Math.random()` as the parameter `x`:
   * nothing when the filter admits no quote, otherwise an admitted quote and
   * its position in the collection.
   */
  function PickRandom(quotes: seq<Quote>, selected: string, x: real): (r: Option<Pick>)
    requires 0.0 <= x < 1.0
    ensures r == None <==> FilteredQuotes(quotes, selected) == []
    ensures r.Some? ==> && r.value.position < |quotes|
                        && quotes[r.value.position] == r.value.quote
                        && Admits(FilterValue(selected), r.value.quote)
  {
    var list := FilteredQuotes(quotes, selected);
    if list == [] then None
    else
      var k := ScaledIndex(x, |list|);
      Some(Pick(list[k], ListedPositions(quotes, selected)[k]))
  }

  /** The draw k/n lands on index k. */
  lemma ScaledFraction(k: nat, n: nat)
    requires k < n
    ensures 0.0 <= k as real / n as real < 1.0
    ensures ScaledIndex(k as real / n as real, n) == k
  {
    var x := k as real / n as real;
    assert x * n as real == k as real;
  }

  /** Each admitted quote is the pick for some draw: the k-th listed quote for the draw k/n. */
  lemma EveryListedQuoteCanBePicked(quotes: seq<Quote>, selected: string, k: nat)
    requires k < |FilteredQuotes(quotes, selected)|
    ensures var list := FilteredQuotes(quotes, selected);
            var x := k as real / |list| as real;
            && 0.0 <= x < 1.0
            && PickRandom(quotes, selected, x) == Some(Pick(list[k], ListedPositions(quotes, selected)[k]))
  {
    ScaledFraction(k, |FilteredQuotes(quotes, selected)|);
  }

  /** Draw `x` falls in the k-th of `n` equal slots of `[0, 1)` once scaled: `k <= x * n < k + 1`. */
  predicate InSlot(x: real, n: nat, k: nat) {
    k as real <= x * n as real < k as real + 1.0
  }

  /**
   * The draw decides the pick: every `x` in the k-th of the `n` equal slots of
   * `[0, 1)` selects the k-th listed quote, so each listed quote is picked for
   * a share `1 / n` of the draws.
   */
  lemma DrawPicksScaledIndex(quotes: seq<Quote>, selected: string, x: real, k: nat)
    requires 0.0 <= x < 1.0
    requires k < |FilteredQuotes(quotes, selected)|
    requires InSlot(x, |FilteredQuotes(quotes, selected)|, k)
    ensures var list := FilteredQuotes(quotes, selected);
            PickRandom(quotes, selected, x) == Some(Pick(list[k], ListedPositions(quotes, selected)[k]))
  {
    ScaledIndexUnique(x, |FilteredQuotes(quotes, selected)|, k);
    PickAtScaledIndex(quotes, selected, x);
  }

  /** A non-empty listing yields the listed quote at the scaled draw. */
  lemma PickAtScaledIndex(quotes: seq<Quote>, selected: string, x: real)
    requires 0.0 <= x < 1.0
    requires FilteredQuotes(quotes, selected) != []
    ensures var list := FilteredQuotes(quotes, selected);
            var k := ScaledIndex(x, |list|);
            PickRandom(quotes, selected, x) == Some(Pick(list[k], ListedPositions(quotes, selected)[k]))
  {
  }

  /** `Math.floor(x * n)` is the only slot the draw falls in. */
  lemma ScaledIndexUnique(x: real, n: nat, k: nat)
    requires 0.0 <= x < 1.0 && n > 0
    requires InSlot(x, n, k)
    ensures ScaledIndex(x, n) == k
  {
    var j := ScaledIndex(x, n);
    assert j as real < k as real + 1.0 && k as real < j as real + 1.0;
  }
}
