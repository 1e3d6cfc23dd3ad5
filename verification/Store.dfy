/**
 * The operations that change the collection: loading it at start-up,
 * adding a quote from the form, deleting a listed quote, and importing a
 * JSON file. Each is a pure function from the old collection to the new one;
 * a refused operation is a `Failure`, after which the collection is as before.
 */
module Store {
  import opened Wrappers
  import opened Text
  import opened Seqs
  import opened Quotes

  /** What `JSON.parse` made of a text: it threw, or it produced a non-array, or an array. */
  datatype Parsed<T> = Malformed | NotArray | Array(items: seq<T>)

  /** The collection after start-up, and whether the defaults were seeded (and saved). */
  datatype Loaded = Loaded(quotes: seq<Quote>, seeded: bool)

  /**
   * `loadQuotes`: `raw` is the stored text (`None` when nothing is stored) and
   * `parse` stands for `JSON.parse`. A stored array is used as it is; an absent
   * or empty text, a parse failure and a non-array all fall back to the four
   * defaults.
   */
  function Load(raw: Option<string>, parse: string -> Parsed<Quote>): (r: Loaded)
    ensures !r.seeded <==> raw.Some? && raw.value != [] && parse(raw.value).Array?
    ensures !r.seeded ==> r.quotes == parse(raw.value).items
    ensures r.seeded ==> r.quotes == Defaults && |r.quotes| == 4
  {
    if raw.Some? && raw.value != [] then
      match parse(raw.value)
      case Array(items) => Loaded(items, false)
      case _ => Loaded(Defaults, true)
    else Loaded(Defaults, true)
  }

  /**
   * Whatever list `saveQuotes` last wrote is what the next start-up loads, as
   * long as the saved text parses back to the saved list: the defaults are not
   * seeded again over a saved collection, even an empty one.
   */
  lemma LoadRestoresSaved(saved: seq<Quote>, parse: string -> Parsed<Quote>, stringify: seq<Quote> -> string)
    requires forall qs :: stringify(qs) != [] && parse(stringify(qs)) == Array(qs)
    ensures Load(Some(stringify(saved)), parse) == Loaded(saved, false)
  {
  }

  /** Why the add form was refused. */
  datatype AddError = MissingText | MissingCategory

  /**
   * `addQuoteFromForm`, with the two input fields as parameters. Text and
   * category are trimmed and the category lower-cased; a blank text is
   * refused first, then a blank category; otherwise the new quote is appended.
   */
  function AddQuote(quotes: seq<Quote>, textField: string, categoryField: string): (r: Result<seq<Quote>, AddError>)
    ensures r.Failure? <==> IsBlank(textField) || IsBlank(categoryField)
    ensures IsBlank(textField) ==> r == Failure(MissingText)
    ensures !IsBlank(textField) && IsBlank(categoryField) ==> r == Failure(MissingCategory)
    ensures r.Success? ==>
              && |r.value| == |quotes| + 1
              && r.value[..|quotes|] == quotes
              && var q := r.value[|quotes|];
                 && q.text == Trim(textField) && q.text != []
                 && q.category.Some? && q.category.value != [] && IsLower(q.category.value)
                 && q.category == Some(Lower(Trim(categoryField)))
                 && |q.category.value| == |Trim(categoryField)|
                 && EffectiveCategory(q) == q.category.value
  {
    var text := Trim(textField);
    var category := Lower(Trim(categoryField));
    if text == [] then Failure(MissingText)
    else if category == [] then Failure(MissingCategory)
    else
      assert (quotes + [Quote(text, Some(category))])[..|quotes|] == quotes;
      Success(quotes + [Quote(text, Some(category))])
  }

  /** Input that is already trimmed and in lower case is stored exactly as typed. */
  lemma AddStoresNormalisedInput(quotes: seq<Quote>, textField: string, categoryField: string)
    requires Trim(textField) == textField != []
    requires Trim(categoryField) == categoryField != [] && IsLower(categoryField)
    ensures AddQuote(quotes, textField, categoryField) == Success(quotes + [Quote(textField, Some(categoryField))])
  {
    LowerKeepsLower(categoryField);
  }

  /**
   * `s.splice(start, 1)`: removes the element at `start`, counting a negative
   * start from the end; a start at or past the end removes nothing.
   */
  function Splice1<T>(s: seq<T>, start: int): (r: seq<T>)
    ensures 0 <= start < |s| ==>
              && |r| == |s| - 1
              && r[..start] == s[..start]
              && forall i :: start <= i < |r| ==> r[i] == s[i + 1]
    ensures start >= |s| ==> r == s
    ensures -|s| <= start < 0 ==> r == s[..|s| + start] + s[|s| + start + 1..]
    ensures start < -|s| && s != [] ==> r == s[1..]
  {
    var k := if start < 0 then (if |s| + start < 0 then 0 else |s| + start) else start;
    if k < |s| then s[..k] + s[k + 1..] else s
  }

  /**
   * The delete button of a listed quote: after the user confirms, the quote
   * at `position` is spliced out; without confirmation nothing changes.
   */
  function DeleteQuote(quotes: seq<Quote>, position: nat, confirmed: bool): (r: seq<Quote>)
    ensures !confirmed || position >= |quotes| ==> r == quotes
    ensures confirmed && position < |quotes| ==>
              && |r| == |quotes| - 1
              && r[..position] == quotes[..position]
              && r[position..] == quotes[position + 1..]
  {
    if confirmed then Splice1(quotes, position) else quotes
  }

  /** Deleting the quote just added gives back the collection as it was. */
  lemma DeleteUndoesAdd(quotes: seq<Quote>, textField: string, categoryField: string)
    requires AddQuote(quotes, textField, categoryField).Success?
    ensures DeleteQuote(AddQuote(quotes, textField, categoryField).value, |quotes|, true) == quotes
  {
    var added := AddQuote(quotes, textField, categoryField).value;
    assert added[..|quotes|] == quotes;
  }

  /**
   * A property of an imported JSON record as `item.x || d` sees it: falsy
   * (absent, `null`, `false`, `0`, `NaN`, `""`) or truthy, carried with the
   * text its `toString()` gives.
   */
  datatype Field = Falsy | Truthy(shown: string)

  /**
   * An element of an imported array as the sanitising `map` sees it. `Throwing`
   * is an element on which that step throws: `null` (reading its `text`
   * throws), or a record whose truthy `text` or `category` has a `toString`
   * that is not a function, throws, or gives no string (so the following
   * `trim` or `toLowerCase` throws). Every other element is an `Item`.
   */
  datatype RawItem = Throwing | Item(text: Field, category: Field)

  /** The record `importFromJsonFile` maps one array element to. */
  function SanitizeItem(item: RawItem): (q: Quote)
    requires item.Item?
    ensures q.category.Some? && IsLower(q.category.value)
    ensures item.text.Falsy? ==> q.text == []
    ensures item.text.Truthy? ==> q.text == item.text.shown
    ensures item.category.Falsy? ==> q.category == Some(Uncategorized)
    ensures item.category.Truthy? ==> q.category == Some(Lower(item.category.shown))
  {
    assert IsLower(Uncategorized);
    LowerKeepsLower(Uncategorized);
    var text := if item.text.Truthy? then item.text.shown else "";
    var category := if item.category.Truthy? then item.category.shown else Uncategorized;
    Quote(text, Some(Lower(category)))
  }

  /** The `filter(it => it.text.trim())` test: the trimmed text is a non-empty, truthy string. */
  function HasText(q: Quote): (b: bool)
    ensures b <==> !IsBlank(q.text)
  {
    Trim(q.text) != []
  }

  /** The `parsed.map(...)` step, for an array on which it does not throw. */
  function SanitizeEach(items: seq<RawItem>): (r: seq<Quote>)
    requires Throwing !in items
    ensures |r| == |items|
    ensures forall i :: 0 <= i < |items| ==> r[i] == SanitizeItem(items[i])
  {
    seq(|items|, i requires 0 <= i < |items| => SanitizeItem(items[i]))
  }

  /** `parsed.map(...).filter(...)`, for an array on which the map does not throw. */
  function Sanitize(items: seq<RawItem>): (r: seq<Quote>)
    requires Throwing !in items
    ensures |r| <= |items|
    ensures forall q :: q in r ==> !IsBlank(q.text) && q.category.Some? && IsLower(q.category.value)
    ensures forall i :: 0 <= i < |items| && HasText(SanitizeItem(items[i])) ==> SanitizeItem(items[i]) in r
    ensures PicksAt(r, SanitizeEach(items), KeptPositions(SanitizeEach(items), HasText))
  {
    var mapped := SanitizeEach(items);
    forall i | 0 <= i < |items| ensures SanitizeItem(items[i]) in mapped {
      assert mapped[i] == SanitizeItem(items[i]);
    }
    forall q | q in mapped ensures q.category.Some? && IsLower(q.category.value) {
      var i :| 0 <= i < |items| && mapped[i] == q;
    }
    FilterPicksKeptPositions(mapped, HasText);
    Filter(mapped, HasText)
  }

  /** Why an import was refused. */
  datatype ImportError = Unreadable | NotAnArray | NoValidQuotes

  /** The collection after an import, and how many quotes it admitted. */
  datatype Imported = Imported(quotes: seq<Quote>, admitted: nat)

  /**
   * `importFromJsonFile`, from the parsed file on. A parse failure, or an
   * element on which sanitising throws (`null`, or a field whose `toString`
   * fails), is caught and refuses the whole file; so does a non-array, and an
   * array without one usable quote.
   * Otherwise every usable record is appended, in file order.
   */
  function Import(quotes: seq<Quote>, parsed: Parsed<RawItem>): (r: Result<Imported, ImportError>)
    ensures parsed.Malformed? ==> r == Failure(Unreadable)
    ensures parsed.NotArray? ==> r == Failure(NotAnArray)
    ensures parsed.Array? && Throwing in parsed.items ==> r == Failure(Unreadable)
    ensures parsed.Array? && Throwing !in parsed.items && r.Failure? ==> r.error == NoValidQuotes
    ensures r.Success? <==>
              && parsed.Array? && Throwing !in parsed.items
              && exists i :: 0 <= i < |parsed.items| && HasText(SanitizeItem(parsed.items[i]))
    ensures r.Success? ==>
              && parsed.Array?
              && 1 <= r.value.admitted <= |parsed.items|
              && |r.value.quotes| == |quotes| + r.value.admitted
              && r.value.quotes[..|quotes|] == quotes
              && forall q :: q in r.value.quotes[|quotes|..] ==>
                   !IsBlank(q.text) && q.category.Some? && IsLower(q.category.value)
  {
    match parsed
    case Malformed => Failure(Unreadable)
    case NotArray => Failure(NotAnArray)
    case Array(items) =>
      if Throwing in items then Failure(Unreadable) else ImportArray(quotes, items)
  }

  /** The array case of `Import`, once no element throws. */
  function ImportArray(quotes: seq<Quote>, items: seq<RawItem>): (r: Result<Imported, ImportError>)
    requires Throwing !in items
    ensures r.Failure? ==> r.error == NoValidQuotes
    ensures r.Success? <==> exists i :: 0 <= i < |items| && HasText(SanitizeItem(items[i]))
    ensures r.Success? ==>
              && 1 <= r.value.admitted <= |items|
              && |r.value.quotes| == |quotes| + r.value.admitted
              && r.value.quotes[..|quotes|] == quotes
              && forall q :: q in r.value.quotes[|quotes|..] ==>
                   !IsBlank(q.text) && q.category.Some? && IsLower(q.category.value)
  {
    var added := Sanitize(items);
    if added == [] then
      assert forall i :: 0 <= i < |items| ==> !HasText(SanitizeItem(items[i]));
      Failure(NoValidQuotes)
    else
      var i := KeptPositions(SanitizeEach(items), HasText)[0];
      assert HasText(SanitizeItem(items[i]));
      assert (quotes + added)[..|quotes|] == quotes;
      assert (quotes + added)[|quotes|..] == added;
      Success(Imported(quotes + added, |added|))
  }

  /**
   * A successful import appends the sanitised records of exactly the array
   * elements with non-blank text, in file order.
   */
  lemma ImportAppendsUsableRecordsInOrder(quotes: seq<Quote>, items: seq<RawItem>)
    requires Throwing !in items
    ensures Import(quotes, Array(items)).Success? ==>
              var r := Import(quotes, Array(items)).value;
              var positions := KeptPositions(SanitizeEach(items), HasText);
              && PicksAt(r.quotes[|quotes|..], SanitizeEach(items), positions)
              && r.admitted == |positions|
              && forall i :: 0 <= i < |items| ==> (i in positions <==> HasText(SanitizeItem(items[i])))
  {
    if Import(quotes, Array(items)).Success? {
      var r := Import(quotes, Array(items)).value;
      assert r.quotes == quotes + Sanitize(items);
      assert r.quotes[|quotes|..] == Sanitize(items);
    }
  }
}
