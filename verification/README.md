# Dynamic Quote Generator — a Dafny model of its quote list

The Dynamic Quote Generator is a single-page script (`dom-manipulation/script.js`)
that keeps a list of quotes, each a text with an optional category. It shows a
random quote from a category filter, lists the quotes under that filter, offers
the distinct categories in a drop-down, adds quotes typed into a form, deletes a
listed quote, and imports quotes from a JSON file. It keeps the list in
`localStorage` and seeds it with four default quotes when nothing usable is stored.

This project models the logic under that page wiring as pure functions on an
immutable `seq<Quote>`:

| module | file | what it holds |
|---|---|---|
| `Wrappers` | Wrappers.dfy | `Option` and `Result` |
| `Text` | Text.dfy | `String.prototype.trim` with the ECMAScript white-space and line-terminator set; ASCII `toLowerCase` |
| `Seqs` | Seqs.dfy | order-preserving filter with the positions it keeps; first-occurrence de-duplication |
| `Lex` | Lex.dfy | a code-point string order standing in for the UTF-16 order of `sort()`, and an insertion sort |
| `Html` | Html.dfy | `escapeHtml` as four chained `replace` passes, a one-pass reference definition, and an unescaper |
| `Quotes` | Quotes.dfy | the `Quote` record, the effective category (`category \|\| 'uncategorized'`), the four default quotes |
| `Views` | Views.dfy | the category filter, the sorted category list, restoring the drop-down choice, the random pick |
| `Store` | Store.dfy | loading at start-up, adding from the form, deleting a listed quote, importing a file |
| `Scenarios` | Scenarios.dfy | whole sessions on concrete input |

Browser input becomes parameters:
- The filter drop-down value and the two form fields are strings.
- The stored text is an `Option<string>`.
- `JSON.parse` is a function parameter (for loading) or a three-way `Parsed` value (for importing).
- The `confirm` answer is a `bool`.
- The draw of `Math.random()` is a real `x` with `0 <= x < 1`.

A refused operation (an `alert` in the page) is a `Failure` carrying the reason.
The collection is unchanged after one, because the new collection exists only
in a `Success`.

The page recovers a listed quote's position with `quotes.indexOf(q)`. Every
record in the collection is a distinct object, so that is the position the
quote was listed from. The model carries that position explicitly
(`Views.ListedPositions`, `Views.Pick.position`).

A quote whose category is literally `all` is listed under the `all` option
like every other quote. Choosing that option shows the whole collection,
because `'all'` is the no-filter value (lines 85-86). The model keeps this
behaviour.

The script has no quote ids, authors, editing or server synchronisation, so
neither does the model. Imported text is kept untrimmed: only the blank check
trims it.

## Model

| member | source | states |
|---|---|---|
| Text.Trim | dom-manipulation/script.js:112 | `trim()` never lengthens a string and leaves no white space at either end; the result is empty exactly when the input is all white space |
| Text.TrimIsInfix | dom-manipulation/script.js:112 | the trimmed text is the input with only white space removed before and after it |
| Text.TrimKeepsTrimmed | dom-manipulation/script.js:112 | text with no white space at either end is returned as it is |
| Text.LowerChar | dom-manipulation/script.js:113 | an upper-case ASCII letter maps to its lower-case letter; every other character is unchanged |
| Text.Lower | dom-manipulation/script.js:113 | `toLowerCase()` keeps the length, lowers each upper-case letter in place, and leaves no upper-case letter |
| Text.LowerKeepsLower | dom-manipulation/script.js:186 | lower-case text, such as the default `'uncategorized'`, is unchanged by `toLowerCase()` |
| Seqs.Filter | dom-manipulation/script.js:87 | `filter` keeps exactly the elements the test accepts, and no more of them than there were |
| Seqs.FilterSnoc | dom-manipulation/script.js:87 | filtering a list with one more element at the end appends that element exactly when the test accepts it |
| Seqs.FilterRejectsAll | dom-manipulation/script.js:87 | a filter that accepts no element gives the empty list |
| Seqs.KeptPositions | dom-manipulation/script.js:188 | the positions of the accepted elements, strictly increasing, covering every accepted position |
| Seqs.FilterPicksKeptPositions | dom-manipulation/script.js:87 | the filtered list is the input restricted to the accepted positions, in input order |
| Seqs.ConsNoDuplicates | dom-manipulation/script.js:64 | putting a new value in front of a duplicate-free list keeps it duplicate-free |
| Seqs.Dedup | dom-manipulation/script.js:64 | `Array.from(new Set(...))`: no value twice, and the same values as the input |
| Seqs.FirstAtPrefix | dom-manipulation/script.js:64 | whether a position holds the first occurrence of its value does not depend on what follows it |
| Seqs.FirstPositions | dom-manipulation/script.js:64 | the positions holding the first occurrence of their value, strictly increasing, covering every such position |
| Seqs.DedupKeepsFirstOccurrences | dom-manipulation/script.js:64 | the de-duplicated list is the input at exactly its first-occurrence positions, in input order, as a `Set` iterates in insertion order |
| Lex.BelowReflexive | dom-manipulation/script.js:64 | the code-point order standing in for that of `sort()` relates every string to itself |
| Lex.BelowTotal | dom-manipulation/script.js:64 | any two strings are comparable |
| Lex.BelowAntisymmetric | dom-manipulation/script.js:64 | strings ordered both ways are equal |
| Lex.BelowTransitive | dom-manipulation/script.js:64 | the order is transitive |
| Lex.Insert | dom-manipulation/script.js:64 | inserting into a sorted list keeps it sorted, adds exactly the new string, and keeps a list duplicate-free when the string is new |
| Lex.Sort | dom-manipulation/script.js:64 | `sort()` returns a sorted permutation of its input, duplicate-free if the input is |
| Html.ReplaceAll | dom-manipulation/script.js:205 | `replace(/c/g, rep)` for a replacement text without `$`, as all four at line 205 are: leaves no `c` when `rep` has none, and changes nothing when the input has no `c` |
| Html.ReplaceAllOnlyAdds | dom-manipulation/script.js:205 | a global replace introduces no character except those of the replacement text |
| Html.EscapeHtml | dom-manipulation/script.js:204-206 | the four chained passes leave no `<`, `>` or `"`, and return text without any of the four special characters unchanged |
| Html.ReplaceAllAppend | dom-manipulation/script.js:205 | a global replace distributes over concatenation |
| Html.EscapeHtmlAppend | dom-manipulation/script.js:204-206 | `escapeHtml` distributes over concatenation |
| Html.EscapeHtmlChar | dom-manipulation/script.js:204-206 | on one character, the four passes give that character's entity, or the character itself when it is not special |
| Html.EscapeHtmlIsEscapeEach | dom-manipulation/script.js:204-206 | the four chained passes equal replacing each character by its entity in one pass; replacing `&` first means no entity is escaped twice |
| Html.UnescapeEntity | dom-manipulation/script.js:204-206 | decoding an escaped character followed by more text yields that character followed by the decoding of the rest |
| Html.UnescapeEscapeHtml | dom-manipulation/script.js:204-206 | decoding the escaped text gives back the original: escaping loses nothing |
| Html.UnescapeEscapeEach | dom-manipulation/script.js:204-206 | the same round trip for the one-pass reference definition |
| Html.AmpersandsBeginEntities | dom-manipulation/script.js:204-206 | every `&` in escaped text begins `&amp;`, `&lt;`, `&gt;` or `&quot;` |
| Html.EachAmpersandBeginsEntity | dom-manipulation/script.js:204-206 | the same for the one-pass definition |
| Html.ApostropheKept | dom-manipulation/script.js:204-206 | `'` is not escaped: it appears in the output exactly when it appears in the input |
| Html.EachKeepsApostrophe | dom-manipulation/script.js:204-206 | the same for the one-pass definition |
| Quotes.EffectiveCategory | dom-manipulation/script.js:87 | a quote's grouping label is never empty: its category when that is non-empty, otherwise `'uncategorized'` |
| Views.FilterValue | dom-manipulation/script.js:85 | an empty drop-down value means `'all'`; any other value is used as it is |
| Views.EmptyFilterListsAll | dom-manipulation/script.js:85-86 | an empty drop-down value lists the whole collection unchanged |
| Views.FilteredQuotes | dom-manipulation/script.js:84-88 | under `'all'` the whole list, unchanged; otherwise exactly the quotes whose effective category is the filter |
| Views.ListedPositions | dom-manipulation/script.js:84-88 | the filtered list is the collection restricted to exactly the admitted positions, in collection order |
| Views.Labels | dom-manipulation/script.js:64 | `map` gives each quote's effective category at that quote's position, so a label occurs exactly when some quote has it |
| Views.Categories | dom-manipulation/script.js:64 | the drop-down categories are sorted, duplicate-free, and exactly the effective categories of the collection |
| Views.RestoreSelection | dom-manipulation/script.js:63-74 | after the options are rebuilt the choice is `'all'` or an offered category: the previous choice when it is `'all'` or still offered, otherwise the first option, `'all'` |
| Views.ScaledIndex | dom-manipulation/script.js:96 | `Math.floor(x * n)` lies in `[0, n)` and is the whole part of `x * n` |
| Views.PickRandom | dom-manipulation/script.js:90-102 | no quote exactly when the filter admits none; otherwise a quote the filter admits, together with its position in the collection |
| Views.ScaledFraction | dom-manipulation/script.js:96 | the draw `k / n` scales to index `k` |
| Views.EveryListedQuoteCanBePicked | dom-manipulation/script.js:90-99 | every listed quote is the pick for some draw, with its collection position |
| Views.ScaledIndexUnique | dom-manipulation/script.js:96 | `Math.floor(x * n)` is the one whole number `k` with `k <= x * n < k + 1` |
| Views.DrawPicksScaledIndex | dom-manipulation/script.js:96-99 | every draw `x` in the k-th of `n` equal slots of `[0, 1)` (`k <= x * n < k + 1`) picks the k-th listed quote and its collection position, so each listed quote is picked for a share `1 / n` of the draws |
| Store.Load | dom-manipulation/script.js:42-52 | a stored text that parses to an array is used verbatim; an absent, empty, unparsable or non-array text gives exactly the four defaults, which are then saved |
| Store.AddQuote | dom-manipulation/script.js:109-124 | blank text is refused first, then a blank category; otherwise exactly one quote is appended, whose text is the trimmed field and whose category is the trimmed field lower-cased (non-empty, with no upper-case letter), and the earlier quotes are unchanged |
| Store.LoadRestoresSaved | dom-manipulation/script.js:42-58 | whatever list was last saved, including an empty one, is loaded back unchanged at the next start-up without seeding the defaults, when the saved text parses back to that list |
| Store.AddStoresNormalisedInput | dom-manipulation/script.js:112-117 | already trimmed, lower-case input is stored exactly as typed |
| Store.Splice1 | dom-manipulation/script.js:151 | `splice(start, 1)` removes the element at `start` and shifts the rest down; a start past the end removes nothing; a negative start counts from the end |
| Store.DeleteQuote | dom-manipulation/script.js:151 | a confirmed delete at a valid position removes that quote; earlier quotes stay and later ones shift down by one; otherwise nothing changes |
| Store.DeleteUndoesAdd | dom-manipulation/script.js:151 | deleting the quote just added restores the collection |
| Store.SanitizeItem | dom-manipulation/script.js:183-187 | an imported record keeps its text as given (empty when falsy); its category is the given one lower-cased, or `'uncategorized'` when falsy, and never has an upper-case letter |
| Store.HasText | dom-manipulation/script.js:188 | a record passes the `trim()` test exactly when its text is not all white space |
| Store.SanitizeEach | dom-manipulation/script.js:183-187 | the `map` step sanitises every element in place |
| Store.Sanitize | dom-manipulation/script.js:183-188 | the kept records have non-blank text and a lower-case category; every element with text is kept, in file order |
| Store.Import | dom-manipulation/script.js:178-198 | an unparsable file, an element on which sanitising throws (`null`, or a truthy `text` or `category` whose `toString` fails or gives no string), a non-array or an array without usable text is refused, the last with its own reason (`NoValidQuotes`, the alert of line 189); otherwise the usable records are appended after the unchanged old quotes |
| Store.ImportArray | dom-manipulation/script.js:183-190 | an array is accepted exactly when some element has non-blank text; the admitted count is between 1 and the array length |
| Store.ImportAppendsUsableRecordsInOrder | dom-manipulation/script.js:183-190 | the appended records are exactly the sanitised elements with non-blank text, in file order |
| Scenarios.FirstSessionAdd | dom-manipulation/script.js:109-124 | with nothing stored, start-up seeds the defaults and adding "Focus wins." under "discipline" makes five quotes |
| Scenarios.FirstSessionFilterAndDelete | dom-manipulation/script.js:84-88 | after that add, the "discipline" filter lists only the new quote, and deleting it restores the defaults |
| Scenarios.AddFocus | dom-manipulation/script.js:112-117 | the concrete add of that session succeeds with the input unchanged |
| Scenarios.FilterDiscipline | dom-manipulation/script.js:84-88 | filtering the defaults plus the quote "Focus wins." (category "discipline") by "discipline" lists exactly that quote |
| Scenarios.ImportOneOfTwo | dom-manipulation/script.js:180-190 | a file with one usable record and one with empty text admits exactly the usable one, with its category lower-cased |
| Scenarios.SanitizeOneOfTwo | dom-manipulation/script.js:183-188 | sanitising that file keeps only the first record |
| Scenarios.MapOneOfTwo | dom-manipulation/script.js:183-187 | the map step on that file |
| Scenarios.KeepFirstOfTwo | dom-manipulation/script.js:188 | the blank-text filter drops the empty record and keeps the other |

## Left out

- DOM rendering is not modelled: `displayQuote`, the quote list's HTML, the option elements, the capitalised option label of line 70, and the button wiring. It is presentation.
- The `alert` and `confirm` dialogs are not modelled. A refusal is a `Failure` with its reason, and the `confirm` answer is a parameter.
- `localStorage` and `sessionStorage` are not modelled. This covers `saveQuotes`, the remembered filter (lines 24 and 80), and the restore of the last viewed quote in `init` (lines 29-36). All of these are browser storage.
- Export (`exportQuotesAsJson`) and the `FileReader` plumbing of import are not modelled, including the early return without a file (line 176). These are browser I/O.
- `JSON.parse` is not modelled. The loader takes it as a function. Import takes its outcome as a `Parsed` value whose array elements either make the sanitising step throw or are a record with two fields, each falsy or truthy with the text its `toString()` gives.
- Store.Load: the elements of a stored array are taken to be quote records. The page uses whatever the stored array holds.
- Text.Lower: only ASCII letters are lowered. JavaScript's `toLowerCase` applies full Unicode case mapping, which is a large table.
- Text.Trim: the white-space set is the ECMAScript one with the space separators of current Unicode. A future Unicode version could change it.
- Lex.Sort: compares strings by code point. JavaScript compares UTF-16 code units, which orders differently only for characters outside the Basic Multilingual Plane.
- Views.ScaledIndex: computes with exact reals. The page multiplies binary floating-point numbers, whose rounding is not modelled.
- Views.PickRandom: returns the collection position of the listed quote. The page gets it from `indexOf`, which compares object references.
