# Product catalog view-model, in Dafny

This project models the logic inside the product management component
`src/Product.jsx`. That component is a client-side catalog screen with a
search box, a paginated list and an add/edit dialog with validation. The model
has six modules in five files:

- **Strings**, in `builtins.dfy`: the string built-ins the component calls.
  `toLowerCase` covers ASCII letters only. `includes` is a left-to-right
  scan, proved equal to "occurs at some position". `trim` uses the
  ECMAScript whitespace and line-terminator code points.
- **Numbers**, in `builtins.dfy`: a JavaScript number (NaN, finite or
  infinite) and the two comparisons with 0 that the validator makes, where
  NaN compares false.
- **Catalog**, in `catalog.dfy`: the product records and the pure list
  operations. Insert stamps the record with `max(ids, 0) + 1` and appends it.
  Replace-by-id is the `products.map(...)` rewrite. Search keeps the records
  whose lower-cased name includes the lower-cased query.
- **Pagination**, in `pagination.dfy`: the page count `ceil(n / perPage)`,
  the page window as `Array.prototype.slice` computes it, negative bounds
  included, and the previous/next clamps.
- **ProductForm**, in `product_form.dfy`: the five text fields, the four
  validation rules with their messages, the coercion of a valid form into a
  record, and the form the edit dialog opens with.
- **ProductManagement**, in `product_management.dfy`: the component's state
  as a class `ProductManager`, with one method per event handler. Its
  invariant `Valid()` says four things:
  - ids are unique;
  - the page is at least 1;
  - the page size is one of 5, 10 or 20;
  - a record being edited still has its id in the catalog.

  Every handler preserves `Valid()`. The runtime's `parseFloat`, `parseInt`
  and `Number.prototype.toString` are constructor parameters. Only
  `ProductForm.EditRoundTrip` assumes anything about them: that the parsers
  read back what `toString` wrote, and that `toString` of the stock is not
  empty.

## Model

| member | source | states |
|---|---|---|
| Strings.LowerChar | src/Product.jsx:54 | a lowered character is never an ASCII capital; capitals move 32 code points up to their small letter, everything else is unchanged |
| Strings.Lower | src/Product.jsx:54 | `toLowerCase()` keeps the length and lowers every character in its place |
| Strings.LowerIdempotent | src/Product.jsx:54 | lowering an already lowered string changes nothing |
| Strings.Includes | src/Product.jsx:54 | `includes` as a scan over start positions; what it means is stated by `Strings.IncludesIffOccurs` |
| Strings.IncludesIffOccurs | src/Product.jsx:54 | the `includes` scan succeeds exactly when the substring occurs at some position of the string |
| Strings.TrimStart | src/Product.jsx:68 | the leading-whitespace pass of `trim()` drops only whitespace from the front and returns a suffix that does not begin with whitespace |
| Strings.TrimEnd | src/Product.jsx:68 | the trailing-whitespace pass of `trim()` drops only whitespace from the back and returns a prefix that does not end with whitespace |
| Strings.Trim | src/Product.jsx:68 | `trim()` is no longer than the text, and a non-empty result neither begins nor ends with whitespace |
| Strings.Blank | src/Product.jsx:68 | `!s.trim()` holds exactly when every character of the text is whitespace |
| Strings.TrimEmptyIffBlank | src/Product.jsx:68-76 | `trim()` gives the empty string exactly when every character is whitespace, which is what `!s.trim()` checks |
| Numbers.IsAtMostZero | src/Product.jsx:72 | `x <= 0` on a JavaScript number, false for NaN; its effect on validation is stated by `ProductForm.NaNTripsNoRule` |
| Numbers.IsNegative | src/Product.jsx:80 | `x < 0` on a JavaScript number, false for NaN; its effect on validation is stated by `ProductForm.NaNTripsNoRule` |
| Catalog.MaxId | src/Product.jsx:109 | the result is at least 0 and at least every id, and it is 0 or the id of some record: the maximum of the ids and 0 |
| Catalog.NextId | src/Product.jsx:109 | the id a new record gets is at least 1 and above every id in the catalog |
| Catalog.NextIdIsFresh | src/Product.jsx:107-110 | the next id is 1 on an empty catalog, larger than every existing id, and otherwise one more than the largest positive id |
| Catalog.WithInserted | src/Product.jsx:107-111 | `[...products, newProduct]` is one record longer, keeps the old list as its prefix, and ends with the draft's fields under an id no old record has |
| Catalog.InsertAppendsFreshRecord | src/Product.jsx:106-111 | insert grows the list by one, keeps every earlier record in place, puts the draft last under the next id, and keeps ids unique |
| Catalog.WithReplaced | src/Product.jsx:102-104 | the `products.map` rewrite keeps the length and the id at every position |
| Catalog.ReplaceKeepsShape | src/Product.jsx:102-104 | replace keeps the length and every id at its position; records with the id get the draft's fields, the others are untouched; ids stay unique |
| Catalog.ReplaceMissingIsNoOp | src/Product.jsx:102-104 | with no record carrying the id, replace returns the list unchanged |
| Catalog.ReplaceOnlyMatch | src/Product.jsx:102-104 | with unique ids, replacing the id at position k changes position k alone |
| Catalog.QueryCaseIrrelevant | src/Product.jsx:54 | the case of the search query does not matter: the lowered query matches exactly the names the query matches |
| Catalog.NameMatches | src/Product.jsx:54 | the search condition on one record; `Catalog.FilterMembership` and `Catalog.FilterEmptyQuery` state its effect |
| Catalog.Filter | src/Product.jsx:52-56 | the filtered list is no longer than the catalog and holds only catalog records whose name matches |
| Catalog.FilterMembership | src/Product.jsx:52-56 | a record is in the filtered list exactly when it is in the catalog and its name matches |
| Catalog.FilterKeepsOrder | src/Product.jsx:52-56 | the filtered list picks catalog positions in increasing order, and a position is picked exactly when its record matches |
| Catalog.FilterEmptyQuery | src/Product.jsx:53-55 | the empty query returns the whole catalog, unchanged and in order |
| Catalog.FilterAppend | src/Product.jsx:53-55 | filtering a concatenation is the concatenation of the filtered parts |
| Catalog.FilterIdempotent | src/Product.jsx:53-55 | filtering an already filtered list changes nothing |
| Catalog.FilterAfterInsert | src/Product.jsx:107-111 | after an insert the filtered list is the old filtered list, followed by the new record when its name matches |
| Pagination.TotalPages | src/Product.jsx:59 | the page count as ceiling division; its meaning is stated by `Pagination.TotalPagesIsCeiling` |
| Pagination.TotalPagesIsCeiling | src/Product.jsx:59 | the page count is 0 exactly for 0 records; it is the least count of pages of `perPage` records that holds all records |
| Pagination.SliceBound | src/Product.jsx:62 | a slice bound resolves into `[0, len]`, and a non-negative bound is clamped to the length |
| Pagination.Slice | src/Product.jsx:62 | `slice(start, end)`; what it returns is stated by `Pagination.SliceIsClampedStretch` |
| Pagination.SliceIsClampedStretch | src/Product.jsx:62 | a slice is no longer than the list; between non-negative bounds it is the stretch from `start` up to `end`, each clamped to the length, and empty when the clamped end is not past the clamped start |
| Pagination.Window | src/Product.jsx:60-62 | the records on one page; `Pagination.WindowIsContiguous` and `Pagination.WindowOfPage` state what they are |
| Pagination.WindowIsContiguous | src/Product.jsx:60-62 | a page window holds at most `perPage` records and is one contiguous stretch of the filtered list |
| Pagination.WindowOfPage | src/Product.jsx:59-62 | from page 1 on, the window is `[(page-1)*perPage, page*perPage)` clamped to the list; it is non-empty exactly for pages 1 to totalPages and full before the last page |
| Pagination.PagesArePrefix | src/Product.jsx:60-62 | pages 1 to k laid end to end are the first `min(k*perPage, n)` records |
| Pagination.PagesReassemble | src/Product.jsx:59-62 | pages 1 to totalPages laid end to end give back the filtered list exactly, with no gap and no overlap |
| Pagination.PrevPage | src/Product.jsx:343 | "previous" never goes below 1; it goes one page back from any page above 1 and gives 1 from page 1 or below |
| Pagination.NextPage | src/Product.jsx:367 | "next" never goes above totalPages; it goes one page on from any page below totalPages and gives totalPages from that page or any later one |
| Pagination.NavigationStaysInRange | src/Product.jsx:343-369 | from a page in `[1, totalPages]` both buttons stay in range; a button pressed at the bound where it is disabled leaves the page unchanged |
| ProductForm.FormData.Set | src/Product.jsx:162 | editing a field changes that field only |
| ProductForm.Errors | src/Product.jsx:65-83 | the error map as a definition, one message per failed rule; `ProductForm.ErrorsReportEveryDefect` states its content |
| ProductForm.ErrorsReportEveryDefect | src/Product.jsx:65-83 | the error map has an entry, with its rule's message, for every field that fails its rule and for no other |
| ProductForm.ErrorsInSteps | src/Product.jsx:66-83 | recording the four rules one after another, in source order, builds exactly the error map |
| ProductForm.ValidIffNoDefect | src/Product.jsx:85 | the error map is empty exactly when the name and category are not blank, the price is non-empty and not at most 0, and the stock is empty or not below 0 |
| ProductForm.NaNTripsNoRule | src/Product.jsx:72-82 | a non-empty price text that parses to NaN records no price error, and a stock text that parses to NaN records no stock error |
| ProductForm.RulesIndependentOfParser | src/Product.jsx:68-82 | whatever the parser returns: an empty price is an error, an empty stock is not, the description never is, and the name and category errors come from `trim() == ""` |
| ProductForm.ErrorsFromChecks | src/Product.jsx:66-83 | given the outcome of each of the four rules, the error map is those outcomes recorded one after another |
| ProductForm.RuleFails | src/Product.jsx:68-82 | each of the four `if` conditions of `validateForm` holds exactly when its field fails its rule; the description has no check |
| ProductForm.CheckRules | src/Product.jsx:65-83 | the four checks, none skipped, give exactly the error map |
| ProductForm.ToDraft | src/Product.jsx:94-98 | the `productData` coercion; `ProductForm.DraftCarriesForm` and `ProductForm.EditRoundTrip` state its properties |
| ProductForm.DraftCarriesForm | src/Product.jsx:94-98 | the committed record keeps the form's name, category and description, and an empty stock field becomes stock 0 |
| ProductForm.FromProduct | src/Product.jsx:134-140 | the form the edit dialog opens with; `ProductForm.EditRoundTrip` states that committing it gives the record back |
| ProductForm.EditRoundTrip | src/Product.jsx:132-140 | saving an edit dialog left untouched gives back the record's own fields, provided the parsers read back what `toString` wrote and `toString` of the stock is not empty |
| ProductManagement.InitialIdsUnique | src/Product.jsx:5-18 | the sample catalog has unique ids |
| ProductManagement.InitialNextId | src/Product.jsx:5-18 | the first insert into the sample catalog receives id 13 |
| ProductManagement.TabletScenario | src/Product.jsx:107-111 | a "Tablet" added to the sample catalog gets id 13; it is listed last (page 3 at 5 per page, page 1 at 20) and is left out by the query "zzz" |
| ProductManagement.ProductManager.FilteredProducts | src/Product.jsx:52-56 | `filteredProducts` holds only records of the catalog |
| ProductManagement.ProductManager.PageCount | src/Product.jsx:59 | `totalPages` is 0 exactly when no record matches the query |
| ProductManagement.ProductManager.CurrentProducts | src/Product.jsx:60-62 | `currentProducts`, the window of the current page; `Pagination.WindowOfPage` states what it holds |
| ProductManagement.ProductManager.constructor | src/Product.jsx:21-39 | the component starts with the sample catalog, empty queries, page 1 of 5, a blank form, no errors and nothing being edited |
| ProductManagement.ProductManager.SetSearchTerm | src/Product.jsx:185 | typing changes only the raw search text |
| ProductManagement.ProductManager.Settle | src/Product.jsx:42-46 | settling publishes the raw text as the query and returns to page 1 |
| ProductManagement.ProductManager.GoPrevious | src/Product.jsx:343 | the page becomes `max(1, page-1)` |
| ProductManagement.ProductManager.GoNext | src/Product.jsx:367 | the page becomes `min(totalPages, page+1)`, which lies in `[1, totalPages]` |
| ProductManagement.ProductManager.GoToPage | src/Product.jsx:351-354 | a numbered button sets that page |
| ProductManagement.ProductManager.SetPageSize | src/Product.jsx:328-331 | the page size changes and the page returns to 1 |
| ProductManagement.ProductManager.OpenAdd | src/Product.jsx:118-129 | the form is blank, there are no errors, and nothing is being edited |
| ProductManagement.ProductManager.OpenEdit | src/Product.jsx:132-143 | the listed record becomes the edit target and the form holds its fields |
| ProductManagement.ProductManager.CloseModal | src/Product.jsx:146-157 | the form is blank, there are no errors, and no record is targeted; the catalog is outside the method's frame |
| ProductManagement.ProductManager.EditField | src/Product.jsx:160-167 | only the edited field changes; its message, if any, is blanked, and every other message stays |
| ProductManagement.ProductManager.ValidateForm | src/Product.jsx:65-86 | the stored errors are the form's error map, and the result is true exactly when that map is empty |
| ProductManagement.ProductManager.Insert | src/Product.jsx:106-111 | the catalog becomes the insert of the draft, and ids stay unique |
| ProductManagement.ProductManager.Replace | src/Product.jsx:100-104 | exactly the one position holding the id is rewritten with the draft |
| ProductManagement.ProductManager.Submit | src/Product.jsx:89-115 | an invalid form records its errors and changes nothing else; a valid one replaces or inserts the coerced draft, then resets the form, the errors and the edit target; queries, page and page size are kept |

## Left out

- Rendering is not modelled: the layout, the CSS classes, the icons, the card/list toggle, the modal-open flag, the result count line and the "No products found" branch.
- The debounce timer is not modelled: `setTimeout`, `clearTimeout` and the 500 ms window belong to the scheduler. Only the settle event is modelled, as `Settle`, so "only the last of several keystrokes publishes" is not stated.
- `parseFloat`, `parseInt` and `Number.prototype.toString` are left as parameters; their definitions are outside this model. So the model does not say which texts give NaN. Nothing here claims that non-numeric price text is rejected: in the code `NaN <= 0` is false, so such a price records no error (src/Product.jsx:72).
- Floating point is not modelled: a finite price is a `real`, and `Math.ceil(n / perPage)` is exact integer ceiling division. Ids are unbounded integers: the 2^53 precision limit and the argument-count limit of `Math.max(...ids)` are not modelled.
- `toLowerCase` covers ASCII letters only. Characters are Unicode scalar values rather than UTF-16 code units, so surrogate pairs are not modelled.
- React's batching and re-rendering are not modelled. The setter calls of one handler become assignments in source order, and the last one wins, as in the source: `closeModal` clears the errors that `validateForm` stored. `useMemo` is a plain function of the state.
- `product.description || ''` is the identity here, because a record's description is always a string. A record without a description is not modelled.
- ProductManagement.ProductManager.GoNext requires a non-empty filtered list. The page controls are only rendered then (src/Product.jsx:320), and this keeps the page at 1 or more.
- ProductManagement.ProductManager.OpenEdit requires a record on the current page, because the edit buttons sit on those records only.
- The page is not clamped after the catalog changes, as in the code. An edit can leave the current page past `totalPages`, where `WindowOfPage` shows the window is empty.
- Validation reads stock with `parseFloat` (src/Product.jsx:80), but the commit stores `parseInt` of the same text (src/Product.jsx:97). Both parsers are separate, unconstrained parameters, so the model allows them to disagree about a text, but it does not say which texts those are: for example, `parseFloat(".5")` is 0.5 while `parseInt(".5")` is NaN.
