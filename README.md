# Product list: a verified model of its view logic and table endpoints

The product list is a single-page catalogue: a React page lists products,
sorts them by a clicked column, edits them through one add/edit form, and
searches them as the user types, keeping the search term in the URL's `q`
parameter. A small FastAPI backend keeps the products in one MySQL table and
offers add, delete, edit and search endpoints.

This project models, in Dafny, the parts of that system that hold decisions:

- `products_db.dfy`, `add_delete.dfy`, `edit_search.dfy`: the `products`
  table as a map from product id to row, held by a `Database` object that the
  add, delete and edit endpoints change in place. Each endpoint is a method
  proved against a function that gives its reply and the new table. The
  search endpoint is a pure function from the table and the query to either
  the exact set of matching rows or an error status.
- `decimal.dfy`: Python's `str.isdigit`, `int(q)` and `str(n)` on ASCII
  digits, with the round trip between `str` and `int`.
- `js_text.dfy`: JavaScript's `trim`, `toLowerCase` and string `<`, with
  `<` proved a strict total order.
- `query_params.dfy`: `URLSearchParams` as an ordered list of name-value
  pairs (`delete`, `set`, `get`, `toString`), the browser's location and
  history, and `setQueryParam`.
- `product_sort.dfy`: the sort comparator behind `filteredProducts`, proved
  antisymmetric and transitive, and the sorted copy it produces.
- `app_state.dfy`: the component's state (`sortField`, `sortDirection`,
  `form`, `editId`, `products`, `message`, `error`, `filter`) as a class
  whose methods are the event handlers. Each handler takes the server's
  answer to the request it sends as a parameter.

Prices are whole cents in the model; the source uses floating-point numbers.
The add endpoint's INSERT names only the id, name, description and price
columns, so a new row's quantity is left unset (`None`). The edit endpoint
never changes it either. The model keeps this behaviour as written.

## Model

| member | source | states |
|---|---|---|
| `Decimal.NatToString` | backend/functions/add_delete.py:27 | the decimal text of a natural number is all digits, reads back as that number under `int`, and has no leading zero |
| `Decimal.IntToString` | backend/functions/add_delete.py:27 | the decimal text of any integer parses back to that integer; it starts with a minus exactly for a negative number, and its digits have no leading zero |
| `Decimal.IsDigits` | backend/functions/edit_search.py:31 | `isdigit` holds only for non-empty text, and never for a leading sign or space, which `int` alone would accept |
| `Decimal.DigitsValue` | backend/functions/edit_search.py:35 | `int(q)` of digit text is 0 exactly when every digit is '0' |
| `Decimal.DigitsRoundTrip` | backend/functions/edit_search.py:31-35 | for digit text without a leading zero, `str(int(q)) == q` |
| `Decimal.LeadingZerosIgnored` | backend/functions/edit_search.py:31-35 | `int(q)` ignores leading zeros, so a digit query such as "007" denotes id 7 |
| `ProductsDb.Database.constructor` | backend/functions/add_delete.py:8 | the shared table starts with the given rows |
| `AddDelete.InsertedRow` | backend/functions/add_delete.py:17 | an added row takes name, description and price from the request and leaves quantity unset |
| `AddDelete.Add` | backend/functions/add_delete.py:10-19 | adding fails with 400 exactly when the id is present, and then the table is unchanged; otherwise exactly one row with that id is added and every other row is unchanged |
| `AddDelete.AddProduct` | backend/functions/add_delete.py:10-19 | the endpoint's reply and new table are those of `Add` on the old table |
| `AddDelete.MissingIdDetailAsWritten` | backend/functions/add_delete.py:27 | the detail for an absent id, as written, holds the literal placeholder `{product_id}` |
| `AddDelete.MissingIdDetailAsWrittenIgnoresId` | backend/functions/add_delete.py:27 | the as-written detail is the same for every id |
| `AddDelete.MissingIdDetail` | backend/functions/add_delete.py:27 | the intended detail is the prefix, the requested id in decimal, and the suffix " doesn't exists."; the part between prefix and suffix parses back to the id |
| `AddDelete.MissingIdDetailNamesId` | backend/functions/add_delete.py:27 | the intended details of two different ids differ |
| `AddDelete.Delete` | backend/functions/add_delete.py:21-28 | after a delete no row has the id; the reply is success exactly when a row was removed, otherwise 400 with the table unchanged; other rows are unchanged |
| `AddDelete.DeleteProduct` | backend/functions/add_delete.py:21-28 | the endpoint's reply and new table are those of `Delete` on the old table |
| `AddDelete.AddThenDeleteRestores` | backend/functions/add_delete.py:17-24 | deleting a product just added succeeds and restores the original table |
| `AddDelete.AddTwiceRefused` | backend/functions/add_delete.py:13-16 | adding the same id again is refused with 400 and changes nothing |
| `AddDelete.DeleteTwiceRefused` | backend/functions/add_delete.py:24-27 | deleting the same id again is refused with 400 and changes nothing |
| `EditSearch.Edit` | backend/functions/edit_search.py:10-21 | an absent id gives 404 and an unchanged table; a present id gets the body's name, description and price while its quantity and every other row stay; a missing body gives 500 |
| `EditSearch.EditProduct` | backend/functions/edit_search.py:10-21 | the endpoint's reply and new table are those of `Edit` on the old table |
| `EditSearch.EditIgnoresBodyIdAndQuantity` | backend/functions/edit_search.py:18 | the path id chooses the row; the body's id and quantity make no difference |
| `EditSearch.EditIdempotent` | backend/functions/edit_search.py:18 | repeating an edit leaves the same table |
| `EditSearch.EditAfterAddKeepsQuantityUnset` | backend/functions/edit_search.py:18 | editing a freshly added product still leaves its quantity unset |
| `EditSearch.Search` | backend/functions/edit_search.py:23-50 | a missing or empty query gives 400; otherwise the result is exactly the matching rows, and 404 exactly when none matches |
| `EditSearch.Matches` | backend/functions/edit_search.py:31-40 | a digit query that reads as the row's id matches it; a query that starts the name or the description matches; a query longer than both texts matches only through the id |
| `EditSearch.TextQueryIgnoresId` | backend/functions/edit_search.py:36-40 | a query that is not all digits never consults the id |
| `EditSearch.PaddedIdQueryFindsProduct` | backend/functions/edit_search.py:31-35 | a digit query equal to an existing id, with any leading zeros, finds that product |
| `EditSearch.AddedProductFoundByName` | backend/functions/edit_search.py:31-40 | a product just added is found by searching for its non-empty name |
| `EditSearch.DeletedProductNotFound` | backend/functions/edit_search.py:42-50 | no search lists a deleted id |
| `JsText.Trim` | frontend/src/App.js:194 | the trimmed text is the part between the leading and trailing whitespace; it is empty exactly when the text is all whitespace, and otherwise starts and ends with a non-space |
| `JsText.TrimIdempotent` | frontend/src/App.js:218 | trimming an already trimmed value changes nothing |
| `JsText.ToLower` | frontend/src/App.js:113-114 | lower-casing keeps the length, lower-cases each character in its place, and leaves no upper-case ASCII letter |
| `JsText.LexLessIrreflexive` | frontend/src/App.js:116-117 | no string is below itself |
| `JsText.LexLessAsymmetric` | frontend/src/App.js:116-117 | no two strings are each below the other |
| `JsText.LexLessTransitive` | frontend/src/App.js:116-117 | string order is transitive |
| `JsText.LexLessTotal` | frontend/src/App.js:116-118 | two different strings are ordered one way or the other |
| `QueryParams.Get` | frontend/src/App.js:11-14 | `get` finds the first pair with the name, and nothing exactly when there is none |
| `QueryParams.Deleted` | frontend/src/App.js:18 | `delete` removes every pair with the name and keeps the pairs of every other name in order |
| `QueryParams.WithValue` | frontend/src/App.js:19 | `set` leaves exactly one pair with the name, holding the value, and keeps the pairs of every other name in order |
| `QueryParams.Updated` | frontend/src/App.js:16-21 | an empty value leaves the name absent; any other value becomes its only value; other names are untouched |
| `QueryParams.Serialize` | frontend/src/App.js:20 | the query text is empty exactly when there are no pairs |
| `QueryParams.UrlOf` | frontend/src/App.js:21 | the new URL is the bare path for an empty query and the path, `?` and the query otherwise |
| `QueryParams.SearchParams.constructor` | frontend/src/App.js:17 | the parameters object starts with the location's pairs |
| `QueryParams.SearchParams.Delete` | frontend/src/App.js:18 | `delete` changes the object's list as `Deleted` says |
| `QueryParams.SearchParams.Set` | frontend/src/App.js:19 | `set` changes the object's list as `WithValue` says |
| `QueryParams.SearchParams.ToString` | frontend/src/App.js:20-21 | `toString` is empty exactly when no pair is left, which is when the new URL drops its `?` |
| `QueryParams.Browser.constructor` | frontend/src/App.js:12 | the browser starts at the given path and query with no pushed entries |
| `QueryParams.Browser.SetQueryParam` | frontend/src/App.js:16-24 | the location's query becomes `Updated`, the path stays, and exactly one URL is pushed: `UrlOf` the new query |
| `ProductSort.KeyOf` | frontend/src/App.js:107-115 | id, price and quantity give numeric keys holding the item's id, price and quantity, with a null quantity as 0; name and description give lower-cased strings, with a missing value as "" |
| `ProductSort.Compare` | frontend/src/App.js:106-119 | the comparator returns -1, 0 or 1 |
| `ProductSort.CompareZeroIffEqualKeys` | frontend/src/App.js:116-118 | the comparator returns 0 exactly when the two keys are equal |
| `ProductSort.CompareAntisymmetric` | frontend/src/App.js:116-118 | swapping the arguments negates the comparator's result |
| `ProductSort.DescendingReversesAscending` | frontend/src/App.js:116-117 | descending order compares as ascending order with the arguments swapped |
| `ProductSort.CompareTransitive` | frontend/src/App.js:106-119 | the comparator is consistent: "not after" is transitive |
| `ProductSort.Insert` | frontend/src/App.js:106 | inserting into an ordered list gives an ordered list with the element added |
| `ProductSort.SortedView` | frontend/src/App.js:105-120 | the sorted copy is a permutation of the products and every adjacent pair is in comparator order |
| `ProductSort.OrderedKeysMonotone` | frontend/src/App.js:116-117 | in the sorted view the keys never decrease when ascending and never increase when descending |
| `ProductSort.OrderedPairwise` | frontend/src/App.js:106-119 | in an ordered list no earlier element comes after a later one |
| `ProductSort.OrderedPermutationsAgreeOnKeys` | frontend/src/App.js:106-119 | two ordered permutations of one list have the same key at every position |
| `ProductSort.AnyOrderedCopyMatchesView` | frontend/src/App.js:105-120 | any ordered permutation the browser's sort returns has the keys of `SortedView`, position by position |
| `App.NextSort` | frontend/src/App.js:96-103 | a click makes the clicked field the sort field; clicking the active field flips the direction, another field starts ascending |
| `App.SortClickTwiceRestores` | frontend/src/App.js:96-98 | two clicks on the active field restore the original field and direction |
| `App.LoadedForm` | frontend/src/App.js:163-169 | editing loads the product's id, name, description, price and quantity into the form |
| `App.WithInput` | frontend/src/App.js:123 | typing into an input sets that input to the typed text, and every other input keeps its value |
| `App.SubmitRequestAsWritten` | frontend/src/App.js:136 | as written, an update of editId with the form is sent exactly when editId is set and non-zero, and otherwise a create with the form |
| `App.SubmitAsWrittenCreatesForIdZero` | frontend/src/App.js:136-152 | as written, submitting after editing the product with id 0 sends a create |
| `App.SubmitRequest` | frontend/src/App.js:136-152 | an update of the edited id is sent exactly when editId is set, and a create otherwise, both with the form |
| `App.IsBlank` | frontend/src/App.js:194 | a value is blank exactly when every character is JavaScript whitespace |
| `App.SearchRequest` | frontend/src/App.js:193-200 | a blank value loads the full list and never sends a search; any other value is searched for as given |
| `App.DebounceStep` | frontend/src/App.js:217-226 | the callback writes the trimmed filter to `q`; it loads everything exactly when the filter is blank, and otherwise searches for the trimmed, non-empty filter |
| `App.AppState.constructor` | frontend/src/App.js:27-41 | the page starts with no products, a blank form, no editId and sorting by id ascending |
| `App.AppState.View` | frontend/src/App.js:105-120 | the table shows a permutation of `products`, ordered by the current field and direction |
| `App.AppState.HandleFilterInput` | frontend/src/App.js:258 | typing in the search box sets the filter to the typed text as it stands, and nothing else changes |
| `App.AppState.HandleSort` | frontend/src/App.js:96-103 | the sort state after a click is `NextSort` of the state before, and nothing else changes |
| `App.AppState.HandleChange` | frontend/src/App.js:123 | the form becomes `WithInput` of the old form, and nothing else changes |
| `App.AppState.ResetForm` | frontend/src/App.js:125-128 | all five inputs become empty and editId becomes null |
| `App.AppState.HandleEdit` | frontend/src/App.js:162-173 | the form holds the product's five fields, editId is its id, and both notices are cleared |
| `App.AppState.FetchProducts` | frontend/src/App.js:60-71 | on success the list is replaced and the error cleared; on failure the list is kept and the fetch error shown |
| `App.AppState.HandleSearch` | frontend/src/App.js:193-212 | a blank value fetches everything instead of searching; a 404 from the search empties the list; another failure keeps the list and shows the search error |
| `App.AppState.DebounceFired` | frontend/src/App.js:217-226 | the URL's `q` becomes the trimmed filter (removed when blank) with one history entry, and the request sent is `DebounceStep`'s; success replaces the list; a failed full load keeps the list and shows the fetch error; a failed search empties the list on 404 and otherwise keeps it and shows the search error |
| `App.AppState.HandleSubmit` | frontend/src/App.js:130-160 | the request is `SubmitRequest`; on success the form is reset, the message set and the list reloaded; on failure the form is kept and the server's detail, or a generic error, is shown |
| `App.EditThenSubmit` | frontend/src/App.js:136-170 | editing a product and submitting sends an update of that product's id with its fields, through the corrected `SubmitRequest` |
| `App.SortHeaderTwice` | frontend/src/App.js:96-103 | on a fresh page two clicks on a header give opposite directions, the first being descending only for the id column |

## Left out

- The database driver, connection pool, cursors, commits and `cursor.lastrowid` (the add endpoint's `product_id` in its reply) are I/O. The id is taken as the table's primary key, which makes the table a map.
- Routing, CORS and request validation by the web framework are not modelled, nor is `backend/functions/products.py`, a bare `SELECT *` of all rows. A validation error's list-shaped `detail` is not modelled either: the page's reply carries a string detail.
- Concurrency: the module-level connection shared by requests in each router is not modelled; every endpoint call is one atomic step on the table.
- EditSearch.Search: `LIKE` is modelled as plain case-sensitive substring containment. Its case-insensitivity depends on a MySQL collation that is not shown, and `%` and `_` inside `q` would act as wildcards.
- EditSearch.Matches: `isdigit` is modelled for the ASCII digits only. Python also accepts other Unicode digits, some of which `int` then rejects.
- The order of the search result is not modelled (the SELECT has no ORDER BY); the result is the set of matching rows, keyed by id.
- Floating point: prices are integers (cents), `currency`/`toFixed` formatting is left out, and `Number(...)` on form text (which can give NaN) is not modelled. Request bodies carry the form as it stands.
- JsText.ToLower: only A to Z are lower-cased; JavaScript lower-cases all of Unicode.
- JsText.LexLess: compares Unicode code points, where JavaScript compares UTF-16 code units. The two orders differ only when characters above U+FFFF meet characters from U+E000 to U+FFFF.
- QueryParams.Serialize: percent-encoding by `URLSearchParams.toString` is not modelled, so only its emptiness is relied on.
- ProductSort.SortedView: the browser's sort may order items with equal keys differently from this reference order. `AnyOrderedCopyMatchesView` shows that the keys still agree at every position.
- The page's `loading` flag, the 600 ms debounce and the 5 s auto-dismiss timers, the `popstate` listener, the mount-time load from `?q=`, React rendering and `handleDelete` (a `window.confirm` followed by the delete request) are left out. The delete itself is modelled by `AddDelete.Delete`.
- AddDelete.Delete: its 400 detail is the corrected one of the first finding below, which names the id; the code as written is `AddDelete.MissingIdDetailAsWritten`.
- AddDelete.DeleteProduct: follows `AddDelete.Delete`, so it sends the corrected detail too.
- App.EditThenSubmit: goes through the corrected `App.SubmitRequest`, so it shows the intended update; as written, editing the product with id 0 sends a create (`App.SubmitAsWrittenCreatesForIdZero`).
- App.AppState.HandleSubmit: chooses the request with the corrected `App.SubmitRequest` of the second finding below; the code as written is `App.SubmitRequestAsWritten`.

## Findings

| source | as written | input that shows it | evidently intended | confidence | as-written member | corrected member |
|---|---|---|---|---|---|---|
| backend/functions/add_delete.py:27 | the 400 detail for a missing id is a plain string, so it reads `{product_id}` literally | deleting the absent ids 7 and 8 gives the same detail | an f-string naming the requested id | high, not executed | `AddDelete.MissingIdDetailAsWrittenIgnoresId` | `AddDelete.MissingIdDetailNamesId` |
| frontend/src/App.js:136 | `if (editId)` is false for an editId of 0 | edit the product with id 0 and submit: a create is sent, and the server refuses it as a duplicate | send an update whenever a product is being edited | medium, not executed | `App.SubmitAsWrittenCreatesForIdZero` | `App.SubmitRequest` |
