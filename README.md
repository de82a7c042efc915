# Gift list: page logic and spreadsheet handler, in Dafny

This project models the two parts of a family gift-list application that
hold its logic.

- **The page** (`script.js`) loads the gift list and shows it as cards.
  - Each gift is styled by a display bucket taken from its status.
  - The page counts bought and pending gifts.
  - It builds a filter bar of the people gifts are for, whose buttons
    filter the list by person.
  - It also defines a status filter, a text search and a status toggle,
    which moves a gift through the four-step cycle
    Nepořízeno → Koupeno → Zabaleno → Darováno. In this version of the
    page no control calls them: the cards have no button, and the only
    click handlers are those of the filter bar. The model states what
    each of them does when called.
- **The request handler** `doGet` (`darky-app-script.js`) works on the
  spreadsheet behind the page.
  - `fetch` lists the sheet's records as JSON, or as a JSONP call.
  - `save` updates the row of a gift, or appends a new row.
  - Any other action appends a legacy `[date, quote]` row.

A gift is a record of five strings: `kdo` (for whom), `odKoho` (from
whom), `co` (what), `odkaz` (link) and `status`. The sheet is the list of
its rows, with row 0 as the header. A request's parameters are a map from
name to value, where a missing value reads as `''`. The page's
`gifts`/`currentFilter` state is the class `GiftPage.GiftBoard`. The
sheet is the class `SheetHandler.Spreadsheet`. Its `Save` method holds the
search loop of the handler and is proved against the function `Upsert`.

Modules and files:

- `text.dfy` (`JsText`): the JavaScript string behaviour both sides rely on:
  - `toLowerCase`, restricted to Latin letters;
  - `trim`;
  - `includes`;
  - the order of the default `sort`, by UTF-16 code unit;
  - the decimal text of a row number.
- `gift.dfy` (`GiftModel`): the record, plus `filter` and `reverse` on lists.
- `status.dfy` (`Status`): `getStatusClass`, `getNextStatus` and `getNextStatusText`.
- `stats.dfy` (`Stats`): the counters of `updateStats`.
- `filters.dfy` (`GiftFilters`):
  - the validity filter of `displayGifts`;
  - the three list filters;
  - the lookup of `toggleStatus`;
  - `generateFilters`.
- `html.dfy` (`Html`): `escapeHtml`.
- `json.dfy` (`GiftJson`): `JSON.stringify` of the record list, a reader for it, and the JSONP wrapping.
- `sheet.dfy` (`SheetHandler`): `doGet`.
- `client.dfy` (`GiftPage`): the page state and its handlers.
- `app.dfy` (`GiftRoundTrip`): the page and the handler together.

Behaviour of the code that the proofs bring out:

- **Unknown statuses are counted nowhere.** A status outside both
  counting lists (for example `Vyjasnit`) is styled pending, but
  `updateStats` counts it neither as bought nor as pending. So bought plus
  pending can be less than the total.
- **Letter case.** The display bucket ignores letter case, but the next
  status does not. `KOUPENO` is shown as bought, yet its next status is
  `Koupeno`.
- **Saving twice is the same as saving once, when the sheet has a header
  row.** On a sheet with no rows at all, the first saved gift lands in
  row 1. Every later request reads row 1 as the header, so the same save
  appends the gift again.
- **Duplicate (kdo, co) pairs.** When two rows carry the same pair, they
  disagree on which row is meant.
  - The page lists the newer row first and copies that row's `odKoho`
    and `odkaz` into the toggle request.
  - The handler overwrites the older row.
  - So a `toggleStatus` call for the first card would rewrite the other
    row, and the row that card shows would keep its status.
- **A person named `all`.** A gift whose `kdo` is the text `all` gets a
  button of its own in the filter bar, whose count is the number of gifts
  for `all`. That button filters by the value `all`, which is the value
  of the button that shows every gift. So it shows more gifts than its
  count as soon as some gift is for someone else.
- **Reloading highlights the previous filter.** After a load, the filter
  bar is built while the previous filter is still current. The cards and
  counters, however, show every gift, and the filter is reset to `all`
  only afterwards.

Two comparisons use `kdo` and `co` exactly as stored:

- The validity filter and the person filter compare `kdo` and `co`
  without trimming: a gift whose `kdo` is a single space is valid, and
  its filter matches only that exact string.
- The filter bar lists the `kdo` values as they are, not trimmed. Only
  values that are blank after trimming are left out.

## Model

| member | source | states |
|---|---|---|
| `JsText.TrimEmptyIffAllSpace` | script.js:27 | `kdo.trim()` is empty exactly when every character of `kdo` is JavaScript white space |
| `JsText.LessTransitive` | script.js:28 | the default string order of `sort` is transitive |
| `JsText.LessTotal` | script.js:28 | any two different strings are ordered one way or the other by `sort` |
| `JsText.LessAsymmetric` | script.js:28 | no two strings are each before the other |
| `JsText.NatToStringRoundTrip` | darky-app-script.js:97 | the decimal text of a row number reads back as that number, so different rows get different texts |
| `Status.GetStatusClass` | script.js:201-215 | a status is in the pending bucket exactly when its lower-cased form is none of `hotovo`, `koupeno`, `zabaleno`, `darováno`; it is wrapped exactly for `zabaleno` and given exactly for `darováno`, in any letter case |
| `Status.GetNextStatus` | script.js:234-247 | whatever the input, the next status is one of the four cycle statuses and differs from the input |
| `Status.GetNextStatusText` | script.js:218-231 | for every input, the unknown ones included, the button label is the icon, `Označit jako ` and the lower-cased status that `getNextStatus` returns |
| `Status.StatusClassIgnoresCase` | script.js:201-215 | the display bucket depends only on the lower-cased status |
| `Status.CycleWalksThroughBuckets` | script.js:201-215 | Nepořízeno is pending, Koupeno is bought, Zabaleno is wrapped and Darováno is given |
| `Status.CaseMattersOnlyForTheCycle` | script.js:201-247 | `KOUPENO` is bought, yet it moves to `Koupeno` because the cycle is matched with case |
| `Status.NextStatusCycles` | script.js:234-247 | each cycle status moves to the next one and the last to the first; no status stays put, and four steps return to the start |
| `Status.NextStatusInCycle` | script.js:234-247 | the next status is always in the cycle; it is Koupeno exactly for Nepořízeno and for every status outside the cycle |
| `Stats.StatusListsDisjoint` | script.js:316-321 | no lower-cased status is in both the bought list and the pending list |
| `Stats.UpdateStats` | script.js:314-321 | total is the number of gifts, and bought plus pending never exceed it |
| `Stats.BoughtIffNotPendingClass` | script.js:316-318 | a gift is counted as bought exactly when its card is styled bought, wrapped or given |
| `Stats.PendingCountIsPendingClass` | script.js:319-321 | a gift counted as pending is styled pending |
| `Stats.StatsAgreeWithClasses` | script.js:313-326 | the bought counter equals the number of cards not styled pending; the pending counter is at most the number styled pending |
| `Stats.UnknownStatusIsCountedNowhere` | script.js:319-321 | `Vyjasnit` is styled pending but is counted neither as bought nor as pending |
| `GiftFilters.ValidGifts` | script.js:162-164 | the kept gifts are exactly those with non-empty `kdo` and `co`, in their order, each as many times as in the input |
| `GiftFilters.DisplayGifts` | script.js:147-198 | an empty list gives the empty state; a list without a valid gift gives the invalid-data state; otherwise the cards are exactly the valid gifts, in order and with their multiplicity |
| `GiftFilters.FilterByKdo` | script.js:58 | `all` gives the list unchanged; otherwise the result is exactly the gifts whose `kdo` equals the value, as a subsequence keeping each one's multiplicity |
| `GiftFilters.FilterByStatus` | script.js:380 | `all` gives the list unchanged; otherwise the result is exactly the gifts with that status, as a subsequence keeping each one's multiplicity |
| `GiftFilters.SearchGifts` | script.js:385-388 | the result is exactly the gifts whose lower-cased `kdo` or `co` contains the lower-cased query, as a subsequence keeping each one's multiplicity |
| `GiftFilters.SearchEmptyQueryKeepsAll` | script.js:385-388 | the empty query keeps every gift |
| `GiftFilters.SearchIgnoresQueryCase` | script.js:386-387 | lower-casing the query does not change the result |
| `GiftFilters.FindGift` | script.js:254 | no result exactly when no gift has the pair (kdo, co); otherwise the first gift with that pair |
| `GiftFilters.InsertSorted` | script.js:27-28 | adding a value to a sorted list of distinct values keeps it sorted and distinct and adds exactly that value |
| `GiftFilters.SortedKdoValues` | script.js:27-28 | the values are sorted, distinct, and exactly the `kdo` values that are non-blank after trimming |
| `GiftFilters.KdoCountIsFilterSize` | script.js:34 | for every person other than one named `all`, the count is the number of gifts that person's filter selects |
| `GiftFilters.KdoCountBelowTotal` | script.js:34 | a person's count is at most the number of gifts, and less as soon as one gift is for someone else |
| `GiftFilters.PersonNamedAllIsMiscounted` | script.js:34-58 | when some gift is for `all` and another for someone else, the filter bar has a button with value `all` whose count is the gifts for `all`, fewer than the gifts that filtering by its value shows |
| `GiftFilters.GenerateFilters` | script.js:20-41 | nothing for no gifts; otherwise `all` first with the total count, then options whose values are sorted, distinct and exactly the set of non-blank `kdo` values of the gifts, each with its exact count and highlighted exactly when it is the current filter |
| `GiftFilters.FilterCountsAddUp` | script.js:27-34 | the person counts add up to the number of gifts with a non-blank `kdo`, which is at most the `all` count |
| `Html.EscapeChar` | script.js:368-374 | the replacement of one character holds none of `< > " '` |
| `Html.EscapeText` | script.js:375 | the output is never shorter and holds none of `< > " '`; text without `& < > " '` comes back unchanged |
| `Html.EscapeHtml` | script.js:367-376 | a missing or empty text gives ''; otherwise as `EscapeText` |
| `Html.EscapeHtmlRoundTrip` | script.js:367-376 | turning the entities back into characters gives the original text |
| `GiftJson.EscapeJsonChar` | darky-app-script.js:36 | inside an encoded string every quote is preceded by a backslash |
| `GiftJson.ReadStringRoundTrip` | darky-app-script.js:36 | a JSON string literal written by `JSON.stringify` reads back as the original text, whatever follows it |
| `GiftJson.ReadGiftRoundTrip` | darky-app-script.js:25-36 | one encoded record reads back as that record |
| `GiftJson.ReadElementsRoundTrip` | darky-app-script.js:36 | the comma-separated records of a non-empty list read back as the list |
| `GiftJson.GiftsToJson` | darky-app-script.js:36 | the JSON of the record list reads back as exactly that list, in order |
| `GiftJson.JsonpBody` | darky-app-script.js:38-48 | with a non-empty callback, unwrapping the body gives back exactly the JSON; without one the body is the JSON |
| `SheetHandler.RowToGift` | darky-app-script.js:25-31 | the record's five fields are columns A to E of the row, in order, with a missing cell read as '' |
| `SheetHandler.FetchRecords` | darky-app-script.js:19-34 | a sheet with at most the header gives no records; every record has `kdo` and `co`; the records are exactly the data rows with both; there are at most lastRow − 1 of them |
| `SheetHandler.FetchIgnoresHeader` | darky-app-script.js:23-24 | replacing the header row does not change what `fetch` lists |
| `SheetHandler.FetchNewestFirst` | darky-app-script.js:32-33 | a row appended to the sheet is listed first when it has `kdo` and `co`, and is skipped otherwise; the other records keep their order |
| `SheetHandler.FetchBody` | darky-app-script.js:14-48 | the page, unwrapping the JSONP call and reading the JSON, gets exactly the sheet's records; without a callback the body is that JSON |
| `SheetHandler.SaveValues` | darky-app-script.js:52-56 | the row written holds `kdo`, `odKoho`, `co`, `odkaz` and `status`, with a missing `odKoho` or `odkaz` as '' |
| `SheetHandler.Overwrite` | darky-app-script.js:93 | columns A to E take the new values and the cells from column F on are kept |
| `SheetHandler.MatchFrom` | darky-app-script.js:83-88 | the least index from the start point on whose columns A and C are the pair, or none when no such row exists |
| `SheetHandler.FirstMatch` | darky-app-script.js:79-89 | the first data row below the header that carries the pair (kdo, co), or none |
| `SheetHandler.Upsert` | darky-app-script.js:76-106 | exactly one row, below the header unless the sheet was empty, now starts with the five values and all other rows are unchanged; the sheet grows by that one row exactly when no data row carried the pair; a sheet ending in a row with content still does |
| `SheetHandler.SaveBody` | darky-app-script.js:91-117 | the answer names, counting from 1, the row written: the first data row with the pair, or the new last row; that row holds the values; it says `updated` when the sheet kept its size and `added` when it grew |
| `SheetHandler.UpsertOverwritesFirstMatch` | darky-app-script.js:91-94 | with a matching data row, only the first match changes: its columns A to E become the values, it keeps its length (at least five cells) and its later cells, and the row count, the header and every other row are unchanged |
| `SheetHandler.UpsertAppendsNewRow` | darky-app-script.js:104-106 | with no matching data row, exactly one row of the values is appended at the end |
| `SheetHandler.UpsertIdempotent` | darky-app-script.js:76-117 | on a sheet with a header, saving the same values twice leaves the sheet as saving them once |
| `SheetHandler.EmptySheetSavesTwice` | darky-app-script.js:76-106 | on an empty sheet, a second save of the same values appends them again |
| `SheetHandler.SaveThenFetchShowsGift` | darky-app-script.js:76-106 | after a save on a sheet with a header, `fetch` lists the saved gift, and lists it first when it was appended |
| `SheetHandler.Spreadsheet.constructor` | darky-app-script.js:9 | the handler works on the given rows, which end at the last row with content, as `getLastRow` counts them |
| `SheetHandler.Spreadsheet.Save` | darky-app-script.js:50-118 | a missing `kdo`, `co` or `status` gives the error text and leaves the sheet unchanged; otherwise the sheet becomes `Upsert` of the values and the body names the 1-based row updated or added; the sheet still ends in a row with content |
| `SheetHandler.Spreadsheet.AddQuote` | darky-app-script.js:120-156 | a missing `date` or `quote` gives the error text and no write; otherwise exactly `[date, quote]` is appended and the body names its row; the sheet still ends in a row with content |
| `SheetHandler.Spreadsheet.DoGet` | darky-app-script.js:1-157 | `fetch` leaves the sheet unchanged and answers with the JSON or JSONP body; `save` and the other actions behave as `Save` and `AddQuote`; the sheet still ends in a row with content |
| `GiftPage.LoadedGifts` | script.js:117 | an array payload becomes the list; any other payload becomes the empty list |
| `GiftPage.ToggleRequest` | script.js:250-259 | the request is `save` with the pair and the next status, which is always in the cycle; `odKoho` and `odkaz` come from the first loaded gift with the pair, or are '' when there is none |
| `GiftPage.GiftBoard.constructor` | script.js:16-17 | the page starts with no gifts and the `all` filter |
| `GiftPage.GiftBoard.LoadGifts` | script.js:117-136 | a failed load changes nothing; otherwise the payload becomes the list, it is rendered and counted in full, the filter bar is built with the previous filter, and the filter returns to `all` |
| `GiftPage.GiftBoard.FilterByKdo` | script.js:44-61 | the value becomes the current filter, and the gifts it selects are rendered and counted |
| `GiftPage.GiftBoard.FilterByStatus` | script.js:379-382 | the cards are, in order and with their multiplicity, exactly the loaded gifts with that status that have `kdo` and `co`; `all` renders the whole list; the empty state exactly when no gift has the status, the invalid-data state exactly when some do but none has both `kdo` and `co` |
| `GiftPage.GiftBoard.SearchGifts` | script.js:384-390 | the cards are, in order and with their multiplicity, exactly the loaded gifts that match the query and have `kdo` and `co`; the empty state exactly when none matches, the invalid-data state exactly when some match but none has both `kdo` and `co` |
| `GiftPage.GiftBoard.ToggleStatus` | script.js:250-259 | the request has exactly the six parameters: `save`, the pair, the next status of the current one, and `odKoho` and `odkaz` of the gift `gifts.find` returns, or '' when it finds none |
| `GiftRoundTrip.PageReadsFetchAnswer` | darky-app-script.js:36-43 | the page unwraps the JSONP answer of `fetch`, reads exactly the sheet's records, newest first, and renders every one of them |
| `GiftRoundTrip.FetchedRecordsAreAllShown` | darky-app-script.js:32 | every fetched record passes the page's validity filter, so the page never shows the invalid-data state for fetched data |
| `GiftRoundTrip.ToggleRequestIsAccepted` | darky-app-script.js:52-58 | a toggle on a gift with `kdo` and `co` always passes the handler's parameter check, and writes the pair, the copied fields and the next status |
| `GiftRoundTrip.ToggleThenFetchShowsNextStatus` | script.js:250-271 | after a toggle on a sheet with a header, the next `fetch` lists the gift with its next status |
| `GiftRoundTrip.DuplicateSheetFetch` | darky-app-script.js:22-33 | on a sheet holding one pair twice, `fetch` lists the newer row first |
| `GiftRoundTrip.ToggleOnDuplicateRewritesOlderRow` | darky-app-script.js:83-86 | with a duplicated pair, the page copies the fields of the newer row while the handler overwrites the older row, and the row the toggled card shows is unchanged |

## Left out

- `sw.js` is not part of this model. It is offline-cache plumbing over browser APIs.
- `simple-test-script.js` is not part of this model. It returns constant data plus a copy of the JSONP wrapping.
- Rendering is not modelled. The HTML of the cards and buttons, `classList`, `style.display`, `scrollIntoView`, and the message helpers with their timers are out. `DisplayGifts` gives the state and the list of cards, and `GenerateFilters` gives the buttons' values, counts and highlight.
- The JSONP transport is not modelled: the script tag, the random callback name and the 10-second timeout. `LoadGifts` takes the outcome of the request as a parameter.
- The `fetch` calls of `toggleStatus` and `addGift` are not modelled. `addGift` only forwards form fields to `save`. Neither is `encodeURIComponent` with the handler's query decoding: parameters reach the handler as the strings the page sent.
- The reload that follows a toggle is not modelled as a call; `ToggleThenFetchShowsNextStatus` states what it then reads.
- The spreadsheet and response libraries are not modelled: `SpreadsheetApp`, `ContentService`, MIME types, `setHeaders`, CORS headers and logging. A response is the text given to `createTextOutput`. Library failures, and the `catch` branch that reports them, are out.
- Cells are modelled as strings only. Numbers, dates and the `toString` of `fetch` are out, so `row[i] ? row[i].toString() : ''` is the cell text. A cell past a row's end reads as '', as the at-least-five-column read gives it.
- `doOptions` and `doPost` are not modelled. They answer preflight requests and forward to `doGet`.
- `toLowerCase` is modelled for Basic Latin, Latin-1 Supplement and Latin Extended-A, which hold all Czech letters. Other characters are left unchanged. Within Latin Extended-A, U+0130 (İ) is left unchanged as well, whereas JavaScript lowers it to two code units, `i` followed by U+0307; the model keeps the length of every string.
- The checks `Array.isArray(giftsToShow)` and `typeof gift === 'object'` in `displayGifts` always hold in the model, since every list is a list of records.
- `escapeHtml` on non-string values is out; its input is a string or missing.
- `updateStats` takes the list it counts explicitly, instead of defaulting to `gifts`.
