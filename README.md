# Agenda 2026 in Dafny

A diary and cash-ledger web application keeps its data in the browser, and this
project is a verified model of its logic. It covers three parts.

- **Record store and backup codec (`db.js`).** The four IndexedDB object stores
  (`diary`, `cash`, `attach`, `config`) are the map fields of the class
  `Db.Store`, keyed by each record's key path. Each store operation is a method
  that states the whole new state of the store. The diary's unique `date` index
  is part of the class invariant `Valid()`. `exportAll` packs attachment blobs
  as `data:` URLs (section 2 of RFC 2397) with base64 data (section 4 of RFC
  4648). `importAll` clears three stores and puts the backup's records back.
  `base64ToBlob` decodes a URL through `atob`, modelled as the forgiving-base64
  decode of the WHATWG Infra standard. The central law is the backup round
  trip: export, then import, gives back the diary re-stamped, the cash store
  exactly, the attachments with the same ids, fields and bytes, and an
  untouched config store.
- **Report layout (`report.js`).**
  - `sum` and the ledger totals.
  - The greedy word wrapper `wrapText`.
  - The cell truncation `fitText`.
  - The two PDF reports. Each is modelled as the sequence of draws it makes:
    the page, the height `y` and the text of each one.
  - Both report methods are proved equal to one layout function, `Layout`.
    `Layout` in turn is proved to obey an independent pagination rule,
    `Paginated`: a new page starts below 120 before an entry heading, and below
    70 before a body line or a table row; the cursor steps are fixed; pages only
    ever grow.
  - `pdfCash` sorts the caller's array in place; the model keeps it an `array`.
- **Helpers of `app.js`.**
  - `escapeHTML`, proved equal to a single-pass escaper and undone by an
    HTML-entity reader.
  - The comma-separated tag field, with its join/parse round trip.
  - The text-cleaning half of `parseMoneyToCents`, and the save guard that
    refuses a zero amount.
  - The attachment-then-transaction delete cascade.
  - The home screen's day totals.
  - The date-range filter of the diary report.

Files:

| file | module | contents |
|---|---|---|
| `wrappers.dfy` | `Wrappers` | `Option` |
| `strings.dfy` | `Strings` | JavaScript whitespace, `trim`, `toLowerCase`, `includes`, `split`, `join`, string `<` |
| `collections.dfy` | `Collections` | `filter`, and a list of records viewed as a keyed store |
| `base64.dfy` | `Base64` | RFC 4648 encoder and the `atob` decoder |
| `db.dfy` | `Db` | records, the `Store` class, data URLs, export and import |
| `report.dfy` | `Report` | totals, `wrapText`, `fitText`, pagination, `pdfDiary`, `pdfCash` |
| `app.dfy` | `App` | the `app.js` helpers |

## Model

| member | source | states |
|---|---|---|
| Db.Store.SetConfig | db.js:59-61 | the config store maps `key` to `value`; every other config key and every other store is unchanged |
| Db.Store.GetConfig | db.js:62-71 | returns the stored value when the key is present, and null (`None`) exactly when it is absent |
| Db.ConfigSurvives | db.js:59-71 | `getConfig(k)` returns the value of the last `setConfig(k, v)` even after diary puts, cash puts and deletes, an export and an import |
| Db.Store.GetDiary | db.js:74-83 | returns the entry stored under the id, and null exactly when no entry has that id |
| Db.Store.PutDiary | db.js:84-87 | the caller's entry gets `updatedAt := now` and is upserted under its id; a put that would give a second id the same date is rejected by the unique index and changes nothing; the other stores are unchanged |
| Db.PutThenGet | db.js:74-87 | after a successful `putDiary(e)`, `getDiary(e.id)` returns `e` stamped with the clock value, and any other id reads exactly as before |
| Db.PutTwice | db.js:84-87 | putting the same entry twice leaves one entry under its id, carrying the second stamp |
| Db.SortByDate | db.js:104 | the result is strictly ascending by date and holds exactly the input's entries |
| Db.Store.ListDiary | db.js:98-107 | returns every diary entry exactly once, strictly ascending by date |
| Db.Store.SearchDiary | db.js:88-97 | returns the whole listing when the lowercased and trimmed query is empty; otherwise returns exactly the entries whose lowercased text or space-joined tags contain that query; the result is in listing order, with no cap |
| Db.Store.AddCash | db.js:110-112 | a put: the transaction is stored under its id, replacing an older one; nothing else changes |
| Db.Store.DeleteCash | db.js:113-115 | removes that id only; every other record of every store is unchanged |
| Db.SortByTime | db.js:122 | the result is descending by `dateTime` and is a permutation of the input (the same multiset of transactions) |
| Db.SortByTimeDistinct | db.js:122 | sorting keeps the transaction ids distinct |
| Db.Store.ListCash | db.js:116-125 | returns every transaction exactly once, most recent first |
| Db.Store.ListCashByRange | db.js:126-129 | returns exactly the transactions with `startMs <= dateTime <= endMs`, each once, most recent first |
| Db.Store.AddAttachment | db.js:132-134 | a put keyed by the attachment id; nothing else changes |
| Db.Store.ListAttachmentsByTx | db.js:135-144 | returns exactly the attachments whose `txId` is the given one, each once |
| Db.Store.DeleteAttachment | db.js:145-147 | removes that id only; nothing else changes |
| Db.ListValues | db.js:159-160 | `getAll()` lists every record of a keyed store exactly once |
| Db.Store.ExportAll | db.js:150-172 | returns version 1, the diary in `listDiary` order, the cash in `listCash` order, and each attachment once, with both blobs packed as data URLs and a missing thumbnail kept absent |
| Db.PackEach | db.js:164-169 | the loop packs every attachment, in the order given, one packed record each |
| Db.PackListing | db.js:164-169 | the packing loop outputs one packed record per stored attachment, each once |
| Db.Base64ToBlob | db.js:203-211 | returns the bytes `atob` decodes from `split(",")[1]`, the text between the first and the second comma (empty when there is no comma), typed with `mime` or `application/octet-stream`; `None` where `atob` throws |
| Db.CopyBytes | db.js:208-209 | the `Uint8Array` loop fills a new array with exactly the decoded bytes, in order |
| Db.BlobRoundTrip | db.js:195-211 | `base64ToBlob` applied to the data URL that `blobToBase64` writes gives back the blob's bytes, when the blob type has no comma |
| Db.Unpack | db.js:189-191 | a rebuilt attachment keeps the packed record's `id`, `txId`, `mime` and `createdAt`, and has a thumbnail exactly when the packed thumbnail is a non-empty string |
| Db.UnpackPack | db.js:188-191 | rebuilding a packed attachment gives back its ids, fields and bytes, with blob types taken from `mime` |
| Db.Store.PutPacked | db.js:189-191 | one pass of the attachment loop: decodes the blob and any non-empty thumbnail, then puts the attachment; a payload `atob` rejects changes nothing |
| Db.Store.PutDiaries | db.js:185 | the diary loop of `importAll` leaves the store that the fold `PutAllDiary` computes, and stops at the first entry the date index rejects |
| Db.Store.PutCashes | db.js:186 | the cash loop leaves `PutAllCash` of the old store |
| Db.Store.PutAllPacked | db.js:188-192 | the attachment loop leaves `PutAllAttach` of the old store, and stops at the first payload that does not decode |
| Db.Store.ImportAll | db.js:174-193 | clears the diary, cash and attachment stores and leaves config alone; the three stores then hold exactly what `Restore` of the payload computes, a missing collection counting as empty |
| Db.PutAllCashIsToMap | db.js:186 | repeated `addCash` is one map update per record, so the last record with each id wins |
| Db.ImportedCash | db.js:186 | imported cash holds exactly the payload's ids, and for each id the last record that carries it |
| Db.PutAllDiaryStamps | db.js:185 | a run of `putDiary` keeps the date index unique; every entry it stores carries the stamp `now` |
| Db.PutAllDiaryFree | db.js:185 | entries with distinct ids and dates, none clashing with the store, are all put, each re-stamped |
| Db.RestoreListings | db.js:174-193 | importing the three listings of a store rebuilds the diary (re-stamped), the cash store, and the attachments (blob types normalised), and runs to the end |
| Db.BackupRoundTrip | db.js:150-193 | export then import succeeds; it restores the diary re-stamped, the cash store exactly and the attachments with the same ids, fields and bytes, and it leaves config untouched |
| Base64.EncodeLength | db.js:200 | every base64 encoding is a whole number of four-character groups |
| Base64.DecodeEncodeChars | db.js:207 | decoding the alphabet characters of an encoding gives back the bytes |
| Base64.RemovePaddingEncode | db.js:207 | the decoder strips exactly the `=` padding that the encoder adds |
| Base64.AtobEncode | db.js:207 | `atob` of the base64 encoding of any byte string returns exactly those bytes |
| Strings.SplitJoin | db.js:205 | joining the pieces of `split(c)` with `c` gives the input back, and no piece holds `c` |
| Strings.TrimSpec | db.js:91 | `trim` returns a slice of its input with no white space at either end, and cuts only white space |
| Strings.ContainsAt | db.js:94-95 | `includes(q)` is true exactly when `q` occurs at some index |
| Strings.LexLessTransitive | db.js:104 | the date order of the listing is transitive |
| Strings.LexLessTotal | db.js:104 | any two different dates are ordered one way or the other |
| Strings.LexLessAsymmetric | db.js:104 | no two dates are ordered both ways |
| Strings.SplitSpacesTrimmed | report.js:125 | for non-empty text with no white space at either end, every piece of `split(/\s+/)` is a non-empty word without white space |
| Collections.FilterMembers | db.js:128 | `filter` keeps exactly the elements that pass the test |
| Collections.FilterOrdered | db.js:128 | `filter` keeps any order the input respects |
| Collections.ToMapLastWins | db.js:186 | putting records one by one stores exactly their keys, with the last record for each key |
| Collections.ListingRebuilds | db.js:185-191 | putting back a listing of a keyed store into an empty store rebuilds that store |
| Report.SumOfKind | report.js:59-60 | `sum(filter(type === kind).map(amountCents))` is the amount of every transaction of that kind, added up one by one |
| Report.KindTotalConcat | report.js:122 | the per-kind total of a concatenation is the sum of the two totals |
| Report.KindTotalPermutation | report.js:59-61 | the per-kind total does not depend on the order of the transactions |
| Report.CashTotals | report.js:59-61 | `totalIn` and `totalOut` are the per-kind totals of "in" and "out", and `balance = totalIn - totalOut` |
| Report.CashTotalsLaws | report.js:59-61 | the totals of no transactions are all 0, and two orderings of the same transactions have the same totals |
| Report.WrapText | report.js:124-137 | the loop over the words, with the mutable `line` and `lines`, computes `Wrap(text, maxChars)` |
| Report.WrapFromNoEmpty | report.js:131-135 | the wrapper never emits an empty line |
| Report.WrapFromFits | report.js:128-133 | every line fits in `maxChars` unless it is a single word of the input |
| Report.WrapFromJoin | report.js:128-135 | joining the lines with single spaces gives the words joined with single spaces |
| Report.WrapLaws | report.js:124-137 | no line is empty; each line fits or is a single word without white space; for trimmed non-empty text, the lines joined by spaces are the `split(/\s+/)` words joined by spaces, so no word is lost or reordered |
| Report.CharBudget | report.js:141 | a finite budget is at least 10 characters |
| Report.FitText | report.js:139-144 | text within the budget is returned unchanged; longer text becomes its first `max - 1` characters plus "…", exactly `max` long |
| Report.FitTextFits | report.js:139-144 | a fitted cell is within its budget, and fitting it again changes nothing |
| Report.Place | report.js:28-46 | a draw placed from the current cursor keeps the draw log paginated, and moves the cursor down by that draw's fixed step |
| Report.LayoutPaginated | report.js:8-47 | laying out a list of items draws exactly those items, in order, and obeys the pagination rule |
| Report.PaginatedLaws | report.js:28-40 | every draw is at or below 820 and at or above its threshold (120 for an entry heading, 70 for a line or row); each draw is on the page of the previous one or the next; a new page starts at 820; the last page number is the number of resets |
| Report.DiaryHeadTags | report.js:23 | the tags part of an entry's heading is "-" exactly when the entry has no tags or a single empty tag, and the tags joined by ", " otherwise |
| Report.DiaryBody | report.js:24 | blank text gives "(sem texto)", any other text its trimmed form; either way the body is non-empty with no white space at either end |
| Report.DiaryTop | report.js:16-20 | the title, the stamp and the rule are laid out as the first three items of the diary report |
| Report.HeaderDrawn | report.js:28-34 | an entry heading starts a new page at 820 when `y < 120`, is drawn, and moves the cursor down by 14 |
| Report.DrawLines | report.js:36-43 | the body-line loop lays out one line item per wrapped line: a new page when `y < 70`, then 13 down per line |
| Report.SeparatorDrawn | report.js:44-46 | the separator is drawn 6 below the last line, and the cursor ends 18 below it |
| Report.DrawEntry | report.js:22-47 | one pass of the entry loop appends the heading, the body lines wrapped at 92 characters and the separator, by the pagination rule |
| Report.PdfDiary | report.js:1-50 | the draws equal the layout of the title, the stamp, the rule, and each entry's heading, wrapped body and separator, and they are paginated |
| Report.ColumnBudgets | report.js:81-87 | the five columns give budgets of 10, 10, 10, 12 and 14 characters at 40 pixels per character |
| Report.FitRowFits | report.js:112-119 | `drawRow` keeps every cell within its column's budget and draws a cell within budget unchanged |
| Report.HeaderUncut | report.js:89 | the table header names are drawn uncut |
| Report.RowCellsPlaceholders | report.js:99-105 | the kind cell is "Entrada" exactly for `in` and "Saída" otherwise; category falls back to "-"; the description is trimmed or "-" |
| Report.RowItemsIndex | report.js:94-108 | row `i` of the table is the fitted cells of transaction `i` in sorted order |
| Report.CashHeaderOnce | report.js:89-108 | the table header is drawn exactly once, before all the rows, and every later item is a row, one per transaction |
| Report.CashHead | report.js:63-92 | the title, the stamp, the summary line, its rule, the table header and its rule are laid out as the first six items of the cash report |
| Report.RowDrawn | report.js:95-107 | a table row starts a new page at 820 when `y < 70`, is drawn, and moves the cursor down by 14 |
| Report.Sink | report.js:94 | one pass of the in-place sort extends the sorted prefix by one and permutes the array |
| Report.SortByDateTime | report.js:94 | sorts the caller's array in place, ascending by `dateTime`, as a permutation |
| Report.PdfCash | report.js:52-110 | the caller's array ends sorted ascending by `dateTime` and is a permutation of the input; the totals are those of the input; the draws equal the layout of the header items followed by one fitted row per sorted transaction, and they are paginated |
| App.ReplaceAll | app.js:615 | every output character is an input character other than the pattern, or comes from the replacement; input without the pattern is unchanged |
| App.EscapeConcat | app.js:615 | escaping distributes over concatenation |
| App.EscapeOnePass | app.js:615 | since `&` is replaced first, the three passes equal a single pass that replaces each character by its entity, so `<` becomes `&lt;`, never `&amp;lt;` |
| App.EscapeLaws | app.js:614-616 | the output holds no `<` and no `>`; "" gives ""; text without `&`, `<` and `>` is unchanged; "<" gives "&lt;" |
| App.UnescapeEscape | app.js:614-616 | reading the entities back gives exactly the text that was escaped |
| App.ParseTags | app.js:105-106 | every tag is non-empty, with no white space at either end |
| App.ParseTagsMembers | app.js:172 | a string is a tag exactly when it is a non-empty comma-separated piece, trimmed |
| App.ParseTagsJoin | app.js:77 | as strings: parsing the ", "-join of trimmed, non-empty, comma-free tags gives back the same tags, in the same order |
| App.ParseTagsEmpty | app.js:105-106 | an empty tag field gives no tags |
| App.CleanAmount | app.js:583 | the cleaned text holds only digits, `.` and `,` |
| App.CleanAmountLaws | app.js:583 | cleaning keeps exactly the digits, points and commas, in order; only the first comma becomes a point |
| App.ParseMoneyToCents | app.js:580-587 | the result is never negative; empty input gives 0; `NaN` and the infinities give 0; the result is positive exactly when the input is non-empty and its number `v` is finite with `v * 100 >= 0.5` |
| App.SaveTx | app.js:287-306 | saves exactly when the parsed amount is not 0, and then puts the transaction with that positive amount; otherwise the ledger is unchanged; the other stores are never touched |
| App.DeleteTransaction | app.js:375-381 | removes exactly the attachments of the view's list, then the transaction; diary and config are unchanged; when that list held every attachment of the transaction, none is left |
| App.AttachAfterOpen | app.js:334-381 | an attachment added to the transaction after the view took its list survives the delete, although its transaction is gone |
| App.DeleteTransactionFresh | app.js:375-381 | reading the list when the button is pressed removes exactly the transaction's attachments and keeps every other one |
| App.HomeTotals | app.js:59-64 | the badges are the in and out totals of the transactions with `todayStart <= dateTime <= todayEnd`, and the balance is in minus out |
| App.HomeTotalsLaws | app.js:61-64 | a transaction outside today changes no badge; one inside today adds its amount to the badge of its kind |
| App.DiaryInRangeLaws | app.js:488 | the report holds exactly the entries dated from `a` to `b` (string comparison), in the listing's order |

## Left out

- IndexedDB plumbing (`openDB`, `tx`, request callbacks, db.js:4-53). Every operation is atomic and succeeds; asynchronous ordering and failures other than the unique date index and `atob` errors are not modelled.
- `uuid` (db.js:56-57), `Date.now()` and `new Date()`. Ids, clock values, the export time and the PDF stamp are parameters. `importAll` re-stamps every entry with one `now`.
- `FileReader.readAsDataURL`. It is modelled by its output shape, `data:<type>;base64,<RFC 4648 text>`. `Blob` is a byte sequence plus a type. Db.BlobRoundTrip needs a blob type without a comma, because `base64ToBlob` splits the URL at its commas.
- `localeCompare` in `listDiary` is modelled as code-point order on the ISO date strings. The order of `getAll()` results and the stability of `sort` are not modelled. Cash listings with equal `dateTime` are specified only up to that order.
- Db.Store.PutDiary: the source sets `updatedAt` on the caller's object in place. The model returns the stamped copy as an out-parameter and does not model aliasing of that object.
- `toLowerCase` covers ASCII and Latin-1 capitals only. Strings are sequences of code points, not UTF-16 code units.
- Locale formatting (`toLocaleString` for money and dates) is given as function parameters `money` and `date`.
- `Number(clean)` is given as a parameter that returns `NaN`, an infinity or a finite real. `Math.round(v * 100)` is taken in exact real arithmetic (`floor(x + 0.5)`), so binary floating-point rounding is not modelled.
- `fitText` is computed in exact integer arithmetic on integer widths. With `approxCharPx` 0, JavaScript's `w / 0` is an infinity or `NaN`. The model then gives an unlimited budget, or 10 when `w` is negative.
- PDFLib: fonts, sizes, colours, x positions, page size and `pdf.save()` are not modelled. A report is the list of its draws (page, y, text). `drawRow` is one draw carrying its five fitted cells.
- `escapeHTML(null)` and `escapeHTML(undefined)`: the model takes strings only. App.EscapeLaws states the empty-string case.
- The DOM, rendering, event wiring, `state`, routing, the autosave debounce timers, downloads, image compression on a canvas (app.js:619-654) and sw.js (service-worker caching) are not modelled.
- `listDiary`, `listCash` and `getAll` returning `r.result || []`: a store result is never missing in the model.
- App.ParseTagsJoin: states the round trip of the strings only. app.js:77 and app.js:145 write the join into `value="..."` without `escapeHTML`, and HTML attribute parsing is not modelled. So a tag holding `"` is cut at that quote in the field, and a character reference such as `&amp;` comes back decoded.
- Db.Store.GetConfig: config values are strings. `r.result?.value ?? null` (db.js:68) also gives null for a stored `null` or `undefined`, which the model cannot store. No caller in app.js sets a config value.

## Findings

| source | as written | input that shows it | evidently intended | confidence | as-written member | corrected member |
|---|---|---|---|---|---|---|
| app.js:334-381 | the delete handler deletes the attachments of the list `atts` read when the transaction's view was opened | open a transaction, add a photo with "Adicionar", then press "Excluir": the new attachment keeps a `txId` whose transaction is gone | "apaga anexos também" (delete the attachments too): every attachment of the transaction is removed | not executed; medium (the view re-lists the thumbnails after each upload, but the delete handler keeps the stale list) | App.AttachAfterOpen | App.DeleteTransactionFresh |
