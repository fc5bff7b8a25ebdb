# quan-ly-cong-van — a Dafny model of the document dashboards and search

quan-ly-cong-van ("official correspondence management") is an Angular front end
over a REST backend. Incoming and outgoing documents are tracked there: each one
is *waiting* (still to be processed) or *finished*. This project models the
client-side bookkeeping of five components:

- the **outgoing** and **incoming dashboards** (`OutgoingDocument`,
  `IncomingDocument`). Each holds one snapshot of documents. From it they derive
  the waiting and finished tables, each sorted by the number in
  `documentNumber` and cut into pages. A status change (finish, publish,
  recover, transfer) is applied once the backend acknowledges it: one record
  is replaced, both tables are recounted, and the target table turns to the
  page that shows the record;
- the **home page** (`Home`): an incoming/outgoing toggle over one
  server-paged table. The paginator counts pages from 0, the backend from 1;
- the **search page** (`SearchDocument`). It holds a form of string fields, a
  reset when the document type changes, the request with its 1-based page, and
  the handling of the answer. Results are dated by parsing `DD/MM/YYYY`, then
  sorted by issue date. Attachment names lose their numeric upload stamp;
- the **custom select** (`CcSelect`): the label lookup pipe and the selected value.

Shared pieces:

- `DocumentList` holds the document record, the partition, the sort key, the
  lookup by id and the status change with its page relocation.
- `Sorting` is `Array.prototype.sort` with a comparator, a stable sort as
  ECMAScript 2019 requires.
- `Paging` is the `slice` page window.
- `Text` holds `split`, `join`, `parseInt` and the `Number(...)` numeric test.
- `Calendar` is `new Date(year, month, day)`, built from the ECMAScript
  MakeDay/MakeDate operations.

The backend's answers are parameters of the methods that receive them. These
are a load result (`LoadResponse`, `PagedResponse`, `SearchResponse`), a flag
saying whether a status change was acknowledged, and the reload that follows a
change to an unknown document. Components are classes whose fields the methods
update. What the components compute from those fields (the tables, the label
shown) are functions of the fields.

## Model

Source paths are relative to the repository root.

| member | source | states |
|---|---|---|
| DocumentList.WaitingOf | src/app/share/home/outgoing-document/outgoing-document.component.ts:41-44 | holds exactly the documents of the snapshot whose status is "waiting", and is no longer than it |
| DocumentList.FinishedOf | src/app/share/home/outgoing-document/outgoing-document.component.ts:58-61 | holds exactly the documents whose status is anything but "waiting" |
| DocumentList.Partition | src/app/share/home/incoming-document/incoming-document.component.ts:41-73 | the two filters split the snapshot: their multisets add up to the snapshot's and their lengths to its length |
| DocumentList.Key | src/app/share/home/outgoing-document/outgoing-document.component.ts:45-54 | a string number has a key exactly when it holds a digit, and the key is the decimal value of all its digits in order; a number is its own key, `null` counts as 0 in the subtraction, and a missing number has no key (NaN) |
| DocumentList.KeyLe | src/app/share/home/outgoing-document/outgoing-document.component.ts:45-54 | the comparator's verdict `keyA - keyB <= 0`, a NaN key comparing equal to everything; the order it gives is stated by `DocumentList.SortByNumberAscending` |
| DocumentList.SortByNumber | src/app/share/home/outgoing-document/outgoing-document.component.ts:45-55 | the sorted partition is a permutation of the partition |
| DocumentList.SortByNumberAscending | src/app/share/home/outgoing-document/outgoing-document.component.ts:45-55 | when every document has a key, the sorted list ascends by key |
| DocumentList.SortByNumberStable | src/app/share/home/incoming-document/incoming-document.component.ts:45-72 | documents with equal keys keep, after the sort, the order they have in the partition given to the sort |
| DocumentList.WaitingPeers | src/app/share/home/outgoing-document/outgoing-document.component.ts:41-44 | filtering for waiting documents keeps the relative order of the documents with a given key |
| DocumentList.FinishedPeers | src/app/share/home/outgoing-document/outgoing-document.component.ts:58-61 | so does filtering for the other documents |
| DocumentList.PeersAppend | src/app/share/home/outgoing-document/outgoing-document.component.ts:45-55 | the documents with a given key in a concatenation are those of each half, in order |
| DocumentList.WaitingAppend | src/app/share/home/outgoing-document/outgoing-document.component.ts:41-44 | the waiting filter distributes over concatenation |
| DocumentList.FinishedAppend | src/app/share/home/outgoing-document/outgoing-document.component.ts:58-61 | so does the other filter |
| DocumentList.TablesKeepSnapshotOrder | src/app/share/home/incoming-document/incoming-document.component.ts:41-73 | when every document of the snapshot has a key, documents with equal keys appear in each sorted table in their snapshot order |
| DocumentList.PartsKeyed | src/app/share/home/outgoing-document/outgoing-document.component.ts:41-73 | if every document of the snapshot has a key, so does every document of both partitions |
| DocumentList.FindIndexById | src/app/share/home/outgoing-document/outgoing-document.component.ts:195-198 | the first index holding the id, and None exactly when no record holds it |
| DocumentList.Relocate | src/app/share/home/outgoing-document/outgoing-document.component.ts:235-246 | a page exists exactly when the id is in the sorted list, and that page shows a record with the id |
| DocumentList.PageShowsId | src/app/share/home/outgoing-document/outgoing-document.component.ts:241-245 | item `pos` of a list is shown on page `floor(pos / pageSize)` |
| DocumentList.ApplyStatus | src/app/share/home/outgoing-document/outgoing-document.component.ts:195-246 | None exactly when the id is absent; otherwise same length, only the first record with the id changes, it becomes a copy with the new status, and the new totals are the partition sizes summing to the length |
| DocumentList.TargetListPartition | src/app/share/home/outgoing-document/outgoing-document.component.ts:212-233 | the sorted target list holds only records of the partition the new status selects |
| DocumentList.TargetPagePartition | src/app/share/home/outgoing-document/outgoing-document.component.ts:76-86 | so does every page of it |
| DocumentList.ApplyStatusShowsDocument | src/app/share/home/outgoing-document/outgoing-document.component.ts:223-246 | for an id in the snapshot the status change applies, its relocation always finds the record, and the target page shows it and holds only records of the new status's partition |
| OutgoingDocument.WithAttachmentFlags | src/app/share/home/outgoing-document/outgoing-document.component.ts:142-147 | same length; each document's `attachments` is true exactly when it has file URLs; nothing else changes |
| OutgoingDocument.OutgoingDocumentComponent.constructor | src/app/share/home/outgoing-document/outgoing-document.component.ts:110-123 | empty snapshot, pages 0 of size 3, no highlight |
| OutgoingDocument.OutgoingDocumentComponent.WaitingDocumentsAll | src/app/share/home/outgoing-document/outgoing-document.component.ts:41-56 | holds exactly the waiting documents of the snapshot |
| OutgoingDocument.OutgoingDocumentComponent.FinishedDocumentsAll | src/app/share/home/outgoing-document/outgoing-document.component.ts:58-73 | holds exactly the other documents |
| OutgoingDocument.OutgoingDocumentComponent.WaitingDocuments | src/app/share/home/outgoing-document/outgoing-document.component.ts:76-80 | at most a page size of waiting documents, all from the snapshot |
| OutgoingDocument.OutgoingDocumentComponent.FinishedDocuments | src/app/share/home/outgoing-document/outgoing-document.component.ts:82-86 | at most a page size of finished documents, all from the snapshot |
| OutgoingDocument.OutgoingDocumentComponent.LoadOutgoingDocuments | src/app/share/home/outgoing-document/outgoing-document.component.ts:135-173 | a loaded list becomes the snapshot with attachment flags; the totals are the partition sizes and add up to the number loaded; pages and highlights stay; no data or an error changes nothing |
| OutgoingDocument.OutgoingDocumentComponent.CommitSnapshot | src/app/share/home/outgoing-document/outgoing-document.component.ts:150-161 | installs the snapshot and both totals; nothing else changes |
| OutgoingDocument.OutgoingDocumentComponent.HandleWaitingPageEvent | src/app/share/home/outgoing-document/outgoing-document.component.ts:175-178 | the waiting table takes the paginator's page and size; nothing else changes |
| OutgoingDocument.OutgoingDocumentComponent.HandleFinishedPageEvent | src/app/share/home/outgoing-document/outgoing-document.component.ts:180-183 | the finished table takes the paginator's page and size; nothing else changes |
| OutgoingDocument.OutgoingDocumentComponent.UpdateAfterPublish | src/app/share/home/outgoing-document/outgoing-document.component.ts:483-537 | unknown id: nothing changes; otherwise the state is the status change to finished, the finished table is on the page showing the record, the record is highlighted, everything else stays |
| OutgoingDocument.OutgoingDocumentComponent.CommitFinished | src/app/share/home/outgoing-document/outgoing-document.component.ts:207-245 | installs a change to finished (snapshot, totals, finished page, highlight); nothing else changes |
| OutgoingDocument.OutgoingDocumentComponent.FinishDocument | src/app/share/home/outgoing-document/outgoing-document.component.ts:190-265 | no acknowledgement: nothing changes; otherwise the finish update, the finished page shows the record, and the waiting page, both page sizes and the recovery highlight stay as they were |
| OutgoingDocument.OutgoingDocumentComponent.PublishDocument | src/app/share/home/outgoing-document/outgoing-document.component.ts:268-363 | no acknowledgement: nothing changes; a known id: the finish update with the record shown, other pages, sizes and the recovery highlight unchanged; an unknown id: a loaded reload becomes the snapshot with attachment flags, the totals are its partition sizes and add up to its length, and pages, sizes and highlights stay; a failed reload changes nothing |
| OutgoingDocument.OutgoingDocumentComponent.RecoverDocument | src/app/share/home/outgoing-document/outgoing-document.component.ts:386-481 | no acknowledgement: nothing changes; a known id: only that record becomes waiting, totals recounted, the waiting table on the page showing it; an unknown id: a loaded reload becomes the snapshot with attachment flags, the totals are its partition sizes and add up to its length, and pages, sizes and highlights stay; a failed reload changes nothing |
| OutgoingDocument.OutgoingDocumentComponent.CommitRecovered | src/app/share/home/outgoing-document/outgoing-document.component.ts:409-452 | installs a change back to waiting (snapshot, totals, waiting page, highlight); nothing else changes |
| IncomingDocument.IncomingDocumentComponent.constructor | src/app/share/home/incoming-document/incoming-document.component.ts:114-125 | empty snapshot, pages 0 of size 3, no highlight |
| IncomingDocument.IncomingDocumentComponent.WaitingDocumentsAll | src/app/share/home/incoming-document/incoming-document.component.ts:41-56 | holds exactly the waiting documents of the snapshot |
| IncomingDocument.IncomingDocumentComponent.FinishedDocumentsAll | src/app/share/home/incoming-document/incoming-document.component.ts:58-73 | holds exactly the other documents |
| IncomingDocument.IncomingDocumentComponent.WaitingDocuments | src/app/share/home/incoming-document/incoming-document.component.ts:76-80 | at most a page size of waiting documents, all from the snapshot |
| IncomingDocument.IncomingDocumentComponent.FinishedDocuments | src/app/share/home/incoming-document/incoming-document.component.ts:82-86 | at most a page size of finished documents, all from the snapshot |
| IncomingDocument.IncomingDocumentComponent.LoadIncomingDocuments | src/app/share/home/incoming-document/incoming-document.component.ts:136-166 | a loaded list becomes the snapshot; the totals are the partition sizes and add up to the number loaded; no data or an error leaves everything untouched |
| IncomingDocument.IncomingDocumentComponent.CommitSnapshot | src/app/share/home/incoming-document/incoming-document.component.ts:143-154 | installs the snapshot and both totals; nothing else changes |
| IncomingDocument.IncomingDocumentComponent.HandleWaitingPageEvent | src/app/share/home/incoming-document/incoming-document.component.ts:168-171 | the waiting table takes the paginator's page and size |
| IncomingDocument.IncomingDocumentComponent.HandleFinishedPageEvent | src/app/share/home/incoming-document/incoming-document.component.ts:173-176 | the finished table takes the paginator's page and size |
| IncomingDocument.IncomingDocumentComponent.UpdateAfterTransfer | src/app/share/home/incoming-document/incoming-document.component.ts:250-304 | unknown id: nothing changes; otherwise the status change to finished, the finished table on the page showing the record, the record highlighted |
| IncomingDocument.IncomingDocumentComponent.CommitFinished | src/app/share/home/incoming-document/incoming-document.component.ts:195-227 | installs a change to finished; nothing else changes |
| IncomingDocument.IncomingDocumentComponent.FinishDocument | src/app/share/home/incoming-document/incoming-document.component.ts:183-247 | no acknowledgement: nothing changes; otherwise only the record with the id becomes finished, the totals are recounted, the finished table turns to the page showing it, and the waiting page and both page sizes stay as they were |
| Home.EndpointFor | src/app/share/home/home.component.ts:116-118 | the incoming endpoint exactly when the toggle value is "incomingDocuments" |
| Home.HomeComponent.constructor | src/app/share/home/home.component.ts:50-94 | toggle on incoming documents, no documents, page 0 of size 10, total 0 |
| Home.HomeComponent.DocumentWaiting | src/app/share/home/home.component.ts:84-86 | holds exactly the waiting documents of the page |
| Home.HomeComponent.DocumentFinish | src/app/share/home/home.component.ts:87-89 | holds exactly the others |
| Home.HomeComponent.TablesSplitPage | src/app/share/home/home.component.ts:84-89 | the two tables share out the page: multisets and lengths add up |
| Home.HomeComponent.LoadDocuments | src/app/share/home/home.component.ts:115-139 | the request asks for page index + 1; a loaded answer sets documents, total, size and index = server page - 1, so an answer echoing the request leaves the index where it was; no data or an error changes nothing |
| Home.HomeComponent.OnChangeToggle | src/app/share/home/home.component.ts:104-109 | stores the toggle value and loads from the incoming endpoint exactly when it is "incomingDocuments"; a loaded page sets documents, total, page size and index = server page - 1, and an answer echoing the request leaves the index where it was |
| Home.HomeComponent.HandlePageEvent | src/app/share/home/home.component.ts:158-162 | takes the paginator's size and index, then requests page index + 1; a loaded page sets documents, total, page size and index = server page - 1 |
| CcSelect.FindOption | src/app/commons/cc-select/cc-select.component.ts:23 | the first option holding the value, None exactly when none holds it |
| CcSelect.FindLabel | src/app/commons/cc-select/cc-select.component.ts:21-25 | "" for missing options or a null or empty value; otherwise the label of the first option holding the value, or "" when none does |
| CcSelect.CcSelectComponent.constructor | src/app/commons/cc-select/cc-select.component.ts:37-46 | value "", list closed, nothing emitted |
| CcSelect.CcSelectComponent.Shown | src/app/commons/cc-select/cc-select.component.ts:21-25 | "" for a null or empty value; otherwise the caption of the first option holding the value, or "" when no option holds it |
| CcSelect.CcSelectComponent.NgOnInit | src/app/commons/cc-select/cc-select.component.ts:48-53 | a set, non-empty default becomes the value and is emitted on `valueChange`; otherwise nothing changes |
| CcSelect.CcSelectComponent.ToggleDropdown | src/app/commons/cc-select/cc-select.component.ts:55-59 | the list flips between shown and hidden |
| CcSelect.CcSelectComponent.SelectValue | src/app/commons/cc-select/cc-select.component.ts:60-65 | the value becomes `v`, `v` is appended to both emitted streams, the list closes |
| CcSelect.CcSelectComponent.HandleDocumentClick | src/app/commons/cc-select/cc-select.component.ts:66-71 | a click outside closes the list, one inside leaves it as it was |
| CcSelect.CcSelectComponent.HandleFocusOut | src/app/commons/cc-select/cc-select.component.ts:73-76 | the list is closed |
| CcSelect.SelectShowsLabel | src/app/commons/cc-select/cc-select.component.ts:21-25 | the label found for an option's own non-empty value is that option's label, when no earlier option holds the value |
| SearchDocument.ShortFileNameCases | src/app/partial/search-document/search-document.component.ts:541-553 | a name without '-' is kept; with one, the text up to and including the first '-' is dropped exactly when that text is numeric, and later hyphens stay |
| SearchDocument.StampedFileName | src/app/partial/search-document/search-document.component.ts:537-553 | `<digits>-<name>` shows as `<name>`, whatever `<name>` holds |
| SearchDocument.ShortFileName | src/app/partial/search-document/search-document.component.ts:541-553 | drops a numeric upload stamp and its hyphen; characterised by `SearchDocument.ShortFileNameCases` and `SearchDocument.StampedFileName` |
| SearchDocument.FormatDate | src/app/partial/search-document/search-document.component.ts:559-596 | no date for a missing or empty text; a text that does not split on '/' into exactly three parts `parseInt` can read (a text without '/' included) is left to the platform parser |
| SearchDocument.DayMonthYear | src/app/partial/search-document/search-document.component.ts:566-574 | the three '/'-separated parts read by `parseInt`, the month made 0-based; `SearchDocument.FormatDateOfDayMonthYear` states what it yields for `a/b/c` |
| SearchDocument.FormatDateOfDayMonthYear | src/app/partial/search-document/search-document.component.ts:566-584 | `a/b/c` whose parts read as integers is the date of day a, month b - 1, year c |
| SearchDocument.SplitThree | src/app/partial/search-document/search-document.component.ts:567-568 | splitting `a/b/c` on '/' gives back the three parts |
| SearchDocument.WithIssuedDates | src/app/partial/search-document/search-document.component.ts:264-272 | same length; each result's `issuedDateObj` is the date of its `issuedDate`; nothing else changes |
| SearchDocument.IssuedCompare | src/app/partial/search-document/search-document.component.ts:348-362 | the comparator as written; `SearchDocument.UndatedCompareInconsistently` and `SearchDocument.CompareAgreesWhenDated` state how it behaves |
| SearchDocument.IssuedLe | src/app/partial/search-document/search-document.component.ts:348-364 | the order the comparator evidently intends: dated before undated, dated by time; `SearchDocument.IssuedLeOrders` shows it is a total preorder |
| SearchDocument.UndatedCompareInconsistently | src/app/partial/search-document/search-document.component.ts:348-351 | the comparator as written says each of two undated results goes after the other, and an undated result after itself |
| SearchDocument.CompareAgreesWhenDated | src/app/partial/search-document/search-document.component.ts:348-364 | when at least one result is dated, the comparator as written decides as the intended order does, in both directions |
| SearchDocument.IssuedLeOrders | src/app/partial/search-document/search-document.component.ts:348-364 | the intended order is total and transitive |
| SearchDocument.SortByIssued | src/app/partial/search-document/search-document.component.ts:346-369 | the sorted results are a permutation of the results |
| SearchDocument.SortByIssuedOrder | src/app/partial/search-document/search-document.component.ts:346-369 | dated results come before undated ones, and dated ones ascend by time (and so, by `Calendar.MakeDateChronological`, by calendar date) |
| SearchDocument.SortByIssuedStable | src/app/partial/search-document/search-document.component.ts:346-369 | results the order calls equal, the undated ones in particular, keep their arrival order |
| SearchDocument.ColumnsFor | src/app/partial/search-document/search-document.component.ts:452-456 | the incoming columns exactly when the type is "incoming" |
| SearchDocument.EndpointFor | src/app/partial/search-document/search-document.component.ts:314-329 | the incoming search exactly for type "incoming", the outgoing one exactly for "outgoing", none otherwise |
| SearchDocument.SearchDocumentComponent.constructor | src/app/partial/search-document/search-document.component.ts:113-153 | the empty form, no results, incoming columns, page 0 of size 3 |
| SearchDocument.SearchDocumentComponent.OnChange | src/app/partial/search-document/search-document.component.ts:603-655 | a new document type gives the empty form with that type, no results, page 0, total 0 and that type's columns; any other change sets only that field, undefined becoming "" |
| SearchDocument.SearchDocumentComponent.ResetFormForDocumentTypeChange | src/app/partial/search-document/search-document.component.ts:661-683 | the empty form with the given type, then the cleared results and that type's columns |
| SearchDocument.SearchDocumentComponent.ClearResults | src/app/partial/search-document/search-document.component.ts:446-464 | no results, not searched, page 0, total 0, the columns of the form's type |
| SearchDocument.SearchDocumentComponent.Reset | src/app/partial/search-document/search-document.component.ts:378-398 | the empty form, no results, not searched, page 0, total 0, incoming columns |
| SearchDocument.SearchDocumentComponent.SortDocumentsByIssuedDate | src/app/partial/search-document/search-document.component.ts:346-376 | the results become their sort by issue date |
| SearchDocument.SearchDocumentComponent.SearchDocuments | src/app/partial/search-document/search-document.component.ts:235-312 | after any answer the search has happened and nothing loads; a readable pagination sets the total; delivered documents are dated and sorted; an empty list, an unreadable body or an error leave no results |
| SearchDocument.SearchDocumentComponent.HandleSearch | src/app/partial/search-document/search-document.component.ts:314-329 | searches the endpoint of the form's type, with the outcome above; an unknown type only stops loading |
| SearchDocument.SearchDocumentComponent.Search | src/app/partial/search-document/search-document.component.ts:220-233 | the request carries the form, page index + 1 and the page size; after an answer the search has happened, delivered documents are dated and sorted by issue date, anything else leaves no results, a readable pagination sets the total and otherwise the total stays; an unknown type changes none of these |
| SearchDocument.SearchDocumentComponent.OnChangeSearch | src/app/partial/search-document/search-document.component.ts:199-218 | a new search resets the page index to 0 and so requests page 1, with the outcome of `Search` |
| SearchDocument.SearchDocumentComponent.OnPageChange | src/app/partial/search-document/search-document.component.ts:334-341 | takes the paginator's index and size and requests page index + 1 with that size, with the outcome of `Search` |
| Sorting.Insert | src/app/share/home/outgoing-document/outgoing-document.component.ts:45-55 | inserting adds exactly the one element |
| Sorting.SortBy | src/app/share/home/outgoing-document/outgoing-document.component.ts:45-55 | the sort is a permutation of its input |
| Sorting.InsertSorted | src/app/share/home/outgoing-document/outgoing-document.component.ts:45-55 | inserting into a sorted list keeps it sorted |
| Sorting.SortBySorted | src/app/share/home/outgoing-document/outgoing-document.component.ts:45-55 | for a total preorder the result is sorted |
| Sorting.InsertPeers | src/app/partial/search-document/search-document.component.ts:348-369 | inserting an element puts it before its equals in the sorted list |
| Sorting.SortByStable | src/app/partial/search-document/search-document.component.ts:348-369 | the sort is stable: equal elements keep their relative order |
| Paging.Page | src/app/share/home/outgoing-document/outgoing-document.component.ts:76-80 | a page holds at most `size` items |
| Paging.PageWindow | src/app/share/home/incoming-document/incoming-document.component.ts:76-86 | page `p` holds the items from `p * size` on, as many as fit and as there are |
| Paging.PageWithin | src/app/share/home/outgoing-document/outgoing-document.component.ts:76-86 | a page holds only items of the list |
| Paging.PagesUpToPrefix | src/app/share/home/outgoing-document/outgoing-document.component.ts:76-86 | the first `n` pages are the first `n * size` items in order |
| Paging.AppendPage | src/app/share/home/outgoing-document/outgoing-document.component.ts:76-86 | the items before page `n` plus page `n` are the items before page `n + 1` |
| Paging.AllPages | src/app/share/home/outgoing-document/outgoing-document.component.ts:76-86 | all pages put together give back the list |
| Paging.PageContaining | src/app/share/home/outgoing-document/outgoing-document.component.ts:241-245 | item `pos` is at offset `pos % size` of page `pos / size` |
| Text.IndexOf | src/app/partial/search-document/search-document.component.ts:543 | the first position of the character, or the length when it is absent |
| Text.Split | src/app/partial/search-document/search-document.component.ts:543 | at least one part, and no part holds the separator |
| Text.JoinSplit | src/app/partial/search-document/search-document.component.ts:543-548 | joining the parts of a split gives back the text |
| Text.SplitJoin | src/app/partial/search-document/search-document.component.ts:567 | splitting a join of separator-free parts gives back the parts |
| Text.SplitFirst | src/app/partial/search-document/search-document.component.ts:543-548 | the first part ends at the first separator, and the other parts are the split of what follows |
| Text.Digits | src/app/share/home/outgoing-document/outgoing-document.component.ts:48 | keeps exactly the digits, in order |
| Text.DigitsAppend | src/app/share/home/outgoing-document/outgoing-document.component.ts:48 | the digits of a concatenation are the digits of each half, in order |
| Text.DigitsOne | src/app/share/home/outgoing-document/outgoing-document.component.ts:48 | one character is kept exactly when it is a digit |
| Text.DigitsOfDigits | src/app/share/home/outgoing-document/outgoing-document.component.ts:48 | a digit string is kept whole |
| Text.ParseIntOfDigits | src/app/share/home/outgoing-document/outgoing-document.component.ts:48 | `parseInt` of a digit string is its decimal value, NaN for the empty one |
| Text.ParseIntIgnoresTail | src/app/partial/search-document/search-document.component.ts:571-573 | `parseInt` reads the leading digits and ignores what follows |
| Text.ParseInt | src/app/partial/search-document/search-document.component.ts:570-572 | `parseInt(text, 10)`: leading blanks and a sign, then the leading digits; `Text.ParseIntOfDigits` and `Text.ParseIntIgnoresTail` state its value |
| Text.DigitsAreNumeric | src/app/partial/search-document/search-document.component.ts:546 | a digit string is numeric for `Number(...)` |
| Text.IsNumeric | src/app/partial/search-document/search-document.component.ts:546 | `!isNaN(Number(text))`; `Text.DigitsAreNumeric` shows every digit string passes |
| Calendar.Epoch | src/app/partial/search-document/search-document.component.ts:577 | day 1 of month 0 of 1970 is day 0 |
| Calendar.LeapDays | src/app/partial/search-document/search-document.component.ts:577 | a year's length is 365 plus its Gregorian leap day |
| Calendar.NextYear | src/app/partial/search-document/search-document.component.ts:577 | the first day of the next year comes a year's length after this year's |
| Calendar.DaysBeforeYearEnd | src/app/partial/search-document/search-document.component.ts:577 | the months of a year add up to its length |
| Calendar.MonthRollover | src/app/partial/search-document/search-document.component.ts:577 | the day after a month's last day is day 1 of the next month, so 31/02 rolls into March |
| Calendar.TwelveMonths | src/app/partial/search-document/search-document.component.ts:577 | month m + 12 is month m of the next year |
| Calendar.DayNumber | src/app/partial/search-document/search-document.component.ts:577 | ECMAScript MakeDay: the day number of a year, month and day, months overflowing into years; see `Calendar.Chronological` |
| Calendar.TwoDigitYears | src/app/partial/search-document/search-document.component.ts:577 | years 0 to 99 mean 1900 to 1999 |
| Calendar.Example | src/app/partial/search-document/search-document.component.ts:577 | 15/03/2023 (month 2) is day 19431 |
| Calendar.MonthsFit | src/app/partial/search-document/search-document.component.ts:577 | a month ends no later than a later month of the same year begins |
| Calendar.WithinYear | src/app/partial/search-document/search-document.component.ts:577 | a valid date falls within its year's days |
| Calendar.LaterYear | src/app/partial/search-document/search-document.component.ts:577 | every day of a year comes before the first day of a later year |
| Calendar.Chronological | src/app/partial/search-document/search-document.component.ts:577 | of two valid dates, the earlier one in the calendar has the smaller day number |
| Calendar.MakeDateDefined | src/app/partial/search-document/search-document.component.ts:577-578 | a valid date with a year from -198000 to 202000 (beyond 0-99) is a date, and its day number is its epoch day |
| Calendar.MakeDateChronological | src/app/partial/search-document/search-document.component.ts:577-578 | two such dates are both defined and keep their calendar order |

## Left out

- HTTP transport, `subscribe`, toasts, `alert` and console logging are left out. Backend answers are method parameters.
- Change detection (`cdr.detectChanges`, `ngZone.run`) is left out; it has no effect on the state modelled.
- The `ViewChild` form-control resets (`resetFormComponents`, `syncFormControls`) are DOM effects and are not modelled.
- `downloadAttachment` is not modelled: it builds blobs and clicks anchors.
- `returnDocument` (local storage and router navigation) is not modelled.
- `additionalPublish` is not modelled; it only opens another request.
- Timers: the `setTimeout` that clears `recentlyFinishedDoc`/`recentlyRecoveredDoc` is not modelled, so a highlight stays until replaced.
- Requests that overlap or answer out of order are not modelled. So is the interval during which `loading` is true: each method receives its answer at once.
- Dates ignore the local time zone. `getTime()` is taken as the day number times 86,400,000.
- The ISO and other-format fallback `new Date(text)` is the parameter `parseOther`. Its own parsing is not modelled.
- The `instanceof Date` branch of `formatDate` is not modelled. Issue dates arrive as strings.
- `parseInt` and `Number` on numbers beyond double precision are not modelled: integers are unbounded.
- `Number(...)` on a prefix that is not plain decimal is followed in its numeric-literal grammar, but exponents and fractions are not valued.
- The dropdown element's existence before the view initialises is not modelled: `handleFocusOut` always closes the list.
- DocumentList.SortByNumberAscending: requires every document to have a key. A key that is NaN compares equal to everything, so the comparator is not a preorder and ECMAScript leaves the order implementation-defined.
- DocumentList.SortByNumberStable: requires every document to have a key, for the same reason.
- DocumentList.TablesKeepSnapshotOrder: requires every document of the snapshot to have a key, for the same reason as SortByNumberStable.
- SearchDocument.SearchDocumentComponent.Search: the request keeps the form and the page fields apart. A form field named `page` or `pageSize` would be overwritten in the source; the model does not show that.
- SearchDocument.SearchDocumentComponent.SearchDocuments: a `pagination` object present without `totalItems` sets the total to undefined in the source, and the documents that arrived are still dated, sorted and shown. The model treats such an answer like one without pagination: the total stays as it was and no documents are shown.
- SearchDocument.SearchDocumentComponent.HandleSearch: shares that treatment of a pagination without `totalItems`.
- SearchDocument.SearchDocumentComponent.OnChangeSearch: shares that treatment of a pagination without `totalItems`.
- SearchDocument.SearchDocumentComponent.OnPageChange: shares that treatment of a pagination without `totalItems`.
- SearchDocument.SortByIssued: models the order the comparator evidently intends, not the implementation-defined order of the comparator as written (see Findings).
- OutgoingDocument.OutgoingDocumentComponent.WaitingDocuments: its contract bounds the page and locates its items. That it is exactly the slice is stated by `Paging.PageWindow` about `Paging.Page`.
- IncomingDocument.IncomingDocumentComponent.WaitingDocuments: the same as for the outgoing dashboard.
- OutgoingDocument.OutgoingDocumentComponent.FinishedDocuments: its contract bounds the page and locates its items. That it is exactly the slice of the finished table is stated by `Paging.PageWindow` about `Paging.Page`.
- IncomingDocument.IncomingDocumentComponent.FinishedDocuments: the same as for the outgoing dashboard.
- Home.HomeComponent.LoadDocuments: a loaded answer is assumed to carry both `documents` and `pagination`. When `pagination` is missing, the source stores the new documents and then throws on `pagination.totalItems`, so the old total, size and page stay beside them; that partial update is not modelled.
- Home.HomeComponent.OnChangeToggle: shares that assumption about the answer it loads.
- Home.HomeComponent.HandlePageEvent: shares that assumption about the answer it loads.
- IncomingDocument.IncomingDocumentComponent.LoadIncomingDocuments: a loaded answer is assumed to carry `documents`. When it is missing, the source stores `undefined` as the snapshot and then throws in `documents.filter`, leaving the totals as they were; that partial update is not modelled.

## Findings

| source | as written | input that shows it | evidently intended | confidence | as-written member | corrected member |
|---|---|---|---|---|---|---|
| src/app/partial/search-document/search-document.component.ts:348-351 | the comparator returns 1 whenever its first argument has no date, including when neither has one | two results without an issue date: compare(a, b) = 1 and compare(b, a) = 1, and compare(a, a) = 1; ECMAScript leaves the sort order implementation-defined for such a comparator | undated results after dated ones, equal among themselves, so that they keep their arrival order | not executed | SearchDocument.UndatedCompareInconsistently | SearchDocument.SortByIssuedOrder |
