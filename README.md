# Banking ledger — a Dafny model

This project models the core of a client-side banking dashboard, which keeps a
ledger of deposits and withdrawals. It covers:

- **The transaction store** (`BankingStore`, with its derived views in `StoreViews`).
  It holds the transaction list and a one-slot undo buffer for the last addition or
  deletion. It also holds the list filters, the current page, the display currency
  and the balance-visibility toggle. Every action is a method of the class
  `BankingStore.BankingStore` that replaces some of those fields. Balance, income,
  expenses, the filter-then-sort view and its pages of twenty are functions of the
  list.
- **CSV import and export** (`CsvCodec`). Import checks each row in a fixed order
  and gives each row at most one numbered error. It accepts the batch only when no
  row fails, and refuses a batch without rows as having no transactions. Export
  projects each transaction onto a row.
- **Validators and dates** (`Validation`, `Dates`). These are the four single-field
  validators and the composite check that collects their messages in order. `Dates`
  holds the `YYYY-MM-DD` shape shared by every check, and `parseLocalIsoDate`
  reading a calendar day.
- **The record** (`Transactions`). It holds the transaction datatype, drafts and
  partial updates, the list operations the store and the service share, and the
  `isTransaction` guard over JSON values.
- **The service layer** (`TransactionService`). This is a second add, update,
  delete and import over a stored list (the field `stored` of
  `TransactionStorage`). Its import drops records already present by id or by a
  date-amount-description key, and counts them as duplicates.
- **Exchange rates** (`ExchangeRates`):
  - conversion of a euro amount;
  - the rate of one currency;
  - the fallback table;
  - the five-minute rate cache, with the clock and the outcome of the rate request
    as inputs.
- **Display helpers** (`Currency`, `Formatting`). These are the currency symbol
  table, amount formatting and colour classes.
- **Page navigation** (`Pagination`). The "showing start to end" range, the page
  the Previous and Next buttons go to, and when each button is disabled.
- **The transaction form** (`TransactionForm`):
  - the schema its fields must satisfy;
  - the conversion of the entered amount back to euros;
  - the submit decision, which refuses an overdrawing withdrawal or sends an add
    or an update.
- **Helpers** (`Text`, `Numbers`). JavaScript's `trim`, lower-casing,
  `includes` and string order, and the decimal text of amounts (`toString`,
  `toFixed(2)`, `parseFloat`).

Amounts of stored transactions are whole cents (`int`); exchange rates and
converted amounts are `real`. Ids, creation times, "today", "now" and the
outcome of the rate request are parameters.

The store's delete page fix-up compares the page against the number of all
transactions before the deletion (`src/store/bankingStore.ts:183`), and
`BankingStore.BankingStore.Delete` does the same.

## Model

| member | source | states |
|---|---|---|
| Transactions.Stamp | src/store/bankingStore.ts:145-149 | The new record carries the given id and creation time, and exactly the draft's date, amount, description and type. |
| Transactions.Merge | src/store/bankingStore.ts:163 | Each supplied field of the update replaces the stored one. Every other field, and the id and creation time, stay. |
| Transactions.MergeFullUpdate | src/components/features/TransactionForm/TransactionForm.tsx:161-166 | An update that supplies all four fields turns a record into the draft under the record's own id and creation time. |
| Transactions.RemoveId | src/store/bankingStore.ts:177 | The result holds exactly the records whose id differs. It is shorter exactly when some record carries the id. |
| Transactions.UpdateId | src/store/bankingStore.ts:162-164 | The length stays. Position i is the merged record where the id matches, and unchanged elsewhere. |
| Transactions.UpdateIdKeepsIds | src/store/bankingStore.ts:162-164 | Every id stays at its position. An id no record carries leaves the list unchanged. |
| Transactions.FirstWithId | src/store/bankingStore.ts:173 | The record found is in the list and carries the id. |
| Transactions.FirstWithIdIsFirst | src/store/bankingStore.ts:173 | The record found sits at a position before which no record carries the id: it is the first match. |
| Transactions.RemoveAppendedId | src/store/bankingStore.ts:228-230 | Appending a record with a new id and then removing that id gives back the original list. |
| Transactions.NoIdRemovesNothing | src/store/bankingStore.ts:177 | Filtering out an id that no record carries gives back the list. |
| Transactions.RemoveThenAppendIsPermutation | src/store/bankingStore.ts:217 | Assume exactly one record carries the id. Removing it and re-appending the record found first keeps the same multiset of records. |
| Transactions.RemoveUniqueIdDropsOne | src/store/bankingStore.ts:177 | When exactly one record carries the id, removing it leaves one record fewer. |
| Transactions.IsTransactionOfStored | src/types/transaction.ts:31-40 | A stored record written as JSON passes the guard exactly when its date has the `YYYY-MM-DD` shape. |
| Transactions.IsTransactionNeedsObject | src/types/transaction.ts:25-27 | No value other than an object (so neither null nor a primitive) passes. |
| Transactions.IsTransactionIgnoresSign | src/types/transaction.ts:31-40 | A deposit with a negative amount passes: sign and type are not compared. |
| Transactions.IsTransactionIgnoresCalendar | src/types/transaction.ts:39 | `2024-13-45` passes the guard although it names no calendar day. |
| Text.Trim | src/utils/csvParser.ts:85 | The result has no white space at either end. It is empty exactly when the input is all white space. |
| Text.TrimIdempotent | src/utils/csvParser.ts:85 | Trimming twice equals trimming once. |
| Text.TrimIgnoresSurroundingWhitespace | src/utils/validation.ts:79 | White space added on either side does not change what a string trims to. |
| Text.ToLower | src/store/bankingStore.ts:116-118 | The length stays, and each character is lower-cased on its own. |
| Text.LexLessIrreflexive | src/store/bankingStore.ts:108-111 | No string is before itself in the order the date filters and the sort use. |
| Text.LexLessAsymmetric | src/store/bankingStore.ts:128-133 | Two strings are never each before the other. |
| Text.LexLessTotal | src/store/bankingStore.ts:128-133 | Of two different strings, one is before the other. |
| Text.LexLessTransitive | src/store/bankingStore.ts:128-133 | The order is transitive. |
| Numbers.RenderCentsRoundTrip | src/utils/csvParser.ts:124 | The text an export writes for an amount parses back to the same amount. |
| Numbers.Fixed2 | src/utils/formatting.ts:12 | `toFixed(2)` text is integer digits, a point and exactly two digits. |
| Numbers.Fixed2RoundTrip | src/utils/formatting.ts:12 | `toFixed(2)` text parses back to the same amount. |
| Dates.DaysInMonth | src/utils/date.ts:25-31 | A month has 28 to 31 days. February has 29 exactly in leap years. |
| Dates.SplitIsoShape | src/utils/date.ts:11 | `YYYY-MM-DD` text splits at its dashes into year, month and day text. |
| Dates.ParseLocalIsoDate | src/utils/date.ts:10-34 | A returned date is at local midnight and names a real calendar day. Its year is one the `Date` constructor keeps. |
| Dates.ParseLocalIsoDateOfShaped | src/utils/date.ts:10-34 | On `YYYY-MM-DD` text: a date comes back exactly for a real day in a year from 100 on, with exactly the written year, month and day. |
| Dates.ParseLocalIsoDateMissingDay | src/utils/date.ts:11-18 | `2024-01`, which lacks a day, gives no date. |
| Dates.LeapDayAccepted | src/utils/date.ts:25-31 | February 29 gives a date exactly in leap years. |
| Dates.NonexistentDayRejected | src/utils/date.ts:25-31 | A month outside 1-12, or a day past its month's end (2024-02-31), gives no date. |
| Validation.ValidateTransactionAmount | src/utils/validation.ts:8-27 | Valid exactly when the amount is non-zero and positive for a deposit, negative for a withdrawal. Zero gets the non-zero message. |
| Validation.ValidateWithdrawalBalance | src/utils/validation.ts:32-50 | Valid exactly when the amount is negative and leaves a balance of at least zero (zero allowed). A non-negative amount gets the negativity message. |
| Validation.ValidateTransactionDate | src/utils/validation.ts:55-73 | Valid exactly for a real day not after today. The shape, the day and the future are tested in that order, and each has its own message. |
| Validation.TodayIsAccepted | src/utils/validation.ts:66-70 | Today's own date is valid. |
| Validation.ValidateTransactionDescription | src/utils/validation.ts:78-90 | Valid exactly when the trimmed description has 1 to 200 characters. |
| Validation.DescriptionIgnoresSurroundingWhitespace | src/utils/validation.ts:78-90 | Leading and trailing white space never changes the verdict. |
| Validation.ValidateTransaction | src/utils/validation.ts:95-131 | The method collects the messages amount, balance (withdrawals only), date, description, in that order. It reports valid exactly when none was collected. |
| Validation.TransactionValidIffChecksPass | src/utils/validation.ts:95-131 | No message exactly when every applicable check passes. There are at most four messages. |
| Validation.DepositIgnoresBalance | src/utils/validation.ts:107-113 | A deposit's messages are the same whatever the current balance. |
| Validation.NonNegativeWithdrawalTwoErrors | src/utils/validation.ts:102-113 | A withdrawal with an amount of at least zero collects the sign error first and the negativity error second. |
| StoreViews.Income | src/store/bankingStore.ts:80-84 | Income is never negative. |
| StoreViews.Expenses | src/store/bankingStore.ts:89-95 | Expenses are the absolute value of the sum of the negative amounts. They are never negative. |
| StoreViews.BalanceIsIncomeMinusExpenses | src/store/bankingStore.ts:73-95 | Balance is income minus expenses, for every list. |
| StoreViews.BalanceAppend | src/store/bankingStore.ts:73-75 | Appending a record moves the balance by its amount. |
| StoreViews.BalanceReplace | src/store/bankingStore.ts:73-75 | Replacing one record moves the balance by the difference of the two amounts. |
| StoreViews.BalanceConcat | src/store/bankingStore.ts:73-75 | The balance of two lists joined is the sum of their balances. |
| StoreViews.BalancePermutation | src/store/bankingStore.ts:73-75 | The balance depends only on the multiset of records, not on their order. |
| StoreViews.Keep | src/store/bankingStore.ts:108 | A filter keeps every copy of a record that passes and no copy of one that fails. |
| StoreViews.KeepOne | src/store/bankingStore.ts:108 | A single record is kept exactly when it passes. |
| StoreViews.KeepAppend | src/store/bankingStore.ts:108 | Filtering a concatenation filters each part and keeps the parts in order. With `KeepOne`, the result is the passing records in input order. |
| StoreViews.RemoveIdIsKeep | src/store/bankingStore.ts:177 | Removing an id is the filter that keeps the records whose id differs, so it keeps their order. |
| StoreViews.BeforeAsymmetric | src/store/bankingStore.ts:128-133 | The sort's comparison never puts each of two records before the other. |
| StoreViews.NewestFirstNeighbours | src/store/bankingStore.ts:128-133 | In the sorted view, dates never increase, and within a date creation times never increase. |
| StoreViews.Sort | src/store/bankingStore.ts:128-133 | The result is newest first and a permutation of the input. |
| StoreViews.FilterTransactions | src/store/bankingStore.ts:100-136 | The result is newest first and holds each record as often as the list does when it passes every set filter, and otherwise not at all. The filters are inclusive date bounds, trimmed case-insensitive description containment and type equality. |
| StoreViews.NoFiltersKeepsAll | src/store/bankingStore.ts:100-136 | With no filter set, the view is a permutation of the whole list. |
| StoreViews.MatchesByKind | src/store/bankingStore.ts:123-125 | A record passes the all-types filter exactly when it passes one of the two one-type filters, and never both. |
| StoreViews.TypeFilterPartition | src/store/bankingStore.ts:123-125 | The deposits view and the withdrawals view together hold exactly the all-types view. |
| StoreViews.PageSliceContents | src/store/bankingStore.ts:293-299 | A page holds at most 20 records. Page p holds positions (p-1)·20 to p·20 of the view, cut at its end. |
| StoreViews.PageNonEmptyIff | src/store/bankingStore.ts:293-299 | A page shows something exactly when the view reaches past the pages before it. |
| StoreViews.TotalPages | src/store/bankingStore.ts:305 | At least 1, and for a non-empty view the ceiling of the count over 20. |
| StoreViews.PagesCoverList | src/store/bankingStore.ts:293-306 | Pages 1 to the page count, in order, are exactly the view. |
| StoreViews.PageAfterDelete | src/store/bankingStore.ts:181-185 | The page stays, or goes back by one from a page past the first. |
| StoreViews.PageInRangeAfterOneLeaves | src/store/bankingStore.ts:181-185 | When one record leaves a list that reached the page, the page the fix-up picks is within the new page count and still reaches into the list. |
| StoreViews.PageAfterDeleteStaysInRange | src/store/bankingStore.ts:171-185 | When exactly one record carries the id and no filter is set, deleting from a page that showed something lands on a page within the new page count that still shows something. |
| StoreViews.PageAfterDeleteDuplicateId | src/store/bankingStore.ts:177-185 | With 22 records whose last two share the id, deleting it from page 2 leaves the page at 2, while the 20 records left fill one page and page 2 shows nothing. |
| StoreViews.PageAfterDeleteIgnoresFilter | src/store/bankingStore.ts:177-185 | With a filter set, the fix-up counts all records. When the filtered view after the deletion does not reach the page, the page stays and shows nothing. |
| BankingStore.ApplyFiltersUpdate | src/store/bankingStore.ts:193 | Each filter field the update supplies replaces the current one, and the others stay. |
| BankingStore.NewById | src/store/bankingStore.ts:244-247 | Keeps each incoming record whose id the existing list does not hold, as often as it came, and drops the rest. |
| BankingStore.NewByIdInOrder | src/store/bankingStore.ts:244-247 | The records kept from a concatenation are those kept from each part, one part after the other. A single record is kept exactly when its id is new. |
| BankingStore.NewByIdAreNew | src/store/bankingStore.ts:244-247 | A kept record came in and has a new id, and every incoming record with a new id is kept. |
| BankingStore.BankingStore.constructor | src/store/bankingStore.ts:55-68 | The store starts empty: no undo, no filters, page 1, euros, balance shown. |
| BankingStore.BankingStore.Add | src/store/bankingStore.ts:144-157 | Appends the stamped draft and puts it in the add slot. It clears the delete slot and goes to page 1. Nothing else changes, and at most one undo slot stays filled. |
| BankingStore.BankingStore.Update | src/store/bankingStore.ts:160-168 | Merges the update into every record with the id, or changes nothing for an unknown id. Both undo slots are cleared. |
| BankingStore.BankingStore.Delete | src/store/bankingStore.ts:171-188 | For an unknown id nothing changes. Otherwise it removes every record with the id, keeping the others in order (`StoreViews.RemoveIdIsKeep`), and keeps the first match for undo (`Transactions.FirstWithIdIsFirst`). It clears the add slot and fixes the page up from the count before the deletion. |
| BankingStore.BankingStore.SetFilters | src/store/bankingStore.ts:191-196 | Merges the update into the filters and goes to page 1. |
| BankingStore.BankingStore.ClearFilters | src/store/bankingStore.ts:199-204 | No filter set, page 1. |
| BankingStore.BankingStore.SetCurrentPage | src/store/bankingStore.ts:207-209 | Takes any page number as it is. |
| BankingStore.BankingStore.UndoDelete | src/store/bankingStore.ts:212-220 | Re-appends the deleted record at the end and empties the delete slot. Without one it changes nothing. |
| BankingStore.BankingStore.UndoAdd | src/store/bankingStore.ts:223-233 | Removes every record with the id of the last added one, keeping the others in order, and empties the add slot. Without one it changes nothing. |
| BankingStore.BankingStore.ClearUndo | src/store/bankingStore.ts:236-238 | Both undo slots are empty, and nothing else changes. |
| BankingStore.BankingStore.Import | src/store/bankingStore.ts:241-254 | Keeps the list as a prefix and appends `NewById` of the incoming records: those with new ids, in input order (`BankingStore.NewByIdInOrder`). It goes to page 1 and leaves the undo slots as they were. |
| BankingStore.BankingStore.Reset | src/store/bankingStore.ts:257-259 | Back to the initial state. |
| BankingStore.BankingStore.SetSelectedCurrency | src/store/bankingStore.ts:262-264 | Only the display currency changes. |
| BankingStore.BankingStore.ToggleBalanceVisibility | src/store/bankingStore.ts:267-269 | Only the visibility flips. |
| BankingStore.BankingStore.GetBalance | src/store/bankingStore.ts:272-284 | The balance equals income minus expenses. |
| BankingStore.BankingStore.GetFilteredTransactions | src/store/bankingStore.ts:287-290 | Newest first, holding exactly the records the current filters let through. |
| BankingStore.BankingStore.GetPaginatedTransactions | src/store/bankingStore.ts:293-299 | At most 20 records. Non-empty exactly when the filtered view reaches the current page. |
| BankingStore.BankingStore.GetTotalPages | src/store/bankingStore.ts:302-306 | At least 1, and its pages together show the whole filtered view. |
| BankingStore.AddThenUndoAdd | src/store/bankingStore.ts:223-233 | Adding under a new id and undoing it restores the list, with both slots empty. |
| BankingStore.DeleteThenUndoDelete | src/store/bankingStore.ts:212-220 | Deleting a record whose id is unique and undoing keeps the same multiset of records and the same balance. |
| BankingStore.DeleteThenAdd | src/store/bankingStore.ts:151-156 | After a deletion and then an addition, only the add slot is filled. |
| CsvCodec.TypeOfName | src/utils/csvParser.ts:69-72 | The type text an export writes reads back as the same type. |
| CsvCodec.CheckRow | src/utils/csvParser.ts:43-99 | An accepted row gives the row's date (a real day) and its parsed non-zero amount of the sign the type demands. It also gives the row's type and the trimmed, non-empty description. |
| CsvCodec.CheckRowAcceptedIff | src/utils/csvParser.ts:43-89 | A row is accepted exactly when every check passes. |
| CsvCodec.EmptyFieldIsMissing | src/utils/csvParser.ts:43-46 | An empty field is reported as missing, whatever else is wrong. |
| CsvCodec.BlankDescriptionRefused | src/utils/csvParser.ts:84-89 | A description of white space passes the missing-field check but is refused by the last check. |
| CsvCodec.RowMessage | src/utils/csvParser.ts:44 | Every row message starts with `Row <number>: `. |
| CsvCodec.RowMessages | src/utils/csvParser.ts:108 | One line per row error, in order. |
| CsvCodec.OutcomeAt | src/utils/csvParser.ts:62-82 | Outcome i is the check of row i. An accepted one has a non-zero amount of the right sign. |
| CsvCodec.ValidateAndConvertCsvRows | src/utils/csvParser.ts:30-116 | The loop collects the numbered row errors and the converted rows, then decides as `ValidateRows` does. |
| CsvCodec.ErrorsOfEmptyIff | src/utils/csvParser.ts:107-109 | There is no row error exactly when every row is accepted. |
| CsvCodec.ErrorsOfNumbered | src/utils/csvParser.ts:34-39 | Each error names a rejected row as index + 2 with that row's problem. The numbers strictly increase, so a row has at most one error. Every rejected row has its error. |
| CsvCodec.ConvertedOfValid | src/utils/csvParser.ts:92-101 | When every row is accepted, row i becomes transaction i. |
| CsvCodec.DecideAllOrNothing | src/utils/csvParser.ts:107-115 | Success exactly when there are rows and all are accepted. Any error refuses the batch with all errors. No rows gives "no valid transactions". |
| CsvCodec.ValidateRowsAllOrNothing | src/utils/csvParser.ts:30-116 | A batch succeeds exactly when it has rows and every row passes. Then there is one transaction per row, in order, with that row's fields and a non-zero amount of the right sign. |
| CsvCodec.TransactionsToCsv | src/utils/csvParser.ts:121-127 | One row per transaction, in order: date, amount text, description, type. |
| CsvCodec.RowRoundTrip | src/utils/csvParser.ts:122-127 | The export row of a well-formed transaction is accepted with exactly its fields. |
| CsvCodec.ExportImportRoundTrip | src/utils/csvParser.ts:30-127 | Exporting well-formed transactions and importing the rows gives back their fields, one per row, in order. |
| Currency.GetCurrencySymbol | src/constants/currency.ts:16-18 | The table's symbol for a listed code. An unknown code stands for itself. |
| Currency.SelectableCodesHaveSymbols | src/constants/currency.ts:6-11 | Every selectable code is listed, with a symbol of its own. |
| Currency.DefaultSymbolIsEuro | src/constants/currency.ts:16 | Without an argument the symbol is `€`. |
| Formatting.FormatCurrency | src/utils/formatting.ts:7-14 | The output is the symbol, then integer digits, a point and exactly two digits. |
| Formatting.FormatCurrencyIgnoresSign | src/utils/formatting.ts:12 | An amount and its negation are shown the same way. |
| Formatting.FormatCurrencyReadsBack | src/utils/formatting.ts:11-13 | The text after the symbol reads back as the amount's magnitude. |
| Formatting.FormatCurrencyDefaultsToEuro | src/utils/formatting.ts:9 | Without a currency the output starts with `€`. |
| Formatting.AmountColorClass | src/utils/formatting.ts:49-57 | `text-income` exactly for positive amounts, `text-expense` exactly for negative ones, `text-text` exactly for zero. |
| Formatting.FormatDateForInput | src/utils/formatting.ts:33-35 | A string is returned unchanged. |
| ExchangeRates.FallbackRates | src/services/exchangeRateService.ts:70-76 | Lists EUR, USD, GBP and KES, with EUR at 1. |
| ExchangeRates.FetchRates | src/services/exchangeRateService.ts:62-76 | A fetched table gains EUR (1 unless the table has its own). Every fetched rate is kept. A failure gives the fallback table. |
| ExchangeRates.ConvertCurrency | src/services/exchangeRateService.ts:100-116 | The identity for EUR and for a currency whose rate is missing or zero. |
| ExchangeRates.GetExchangeRate | src/services/exchangeRateService.ts:121-126 | 1 for EUR or a missing currency, otherwise the table's rate, even 0. |
| ExchangeRates.ConvertIsScaleByRate | src/services/exchangeRateService.ts:109-126 | Conversion is the amount times `GetExchangeRate` exactly when the rate is not a listed zero, or the amount is 0. |
| ExchangeRates.ConvertIsLinear | src/services/exchangeRateService.ts:115 | Conversion is additive in the amount. |
| ExchangeRates.RateCache.constructor | src/services/exchangeRateService.ts:19-22 | Nothing is cached at first. |
| ExchangeRates.RateCache.CachedRates | src/services/exchangeRateService.ts:17-32 | The cached table is used exactly when both it and its time are stored and less than five minutes have passed. |
| ExchangeRates.RateCache.CacheRates | src/services/exchangeRateService.ts:37-44 | Stores the table with the current time. |
| ExchangeRates.RateCache.GetExchangeRates | src/services/exchangeRateService.ts:83-95 | A fresh cache is returned unchanged. Otherwise the fetched or fallback table is stored with the current time and returned. Either way, it is then what the cache serves. |
| ExchangeRates.RateCache.ReadTwice | src/services/exchangeRateService.ts:83-95 | A second read within five minutes of a fetch returns the same table, whatever the source would say. |
| TransactionService.FindIndex | src/services/transactionService.ts:80 | -1 exactly when no record carries the id. Otherwise the index is the first record with it. |
| TransactionService.Fresh | src/services/transactionService.ts:132-148 | The import never keeps more records than came in. |
| TransactionService.FreshStep | src/services/transactionService.ts:132-148 | A record is kept exactly when its id is new and its key is unseen. Keeping it makes its key seen. |
| TransactionService.FreshAreNew | src/services/transactionService.ts:133-147 | A kept record came in, with a new id and an unseen key. |
| TransactionService.UniqueAreNew | src/services/transactionService.ts:124-147 | No kept record shares an id or a key with an existing record. |
| TransactionService.FreshKeysDistinct | src/services/transactionService.ts:139-147 | No two kept records share a key. |
| TransactionService.UniqueKeysDistinct | src/services/transactionService.ts:124-147 | No two records the import keeps share a key. |
| TransactionService.SameIdInBatchKept | src/services/transactionService.ts:124-137 | Two incoming records with the same new id and different keys are both kept, because the id set never grows. |
| TransactionService.SameKeyInBatchDropped | src/services/transactionService.ts:139-147 | A later incoming record with an earlier kept record's key is dropped. |
| TransactionService.UpdateFirstIsUpdateAll | src/services/transactionService.ts:80-96 | With distinct ids, replacing the first record with the id (service) equals updating every record with it (store). |
| TransactionService.SplitDuplicates | src/services/transactionService.ts:129-148 | The loop keeps exactly what the import policy keeps. Kept plus duplicates is the incoming count. |
| TransactionService.TransactionStorage.AddTransaction | src/services/transactionService.ts:56-70 | Stores the list plus the stamped draft, and writes storage once. |
| TransactionService.TransactionStorage.UpdateTransaction | src/services/transactionService.ts:75-100 | An unknown id fails with not-found and writes nothing. Otherwise the first record with the id is replaced in place by its merge, and storage is written once. |
| TransactionService.TransactionStorage.DeleteTransaction | src/services/transactionService.ts:105-115 | Fails exactly when no record has the id. Otherwise it removes every record with it and writes storage once. |
| TransactionService.TransactionStorage.ImportTransactions | src/services/transactionService.ts:120-159 | Imported plus duplicates is the incoming count. It stores the existing list followed by the kept records. Storage is written exactly when something is kept. |
| Pagination.Render | src/components/features/TransactionList/PaginationControls.tsx:18-21 | Nothing is shown exactly when there is at most one page. |
| Pagination.ButtonTargets | src/components/features/TransactionList/PaginationControls.tsx:29-39 | Previous goes to a page in 1..p and Next to one in p..last. Each is disabled exactly when it would stay on p. |
| Pagination.RangeBounds | src/components/features/TransactionList/PaginationControls.tsx:20-21 | On a page in range: 1 ≤ start ≤ end ≤ count, spanning at most one page. |
| Pagination.RangeIsPageSlice | src/components/features/TransactionList/PaginationControls.tsx:20-21 | The range names exactly the records the store's page holds. |
| TransactionForm.SchemaDateAgreesWithValidation | src/components/features/TransactionForm/TransactionForm.tsx:19-30 | On shaped dates from year 100 on, the schema's date rule and the date validator accept the same dates. |
| TransactionForm.SchemaKeepsBlankDescription | src/components/features/TransactionForm/TransactionForm.tsx:15-18 | A one-space description passes the schema's untrimmed rule but not the description validator. |
| TransactionForm.ConvertToEUR | src/components/features/TransactionForm/TransactionForm.tsx:73-84 | The identity without rates or for EUR. |
| TransactionForm.ConvertToEURInvertsConvert | src/components/features/TransactionForm/TransactionForm.tsx:73-84 | Converting to euros and back, or back and to euros, gives the amount again. |
| TransactionForm.OnSubmit | src/components/features/TransactionForm/TransactionForm.tsx:133-184 | The method takes the decision `SubmitDecision` describes. |
| TransactionForm.SubmitOutcomes | src/components/features/TransactionForm/TransactionForm.tsx:140-174 | A refusal happens exactly for a withdrawal that overdraws the adjusted balance, and quotes that balance and the amount. Otherwise edit mode updates the original id with the signed entry, and anything else adds it. |
| TransactionForm.DepositNeverRejected | src/components/features/TransactionForm/TransactionForm.tsx:143 | A deposit is never refused. |
| TransactionForm.SubmitAgreesWithValidators | src/components/features/TransactionForm/TransactionForm.tsx:140-157 | The signed amount passes the amount validator. A withdrawal is refused exactly when the balance validator refuses it. |
| TransactionForm.AcceptedWithdrawalKeepsBalance | src/components/features/TransactionForm/TransactionForm.tsx:143-174 | A withdrawal the form lets through never takes the store's balance below zero, whether it sends an add or, with distinct ids, an update. |

## Left out

- Persistence (the `persist` middleware, `partialize`, `localStorage`, JSON text and quota errors) is not modelled. The service's storage blob is the field `stored`, every write of it is counted in `saves`, and `getTransactions` is reading that field.
- Asynchrony and the `delay` of the service are not modelled. The unreachable `!existing` check of `updateTransaction` is not modelled either.
- The request to the rate source is not modelled: its result is the input `FetchOutcome`. JSON text in the cache is not modelled.
- `crypto.randomUUID` and `Date.now` are not modelled: ids and creation times are parameters. "Today" is a calendar day, and "now" is milliseconds.
- The CSV library's parsing, quoting and file download are not modelled. A parsed row is a record of four strings, and an absent column is the empty string. The undefined-row guard and the per-row `try`/`catch`, which nothing in the row checks triggers, are not modelled.
- Numbers.ParseCents: reads only plain decimals with at most two fraction digits, such as the amounts the export writes. `parseFloat` also skips leading white space, ignores trailing text, and accepts a leading `+`, forms such as `.5` and `5.`, exponents and more fraction digits. Amounts are whole cents, so floating-point rounding in sums and conversions is not modelled.
- CsvCodec.CheckRow: a date's validity is its being a real calendar day. The host's `Date` string parser (UTC-based, lenient on some days) is not modelled. The same holds for `Validation.ValidateTransactionDate`, which compares calendar days instead of instants in local time.
- Dates.ParseLocalIsoDate: each part is read as an integer only when it is empty or all digits. `Number` also reads texts such as ` 2024`, `+2024`, `2024.0`, `2e3` and `0x7E8` as integers, so on such text the source can return a date where the model returns none. The only callers test the `YYYY-MM-DD` shape first, and on shaped text the two agree.
- CsvCodec.ErrorMessage renders the row errors as text. Messages are derived from structured problems rather than built as strings.
- TransactionForm.OnSubmit: takes the amount already in euro cents. The form's real amount goes through `TransactionForm.ConvertToEUR`. The source stores that euro amount as it comes, fractions of a cent included; the model assumes it is a whole number of cents. The refusal carries the two figures; their conversion and rounding into the display currency, and the message text, are not modelled. The watched type and the submitted type are taken to be the same.
- TransactionForm.SchemaAccepts: the schema is a predicate. Zod's issue messages and their order are not modelled.
- Formatting.FormatDateForInput: only the string branch is modelled. `formatDate`, `getTodayDateString` and the `Date` branch use date-fns and the clock.
- StoreViews.Sort: does not state that records comparing equal keep their input order. The model's insertion sort keeps it, as the host's stable sort does, but no lemma says so. `localeCompare` on dates is modelled as code-unit order. `localeCompare` is locale collation; it agrees with code-unit order on zero-padded `YYYY-MM-DD` dates, which is what validated records carry.
- PageAfterDeleteStaysInRange: holds only when exactly one record carries the deleted id. Delete removes every record with the id, and with two copies the page can end past the last page, as `StoreViews.PageAfterDeleteDuplicateId` shows.
- Text.ToLower: maps only A-Z, where `toLowerCase` also maps non-ASCII letters. String lengths count characters rather than UTF-16 code units.
- The filter, sort and page copies inside the transaction list component are not modelled separately; they repeat the store's.
- The React components, hooks, timers and debounce are not modelled.
