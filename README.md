# penny, modelled in Dafny

penny is a personal-finance ledger. Bank exports in CSV form are imported into
transactions. Each transaction is identified by a hash of the fields that came from the bank.
The ledger is kept in a SQLite table that lives encrypted on disk and is decrypted into a
temporary file for every access. A terminal UI browses, filters and re-categorises the
transactions.

This project models the core of that program:

- **`Transactions`** (`transaction.dfy`) covers these parts of `transaction.go`:
  - the `Transaction` record;
  - its content-derived `Id`;
  - the sort comparator;
  - the table rows and their column alignment;
  - the category views;
  - the edit-TSV export.
- **`Db`** (`db.dfy`) covers `db.go`:
  - `PennyDb` with its cached snapshot `txCache`;
  - the encrypted store, reduced to `file`, the rows the sealed file holds;
  - `PennyDbHandle` over an in-memory `tx` table;
  - `NewPennyDb`, `Open`/`Close`, `Setup`, `AllTransactions` (`ORDER BY date, amount, memo, disambiguation`), `Slice`, `Start`/`End`, `Update`, `Insert` and `SaveEditTsv`.
- **`Import`** (`import.dfy`) covers `import.go`:
  - the `TransactionImporter` and its Id-collision disambiguation;
  - the DCU, Amazon-rewards and investment CSV mappings;
  - `cvt` and `normalizeDate`.
  - The investment record and its `Id` come from `investment.go`.
- **`Ui`** (`ui.dfy`) covers the keyboard state of `ui.go`:
  - `Max`/`Min`;
  - the cursor and scroll offset of `UITable` (`Up`, `Down`, `Top`, `Bottom`, `Handle`);
  - the text buffer of `UIPopupInput`.
- **`Util`** (`util.dfy`) covers `util.go`: `PadRight`, `contains`, and the AES-CFB `encrypt`/`decrypt` envelope with its round trip.
- **`Text`** and **`Dates`** hold the Go library behaviour the core depends on:
  - `%d` and `%0Nd`;
  - `strconv.ParseInt`;
  - string `<`;
  - UTF-8 encoding of a rune;
  - `time.Format`/`time.Parse` for the layouts `01/02/2006` and `01/02/2016`.
- **`Wrappers`** holds `Option` and `Result`.

How Go constructs are represented:

- Go strings are `string` values whose characters stand for bytes, so `len` is a byte count.
- Go panics are modelled explicitly: an index past the end of a CSV record, or a date that the regular expression does not match, is the `Crash` step. Nothing runs after it.
- md5, `%.2f`, the money formatter and `strconv.ParseFloat` are opaque function values in a `Primitives` record. Every property is therefore proved for every choice of them.
- AES is an opaque keystream in the same way.

## Model

| member | source | states |
|---|---|---|
| Text.DigitsValue | import.go:29 | the `%d` text of a counter is all digits, reads back as the counter, and starts with 0 only for 0 |
| Text.ZeroPadValue | import.go:93 | `%02d`/`%04d` padding keeps the value of the number |
| Text.ParseInt | import.go:97 | a successful `strconv.ParseInt(s, 10, bitSize)` is the signed value of the digits after an optional sign, and lies in the signed range of the bit size |
| Text.ParseIntDigits | import.go:97 | a digit run, plain or with '+' or '-', parses exactly when its value fits the signed range, to that value |
| Text.ParseIntRejects | import.go:97 | the empty text, a lone sign and any text with a character that is neither a digit nor a leading sign do not parse |
| Text.ParseIntClamped | import.go:90-92 | `ParseInt(.., 10, 16)` with its error ignored: the exact value when it fits, otherwise 32767 |
| Text.EncodeRune | ui.go:251 | `string(rune)`: an ASCII rune is itself, an invalid rune is U+FFFD, and a scalar takes 2, 3 or 4 bytes by range with the matching lead byte and 10xxxxxx continuation bytes |
| Text.EncodeRuneDecodes | ui.go:251 | decoding the UTF-8 bytes of any Unicode scalar gives that scalar back |
| Text.StrLessTransitive | transaction.go:40 | Go's byte-wise string `<` is transitive |
| Text.StrLessTotal | transaction.go:40 | any two different strings are ordered one way or the other |
| Dates.Parse | import.go:138 | `time.Parse("01/02/2006", s)` succeeds only with a day that exists in its month |
| Dates.ParseFormat | import.go:102 | parsing the `01/02/2006` text of a valid day gives back that day |
| Dates.FormatParse | import.go:173 | every text that parses is exactly the formatting of the day it parses to |
| Dates.FormatInjective | transaction.go:48 | the `01/02/2006` text identifies a valid day uniquely |
| Dates.FormatNoYearIgnoresYear | transaction.go:37 | the `01/02/2016` text of two days is equal exactly when month and day are equal, whatever the years |
| Dates.BeforeIsStrictTotalOrder | transaction.go:38 | `Before` is irreflexive, asymmetric, transitive and total on days |
| Util.PadRight | util.go:19-26 | the result has exactly `length` bytes: the string, then the pad repeated (the input itself is truncated when longer) |
| Util.Contains | util.go:28-35 | true exactly when the list holds the string |
| Util.Encrypt | util.go:63-76 | a wrong key size is the cipher's error; otherwise the result is the IV followed by the text XORed with the keystream of key and IV |
| Util.Decrypt | util.go:78-91 | key-size error, then "ciphertext too short" under one block, otherwise the opened payload |
| Util.RoundTrip | util.go:63-91 | decrypting what encrypt produced gives back the plaintext |
| Transactions.Id | transaction.go:46-51 | the Id is ten characters of the hex md5 of date, amount, memo and disambiguation |
| Transactions.IdIgnoresUserFields | transaction.go:46-51 | source, category and the ignored flag do not change the Id |
| Transactions.IdDependsOnOriginFields | transaction.go:48 | transactions with the same date, two-decimal amount, memo and disambiguation have the same Id |
| Transactions.MemoDisambiguationBoundary | transaction.go:48 | moving a memo suffix into an empty disambiguation keeps the Id, since the fields are concatenated without separators |
| Transactions.LessAsWrittenIgnoresYear | transaction.go:36-44 | as written, transactions on the same month and day are ordered by Id whatever their years |
| Transactions.LessAsWrittenPutsLaterYearFirst | transaction.go:36-44 | a concrete pair where the comparator as written orders 01/05/2018 before 01/05/2017 |
| Transactions.LessAsWrittenCycles | transaction.go:36-44 | as written the comparator is not a strict order: 01/05/2018 < 01/05/2017 < 06/01/2017 < 01/05/2018 for a concrete digest |
| Transactions.LessOrdersByDateThenId | transaction.go:36-44 | corrected comparator: by date, then by Id, and a panic exactly on equal date and Id |
| Transactions.LessIsStrictOrder | transaction.go:36-44 | on distinct Ids the corrected comparator never panics, is asymmetric and total, and is transitive |
| Transactions.TableRow | transaction.go:59-65 | six cells; the first is the 3-byte cross mark exactly when the transaction is ignored |
| Transactions.CsvRowDeterminesId | transaction.go:67-75 | transactions with the same CSV row have the same Id |
| Transactions.MaxWidthIsWidest | transaction.go:216-224 | a column's width bounds every cell in it and is reached by one of them |
| Transactions.Widen | transaction.go:218-223 | one row widens each of its columns to at least that cell, and keeps the other columns |
| Transactions.WidestCells | transaction.go:216-224 | the width map has the six columns when there are rows, each at its widest cell |
| Transactions.RenderLine | transaction.go:245-248 | the rendered line is the cells padded to width + 1 and concatenated |
| Transactions.LineLength | transaction.go:245-248 | a line's length is the sum of the widths plus one per column |
| Transactions.TableRows | transaction.go:215-253 | one line per transaction, each its row padded to the common column widths |
| Transactions.TableLinesAligned | transaction.go:215-253 | all table lines have the same length |
| Transactions.Categories | transaction.go:132-148 | the distinct categories of exactly the transactions that are not ignored |
| Transactions.TransactionCountByCategory | transaction.go:150-159 | the keys are the non-ignored categories; each count is that category's non-ignored transactions |
| Transactions.CountsSumToNonIgnored | transaction.go:150-159 | the per-category counts sum to the number of non-ignored transactions |
| Transactions.EditRecord | transaction.go:116-123 | the record carries the Id first, "true" in field 4 exactly when ignored, and the category in field 5 |
| Transactions.GetEditTsv | transaction.go:112-130 | one edit record per transaction, in order |
| Db.KeyLeDates | db.go:368 | rows in `ORDER BY date, ...` order never have a later date before an earlier one |
| Db.SortByKeySorted | db.go:368 | a sorted arrangement of any rows exists |
| Db.UpdateKeepsKeys | db.go:178-186 | the UPDATE batch never changes a row's key columns, so no row changes its Id |
| Db.UpdateErrorNamesId | db.go:197-199 | a failed batch reports the Id of one of its transactions |
| Db.UpdateOneRow | db.go:177-200 | a transaction whose key matches exactly one row replaces that row and nothing else |
| Db.UpdateMissingRowFails | db.go:197-199 | a transaction whose key matches no row stops the batch with its Id in the error |
| Db.NewOnesExactly | db.go:229-233 | Insert adds exactly the batch transactions whose Id was absent before the batch |
| Db.ReinsertIsNoop | db.go:209-265 | inserting rows already stored adds nothing |
| Db.BatchDuplicatesKept | db.go:224-233 | a transaction repeated within one batch is inserted twice, and a later Update of it then fails |
| Db.IndexById | db.go:224-227 | the map holds exactly the Ids of the rows, each to a row with that Id |
| Db.PennyDbHandle.Setup | db.go:397-435 | creates the empty `tx` table only when it is missing |
| Db.PennyDbHandle.AllTransactions | db.go:367-395 | a sorted permutation of the table's rows |
| Db.PennyDbHandle.ExecUpdate | db.go:178-192 | every row matching the key gets the new category, ignored flag and source; affected is the match count |
| Db.PennyDbHandle.InsertAbsent | db.go:229-257 | appends the batch transactions whose Id is not in the map, in order |
| Db.PennyDbHandle.ExecInsert | db.go:235-252 | appends the row and reports one row affected |
| Db.PennyDb.Open | db.go:298-355 | a fresh handle whose table holds the stored rows, or an empty new `tx` table when there is no file |
| Db.PennyDb.Close | db.go:267-296 | seals the handle's rows into the file and leaves the snapshot alone |
| Db.PennyDb.AllTransactions | db.go:55-59 | the cached snapshot, sorted |
| Db.PennyDb.Start | db.go:155-159 | the first cached date, which no cached date precedes |
| Db.PennyDb.End | db.go:161-165 | the last cached date, which no cached date follows |
| Db.PennyDb.Slice | db.go:120-147 | the cached transactions that pass the category, regex and inclusive date filters, in order |
| Db.Listed | db.go:126-135 | the category scan finds a hit exactly when some listed category admits the transaction |
| Db.CategoryFilter | db.go:126-136 | a transaction passes a non-empty category list exactly when its category is listed, or it is empty and "uncategorized" is listed |
| Db.DateFilterInclusive | db.go:142 | the date filter includes both ends; a reversed range keeps only the two end days |
| Db.SliceIsSubsequence | db.go:120-147 | a slice is a subsequence of the snapshot holding exactly the selected transactions |
| Db.SliceIsSorted | db.go:120-147 | a slice of a sorted snapshot is sorted |
| Db.PennyDb.Update | db.go:167-207 | the file holds the batch's updates up to the first failure; the error names that failure; the snapshot is re-read only on success |
| Db.PennyDb.Insert | db.go:209-265 | the file gains exactly the new-Id transactions; the snapshot is re-read from it |
| Db.IdIndexInRange | db.go:91-94 | the Id index maps each cached Id to a position holding it |
| Db.IdIndexFindsEach | db.go:91-94 | with distinct Ids, each cached transaction is found at its own position |
| Db.EditsKeepKeys | db.go:104-110 | edits change only category and ignored flag, never a key field |
| Db.ExportedEditsChangeNothing | db.go:84-118 | on a snapshot whose Ids are all different, saving an unmodified edit export changes no transaction and sends an empty update |
| Db.OneRowEditLoop | db.go:97-114 | when every record finds its own position and only record i differs from its transaction, the record loop edits exactly transaction i and queues it once |
| Db.OneRowEdit | db.go:96-117 | on a snapshot whose Ids are all different, a full export with one row's category, ignored flag or both changed edits exactly that transaction and sends it alone to `Update` |
| Db.OneCategoryEdit | db.go:96-117 | on a snapshot whose Ids are all different, a new category in one row of a full export changes that transaction's category alone and sends it alone |
| Db.OneIgnoredEdit | db.go:96-117 | on a snapshot whose Ids are all different, a flipped ignored field in one row of a full export changes that transaction's flag alone and sends it alone |
| Db.PennyDb.SaveEditTsv | db.go:84-118 | the edits are applied to the snapshot in place, then the changed transactions are updated in the file as `Update` does |
| Db.IndexPositions | db.go:91-94 | the Id map built from the snapshot is the Id index of the snapshot |
| Db.PennyDb.EditCache | db.go:96-114 | the edited snapshot and the queued positions are exactly the record-by-record edits of the old snapshot; the file is untouched |
| Db.NewPennyDb | db.go:34-53 | a key that is not 32 bytes is refused; otherwise the snapshot is the stored rows |
| Import.InvestmentId | investment.go:77-91 | the investment Id is ten characters of the hex md5 of its fields |
| Import.ImageSize | import.go:28-33 | n + 1 retries with pairwise distinct Ids have n + 1 Ids |
| Import.Pigeonhole | import.go:28-33 | among n + 1 distinct retry Ids at least one is outside n claimed Ids |
| Import.FreeRetryExists | import.go:28-33 | when retries separate, the disambiguation loop reaches a free Id |
| Import.TransactionImporter.constructor | import.go:19-24 | both maps start empty |
| Import.TransactionImporter.Add | import.go:26-37 | a free Id stores the transaction as is; a taken one stores it under the first free retry "0", "1", ...; no entry is overwritten |
| Import.TransactionImporter.AddInvestment | import.go:39-50 | the same for investments |
| Import.ValuesOf | import.go:52-61 | the map's values, one per key |
| Import.TransactionImporter.All | import.go:52-61 | exactly the stored transactions, each once |
| Import.TransactionImporter.AllInvestments | import.go:63-72 | exactly the stored investments, each once |
| Import.Cvt | import.go:81-85 | no '$' or ',' remains, every other character keeps its number of occurrences, and clean text is unchanged |
| Import.CvtAppend | import.go:81-85 | `cvt` distributes over concatenation and drops a single character exactly when it is '$' or ',', so the kept characters stay in order |
| Import.FindDate | import.go:88-89 | each matched group is a non-empty digit run |
| Import.SplitDate | import.go:88-89 | `a/b/c` with digit runs a, b, c matches as a, b, c |
| Import.ClampedSmall | import.go:90-92 | a digit run parses, error ignored, to its value below 32768 and to 32767 from there on |
| Import.NormalizeDateOfDay | import.go:87-94 | a day written with any digit runs for month, day and year normalises to its `01/02/2006` text, which parses back to it |
| Import.DcuRecord | import.go:159-193 | panic on short records, "Invalid CSV" with no amount, memo rules for SH DRAFT, DIVIDEND and WITHDRAW, the debit column first |
| Import.AmazonRecord | import.go:133-147 | date from field 1, memo from field 2, amount from field 5; panic on short records |
| Import.InvestmentRecord | import.go:96-121 | skip a non-numeric account; date through `normalizeDate`; shares and price through `cvt`; an empty price is 0 |
| Import.HeaderIgnored | import.go:133-136 | the first record never affects a DCU or Amazon import |
| Import.AcceptedRows | import.go:96-123 | the status is Done exactly when every record was kept or skipped; the kept records are then exactly the stored ones |
| Import.TransactionImporter.AddTransactions | import.go:133-149 | records are added in order up to the first error or panic; the status says which |
| Import.TransactionImporter.AddInvestments | import.go:96-123 | the same for investment records |
| Import.TransactionImporter.ImportDCU | import.go:152-196 | the DCU records after the header, added in order until the first failure |
| Import.TransactionImporter.ImportAmazonRewards | import.go:126-150 | the Amazon records after the header, added in order until the first failure |
| Import.TransactionImporter.ImportInvestments | import.go:74-124 | the investment records, added in order until the first failure |
| Ui.Max | ui.go:108-113 | the larger argument |
| Ui.Min | ui.go:115-120 | the smaller argument |
| Ui.UpMove | ui.go:122-131 | moving up never moves the cursor down or below row 0 |
| Ui.DownMove | ui.go:133-143 | moving down never passes the last row, and does nothing on it |
| Ui.BottomMove | ui.go:145-154 | the cursor on the last row, scrolled so that the last row is at the bottom of the view |
| Ui.UpKeepsOnScreen | ui.go:122-131 | moving up keeps the selected row on screen |
| Ui.DownKeepsOnScreen | ui.go:133-143 | moving down keeps the selected row on screen |
| Ui.HandleKeepsOnScreen | ui.go:163-189 | every key keeps the selected row on screen, except `G` on an empty table, which selects row -1 |
| Ui.UITable.constructor | ui.go:64-72 | a table starts scrolled to the top with row 0 selected |
| Ui.UITable.Up | ui.go:122-131 | the new cursor is `UpMove`; the answer says whether the cursor stayed |
| Ui.UITable.Down | ui.go:133-143 | the new cursor is `DownMove` over the callback's rows; the answer says whether it stayed |
| Ui.UITable.Bottom | ui.go:145-154 | the new cursor is `BottomMove`; the answer says whether it stayed |
| Ui.UITable.Top | ui.go:156-161 | scrolled to the top with row 0 selected; the answer says whether row 0 was already selected |
| Ui.UITable.Handle | ui.go:163-189 | the key bindings; other events answer true and change nothing |
| Ui.Edited | ui.go:240-252 | Enter and Escape clear the buffer, Backspace drops its last byte, a rune appends its UTF-8 bytes |
| Ui.BackspaceUndoesAscii | ui.go:246-251 | Backspace after an ASCII character gives back the earlier text |
| Ui.BackspaceLeavesPartialRune | ui.go:246-251 | Backspace after a multi-byte character leaves its leading bytes behind |
| Ui.UIPopupInput.Handle | ui.go:236-255 | Enter sends the buffer, then Enter and Escape clear it and hide the popup; the answer is always false |

## Left out

- SQLite, the file system and temporary files are modelled as follows. The database is an in-memory `tx` table. The encrypted file is `file`, the rows the last sealed copy held. The failures of opening, reading, writing, decrypting and closing are not modelled. Neither are the query, scan and `time.Parse` errors of `AllTransactions` (the stored dates are ones the program wrote).
- The random IV of `encrypt` is a parameter, and a failure to read it from `rand.Reader` is not modelled. AES is an abstract keystream. Go's `decrypt` XORs in place into the caller's slice, but the model works on a copy.
- CSV reading (`csv.NewReader(...).ReadAll()` and its field-count errors) is left out: records arrive already split. The library errors of `time.Parse` and `strconv.ParseFloat` are reduced to whether they failed.
- The importers take the CSV records as an argument rather than the raw bytes.
- Floating point: amounts, shares and prices are reals. `%.2f`, the money formatter and `ParseFloat` are opaque functions.
- `Db.PennyDbHandle.InsertAbsent` keeps the `rows != 1` check after each INSERT, but the check can never fire: an INSERT into the in-memory table always affects one row, so `Db.PennyDb.Insert` always succeeds. The SQL errors of `Exec` and `RowsAffected` are not modelled.
- `Db.PennyDb.SaveEditTsv` requires records of at least six fields. In Go a shorter record panics. The "cannot find id" message for an unknown Id is not modelled; the record is skipped, as in the code.
- `Db.PennyDb.Start` and `Db.PennyDb.End` require a non-empty snapshot. In Go an empty cache panics on the index.
- The logger calls, the mutex of `PennyDb` and all timing are left out, and so is the "already in database" message of `Insert`.
- Years are limited to 0..9999, the years the `01/02/2006` layout can parse.
- Db.ExportedEditsChangeNothing, Db.OneRowEdit, Db.OneCategoryEdit and Db.OneIgnoredEdit assume a snapshot whose Ids are all different. An `Insert` batch can store one Id twice (`Db.BatchDuplicatesKept`), and then every record with that Id edits the last cached transaction with it, so an unmodified export can still change a row.
- `Import.TransactionImporter.Add` and `Import.TransactionImporter.AddInvestment` require that, when the Id is taken, some retry's Id is free. The batch methods require that the first retries of each record have distinct Ids. Without that, the Go loop need not terminate either.
- `Transactions.TableRows` models the `color == false` table. The colour escapes that `color == true` adds are not modelled.
- The UI's drawing, screen size, event loop, goroutines and channels are left out. `UIPopupInput`'s send on its result channel is the `sent` sequence. `UITable`'s `rows` callback is the `rows` argument of each call.
- `DefaultSlice`, `WriteDecryptedDb`, `importCapitalOne`, the `TxSlice` totals and summaries, `Holding` and the stock-price lookup are not part of this model. Neither are `log.go`, `main.go` and `server.go`.

## Findings

| source | as written | input that shows it | evidently intended | confidence | as-written member | corrected member |
|---|---|---|---|---|---|---|
| transaction.go:36-44 | `Less` compares `Date.Format("01/02/2016")`, a layout with no year in it, and so orders transactions on the same month and day by Id alone | two transactions on 01/05/2017 and 01/05/2018 whose Ids compare the other way: the 2018 one sorts first; with a third on 06/01/2017 the order is a cycle (`Transactions.LessAsWrittenCycles`) | compare the full date (`"01/02/2006"`), then the Id | not executed | Transactions.LessAsWrittenPutsLaterYearFirst | Transactions.LessOrdersByDateThenId |
