# Payment reconciliation engine, modelled in Dafny

The system reconciles a payment gateway's export with a bookings ledger. Each settled
gateway payment is matched to the ledger lines that carry its id as `Payment Ref`. Those
lines give the payment a program and a session date. The program is looked up in a code
book, which maps programs to category codes and categories. The result is one report row
per payment with the amount, the fee and the amount after fees, sorted by session date.

The repository holds four versions of this engine, and the model keeps all four apart:

- `claude_main.py`, a GUI version with helper functions (module `ClaudeMain`);
- `newest_main.py`, a GUI version with the loop inline (module `NewestMain`);
- `new_main.py`, a script that takes its date window from the ledger (module `NewMain`);
- `main.py`, the first script, whose decision rules differ (module `MainScript`).

The shared modules hold what the versions have in common:

- `Text`: `rstrip`, `strip`, `replace` and the cleaning of dollar amounts.
- `Lookup`: the first-match lookup `get_category_or_code` / `get_category_code`.
- `CodeBook`: right-stripping, `groupby` into ordered tables, and the non-breaking-space scrub.
- `Records`: the gateway filters, the selection of ledger lines by payment, and the
  program/session resolution.
- `Report`: row assembly, the amount-column conversion, and the sort by session date.

Conventions of the model:

- Money is integer cents.
- Timestamps are integer seconds, and a calendar date is `t / 86400`.
- A missing gateway `id` and a missing `Code` or `Category` key in the code book (`NaN`)
  are `None`. Every other text column is a plain string with no missing cell.
- A code table is a sequence of `(key, labels)` pairs, so first-match order is explicit.
- Where the source loops and changes state, the model is a `method` with a loop. Each such
  method is proved equal to a specification function, and the properties are lemmas about
  that function.

A run ends without a report in two ways, both modelled as `RunError`:

- `MalformedAmount`: `float` rejects a cleaned ledger amount. The error carries that cleaned
  text, the string Python's `ValueError` quotes.
- `MissingSessionColumn`: no row is produced, so `pd.DataFrame([])` has no `Session Date`
  column to sort by.

## Model

| member | source | states |
|---|---|---|
| Text.IsSpace | newest_main.py:58 | definition: the characters Python's `str.isspace` accepts, which argument-less `strip` and `rstrip` remove; used by Text.RStrip, Text.LStrip and Text.Strip |
| Text.RStrip | newest_main.py:58 | `str.rstrip()` returns a prefix of its input that does not end in whitespace, and everything it drops is whitespace |
| Text.LStrip | claude_main.py:11 | the left half of `strip()`: a suffix of its input that does not start with whitespace, and everything dropped is whitespace |
| Text.RemoveChar | claude_main.py:11 | `replace(c, '')` leaves no `c` and keeps every other character |
| Text.RemoveCharCount | claude_main.py:11 | `replace(c, '')` shortens the text by exactly the number of `c`s |
| Text.ReplaceChar | claude_main.py:41 | `replace("\xa0", " ")` keeps the length, puts a space at every position that held `\xa0`, and keeps every other character in place, so no `\xa0` is left |
| Text.Strip | claude_main.py:11 | `strip()` returns a stretch of its input outside which there is only whitespace, and that stretch neither starts nor ends in whitespace |
| Text.CleanDollarText | claude_main.py:10-11 | the text given to `float` is the input with every `$` and `,` removed and then trimmed at both ends, whitespace only: it contains no `$` and no `,`, and neither starts nor ends in whitespace |
| Text.RStripIdentity | newest_main.py:58 | a label that already has no trailing whitespace is left unchanged by `rstrip` |
| Text.RStripIdempotent | newest_main.py:58 | a property of `rstrip()` itself: right-stripping an already right-stripped label changes nothing |
| Text.RemoveCharConcat | claude_main.py:11 | removing a character from a concatenation is removing it from each part |
| Text.ReplaceKeepsRStripped | claude_main.py:37-41 | replacing the non-breaking space after the right-strip cannot create trailing whitespace that `rstrip` would remove |
| Text.CleanDollarTextIdentity | claude_main.py:10-11 | a property of `clean_dollar_amount` itself: cleaning text that is free of `$` and `,`, with no surrounding whitespace, leaves it unchanged |
| Text.RemoveCharAbsent | claude_main.py:11 | removing a character that does not occur leaves the text unchanged |
| Lookup.FirstMatch | claude_main.py:7-8 | the lookup is `None` exactly when the program is `None` or no label list contains it; otherwise it is the key of the first list, in table order, that contains it |
| Lookup.FindKey | newest_main.py:14-18 | the loop returns at the first key whose list contains the program, and `None` only after every key was scanned; the result equals `FirstMatch` |
| Lookup.FirstListingUnique | claude_main.py:7-8 | the first listing position and its key are unique, so the lookup has a single answer |
| Lookup.FirstMatchAppend | new_main.py:35-39 | adding a key at the end of the table changes the lookup only for programs that no earlier key lists |
| CodeBook.GroupOf | claude_main.py:38 | the group of key `k` holds exactly the labels of the code-book rows filed under `k` |
| CodeBook.GroupBy | claude_main.py:38-39 | the grouped table has one entry per key, in the given key order |
| CodeBook.RStripPrograms | claude_main.py:37 | right-stripping the `Program` column keeps the number of code-book rows |
| CodeBook.ScrubLabels | claude_main.py:41 | scrubbing a label list keeps its length |
| CodeBook.ScrubbedTable | claude_main.py:41 | the scrubbed table keeps every key and its position |
| CodeBook.ScrubCodeTable | newest_main.py:66-67 | reassigning each key's list in place, one key per iteration, yields the scrubbed table |
| CodeBook.BuildTables | newest_main.py:58-67 | the later versions' table build yields the right-stripped, scrubbed code table and the right-stripped category table |
| CodeBook.CodeTable | claude_main.py:37-41 | definition of the later versions' code table (right-strip, group by `Code`, scrub); its properties are stated by CodeBook.CodeTableGroup, CodeBook.CodeTableListed, CodeBook.CodeTableLookup, CodeBook.CodeTableLabelsClean and CodeBook.BuildTables |
| CodeBook.CategoryTable | claude_main.py:37-39 | definition of the category table (right-strip, group by `Category`, no scrub); its properties are stated by CodeBook.CategoryTableLabelsStripped and CodeBook.ScrubbingSplitsLookups |
| CodeBook.RawCodeTable | main.py:13-17 | definition of the first version's table (group raw labels by `Code`, scrub); its properties are stated by CodeBook.RawCodeTableGroup, CodeBook.RawCodeTableListed, CodeBook.RawCodeTableLookup and CodeBook.RawCodeTableLabels |
| CodeBook.SameKeysSameOrder | newest_main.py:58-61 | tables whose rows carry the same keys, position by position, have the same group keys |
| CodeBook.RStripKeepsKeyOrder | newest_main.py:58-63 | right-stripping labels does not change which keys `groupby` produces |
| CodeBook.GroupByListed | claude_main.py:38-39 | a label is listed in the grouped table exactly when a code-book row with a non-missing key carries it |
| CodeBook.GroupByLookup | claude_main.py:77-78 | the lookup in a grouped table is `None` exactly when no row with a key carries the label; otherwise it is a key filed with that label |
| CodeBook.ScrubLabelsHas | claude_main.py:41 | scrubbing a label list keeps every label, in scrubbed form |
| CodeBook.ScrubbedGroupOf | claude_main.py:38-41 | the scrubbed group of a key holds exactly the scrubbed labels of the rows filed under that key: none lost, none invented |
| CodeBook.CodeTableGroup | claude_main.py:37-41 | under each code, the code table lists exactly the right-stripped labels, with `\xa0` replaced, of the code-book rows filed under that code |
| CodeBook.RawCodeTableGroup | main.py:13-17 | under each code, the first version's table lists exactly the raw labels, with `\xa0` replaced, of the code-book rows filed under that code |
| CodeBook.CodeTableListed | claude_main.py:37-41 | a program is listed in the code table exactly when it is the right-stripped, scrubbed label of some code-book row with a code |
| CodeBook.RawCodeTableListed | main.py:13-17 | a program is listed in the first version's table exactly when it is the scrubbed raw label of some code-book row with a code |
| CodeBook.CodeTableLookup | claude_main.py:77-78 | the later versions' code lookup is `None` exactly when no code-book row with a code has the program as its cleaned label; a hit is a code under which such a row is filed |
| CodeBook.RawCodeTableLookup | main.py:19-24 | the first version's code lookup is `None` exactly when no code-book row with a code has the program as its scrubbed raw label; a hit is a code under which such a row is filed |
| CodeBook.CodeTableLabelsClean | claude_main.py:37-41 | every code-table label is the right-stripped label of a code-book row filed under that code with `\xa0` replaced by a space, so it is right-stripped and free of `\xa0` |
| CodeBook.RawCodeTableLabels | main.py:13-17 | every label of the first version's table is a raw code-book label filed under that code with `\xa0` replaced by a space, not right-stripped, and holds no `\xa0` |
| CodeBook.CategoryTableLabelsStripped | claude_main.py:37-39 | every category-table label is the right-stripped label of a code-book row filed under that category, so `\xa0` inside it survives |
| CodeBook.ScrubbingSplitsLookups | newest_main.py:63-67 | because only the code table is scrubbed, one program name can find a category but no code |
| Records.DayOf | claude_main.py:58-59 | definition: `.dt.date` of a timestamp as a day number, `t / 86400`; its property is stated by NewMain.DayOfMonotone |
| Records.Settled | main.py:9-10 | definition: the row has an id, `Captured` is not `'FALSE'` and `Status` is not `'Failed'`; used by Records.SettledRows |
| Records.Filter | claude_main.py:56 | a boolean mask keeps exactly the rows that pass it and never adds a row |
| Records.FilterConcat | claude_main.py:54-59 | a mask applied to a concatenation is the concatenation of the masked parts, so kept rows stay in input order |
| Records.FilterFirst | claude_main.py:104-106 | the first row a mask keeps is the first row of the input that passes it |
| Records.Take | newest_main.py:79 | `head(1000)` keeps the first `RowCap` rows, or all of them when there are fewer |
| Records.SettledRows | main.py:9-10 | a row is kept exactly when it has an id, is not `Captured == 'FALSE'` and is not `Status == 'Failed'` |
| Records.SettledRowsConcat | main.py:9-10 | the settled-row mask keeps rows in input order, so `head(1000)` takes the first settled rows |
| Records.SettledInDays | claude_main.py:54-59 | a row is kept exactly when it is settled and was created on a calendar day in `[start, end]` |
| Records.SettledInDaysConcat | newest_main.py:45-54 | the day-window cleaning distributes over concatenation, so kept rows keep their input order |
| Records.SettledInDaysSingle | claude_main.py:54-59 | a single row is kept exactly when it is settled and created inside the window |
| Records.RefersTo | claude_main.py:73 | definition: `Payment Ref` equals the payment id, and a missing id equals nothing; used by Records.Matching and Records.MatchPositions |
| Records.Matching | claude_main.py:73 | the reset-index selection holds exactly the ledger lines whose `Payment Ref` equals the payment id; a missing id matches nothing |
| Records.MatchPositions | main.py:45 | the index labels of the selection without `reset_index` are ledger positions, ascending, and include every matching position |
| Records.LinesAtConcat | main.py:45 | reading the lines at two runs of positions is reading each run in turn |
| Records.MatchPositionsLines | main.py:45 | the lines at those index labels are exactly the reset-index selection of the later versions |
| Records.IsContent | claude_main.py:104 | definition: the right-stripped label is not `"Payment (Thank you)"`; used by Records.ContentLines |
| Records.ContentLines | claude_main.py:104 | the content lines are exactly the lines whose right-stripped label is not `"Payment (Thank you)"` |
| Records.FirstContent | newest_main.py:117-126 | definition of the later versions' resolution; its meaning is stated by Records.FirstContentSpec |
| Records.FirstContentSpec | newest_main.py:117-126 | resolution gives the right-stripped label and date of the first content line, and `(None, None)` exactly when there is none |
| Records.FilterSameButAmounts | claude_main.py:73 | a mask that does not read `Amount` keeps corresponding lines of two ledgers that differ only in their amounts |
| Records.MatchingIgnoresAmounts | claude_main.py:73 | the selection for a payment does not depend on the ledger amounts |
| Records.MatchPositionsIgnoreAmounts | main.py:45 | the matched index labels do not depend on the ledger amounts |
| Records.FirstContentIgnoresAmounts | newest_main.py:117-126 | the first content line's label and date do not depend on the amounts |
| Records.ProvisionalIgnoresAmounts | newest_main.py:94-103 | the count-based provisional program does not depend on the amounts |
| Records.TwoLabelsLeaveOther | claude_main.py:97-98 | with two distinct raw labels, some line is not labelled exactly `"Payment (Thank you)"`, so `values[0]` exists |
| Records.RawLabels | claude_main.py:96 | definition: the distinct raw labels, `unique()` as a set; used by Records.ProvisionalProgram |
| Records.IsOtherLabel | claude_main.py:98 | definition: the raw label is not exactly `"Payment (Thank you)"`, no trimming; used by Records.ProvisionalProgram |
| Records.ProvisionalProgram | newest_main.py:94-103 | definition of the count-based program; its meaning is stated by Records.ProvisionalProgramSpec |
| Records.ProvisionalProgramSpec | claude_main.py:96-102 | with fewer than two distinct raw labels the caller's value, with more than two the ambiguity marker, and with exactly two the right-stripped label of the first line not labelled exactly `"Payment (Thank you)"` |
| Report.AssembleRow | claude_main.py:80-89 | definition of one appended dictionary; its fields are stated by Report.Rows |
| Report.Rows | claude_main.py:61-93 | one row per payment, in order, with `Payment Ref` the id, the payment's amount and fee, `Amount after Fees = Amount - Fee`, and code and category both looked up with the resolved program |
| Report.RowsSnoc | claude_main.py:80-89 | appending a payment appends exactly its row |
| Report.RowsIgnoreRefunds | newest_main.py:135-155 | payments that differ only in `Amount Refunded` give the same rows: the refund and zero-sum check does not affect what is appended |
| Report.RowsIgnoreLedgerAmounts | newest_main.py:135-155 | with a resolution that does not read `Amount`, ledgers that differ only in their amounts give the same rows |
| Report.AmountParses | claude_main.py:10-11 | definition: `float(clean_dollar_amount(s))` succeeds, with `float` the parameter `parses`; its meaning is stated by Report.FirstMalformedCleaned |
| Report.FirstMalformedFrom | claude_main.py:43 | from position `k` on, the scan finds nothing exactly when every amount is accepted; otherwise it finds the first rejected line |
| Report.FirstMalformed | claude_main.py:43 | the amount column converts exactly when every line is accepted; otherwise the error names the amount text of the first rejected line |
| Report.FirstMalformedCleaned | newest_main.py:71 | with `AmountParses`, this is the first line whose cleaned dollar text `float` rejects |
| Report.LexLe | claude_main.py:47 | definition of Python's `<=` on strings; it is a total order by Report.LexLeReflexive, Report.LexLeTotal, Report.LexLeTransitive and Report.LexLeAntisymmetric |
| Report.LexLeReflexive | claude_main.py:47 | the string comparison used by the sort is reflexive |
| Report.LexLeTotal | claude_main.py:47 | any two session dates are comparable |
| Report.LexLeTransitive | claude_main.py:47 | the string comparison is transitive |
| Report.LexLeAntisymmetric | claude_main.py:47 | two strings ordered both ways are equal |
| Report.SessionLe | newest_main.py:166 | definition of the sort order on session dates, missing dates last; it is a total order by the four Report.SessionLe lemmas below |
| Report.SessionLeReflexive | newest_main.py:166 | the session-date order, with missing dates last, is reflexive |
| Report.SessionLeTotal | newest_main.py:166 | any two session dates, missing or not, are comparable |
| Report.SessionLeTransitive | newest_main.py:166 | the session-date order is transitive |
| Report.SessionLeAntisymmetric | newest_main.py:166 | two session dates ordered both ways are equal |
| Report.SortedBy | claude_main.py:47 | definition: each row's session date is at most the next one's; used by Report.SortBy and Report.Finalize |
| Report.Insert | claude_main.py:47 | inserting a row into sorted rows keeps them sorted and adds exactly that row |
| Report.SortBy | claude_main.py:47 | `sort_values('Session Date')` returns a permutation of the rows, ascending by date with missing dates last |
| Report.Finalize | new_main.py:127-130 | building and sorting the frame fails exactly when there are no rows; otherwise it gives a sorted permutation of them |
| Report.SortedRemove | claude_main.py:47 | dropping one row from sorted rows keeps them sorted |
| Report.MultisetRemove | claude_main.py:47 | dropping the row at a position removes one copy of it |
| Report.SortedLeastBlock | claude_main.py:47 | in sorted rows, every row up to one carrying the least date carries that date |
| Report.ShiftKeys | claude_main.py:47 | position-wise date agreement survives setting the least row aside |
| Report.SharedLeast | claude_main.py:47 | two sorted permutations of the same rows start with the same date |
| Report.RemoveShared | claude_main.py:47 | setting the shared least row aside leaves the same rows on both sides |
| Report.SortedDatesUnique | newest_main.py:166 | any two orderings the sort may produce agree on the sequence of session dates, even though equal-date rows may go either way |
| ClaudeMain.ProgramInfo | claude_main.py:95-111 | definition of `get_program_info`; its meaning is stated by ClaudeMain.ProgramInfoWithContent and ClaudeMain.ProgramInfoWithoutContent |
| ClaudeMain.ProgramInfoWithContent | claude_main.py:104-107 | with a content line, `get_program_info` returns the first content line's right-stripped label and date, whatever the number of distinct labels |
| ClaudeMain.ProgramInfoWithoutContent | claude_main.py:96-111 | without a content line the session date is `None` and the program is the count-based one: `None` with fewer than two distinct raw labels, the empty selection included |
| ClaudeMain.SettlementTwoSpellings | claude_main.py:96-98 | two spellings of the settlement label, one with a trailing space, give the settlement label itself as the program and no date |
| ClaudeMain.SettlementThreeSpellings | claude_main.py:99-100 | three spellings of the settlement label, with no content line, give `'More than one unique program'` and no date |
| ClaudeMain.RowsAgreeWithFirstContent | claude_main.py:95-111 | when every payment has a content line, this version's rows equal the later versions' rows |
| ClaudeMain.ProgramInfoIgnoresAmounts | claude_main.py:95-111 | `get_program_info` does not read `Amount` |
| ClaudeMain.RowsIgnoreAmounts | claude_main.py:61-93 | ledgers that differ only in their amounts give `process_rows` the same rows |
| ClaudeMain.ProcessRows | claude_main.py:61-93 | `process_rows` appends exactly `Rows` with `get_program_info` as the resolution |
| ClaudeMain.ProcessData | claude_main.py:35-47 | a malformed amount ends the run with that amount's cleaned text; otherwise the run fails with the missing column exactly when no payment is kept, and else the report is the sorted rows of the settled payments created between the chosen days |
| NewestMain.ProcessRows | newest_main.py:79-155 | the inline loop over `head(1000)` emits one row per payment, and its rows equal `Rows` with first-content resolution |
| NewestMain.RowResolution | newest_main.py:117-126 | a row's program and date are both `None` exactly when every matched line is a settlement line; otherwise they are the right-stripped label and date of the first content line |
| NewestMain.AmbiguousOverwritten | newest_main.py:94-126 | the marker assigned at line 98 reaches a row only when a matched line itself carries that label |
| NewestMain.RowsIgnoreAmounts | newest_main.py:135-155 | the zero-sum check only prints: ledgers that differ only in their amounts give the same rows, in `new_main.py` (lines 105-113) too |
| NewestMain.ProcessData | newest_main.py:45-166 | a malformed amount ends the run with that amount's cleaned text; otherwise the run fails with the missing column exactly when no payment is kept, and else the report is a sorted permutation of the rows of the first 1000 settled payments in the day window |
| NewMain.EarliestPayment | new_main.py:19 | `Payment Date.min()` is a ledger date no later than any other |
| NewMain.LatestPayment | new_main.py:19 | `Payment Date.max()` is a ledger date no earlier than any other |
| NewMain.InLedgerWindow | new_main.py:19 | a row is kept exactly when some ledger payment is no later and some is no earlier than its creation timestamp; an empty ledger keeps nothing |
| NewMain.LedgerCleaned | new_main.py:9-19 | a row survives exactly when it is settled and its creation time lies within the ledger's payment dates, both included |
| NewMain.InLedgerWindowConcat | new_main.py:18-19 | the ledger-window mask keeps rows in input order |
| NewMain.LedgerCleanedConcat | new_main.py:9-19 | the cleaning keeps rows in input order, so `head(1000)` takes the first surviving rows |
| NewMain.DayOfMonotone | claude_main.py:58-59 | a later timestamp never falls on an earlier calendar day |
| NewMain.LedgerWindowWithinDays | new_main.py:19 | every row this version keeps, the day-window cleaning over the earliest to latest payment days keeps too |
| NewMain.LedgerWindowFinerThanDays | new_main.py:19 | a payment created earlier on the day of the only ledger payment is dropped here but kept by the day window |
| NewMain.ProcessData | new_main.py:9-130 | a malformed amount ends the run with that amount's cleaned text; otherwise the run fails with the missing column exactly when no payment is kept, and else the report is a sorted permutation of the rows of the first 1000 payments in the ledger window |
| MainScript.LastSettlement | main.py:54-57 | the remembered index is the last matched line labelled exactly `"Payment (Thank you)"`, untrimmed, or `None` when there is none |
| MainScript.ContentLabels | main.py:52-59 | the set holds exactly the labels of the matched lines other than the exact settlement label |
| MainScript.ScanRecords | main.py:51-59 | the nested loop over the matched records computes exactly that index and that set |
| MainScript.OtherPosition | main.py:66 | definition of `0 if payment_thank_you_index == 1 else 1`; its effect is stated by MainScript.DecisionRecords, MainScript.ChosenRecordAtFront and MainScript.ChosenRecordAfterOtherLine |
| MainScript.TwoLabelsTwoPositions | main.py:62 | two distinct content labels need at least two matched records |
| MainScript.ScanSafe | main.py:63-88 | definition: the scan results lead to no `iloc` `IndexError`: the chosen position exists, and a second record exists whenever a row is appended |
| MainScript.LegacySafe | main.py:49-103 | definition: a refunded payment, or one whose scan is safe; used by MainScript.Decision and MainScript.ProcessData |
| MainScript.Outcome | main.py:62-100 | definition of the branches after the scan; its meaning is stated by MainScript.OutcomeRow and MainScript.Branches |
| MainScript.Decision | main.py:49-103 | definition of one payment's decision; its meaning is stated by MainScript.DecisionEmits, MainScript.DecisionRow, MainScript.DecisionRecords and MainScript.DecisionNeedsSettlement |
| MainScript.SeveralLabelsSafe | main.py:85-95 | a payment with several content labels never reaches the `IndexError` of `iloc[1]` |
| MainScript.Decisions | main.py:37-103 | the per-payment decisions come in payment order, one per payment |
| MainScript.Collect | main.py:74-95 | conditional appends never produce more rows than decisions |
| MainScript.CollectExactly | main.py:74-95 | a row is collected exactly when some decision emits it |
| MainScript.Emitted | main.py:35-103 | the script never emits more rows than it considers payments |
| MainScript.EmittedExactly | main.py:37-103 | a row is emitted exactly when the decision for some considered payment is that row |
| MainScript.DecidePayment | main.py:49-103 | the body of the per-payment loop computes exactly that payment's decision |
| MainScript.Branches | main.py:62-100 | the branches after the scan compute exactly the outcome for the scanned index and set |
| MainScript.ProcessRows | main.py:35-103 | the loop over `head(1000)` appends exactly the emitted rows, in payment order |
| MainScript.MatchedRecords | main.py:45 | the lines at the matched index labels are the matched records, one for one |
| MainScript.DecisionRow | main.py:66-95 | an emitted row carries the payment's id, amount and fee, `Amount after Fees = Amount - Fee`, and as `Category` the code-table key of its program; it is never `None` unless the program is the ambiguity marker |
| MainScript.OutcomeRow | main.py:62-95 | the same facts for the outcome after the scan |
| MainScript.DecisionNeedsSettlement | main.py:49-100 | a row is emitted only for an unrefunded payment with a ledger line labelled exactly `"Payment (Thank you)"` |
| MainScript.DecisionRecords | main.py:66-88 | an emitted row has at least two matched records; its session date is from position 1; its program is from position 0 when the settlement index label is 1 and from position 1 otherwise, or is the ambiguity marker with several content labels |
| MainScript.DecisionEmits | main.py:49-103 | a row is emitted exactly when the payment is unrefunded, a settlement line exists, and either there are several content labels or the chosen program has a code |
| MainScript.SpacedPositions | main.py:45 | in the trailing-space example, the payment matches ledger positions 0 and 1 |
| MainScript.SpacedScan | main.py:56 | a settlement label with a trailing space is not the settlement label to the exact comparison |
| MainScript.TrailingSpaceNoRow | main.py:98-100 | so that payment gets no row |
| MainScript.TrailingSpaceLaterVersions | newest_main.py:117-122 | the later versions resolve the same lines to `("Yoga", "2024-01-01")` |
| MainScript.FrontPositions | main.py:45 | in the front example, the payment matches ledger positions 0 and 1 |
| MainScript.FrontScan | main.py:54-59 | there the settlement index label is 1 and the only content label is "Yoga" |
| MainScript.ShiftedPositions | main.py:45 | after one line of another payment, the same lines sit at positions 1 and 2 |
| MainScript.ShiftedScan | main.py:54-59 | there the settlement index label is 2 |
| MainScript.ScanIgnoresAmounts | main.py:54-59 | the scan of the matched records gives the same index and label set for ledgers that differ only in their amounts |
| MainScript.OutcomeIgnoresAmounts | main.py:63-100 | the branches after the scan read labels and the session date only, so they raise and append alike for ledgers that differ only in their amounts |
| MainScript.DecisionIgnoresAmounts | main.py:49-103 | the zero-sum check of lines 70-73 only prints: ledgers that differ only in their amounts give each payment the same decision and the same safety |
| MainScript.EmittedIgnoresAmounts | main.py:36-103 | ledgers that differ only in their amounts give the same emitted rows |
| MainScript.ChosenRecordAtFront | main.py:66-83 | with the settlement label at 1, the program comes from position 0 and the date from position 1, giving the expected row |
| MainScript.ChosenRecordAfterOtherLine | main.py:66-74 | with the label at 2, position 1 holds the settlement line, its lookup is `None`, and no row is emitted |
| MainScript.IntendedOtherPosition | main.py:66 | definition of the evidently intended choice: position 1 when the first matched record is the settlement line, else 0; its property is stated by MainScript.IntendedPicksContent |
| MainScript.IntendedPicksContent | main.py:64-67 | with two matched records, one settlement line and one content label, the intended choice is the content line wherever the records stand in the ledger |
| MainScript.IntendedAfterOtherLine | main.py:66-67 | on the ledger where the choice as written lands on the settlement line, the intended choice lands on the content line |
| MainScript.ProcessData | main.py:9-108 | a malformed amount ends the run with its cleaned text, whatever the payments; otherwise, for payments that raise no `IndexError`, the run fails exactly when no row is emitted, and else gives a sorted permutation of the emitted rows of the first 1000 settled payments |

## Left out

- The Tkinter GUI is not modelled: widgets, `DateEntry`, `browse_file`, the status label,
  the progress bar, `messagebox` and `root.update`. They are user interface, and the day
  window arrives as the parameters `start` and `end`.
- File input and output are not modelled (`read_excel`, `read_csv`, `to_excel`). The parsed
  tables are parameters.
- `pd.to_datetime` is not modelled; timestamps are given as integers.
- Report.FirstMalformed: `float` parsing is the parameter `parses`. Which texts Python
  accepts, and the floating-point values, are not modelled; money is integer cents.
- The `astype(float).sum() == 0` zero-sum check and the refund message only print, as do all
  the other diagnostics. They are left out. Report.RowsIgnoreRefunds states that the rows do
  not depend on `Amount Refunded`; NewestMain.RowsIgnoreAmounts and
  MainScript.EmittedIgnoresAmounts state that they do not depend on the ledger amounts the
  check sums. The check can only fail to run when an amount is malformed, and that error
  path is modelled by Report.FirstMalformed.
- `payment_thank_you_index` through `idxmax` in `newest_main.py` and `new_main.py` is
  computed and never used (its print at `newest_main.py:114` and `new_main.py:84` is
  commented out), so it is left out.
- CodeBook.GroupBy: the key order pandas `groupby` produces is not modelled; it is a
  parameter that satisfies `KeyOrder`. A `NaN` key is `None`, and its rows are dropped, as
  CodeBook.GroupByListed states.
- Report.SortBy: states only that the result is sorted and a permutation. The sort's
  algorithm and stability are not claimed; Report.SortedDatesUnique states what every
  admissible order shares.
- MainScript.ProcessData: the `IndexError` that `iloc[1]` or `iloc[other_idx]` raises with
  fewer than two matched records is a precondition (`AllSafe`), not a modelled error path.
  It is required only when every ledger amount converts, because otherwise the
  `ValueError` at `main.py:30` ends the run before any `iloc`.
- NewestMain.ProcessData: `update_status` is called at `newest_main.py:35` but never
  defined, so the GUI path fails there before the data steps run. The model states the
  data steps as written, as if that call succeeded.
- Text columns are taken as text with no missing cell: the ledger's `Program`,
  `Session Date` and `Amount`, and the code book's `Program`. In the source, a `NaN` in any of
  these is a float, and calling a string method on it raises `AttributeError`. The same
  happens to an `Amount` column that `read_csv` types as numbers because no cell has `$` or
  `,`. Those crashes are not modelled. They occur at `.rstrip()` (`claude_main.py:98,106-107`,
  `newest_main.py:58,96,120,122`, `new_main.py:23,66,90,92`), at `.replace` on labels
  (`claude_main.py:41`, `newest_main.py:67`, `new_main.py:32`, `main.py:17`), and at
  `amount.replace` (`claude_main.py:11`, `newest_main.py:21`, `new_main.py:42`, `main.py:27`).
  Sorting a `NaN` session date last in `main.py` is not modelled either, since the model's
  session dates there are always present.
- Records.SettledRows: the mask compares `Captured` with the string `'FALSE'`. If pandas
  parsed that column as booleans, the comparison would never hold; the model takes the
  column as text.
- `collect_babel_data.py` is a packaging hook with no logic, so it is not modelled.

## Findings

| source | as written | input that shows it | evidently intended | confidence | as-written member | corrected member |
|---|---|---|---|---|---|---|
| main.py:66 | `other_idx = 0 if payment_thank_you_index == 1 else 1` compares the settlement line's ledger index label with 1 and uses the answer as an `iloc` position among the matched records | a ledger whose row 0 is unrelated, row 1 is the payment's "Yoga" line and row 2 its settlement line: the label is 2, position 1 is the settlement line itself, its code lookup is `None`, and the payment is dropped without a message | take the matched record that is not the settlement line | not executed | MainScript.OtherPosition, with MainScript.ChosenRecordAfterOtherLine | MainScript.IntendedOtherPosition, with MainScript.IntendedPicksContent and MainScript.IntendedAfterOtherLine |

The model of `main.py` (MainScript.Decision, MainScript.ProcessData) keeps the choice as
written, because it states what that script does; the corrected choice is defined and
proved beside it.
