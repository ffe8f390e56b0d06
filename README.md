# Train cleaning tracker — a Dafny model of its core

The application is a React page for a train depot. Its logic lives in
`src/App.js` and has two parts, both modelled here.

**The heavy-cleaning task store.**
- The store is a list of tasks: train, scheduled ISO date, one of seven cleaning types, status, and cleaned date.
- The form adds a task and re-sorts the list by date.
- A checkbox toggles a task between "Uncleaned" and "Cleaned". The cleaned date is set to the current date or cleared.
- A bin icon removes a task.
- The task table shows the tasks of the seven heavy types that match four exact-match filters, sorted by date. Each row is classed as cleaned, due today, overdue, or coming.
- A helper lists the distinct values of a task field for the filter drop-downs.

**The spreadsheet extractor.**
- On upload, Pass A reads the sheet's rows in pairs from row 15.
  - For each pair it records the column-1 train number.
  - It counts the letters W, C and S in the first row's joined cells, and P, T and H in the second row's.
  - It drops pairs whose train number is blank.
- The upload then lists the distinct train numbers and seeds a per-train table with `{today: true}` for each.
- On request, Pass B reads the worksheet's cell map.
  - It collects the non-empty date headers of row 12 from column 7 on and sorts them by date.
  - For every data row 15, 17, 19, … with a train number, it maps each date label to whether that row's cell under it is exactly `W`.

## Layout

| file | module | contents |
|---|---|---|
| `wrappers.dfy` | `Wrappers` | `Option`, for the task's possibly absent cleaned date and the possibly absent workbook |
| `strings.dfy` | `Strings` | JavaScript's string `<`, `trim()`, `match(/X/g).length`, `join('')` |
| `seqs.dfy` | `Seqs` | `filter`, removal by position, every other element, stable `sort`, `[...new Set(...)]` |
| `tasks.dfy` | `Tasks` | the task record and the pure task operations, the table's rows and row classes |
| `sheet.dfy` | `Sheet` | Pass A, the post-upload seeding loop, and Pass B with its two loops |
| `app.dfy` | `App` | class `AppState`: the component's state fields and its event handlers as methods |

Modelling choices:
- Dates are ISO `YYYY-MM-DD` strings compared in JavaScript's string order (`Strings.Less`), which is the order that line 50 of `src/App.js` uses.
- For such strings the `new Date(a) - new Date(b)` comparator sorts the same way. JavaScript's sort is stable, so both sorts are `Seqs.SortBy`, a stable insertion sort specified by sortedness and permutation.
- The current date, the uploaded worksheet and its row-array form are parameters.
- The worksheet is a map from (row, column) to the cell's text, together with the last row and column of its range.

Facts about `src/App.js` that the model makes explicit:
- The train-number cell is part of the joined text, so the pair `["", "A1","B1","C1","W","C","S"]` / `["", "", "", "P","T","H",""]` gives `cCount` 2 (`Sheet.ExampleSheetRecord`).
- With no workbook loaded, Pass B leaves the per-train table as it was (src/App.js:210).
- Date headers come from row index 12, the sheet's 13th row (src/App.js:214-217).

## Model

| member | source | states |
|---|---|---|
| `Strings.Less` | src/App.js:50 | JavaScript's `a < b` on strings: at the first differing position the smaller character wins, and a proper prefix comes first; the order's laws are the four lemmas below |
| `Strings.LessIrreflexive` | src/App.js:50 | no date string is before itself in JavaScript's string order |
| `Strings.LessTransitive` | src/App.js:50 | string order is transitive |
| `Strings.LessTotal` | src/App.js:50 | any two distinct strings are ordered one way or the other |
| `Strings.LessAsymmetric` | src/App.js:50 | if a is before b then b is not before a |
| `Strings.TrimStart` | src/App.js:183 | the result is a suffix that starts with a non-whitespace character, and everything dropped is whitespace |
| `Strings.TrimEnd` | src/App.js:183 | the result is a prefix that ends with a non-whitespace character, and everything dropped is whitespace |
| `Strings.Trim` | src/App.js:183 | `trim()` removes the whitespace at both ends: the result is no longer than the input and, unless empty, neither starts nor ends with whitespace |
| `Strings.TrimEmpty` | src/App.js:183 | `trim()` yields the empty string exactly when every character is whitespace |
| `Strings.CountChar` | src/App.js:176-181 | a letter count never exceeds the text's length |
| `Strings.CountCharConcat` | src/App.js:171-181 | counting over joined text adds the counts of the parts |
| `Strings.Join` | src/App.js:171 | `join('')` concatenates the cells in order: every cell is at most as long as the joined text, and only empty cells join to the empty text |
| `Strings.CountJoinCell` | src/App.js:171-178 | each cell's occurrences of a letter are included in the count over the joined row |
| `Seqs.Filter` | src/App.js:17-24 | the result is no longer than the input, every element satisfies the predicate, and it is a sub-multiset of the input |
| `Seqs.FilterSubset` | src/App.js:17-24 | every kept element comes from the input |
| `Seqs.FilterComplete` | src/App.js:17-24 | every input element that satisfies the predicate is kept |
| `Seqs.FilterConcat` | src/App.js:17-24 | filtering keeps the input order: it distributes over concatenation |
| `Seqs.FilterAll` | src/App.js:17-24 | a predicate true of every element keeps the whole list |
| `Seqs.RemoveAt` | src/App.js:151 | an in-range position deletes exactly that element and keeps the rest in order; any other index leaves the list as it is |
| `Seqs.RemoveAtIndex` | src/App.js:151 | after removing position i, elements before i stay put and later ones move up by one |
| `Seqs.EveryOther` | src/App.js:170 | keeps the elements at even positions, in order, and there are ⌈n/2⌉ of them |
| `Seqs.InsertAt` | src/App.js:129 | into a sorted list, an element goes after every element whose key is not above its own and before every element whose key is above it |
| `Seqs.InsertSorted` | src/App.js:129 | inserting into a sorted list gives a sorted list |
| `Seqs.SortBy` | src/App.js:27 | the result is sorted by the key and is a permutation of the input |
| `Seqs.SortBySorted` | src/App.js:27 | sorting an already sorted list changes nothing, so the sort is stable on sorted input |
| `Seqs.SortByAppend` | src/App.js:128-129 | sorting a sorted list with one element appended inserts that element |
| `Seqs.Distinct` | src/App.js:186 | the result has no duplicates and is no longer than the input |
| `Seqs.DistinctSubset` | src/App.js:186 | the distinct values introduce nothing that is not in the input |
| `Seqs.DistinctComplete` | src/App.js:186 | every input value appears among the distinct values |
| `Seqs.DistinctNoDuplicates` | src/App.js:186 | a list without duplicates is its own distinct list |
| `Tasks.AddTask` | src/App.js:119-130 | the list grows by one and holds the old tasks plus one "Uncleaned" task with the form's fields and no cleaned date; it is sorted by date |
| `Tasks.AddTaskPlacement` | src/App.js:119-130 | into a sorted list, the new task lands after every task on or before its date and before every later task; the old tasks keep their order |
| `Tasks.AddTaskWellFormed` | src/App.js:119-130 | adding keeps every task's status and cleaned date consistent |
| `Tasks.Toggled` | src/App.js:138-148 | only status and cleaned date change; an "Uncleaned" task becomes "Cleaned" with the current date, and any other task becomes "Uncleaned" with an empty date |
| `Tasks.ToggleTwice` | src/App.js:138-148 | toggling twice restores the status |
| `Tasks.ToggledWellFormed` | src/App.js:138-148 | with a non-empty current date, a toggled task has a non-empty cleaned date exactly when it is "Cleaned" |
| `Tasks.ToggleKeepsOrder` | src/App.js:138-148 | toggling one task keeps the list sorted by date |
| `Tasks.RemoveKeepsOrder` | src/App.js:150-153 | removal keeps the list sorted by date |
| `Tasks.RemoveWellFormed` | src/App.js:150-153 | removal keeps every remaining task well formed |
| `Tasks.Displayed` | src/App.js:17-27 | the table rows are sorted by date and are a permutation of the stored tasks that pass the heavy-type and filter checks |
| `Tasks.DisplayedSound` | src/App.js:17-24 | every row is a stored task of one of the seven types that matches every non-empty filter exactly |
| `Tasks.DisplayedComplete` | src/App.js:17-24 | every stored task of one of the seven types that matches the filters is shown |
| `Tasks.Matches` | src/App.js:19-22 | a task passes the filters when each non-empty filter field equals the task's field exactly; an empty field passes every task (`Tasks.NoFiltersMatchAll`) |
| `Tasks.IsHeavyCleaning` | src/App.js:341 | the table is handed only tasks whose cleaning type is one of the seven heavy types; the table's rows satisfy it (`Tasks.DisplayedSound`) |
| `Tasks.NoFiltersMatchAll` | src/App.js:19-22 | with all filter fields empty every task matches |
| `Tasks.DisplayedUnfiltered` | src/App.js:17-27 | with no filter set and a sorted store of heavy tasks, row i is store position i |
| `Tasks.DisplayedFilteredMismatch` | src/App.js:42-70 | with a filter set, a sorted store of an earlier and a later task shows only the later one, so table row 0 is a different task from store position 0 |
| `Tasks.ClassOf` | src/App.js:45-53 | "cleaned" exactly for "Cleaned" tasks; "today" only for tasks due today; "overdue" only for "Uncleaned" tasks past their date |
| `Tasks.ClassOfMeaning` | src/App.js:45-53 | for a task with one of the two statuses: "today", "overdue" and "coming" hold exactly when it is "Uncleaned" and due today, past its date, or later, respectively |
| `Tasks.FieldValues` | src/App.js:250 | one value per task, in task order |
| `Tasks.UniqueValues` | src/App.js:249-257 | no value appears twice, every task's value appears, and no other value does |
| `Sheet.RowText` | src/App.js:172 | the joined text of row r, or the empty text when the row is absent; an absent next row gives P, T and H counts of 0 (`Sheet.PairCounts`) |
| `Sheet.MakeRecord` | src/App.js:170-182 | the train number is column 1 of the row, and each count is bounded by the length of the text it counts in |
| `Sheet.DataRows` | src/App.js:170 | `data.slice(15)`: the rows from index 15 on |
| `Sheet.AllRecords` | src/App.js:170-182 | one record per row pair starting at row 15 |
| `Sheet.AllRecordsEveryOther` | src/App.js:170-173 | record k is built from the k-th row kept by the even-position filter over `data.slice(15)` and from the row after it |
| `Sheet.EveryOtherStart` | src/App.js:170 | the k-th row that the even-position filter keeps from `data.slice(15)` is row 15 + 2k, and it exists |
| `Sheet.PairCounts` | src/App.js:170-182 | record k takes column 1 of row 15+2k and the W, C, S counts of that row's joined cells; P, T, H are counted in row 16+2k, and are 0 when that row is absent |
| `Sheet.HasTrainNumber` | src/App.js:183 | a record is kept when its train number is non-empty and not all whitespace (`Sheet.HasTrainNumberBlank`) |
| `Sheet.ExtractRows` | src/App.js:170-183 | every kept record has a non-blank train number, and there is at most one per row pair |
| `Sheet.ExtractRowsMembers` | src/App.js:183 | exactly the row pairs with a non-blank train number are kept |
| `Sheet.HasTrainNumberBlank` | src/App.js:183 | a record is dropped exactly when its train number is empty or all whitespace |
| `Sheet.TrainNumberCounted` | src/App.js:171-178 | the train-number cell's letters are counted too |
| `Sheet.ExampleSheetRecord` | src/App.js:170-183 | the example pair with train "A1" yields one record with W 1, C 2, S 1, P 1, T 1, H 1 |
| `Sheet.TrainNumbers` | src/App.js:186 | one train number per record, in record order |
| `Sheet.DistinctTrainNumbers` | src/App.js:186 | the distinct train numbers are exactly the extracted records' train numbers |
| `Sheet.SeedTrainData` | src/App.js:188-195 | the loop's table has exactly the records' train numbers as keys, each mapped to `{today: true}` |
| `Sheet.Seeding` | src/App.js:188-194 | the table the upload builds: each of the given train numbers mapped to `{today: true}`; its keys are exactly the records' train numbers (`Sheet.SeededTrains`) |
| `Sheet.SeededTrains` | src/App.js:186-195 | the seeded table's trains are exactly the extracted records' train numbers |
| `Sheet.HeaderDates` | src/App.js:215-221 | the non-empty header cells of row 12 from column 7 up to a bound, each with its column, left to right (`Sheet.HeaderDatesExact`) |
| `Sheet.HeaderDatesExact` | src/App.js:213-220 | the collected dates are exactly the non-empty cells of row 12 from column 7 on, each with its own column, in increasing column order |
| `Sheet.CollectDates` | src/App.js:213-220 | the header loop collects the dates of columns 7 to the range's last column |
| `Sheet.SortedDates` | src/App.js:222-227 | the date columns are sorted by label and are a permutation of the collected ones |
| `Sheet.RowEntry` | src/App.js:236-239 | one train's entry built by the `dates.forEach`: each label mapped to whether the row's cell under it is "W", a later column overwriting an earlier one with the same label (`Sheet.RowEntryKeys`, `Sheet.RowEntryValue`) |
| `Sheet.RowEntryKeys` | src/App.js:234-237 | a train's entry has exactly the collected date labels as keys |
| `Sheet.RowEntryValue` | src/App.js:234-237 | a label's value is whether the row's cell under the last column with that label is exactly "W" |
| `Sheet.TrainTable` | src/App.js:230-241 | the table after the first k data rows: each non-empty train cell of rows 15, 17, 19, … mapped to its row's entry, a later row overwriting an earlier one (`Sheet.TrainTableKeys`, `Sheet.TrainTableLatest`) |
| `Sheet.TrainTableKeys` | src/App.js:229-241 | the table's keys are exactly the non-empty train cells of rows 15, 17, 19, … |
| `Sheet.TrainTableLatest` | src/App.js:229-241 | a train number maps to the entry of the last data row that carries it |
| `Sheet.BuildTrainTable` | src/App.js:229-241 | the nested row and column loops build that table |
| `Sheet.TrainDetails` | src/App.js:209-243 | Pass B's result for a loaded worksheet: the table over all data rows with the sorted header dates, which `App.AppState.HandleShowAllTrainDetails` stores |
| `App.AppState.constructor` | src/App.js:81-100 | empty task list, no rows, no train numbers, no workbook, empty per-train table |
| `App.AppState.HandleSubmit` | src/App.js:119-130 | the store becomes the old store with the form's task added and sorted; sortedness and well-formedness are kept |
| `App.AppState.HandleCleanCheck` | src/App.js:138-148 | in range, only the task at the index is toggled; out of range, nothing changes; the store stays sorted |
| `App.AppState.HandleRemoveTask` | src/App.js:150-153 | the task at the index is removed, or nothing changes for an index out of range; the store stays sorted and well formed |
| `App.AppState.HandleFileUpload` | src/App.js:159-195 | the workbook is kept; the rows are Pass A's records, the train numbers are their distinct train numbers, and each is seeded with `{today: true}` |
| `App.AppState.LoadRows` | src/App.js:165-185 | the workbook and Pass A's records are stored |
| `App.AppState.SeedTrains` | src/App.js:186-195 | the distinct train numbers and the seeded table are derived from the stored records |
| `App.AppState.HandleShowAllTrainDetails` | src/App.js:209-247 | with no workbook nothing changes; otherwise the per-train table becomes Pass B's table |

## Left out

- `src/RubbishBinIcon.js` is not part of this model: it draws an icon and holds no logic.
- JSX rendering is UI and not modelled. So are the section and visibility toggles, the form and filter setters, the reset of the form after a submit, and the display-only header and last-column substitution of `wCount` (src/App.js:372-392).
- `FileReader`, `XLSX.read`, `sheet_to_json`, `decode_range` and `encode_cell` are I/O and library calls. The worksheet and its row arrays are parameters of the upload, and the model does not relate the two.
- `new Date()` and `toISOString` are clock reads. The daily `setInterval` that refreshes `today` is a timer. The current date is a parameter.
- React's asynchronous and batched state updates are not modelled. Each handler replaces its fields at once.
- Cells are strings. Numeric or date-typed cell values, and `trim()` on a non-string train number, are not modelled.
- `Tasks.AddTask`: sorts by string order. The source sorts by `new Date` values. The two agree for ISO dates. For unparseable dates the comparator returns NaN, and the order is engine-defined.
- `Sheet.SortedDates`: sorts the header labels in string order. The source sorts by `new Date(label)`, so the two agree only for labels in ISO form.
- `Tasks.UniqueValues`: states that the values are duplicate-free and complete. It keeps first-occurrence order and does not model the `localeCompare` collation of the sort that follows.
- `App.AppState.HandleCleanCheck`: models the toggle as a value update of one list element. In the source the shallow copy shares the task objects, so the old state's object is also mutated in place.
- `App.AppState.HandleCleanCheck`: for an out-of-range index, the source throws before updating the state. The model leaves the state unchanged and does not model the exception.
- `Sheet.RowEntry`: a missing cell under a date column yields `undefined` in the source. The model yields `false`, since the two display alike.
- `Strings.Less`: compares characters as code points. JavaScript compares UTF-16 code units, and the two orders differ only for characters outside the Basic Multilingual Plane.
