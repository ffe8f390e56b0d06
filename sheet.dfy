/**
 * The spreadsheet extractor. Pass A runs on upload over the sheet as rows of
 * cell texts and derives per-train letter counts; the upload then seeds the
 * per-train date map with today's date. Pass B runs on the "show details"
 * action over the sheet as a map from cell address to value and derives, per
 * train and per date column, whether the cell holds exactly "W".
 */
module Sheet {
  import opened Wrappers
  import opened Strings
  import opened Seqs

  /** The layout of the sheet: rows and columns are counted from 0. */
  const FirstDataRow: nat := 15
  const TrainColumn: nat := 1
  const DateHeaderRow: int := 12
  const FirstDateColumn: int := 7

  // ------------------------------------------------------------- Pass A

  datatype ExcelRow = ExcelRow(
    trainNumber: string,
    wCount: nat, cCount: nat, sCount: nat,
    phdCount: nat, tadCount: nat, hhsCount: nat)

  /** `row[col]`, a missing cell reading as empty. */
  function CellAt(row: seq<string>, col: nat): string
  {
    if col < |row| then row[col] else ""
  }

  /** `data[r] ? data[r].join('') : ''`. */
  function RowText(data: seq<seq<string>>, r: nat): string
  {
    if r < |data| then Join(data[r]) else ""
  }

  /**
   * The record built from one row pair: the occurrences of W, C and S in the
   * first row's joined text and of P, T and H in the second's, each at most
   * that text's length.
   */
  function MakeRecord(row: seq<string>, nextRow: string): (r: ExcelRow)
    ensures r.trainNumber == CellAt(row, TrainColumn)
    ensures r.wCount <= |Join(row)| && r.cCount <= |Join(row)| && r.sCount <= |Join(row)|
    ensures r.phdCount <= |nextRow| && r.tadCount <= |nextRow| && r.hhsCount <= |nextRow|
  {
    var text := Join(row);
    ExcelRow(CellAt(row, TrainColumn),
      CountChar(text, 'W'), CountChar(text, 'C'), CountChar(text, 'S'),
      CountChar(nextRow, 'P'), CountChar(nextRow, 'T'), CountChar(nextRow, 'H'))
  }

  /** `data.slice(15)`. */
  function DataRows(data: seq<seq<string>>): (r: seq<seq<string>>)
    ensures |r| == if |data| <= FirstDataRow then 0 else |data| - FirstDataRow
    ensures forall i :: 0 <= i < |r| ==> r[i] == data[FirstDataRow + i]
  {
    if |data| <= FirstDataRow then [] else data[FirstDataRow..]
  }

  /** The number of row pairs: the data rows at even offsets from row 15. */
  function PairCount(data: seq<seq<string>>): nat
  {
    if |data| <= FirstDataRow then 0 else (|data| - FirstDataRow + 1) / 2
  }

  /** Pass A before blank train numbers are dropped: record `k` comes from rows 15 + 2k and 16 + 2k. */
  function AllRecords(data: seq<seq<string>>): (r: seq<ExcelRow>)
    ensures |r| == PairCount(data)
  {
    seq(PairCount(data), k requires 0 <= k < PairCount(data) =>
      assert FirstDataRow + 2 * k < |data|;
      MakeRecord(data[FirstDataRow + 2 * k], RowText(data, FirstDataRow + 2 * k + 1)))
  }

  /**
   * The records are those of `data.slice(15).filter((row, index) => index % 2 === 0)`,
   * in order, each paired with the row after it.
   */
  lemma AllRecordsEveryOther(data: seq<seq<string>>)
    ensures var starts := EveryOther(DataRows(data));
      |AllRecords(data)| == |starts| &&
      forall k :: 0 <= k < |starts| ==> AllRecords(data)[k] == MakeRecord(starts[k], RowText(data, FirstDataRow + 2 * k + 1))
  {
    var starts := EveryOther(DataRows(data));
    assert |starts| == PairCount(data);
    forall k | 0 <= k < |starts| ensures AllRecords(data)[k] == MakeRecord(starts[k], RowText(data, FirstDataRow + 2 * k + 1)) {
      EveryOtherStart(data, k);
    }
  }

  /** The k-th row kept by the even-position filter over `data.slice(15)` is row 15 + 2k. */
  lemma EveryOtherStart(data: seq<seq<string>>, k: nat)
    requires k < |EveryOther(DataRows(data))|
    ensures FirstDataRow + 2 * k < |data|
    ensures EveryOther(DataRows(data))[k] == data[FirstDataRow + 2 * k]
  {
    var rows := DataRows(data);
    assert EveryOther(rows)[k] == rows[2 * k];
  }

  /**
   * Record `k` holds the column-1 cell of row 15 + 2k and the numbers of W, C
   * and S in that row's joined cells; the numbers of P, T and H come from the
   * row after it and are 0 when the sheet has no such row.
   */
  lemma PairCounts(data: seq<seq<string>>, k: nat)
    requires k < PairCount(data)
    ensures FirstDataRow + 2 * k < |data|
    ensures var rec, text := AllRecords(data)[k], Join(data[FirstDataRow + 2 * k]);
      && rec.trainNumber == CellAt(data[FirstDataRow + 2 * k], TrainColumn)
      && rec.wCount == CountChar(text, 'W') && rec.cCount == CountChar(text, 'C') && rec.sCount == CountChar(text, 'S')
    ensures var rec, next := AllRecords(data)[k], RowText(data, FirstDataRow + 2 * k + 1);
      rec.phdCount == CountChar(next, 'P') && rec.tadCount == CountChar(next, 'T') && rec.hhsCount == CountChar(next, 'H')
    ensures FirstDataRow + 2 * k + 1 >= |data| ==>
      AllRecords(data)[k].phdCount == 0 && AllRecords(data)[k].tadCount == 0 && AllRecords(data)[k].hhsCount == 0
  {
  }

  /** `row.trainNumber && row.trainNumber.trim() !== ''`. */
  predicate HasTrainNumber(r: ExcelRow)
  {
    r.trainNumber != "" && Trim(r.trainNumber) != ""
  }

  /** Pass A: the records of the row pairs whose train number is not blank, in sheet order. */
  function ExtractRows(data: seq<seq<string>>): (r: seq<ExcelRow>)
    ensures |r| <= PairCount(data)
    ensures forall i :: 0 <= i < |r| ==> HasTrainNumber(r[i])
  {
    Filter(AllRecords(data), HasTrainNumber)
  }

  /** Pass A keeps exactly the row pairs whose train number is not blank. */
  lemma ExtractRowsMembers(data: seq<seq<string>>)
    ensures forall i :: 0 <= i < |ExtractRows(data)| ==> ExtractRows(data)[i] in AllRecords(data)
    ensures forall k :: 0 <= k < PairCount(data) && HasTrainNumber(AllRecords(data)[k]) ==> AllRecords(data)[k] in ExtractRows(data)
  {
    FilterSubset(AllRecords(data), HasTrainNumber);
    FilterComplete(AllRecords(data), HasTrainNumber);
  }

  /** A record is dropped exactly when its train-number cell is empty or whitespace only. */
  lemma HasTrainNumberBlank(r: ExcelRow)
    ensures !HasTrainNumber(r) <==> forall i :: 0 <= i < |r.trainNumber| ==> IsWhitespace(r.trainNumber[i])
  {
    TrimEmpty(r.trainNumber);
  }

  /** The counts take in every cell of the row, the train-number cell too. */
  lemma TrainNumberCounted(data: seq<seq<string>>, k: nat, c: char)
    requires k < PairCount(data)
    ensures TrainColumn < |data[FirstDataRow + 2 * k]| ==>
      CountChar(AllRecords(data)[k].trainNumber, c) <= CountChar(Join(data[FirstDataRow + 2 * k]), c)
  {
    var row := data[FirstDataRow + 2 * k];
    if TrainColumn < |row| {
      assert AllRecords(data)[k].trainNumber == row[TrainColumn];
      CountJoinCell(row, TrainColumn, c);
    }
  }

  /** A sheet with one row pair; its train number "C1" carries a letter C of its own. */
  const ExampleSheet: seq<seq<string>> :=
    seq(15, _ => []) + [["", "A1", "B1", "C1", "W", "C", "S"], ["", "", "", "P", "T", "H", ""]]

  /** The C of the train-number cell "C1" counts with the C marker: cCount is 2. */
  lemma ExampleSheetRecord()
    ensures ExtractRows(ExampleSheet) == [ExcelRow("A1", 1, 2, 1, 1, 1, 1)]
  {
    ExampleSheetAllRecords();
    assert !IsWhitespace('A') && !IsWhitespace('1');
    assert TrimStart("A1") == "A1";
    assert HasTrainNumber(ExcelRow("A1", 1, 2, 1, 1, 1, 1));
  }

  /** Before dropping blank train numbers, the example yields one record. */
  lemma ExampleSheetAllRecords()
    ensures AllRecords(ExampleSheet) == [ExcelRow("A1", 1, 2, 1, 1, 1, 1)]
  {
    var all := AllRecords(ExampleSheet);
    assert |ExampleSheet| == 17;
    assert |all| == 1;
    assert all[0] == MakeRecord(ExampleSheet[15], RowText(ExampleSheet, 16));
    ExampleSheetPair();
  }

  /** The example's one row pair gives train "A1" with one W, two C, one S, P, T and H. */
  lemma ExampleSheetPair()
    ensures MakeRecord(ExampleSheet[15], RowText(ExampleSheet, 16)) == ExcelRow("A1", 1, 2, 1, 1, 1, 1)
  {
    ExampleSheetFirstText();
    ExampleSheetNextText();
    ExampleSheetCounts();
    ExampleSheetNextCounts();
    assert CellAt(ExampleSheet[15], TrainColumn) == "A1";
  }

  /** The letter counts of the example's first joined row. */
  lemma ExampleSheetCounts()
    ensures CountChar("A1B1C1WCS", 'W') == 1 && CountChar("A1B1C1WCS", 'C') == 2 && CountChar("A1B1C1WCS", 'S') == 1
  {
    var t := "A1B1C1WCS";
    assert CountChar(t[8..], 'W') == 0 && CountChar(t[8..], 'C') == 0 && CountChar(t[8..], 'S') == 1;
    assert CountChar(t[7..], 'W') == 0 && CountChar(t[7..], 'C') == 1 && CountChar(t[7..], 'S') == 1 by { assert t[7..][1..] == t[8..]; }
    assert CountChar(t[6..], 'W') == 1 && CountChar(t[6..], 'C') == 1 && CountChar(t[6..], 'S') == 1 by { assert t[6..][1..] == t[7..]; }
    assert CountChar(t[5..], 'W') == 1 && CountChar(t[5..], 'C') == 1 && CountChar(t[5..], 'S') == 1 by { assert t[5..][1..] == t[6..]; }
    assert CountChar(t[4..], 'W') == 1 && CountChar(t[4..], 'C') == 2 && CountChar(t[4..], 'S') == 1 by { assert t[4..][1..] == t[5..]; }
    assert CountChar(t[3..], 'W') == 1 && CountChar(t[3..], 'C') == 2 && CountChar(t[3..], 'S') == 1 by { assert t[3..][1..] == t[4..]; }
    assert CountChar(t[2..], 'W') == 1 && CountChar(t[2..], 'C') == 2 && CountChar(t[2..], 'S') == 1 by { assert t[2..][1..] == t[3..]; }
    assert CountChar(t[1..], 'W') == 1 && CountChar(t[1..], 'C') == 2 && CountChar(t[1..], 'S') == 1 by { assert t[1..][1..] == t[2..]; }
  }

  /** The letter counts of the example's second joined row. */
  lemma ExampleSheetNextCounts()
    ensures CountChar("PTH", 'P') == 1 && CountChar("PTH", 'T') == 1 && CountChar("PTH", 'H') == 1
  {
  }

  /** The joined text of the example's first row. */
  lemma ExampleSheetFirstText()
    ensures Join(ExampleSheet[15]) == "A1B1C1WCS"
  {
    var r := ExampleSheet[15];
    assert r == ["", "A1", "B1", "C1", "W", "C", "S"];
    assert Join(r[6..]) == "S";
    assert Join(r[5..]) == "CS" by { assert r[5..][1..] == r[6..]; }
    assert Join(r[4..]) == "WCS" by { assert r[4..][1..] == r[5..]; }
    assert Join(r[3..]) == "C1WCS" by { assert r[3..][1..] == r[4..]; }
    assert Join(r[2..]) == "B1C1WCS" by { assert r[2..][1..] == r[3..]; }
    assert Join(r[1..]) == "A1B1C1WCS" by { assert r[1..][1..] == r[2..]; }
  }

  /** The joined text of the example's second row. */
  lemma ExampleSheetNextText()
    ensures RowText(ExampleSheet, 16) == "PTH"
  {
    var n := ExampleSheet[16];
    assert n == ["", "", "", "P", "T", "H", ""];
    assert Join(n[6..]) == "";
    assert Join(n[5..]) == "H" by { assert n[5..][1..] == n[6..]; }
    assert Join(n[4..]) == "TH" by { assert n[4..][1..] == n[5..]; }
    assert Join(n[3..]) == "PTH" by { assert n[3..][1..] == n[4..]; }
    assert Join(n[2..]) == "PTH" by { assert n[2..][1..] == n[3..]; }
    assert Join(n[1..]) == "PTH" by { assert n[1..][1..] == n[2..]; }
  }

  /** The train numbers of the extracted records, in order. */
  function TrainNumbers(rows: seq<ExcelRow>): (r: seq<string>)
    ensures |r| == |rows|
    ensures forall i :: 0 <= i < |rows| ==> r[i] == rows[i].trainNumber
  {
    if rows == [] then [] else [rows[0].trainNumber] + TrainNumbers(rows[1..])
  }

  /** The distinct train numbers are exactly the records' train numbers. */
  lemma DistinctTrainNumbers(rows: seq<ExcelRow>)
    ensures (set tn | tn in Distinct(TrainNumbers(rows))) == set i | 0 <= i < |rows| :: rows[i].trainNumber
  {
    var ns := TrainNumbers(rows);
    var d := Distinct(ns);
    var lhs := set tn | tn in d;
    var rhs := set i | 0 <= i < |rows| :: rows[i].trainNumber;
    forall tn | tn in lhs ensures tn in rhs {
      DistinctSubset(ns);
      var j :| 0 <= j < |ns| && ns[j] == tn;
      assert rows[j].trainNumber == tn;
    }
    forall tn | tn in rhs ensures tn in lhs {
      DistinctComplete(ns);
      var i :| 0 <= i < |rows| && rows[i].trainNumber == tn;
      assert ns[i] in d;
    }
  }

  /** The table the upload builds: every extracted train number mapped to `{today: true}`. */
  method SeedTrainData(rows: seq<ExcelRow>, today: string) returns (m: map<string, map<string, bool>>)
    ensures m.Keys == set i | 0 <= i < |rows| :: rows[i].trainNumber
    ensures forall tn :: tn in m ==> m[tn] == map[today := true]
  {
    m := map[];
    var i := 0;
    while i < |rows|
      invariant 0 <= i <= |rows|
      invariant m.Keys == set j | 0 <= j < i :: rows[j].trainNumber
      invariant forall tn :: tn in m ==> m[tn] == map[today := true]
    {
      var tn := rows[i].trainNumber;
      if tn !in m {
        m := m[tn := map[]];
      }
      m := m[tn := m[tn][today := true]];
      i := i + 1;
    }
  }

  /** The per-train table as the upload leaves it: `{today: true}` for each of `numbers`. */
  function Seeding(numbers: seq<string>, today: string): map<string, map<string, bool>>
  {
    map tn | tn in numbers :: map[today := true]
  }

  /** After the upload, the seeded trains are exactly the records' train numbers. */
  lemma SeededTrains(rows: seq<ExcelRow>, today: string)
    ensures Seeding(Distinct(TrainNumbers(rows)), today).Keys == set i | 0 <= i < |rows| :: rows[i].trainNumber
  {
    DistinctTrainNumbers(rows);
  }

  // ------------------------------------------------------------- Pass B

  /** The first worksheet: cell values by (row, column), and the last row and column of its range. */
  datatype Worksheet = Worksheet(cells: map<(int, int), string>, lastRow: int, lastCol: int)

  /** `ws[cell] && ws[cell].v`: the cell exists and its value is non-empty. */
  predicate HasValue(ws: Worksheet, r: int, c: int)
  {
    (r, c) in ws.cells && ws.cells[(r, c)] != ""
  }

  /** `ws[cell] && ws[cell].v === 'W'`. */
  predicate IsWashed(ws: Worksheet, r: int, c: int)
  {
    (r, c) in ws.cells && ws.cells[(r, c)] == "W"
  }

  datatype DateColumn = DateColumn(date: string, col: int)

  function DateOf(d: DateColumn): string
  {
    d.date
  }

  /** The date headers found in columns 7 up to, not including, `upTo`, left to right. */
  function HeaderDates(ws: Worksheet, upTo: int): seq<DateColumn>
    decreases upTo - FirstDateColumn
  {
    if upTo <= FirstDateColumn then []
    else
      HeaderDates(ws, upTo - 1)
      + (if HasValue(ws, DateHeaderRow, upTo - 1) then [DateColumn(ws.cells[(DateHeaderRow, upTo - 1)], upTo - 1)] else [])
  }

  /**
   * The header dates are exactly the non-empty cells of row 12 from column 7
   * on, each with its own column, in strictly increasing column order.
   */
  lemma {:induction false} HeaderDatesExact(ws: Worksheet, upTo: int)
    ensures forall i :: 0 <= i < |HeaderDates(ws, upTo)| ==>
      var d := HeaderDates(ws, upTo)[i];
      FirstDateColumn <= d.col < upTo && HasValue(ws, DateHeaderRow, d.col) && ws.cells[(DateHeaderRow, d.col)] == d.date
    ensures forall c :: FirstDateColumn <= c < upTo && HasValue(ws, DateHeaderRow, c) ==>
      DateColumn(ws.cells[(DateHeaderRow, c)], c) in HeaderDates(ws, upTo)
    ensures forall i, j :: 0 <= i < j < |HeaderDates(ws, upTo)| ==> HeaderDates(ws, upTo)[i].col < HeaderDates(ws, upTo)[j].col
    decreases upTo - FirstDateColumn
  {
    if upTo > FirstDateColumn {
      HeaderDatesExact(ws, upTo - 1);
    }
  }

  /** The loop over row 12 that collects the date headers. */
  method CollectDates(ws: Worksheet) returns (dates: seq<DateColumn>)
    ensures dates == HeaderDates(ws, ws.lastCol + 1)
  {
    dates := [];
    var col := FirstDateColumn;
    while col <= ws.lastCol
      invariant col <= FirstDateColumn || col <= ws.lastCol + 1
      invariant col >= FirstDateColumn
      invariant dates == HeaderDates(ws, col)
      decreases ws.lastCol - col
    {
      if (DateHeaderRow, col) in ws.cells && ws.cells[(DateHeaderRow, col)] != "" {
        dates := dates + [DateColumn(ws.cells[(DateHeaderRow, col)], col)];
      }
      col := col + 1;
    }
    if ws.lastCol + 1 < FirstDateColumn {
      assert HeaderDates(ws, ws.lastCol + 1) == [];
    }
  }

  /** The date columns in the order of the details table: sorted by date label. */
  function SortedDates(ws: Worksheet): (r: seq<DateColumn>)
    ensures SortedBy(r, DateOf)
    ensures multiset(r) == multiset(HeaderDates(ws, ws.lastCol + 1))
  {
    SortBy(HeaderDates(ws, ws.lastCol + 1), DateOf)
  }

  /** One train's entry after the `dates.forEach`: label to washed, a later column overwriting an earlier one with the same label. */
  function RowEntry(ws: Worksheet, row: int, dates: seq<DateColumn>): map<string, bool>
  {
    if dates == [] then map[]
    else RowEntry(ws, row, dates[..|dates| - 1])[dates[|dates| - 1].date := IsWashed(ws, row, dates[|dates| - 1].col)]
  }

  /** The entry's keys are exactly the date labels. */
  lemma {:induction false} RowEntryKeys(ws: Worksheet, row: int, dates: seq<DateColumn>)
    ensures RowEntry(ws, row, dates).Keys == set i | 0 <= i < |dates| :: dates[i].date
  {
    if dates != [] {
      var init := dates[..|dates| - 1];
      RowEntryKeys(ws, row, init);
      assert (set i | 0 <= i < |dates| :: dates[i].date)
        == (set i | 0 <= i < |init| :: init[i].date) + {dates[|dates| - 1].date};
    }
  }

  /** The value of a label is whether the cell under its last column with that label is exactly "W". */
  lemma {:induction false} RowEntryValue(ws: Worksheet, row: int, dates: seq<DateColumn>, i: nat)
    requires i < |dates|
    requires forall j :: i < j < |dates| ==> dates[j].date != dates[i].date
    ensures dates[i].date in RowEntry(ws, row, dates)
    ensures RowEntry(ws, row, dates)[dates[i].date] == IsWashed(ws, row, dates[i].col)
  {
    if i < |dates| - 1 {
      var init := dates[..|dates| - 1];
      assert init[i] == dates[i];
      RowEntryValue(ws, row, init, i);
    }
  }

  /** The train number read from column 1 of the `k`-th data row (row 15 + 2k), empty when absent. */
  function TrainAt(ws: Worksheet, k: nat): string
  {
    if (FirstDataRow + 2 * k, TrainColumn) in ws.cells then ws.cells[(FirstDataRow + 2 * k, TrainColumn)] else ""
  }

  /** The number of rows 15, 17, 19, ... up to the last row of the range. */
  function DataRowCount(ws: Worksheet): nat
  {
    if ws.lastRow < FirstDataRow then 0 else (ws.lastRow - FirstDataRow) / 2 + 1
  }

  /** The details table after the first `k` data rows. */
  function TrainTable(ws: Worksheet, dates: seq<DateColumn>, k: nat): map<string, map<string, bool>>
  {
    if k == 0 then map[]
    else
      var prev := TrainTable(ws, dates, k - 1);
      if TrainAt(ws, k - 1) != "" then prev[TrainAt(ws, k - 1) := RowEntry(ws, FirstDataRow + 2 * (k - 1), dates)]
      else prev
  }

  /** Exactly the non-empty train numbers of the first `k` data rows are keys. */
  lemma {:induction false} TrainTableKeys(ws: Worksheet, dates: seq<DateColumn>, k: nat)
    ensures TrainTable(ws, dates, k).Keys == set j | 0 <= j < k && TrainAt(ws, j) != "" :: TrainAt(ws, j)
  {
    if k > 0 {
      TrainTableKeys(ws, dates, k - 1);
      var t := TrainAt(ws, k - 1);
      if t != "" {
        assert (set j | 0 <= j < k && TrainAt(ws, j) != "" :: TrainAt(ws, j))
          == (set j | 0 <= j < k - 1 && TrainAt(ws, j) != "" :: TrainAt(ws, j)) + {t};
      } else {
        assert (set j | 0 <= j < k && TrainAt(ws, j) != "" :: TrainAt(ws, j))
          == (set j | 0 <= j < k - 1 && TrainAt(ws, j) != "" :: TrainAt(ws, j));
      }
    }
  }

  /** A train number maps to the entry of the last of the first `k` data rows that carries it. */
  lemma {:induction false} TrainTableLatest(ws: Worksheet, dates: seq<DateColumn>, k: nat, j: nat)
    requires j < k && TrainAt(ws, j) != ""
    requires forall j' :: j < j' < k ==> TrainAt(ws, j') != TrainAt(ws, j)
    ensures TrainAt(ws, j) in TrainTable(ws, dates, k)
    ensures TrainTable(ws, dates, k)[TrainAt(ws, j)] == RowEntry(ws, FirstDataRow + 2 * j, dates)
  {
    if j < k - 1 {
      TrainTableLatest(ws, dates, k - 1, j);
    }
  }

  /** The loops over the data rows and, inside, over the date columns. */
  method BuildTrainTable(ws: Worksheet, dates: seq<DateColumn>) returns (allData: map<string, map<string, bool>>)
    ensures allData == TrainTable(ws, dates, DataRowCount(ws))
  {
    allData := map[];
    var row := FirstDataRow as int;
    ghost var k: nat := 0;
    while row <= ws.lastRow
      invariant row == FirstDataRow + 2 * k
      invariant k <= DataRowCount(ws)
      invariant row <= ws.lastRow ==> k < DataRowCount(ws)
      invariant allData == TrainTable(ws, dates, k)
      decreases ws.lastRow - row
    {
      if (row, TrainColumn) in ws.cells && ws.cells[(row, TrainColumn)] != "" {
        var trainNumber := ws.cells[(row, TrainColumn)];
        var entry := map[];
        var i := 0;
        while i < |dates|
          invariant 0 <= i <= |dates|
          invariant entry == RowEntry(ws, row, dates[..i])
        {
          assert dates[..i + 1][..i] == dates[..i];
          entry := entry[dates[i].date := (row, dates[i].col) in ws.cells && ws.cells[(row, dates[i].col)] == "W"];
          i := i + 1;
        }
        assert dates[..|dates|] == dates;
        allData := allData[trainNumber := entry];
      }
      row := row + 2;
      k := k + 1;
    }
  }

  /** Pass B's result for a loaded worksheet. */
  function TrainDetails(ws: Worksheet): map<string, map<string, bool>>
  {
    TrainTable(ws, SortedDates(ws), DataRowCount(ws))
  }
}
