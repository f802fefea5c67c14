/** The `GoogleSheet` class of sheet_cleaner/spreadsheet.py and its older copy in
    sheet_cleaner/objects.py, against an in-memory stand-in for the remote
    sheet: A1 column letters, the header clean-up and the column-letter
    dictionary, the identity-checked write-back of fixes, and ID allocation. */
module Spreadsheet {
  import opened Wrappers
  import opened Text
  import opened Functions
  import Ids

  datatype SheetError =
    | SheetDataNotFound                                      // `read_values` on an empty range
    | IndexOutOfRange(num: int)                              // `index2A1` outside 0..77
    | MissingErrorColumns                                    // the error table lacks `fix` or `value`
    | UnknownColumn(name: string)                            // `column_dict[...]` raises KeyError
    | BadRow(rowText: string)                                // the error's row names no sheet row
    | IdMismatch(row: nat, expected: string, found: string)  // the ID check before a write fails
    | NoFix(row: nat)                                        // a missing fix cannot be sent
    | NoIdColumn                                             // `columns.index('ID')` raises
    | BadId(text: string)                                    // `int(...)` raises on an ID cell

  // ---------------------------------------------------------------------------
  // A1 column letters

  /** `string.ascii_uppercase`. */
  const Alpha: string := "ABCDEFGHIJKLMNOPQRSTUVWXYZ"

  /** The letters stand in alphabetical order. */
  lemma AlphaInOrder()
    ensures |Alpha| == 26
    ensures forall k :: 0 <= k < 26 ==> Alpha[k] as int == 'A' as int + k
  {
  }

  predicate IsUpper(c: char) { 'A' <= c <= 'Z' }

  function LetterIndex(c: char): nat
    requires IsUpper(c)
  {
    c as int - 'A' as int
  }

  /** `index2A1`: a column index as its A1 letters, for the first 78 columns. */
  function Index2A1(num: int): (r: Result<string, SheetError>)
    ensures r.Ok? <==> 0 <= num <= 77
    ensures r.Err? ==> r.error == IndexOutOfRange(num)
  {
    if 0 <= num <= 25 then Ok([Alpha[num]])
    else if 26 <= num <= 51 then Ok("A" + [Alpha[num % 26]])
    else if 52 <= num <= 77 then Ok("B" + [Alpha[num % 26]])
    else Err(IndexOutOfRange(num))
  }

  /** Reading A1 column letters back as a 0-based index, as the sheet does:
      `A`..`Z`, then `AA`..`ZZ`. */
  function A1ToIndex(col: string): Option<nat> {
    if |col| == 1 && IsUpper(col[0]) then Some(LetterIndex(col[0]))
    else if |col| == 2 && IsUpper(col[0]) && IsUpper(col[1]) then
      Some(26 * (LetterIndex(col[0]) + 1) + LetterIndex(col[1]))
    else None
  }

  /** The letters `index2A1` produces name the column it was given. */
  lemma A1RoundTrip(num: int)
    requires 0 <= num <= 77
    ensures A1ToIndex(Index2A1(num).value) == Some(num)
  {
    AlphaInOrder();
  }

  /** No two columns share letters. */
  lemma Index2A1Injective(i: int, j: int)
    requires Index2A1(i).Ok? && Index2A1(j).Ok? && Index2A1(i) == Index2A1(j)
    ensures i == j
  {
    A1RoundTrip(i);
    A1RoundTrip(j);
  }

  /** The header range `A1:AG1` spans exactly 33 columns. */
  const HeaderWidth: nat := 33

  lemma HeaderRangeEnds()
    ensures Index2A1(HeaderWidth - 1) == Ok("AG")
  {
    assert 32 % 26 == 6 && Alpha[6] == 'G';
    assert "A" + [Alpha[6]] == "AG";
  }

  // ---------------------------------------------------------------------------
  // The remote sheet, held in memory

  /** The cell at 1-based row `r` and 0-based column `c`; a cell past the end of
      the stored data is empty. */
  function Cell(cells: seq<seq<string>>, r: nat, c: nat): string {
    if 1 <= r <= |cells| && c < |cells[r - 1]| then cells[r - 1][c] else ""
  }

  function PadTo<T>(xs: seq<T>, n: nat, filler: T): (r: seq<T>)
    ensures |r| == if |xs| >= n then |xs| else n
    ensures forall k :: 0 <= k < |xs| ==> r[k] == xs[k]
    ensures forall k :: |xs| <= k < |r| ==> r[k] == filler
  {
    if |xs| >= n then xs else xs + seq(n - |xs|, _ => filler)
  }

  /** A one-cell write (`insert_values` of `[[v]]`): cell (`r`, `c`) becomes `v`
      and every other cell reads as before. */
  function SetCell(cells: seq<seq<string>>, r: nat, c: nat, v: string): (res: seq<seq<string>>)
    requires r >= 1
    ensures Cell(res, r, c) == v
    ensures forall r2: nat, c2: nat :: (r2 != r || c2 != c) ==> Cell(res, r2, c2) == Cell(cells, r2, c2)
  {
    var rows := PadTo(cells, r, []);
    var row := PadTo(rows[r - 1], c + 1, "");
    rows[r - 1 := row[c := v]]
  }

  /** A column write starting at row `from`: `vals[k]` goes to row `from + k`. */
  function WriteColumn(cells: seq<seq<string>>, c: nat, from: nat, vals: seq<string>): (res: seq<seq<string>>)
    requires from >= 1
    ensures forall k :: 0 <= k < |vals| ==> Cell(res, from + k, c) == vals[k]
    ensures forall r: nat, c2: nat :: (c2 != c || r < from || r >= from + |vals|) ==> Cell(res, r, c2) == Cell(cells, r, c2)
  {
    if vals == [] then cells
    else
      var n := |vals| - 1;
      SetCell(WriteColumn(cells, c, from, vals[..n]), from + n, c, vals[n])
  }

  /** The values with the trailing empty ones dropped, as the Sheets API
      returns a range. */
  function TrimTrailing(xs: seq<string>): (r: seq<string>)
    ensures |r| <= |xs| && r == xs[..|r|]
    ensures r == [] || r[|r| - 1] != ""
    ensures forall k :: |r| <= k < |xs| ==> xs[k] == ""
  {
    if xs == [] || xs[|xs| - 1] != "" then xs else TrimTrailing(xs[..|xs| - 1])
  }

  /** `read_values('A{r}')`: the one cell, or the "Sheet data not found" error
      when it is empty. */
  function ReadCell(cells: seq<seq<string>>, r: nat, c: nat): (res: Result<string, SheetError>)
    ensures res.Ok? <==> Cell(cells, r, c) != ""
    ensures res.Ok? ==> res.value == Cell(cells, r, c)
    ensures res.Err? ==> res.error == SheetDataNotFound
  {
    if Cell(cells, r, c) == "" then Err(SheetDataNotFound) else Ok(Cell(cells, r, c))
  }

  /** `read_values('{name}!A1:AG1')[0]`: the first 33 cells of row 1 up to the
      last non-empty one; an empty header row is the "Sheet data not found"
      error. */
  function ReadHeader(cells: seq<seq<string>>): (res: Result<seq<string>, SheetError>)
    ensures res.Ok? ==> 0 < |res.value| <= HeaderWidth
    ensures res.Ok? ==> forall k :: 0 <= k < |res.value| ==> res.value[k] == Cell(cells, 1, k)
    ensures res.Err? ==> res.error == SheetDataNotFound && forall k :: 0 <= k < HeaderWidth ==> Cell(cells, 1, k) == ""
  {
    var row := seq(HeaderWidth, k requires 0 <= k < HeaderWidth => Cell(cells, 1, k));
    var t := TrimTrailing(row);
    assert forall k :: |t| <= k < HeaderWidth ==> row[k] == Cell(cells, 1, k) == "";
    if t == [] then Err(SheetDataNotFound) else Ok(t)
  }

  /** `read_values('{name}!X:X')` flattened: column `c` from row 1 down to its
      last non-empty cell, with an empty cell inside read as "". An entirely
      empty column is the "Sheet data not found" error. */
  function ReadColumn(cells: seq<seq<string>>, c: nat): (res: Result<seq<string>, SheetError>)
    ensures res.Ok? ==> 0 < |res.value| <= |cells|
    ensures res.Ok? ==> res.value[|res.value| - 1] != ""
    ensures res.Ok? ==> forall k :: 0 <= k < |res.value| ==> res.value[k] == Cell(cells, k + 1, c)
    ensures forall r: nat :: (res.Err? || r > |res.value|) ==> Cell(cells, r, c) == ""
    ensures res.Err? ==> res.error == SheetDataNotFound
  {
    var col := seq(|cells|, k requires 0 <= k < |cells| => Cell(cells, k + 1, c));
    var t := TrimTrailing(col);
    assert forall r: nat :: r > |t| ==> Cell(cells, r, c) == "" by {
      forall r: nat | r > |t| ensures Cell(cells, r, c) == "" {
        if r <= |cells| { assert col[r - 1] == Cell(cells, r, c); }
      }
    }
    if t == [] then Err(SheetDataNotFound) else Ok(t)
  }

  // ---------------------------------------------------------------------------
  // The column dictionary

  /** `{c: index2A1(i) for i, c in enumerate(columns)}`: each header name to
      its column letters; it raises once an index passes 77. */
  function ColumnDict(columns: seq<string>): (r: Result<map<string, string>, SheetError>)
    ensures r.Ok? <==> |columns| <= 78
    ensures r.Err? ==> r.error == IndexOutOfRange(78)
  {
    if columns == [] then Ok(map[])
    else
      var n := |columns| - 1;
      match ColumnDict(columns[..n])
      case Err(e) => Err(e)
      case Ok(d) =>
        if n > 77 then Err(IndexOutOfRange(n)) else Ok(d[columns[n] := Index2A1(n).value])
  }

  /** Every entry of the dictionary is a pair of letters that names a column. */
  predicate LettersOnly(dict: map<string, string>) {
    forall c :: c in dict ==> A1ToIndex(dict[c]).Some?
  }

  /** The dictionary's keys are exactly the header names. */
  lemma {:induction false} ColumnDictKeys(columns: seq<string>)
    requires ColumnDict(columns).Ok?
    ensures forall c :: c in ColumnDict(columns).value <==> c in columns
  {
    if columns != [] {
      var n := |columns| - 1;
      ColumnDictKeys(columns[..n]);
      assert columns == columns[..n] + [columns[n]];
    }
  }

  /** When a header name repeats, its last position wins. */
  lemma {:induction false} ColumnDictLastWins(columns: seq<string>, k: nat)
    requires ColumnDict(columns).Ok? && k < |columns|
    requires forall j :: k < j < |columns| ==> columns[j] != columns[k]
    ensures columns[k] in ColumnDict(columns).value && ColumnDict(columns).value[columns[k]] == Index2A1(k).value
  {
    var n := |columns| - 1;
    var init := columns[..n];
    var d := ColumnDict(init).value;
    assert ColumnDict(columns).value == d[columns[n] := Index2A1(n).value];
    if k < n {
      assert init[k] == columns[k];
      assert forall j :: k < j < |init| ==> init[j] != init[k] by {
        forall j | k < j < |init| ensures init[j] != init[k] {
          assert init[j] == columns[j];
        }
      }
      ColumnDictLastWins(init, k);
      assert columns[n] != columns[k];
    }
  }

  /** The letters stored for a name lead back to a column headed by that name. */
  lemma {:induction false} ColumnDictNamesItsColumn(columns: seq<string>, c: string)
    requires ColumnDict(columns).Ok? && c in ColumnDict(columns).value
    ensures A1ToIndex(ColumnDict(columns).value[c]).Some?
    ensures var k := A1ToIndex(ColumnDict(columns).value[c]).value; k < |columns| && columns[k] == c
  {
    var n := |columns| - 1;
    if c == columns[n] {
      A1RoundTrip(n);
    } else {
      ColumnDictNamesItsColumn(columns[..n], c);
    }
  }

  lemma ColumnDictLetters(columns: seq<string>)
    requires ColumnDict(columns).Ok?
    ensures LettersOnly(ColumnDict(columns).value)
  {
    forall c | c in ColumnDict(columns).value
      ensures A1ToIndex(ColumnDict(columns).value[c]).Some?
    {
      ColumnDictNamesItsColumn(columns, c);
    }
  }

  // ---------------------------------------------------------------------------
  // Writing fixes back

  /** The sheet row an error names: a decimal row number from 1 on. */
  function RowNumber(row: string): (r: Option<nat>)
    ensures r.Some? ==> r.value >= 1 && ParseNat(row) == Some(r.value)
  {
    match ParseNat(row)
    case Some(n) => if n >= 1 then Some(n) else None
    case None => None
  }

  /** The cell an error's fix goes to: its row, and the column its letters name. */
  function Target(dict: map<string, string>, e: Violation): (nat, nat)
    requires LettersOnly(dict) && e.column in dict && RowNumber(e.row).Some?
  {
    (RowNumber(e.row).value, A1ToIndex(dict[e.column]).value)
  }

  /** One error of `fix_cells`: find the column letters, read column A of the
      error's row, check it holds the error's ID, then write the fix into the
      error's cell. */
  function FixStep(cells: seq<seq<string>>, dict: map<string, string>, e: Violation): Result<seq<seq<string>>, SheetError>
    requires LettersOnly(dict)
  {
    if e.column !in dict then Err(UnknownColumn(e.column))
    else match RowNumber(e.row)
      case None => Err(BadRow(e.row))
      case Some(n) =>
        match ReadCell(cells, n, 0)
        case Err(err) => Err(err)
        case Ok(found) =>
          if found != e.id then Err(IdMismatch(n, e.id, found))
          else match e.fix
            case None => Err(NoFix(n))
            case Some(v) => Ok(SetCell(cells, n, A1ToIndex(dict[e.column]).value, v))
  }

  /** A write happens only after the ID check passed, and it changes exactly the
      error's cell, to the fix. */
  lemma FixStepWrites(cells: seq<seq<string>>, dict: map<string, string>, e: Violation)
    requires LettersOnly(dict) && FixStep(cells, dict, e).Ok?
    ensures e.column in dict && RowNumber(e.row).Some? && e.fix.Some?
    ensures Cell(cells, RowNumber(e.row).value, 0) == e.id
    ensures var (r, c) := Target(dict, e); var after := FixStep(cells, dict, e).value;
      && Cell(after, r, c) == e.fix.value
      && forall r2: nat, c2: nat :: (r2 != r || c2 != c) ==> Cell(after, r2, c2) == Cell(cells, r2, c2)
  {
  }

  /** An error whose row has nothing in column A fails with "Sheet data not
      found" and writes nothing. */
  lemma FixStepEmptyId(cells: seq<seq<string>>, dict: map<string, string>, e: Violation)
    requires LettersOnly(dict) && e.column in dict && RowNumber(e.row).Some?
    requires Cell(cells, RowNumber(e.row).value, 0) == ""
    ensures FixStep(cells, dict, e) == Err(SheetDataNotFound)
  {
  }

  /** An error whose row holds a different ID fails with the mismatch. */
  lemma FixStepMismatch(cells: seq<seq<string>>, dict: map<string, string>, e: Violation)
    requires LettersOnly(dict) && e.column in dict && RowNumber(e.row).Some?
    requires var found := Cell(cells, RowNumber(e.row).value, 0); found != "" && found != e.id
    ensures FixStep(cells, dict, e) == Err(IdMismatch(RowNumber(e.row).value, e.id, Cell(cells, RowNumber(e.row).value, 0)))
  {
  }

  /** The state after some errors: the sheet, how many were written, and the
      failure that stopped the loop, if any. */
  datatype Run = Run(cells: seq<seq<string>>, written: nat, failure: Option<SheetError>)

  /** The first `k` errors applied in order, stopping at the first failure. */
  function FixPrefix(cells: seq<seq<string>>, dict: map<string, string>, errors: seq<Violation>, k: nat): (s: Run)
    requires LettersOnly(dict) && k <= |errors|
    ensures s.written <= k
    ensures s.failure.None? ==> s.written == k
  {
    if k == 0 then Run(cells, 0, None)
    else
      var s := FixPrefix(cells, dict, errors, k - 1);
      if s.failure.Some? then s
      else match FixStep(s.cells, dict, errors[k - 1])
        case Ok(after) => Run(after, s.written + 1, None)
        case Err(e) => Run(s.cells, s.written, Some(e))
  }

  lemma {:induction false} FixPrefixStops(cells: seq<seq<string>>, dict: map<string, string>, errors: seq<Violation>, k: nat, k2: nat)
    requires LettersOnly(dict) && k <= k2 <= |errors|
    requires FixPrefix(cells, dict, errors, k).failure.Some?
    ensures FixPrefix(cells, dict, errors, k2) == FixPrefix(cells, dict, errors, k)
    decreases k2
  {
    if k < k2 {
      FixPrefixStops(cells, dict, errors, k, k2 - 1);
    }
  }

  /** On a failure the loop stopped at the first failing error: the errors
      before it were all written, their writes stay, and no later error was
      attempted. */
  lemma {:induction false} FixPrefixAbort(cells: seq<seq<string>>, dict: map<string, string>, errors: seq<Violation>, k: nat)
    requires LettersOnly(dict) && k <= |errors|
    requires FixPrefix(cells, dict, errors, k).failure.Some?
    ensures var s := FixPrefix(cells, dict, errors, k);
      && s.written < k
      && FixPrefix(cells, dict, errors, s.written) == Run(s.cells, s.written, None)
      && FixStep(s.cells, dict, errors[s.written]) == Err(s.failure.value)
  {
    var s := FixPrefix(cells, dict, errors, k - 1);
    if s.failure.Some? {
      FixPrefixAbort(cells, dict, errors, k - 1);
    }
  }

  /** Only the cells the written errors target change. */
  lemma {:induction false} FixPrefixFrame(cells: seq<seq<string>>, dict: map<string, string>, errors: seq<Violation>, k: nat, r: nat, c: nat)
    requires LettersOnly(dict) && k <= |errors|
    requires forall j :: 0 <= j < FixPrefix(cells, dict, errors, k).written ==>
      errors[j].column in dict && RowNumber(errors[j].row).Some? ==> Target(dict, errors[j]) != (r, c)
    ensures Cell(FixPrefix(cells, dict, errors, k).cells, r, c) == Cell(cells, r, c)
  {
    if k > 0 {
      var s := FixPrefix(cells, dict, errors, k - 1);
      FixPrefixFrame(cells, dict, errors, k - 1, r, c);
      if s.failure.None? && FixStep(s.cells, dict, errors[k - 1]).Ok? {
        FixStepWrites(s.cells, dict, errors[k - 1]);
        assert s.written == k - 1;
      }
    }
  }

  // ---------------------------------------------------------------------------
  // ID allocation on the sheet

  /** The column `insert_ids` compares lengths with: `country`, else `F`. */
  function CountryIndex(columns: seq<string>): nat {
    if "country" in columns then FirstIndex(columns, "country") else 5
  }

  /** What `insert_ids` writes to the ID column from row 2 on, or the error it
      raises first. */
  function IdValues(cells: seq<seq<string>>, name: string, baseId: string, columns: seq<string>): Result<seq<string>, SheetError> {
    if "ID" !in columns then Err(NoIdColumn)
    else
      var idIdx := FirstIndex(columns, "ID");
      var countryIdx := CountryIndex(columns);
      if Index2A1(idIdx).Err? then Err(IndexOutOfRange(idIdx))
      else if Index2A1(countryIdx).Err? then Err(IndexOutOfRange(countryIdx))
      else match ReadColumn(cells, idIdx)
        case Err(e) => Err(e)
        case Ok(idCol) =>
          match ReadColumn(cells, countryIdx)
          case Err(e) => Err(e)
          case Ok(countries) => NumberedIds(name, baseId, idCol[1..], |countries|, Ids.ParseId)
  }

  /** The ID texts below the header, read with `parse` (`Ids.ParseId` on a
      sheet), numbered against a country column of `countryRows` rows (header
      included) and formatted for writing. */
  function NumberedIds(name: string, baseId: string, texts: seq<string>, countryRows: nat, parse: string -> Option<int>): Result<seq<string>, SheetError> {
    match Ids.ParseCells(texts, parse)
    case Err(x) => Err(BadId(x))
    case Ok(ids) => Ok(Ids.NewValues(name, baseId, Ids.Allocate(ids, countryRows - |texts|)))
  }

  /** The write covers one row fewer than the longer of the ID column below its
      header and the country column with its header; when the country column is
      the longer, that is every data row of it. Each value is the formatted
      allocated number for its row. */
  lemma InsertIdsCoverage(cells: seq<seq<string>>, name: string, baseId: string, columns: seq<string>)
    requires IdValues(cells, name, baseId, columns).Ok?
    ensures "ID" in columns && ReadColumn(cells, FirstIndex(columns, "ID")).Ok?
    ensures ReadColumn(cells, CountryIndex(columns)).Ok?
    ensures var texts := ReadColumn(cells, FirstIndex(columns, "ID")).value[1..];
      var countries := ReadColumn(cells, CountryIndex(columns)).value;
      var values := IdValues(cells, name, baseId, columns).value;
      && Ids.ParseCells(texts, Ids.ParseId).Ok?
      && |values| == (if |countries| > |texts| then |countries| else |texts|) - 1
      && forall k :: 0 <= k < |values| ==>
           values[k] == Ids.Format(name, baseId, Ids.Allocate(Ids.ParseCells(texts, Ids.ParseId).value, |countries| - |texts|)[k])
  {
    var texts := ReadColumn(cells, FirstIndex(columns, "ID")).value[1..];
    var countries := ReadColumn(cells, CountryIndex(columns)).value;
    Ids.AllocateKeeps(Ids.ParseCells(texts, Ids.ParseId).value, |countries| - |texts|);
  }

  // ---------------------------------------------------------------------------
  // The sheet object

  class GoogleSheet {
    var name: string
    var baseId: string
    /** The remote sheet's cells, row by row. */
    var cells: seq<seq<string>>
    var columns: seq<string>
    var columnDict: map<string, string>

    /** The header fits the `A1:AG1` read and the dictionary was built from it. */
    predicate Valid()
      reads this`columns, this`columnDict
    {
      |columns| <= HeaderWidth && ColumnDict(columns) == Ok(columnDict) && LettersOnly(columnDict)
    }

    constructor Init(name: string, baseId: string, cells: seq<seq<string>>, columns: seq<string>, columnDict: map<string, string>)
      requires |columns| <= HeaderWidth && ColumnDict(columns) == Ok(columnDict) && LettersOnly(columnDict)
      ensures Valid()
      ensures this.name == name && this.baseId == baseId && this.cells == cells
      ensures this.columns == columns && this.columnDict == columnDict
    {
      this.name := name;
      this.baseId := baseId;
      this.cells := cells;
      this.columns := columns;
      this.columnDict := columnDict;
    }

    /** `__init__`: read the header, clean it up and build the dictionary; an
        empty header row raises "Sheet data not found". */
    static method Connect(name: string, baseId: string, cells: seq<seq<string>>) returns (r: Result<GoogleSheet, SheetError>)
      ensures r.Err? <==> ReadHeader(cells).Err?
      ensures r.Err? ==> r.error == SheetDataNotFound
      ensures r.Ok? ==> fresh(r.value) && r.value.Valid()
      ensures r.Ok? ==> r.value.name == name && r.value.baseId == baseId && r.value.cells == cells
      ensures r.Ok? ==> var header := ReadHeader(cells).value;
        |r.value.columns| == |header| && forall k :: 0 <= k < |header| ==> r.value.columns[k] == Strip(header[k])
    {
      var header := ReadHeader(cells);
      if header.Err? {
        return Err(header.error);
      }
      var columns := GetColumns(header.value);
      var dict := ColumnDict(columns);
      ColumnDictLetters(columns);
      var sheet := new GoogleSheet.Init(name, baseId, cells, columns, dict.value);
      return Ok(sheet);
    }

    /** `_get_columns` / `get_columns`: every header name comes out stripped.
        The renaming of a blank header after `province` to `country` is
        overwritten in the same iteration, so such a header stays "". */
    static method GetColumns(header: seq<string>) returns (columns: seq<string>)
      ensures |columns| == |header|
      ensures forall k :: 0 <= k < |header| ==> columns[k] == Strip(header[k])
    {
      columns := header;
      for i := 0 to |columns|
        invariant |columns| == |header|
        invariant forall k :: 0 <= k < i ==> columns[k] == Strip(header[k])
        invariant forall k :: i <= k < |header| ==> columns[k] == header[k]
      {
        var c := columns[i];
        var previous := if i == 0 then columns[|columns| - 1] else columns[i - 1];
        if Strip(c) == "" && previous == "province" {
          columns := columns[i := "country"];
        }
        columns := columns[i := Strip(c)];
      }
    }

    /** `fix_cells` of spreadsheet.py: the error table must have `fix` and
        `value` columns; then each error is checked and written in order, and
        the first failure ends the call with the earlier writes in place. */
    method FixCells(tableColumns: seq<string>, errors: seq<Violation>) returns (failure: Option<SheetError>)
      requires Valid()
      modifies this`cells
      ensures "fix" !in tableColumns || "value" !in tableColumns ==>
        failure == Some(MissingErrorColumns) && cells == old(cells)
      ensures "fix" in tableColumns && "value" in tableColumns ==>
        var s := FixPrefix(old(cells), columnDict, errors, |errors|);
        cells == s.cells && failure == s.failure
    {
      if "fix" !in tableColumns || "value" !in tableColumns {
        return Some(MissingErrorColumns);
      }
      var s := ApplyFixes(cells, columnDict, errors);
      cells := s.cells;
      failure := s.failure;
    }

    /** The loop of `fix_cells`: each error in turn is checked against the
        sheet and written, counting the writes, until one fails. */
    static method ApplyFixes(cells0: seq<seq<string>>, dict: map<string, string>, errors: seq<Violation>) returns (s: Run)
      requires LettersOnly(dict)
      ensures s == FixPrefix(cells0, dict, errors, |errors|)
    {
      var sheet := cells0;
      var fixed := 0;
      while fixed < |errors|
        invariant fixed <= |errors|
        invariant FixPrefix(cells0, dict, errors, fixed) == Run(sheet, fixed, None)
      {
        var step := FixStep(sheet, dict, errors[fixed]);
        if step.Err? {
          FixPrefixStops(cells0, dict, errors, fixed + 1, |errors|);
          return Run(sheet, fixed, Some(step.error));
        }
        sheet := step.value;
        fixed := fixed + 1;
      }
      return Run(sheet, fixed, None);
    }

    /** `fix_cells` of objects.py: as `FixCells`, returning how many errors were
        written. */
    method FixCellsCounted(tableColumns: seq<string>, errors: seq<Violation>) returns (r: Result<nat, SheetError>)
      requires Valid()
      modifies this`cells
      ensures "fix" !in tableColumns || "value" !in tableColumns ==>
        r == Err(MissingErrorColumns) && cells == old(cells)
      ensures "fix" in tableColumns && "value" in tableColumns ==>
        var s := FixPrefix(old(cells), columnDict, errors, |errors|);
        && cells == s.cells
        && (r.Ok? ==> s.failure.None? && r.value == s.written)
        && (r.Err? ==> s.failure == Some(r.error))
    {
      if "fix" !in tableColumns || "value" !in tableColumns {
        return Err(MissingErrorColumns);
      }
      var s := ApplyFixes(cells, columnDict, errors);
      cells := s.cells;
      r := if s.failure.None? then Ok(s.written) else Err(s.failure.value);
    }

    /** `insert_ids`: number the rows of the ID column that have no ID and
        rewrite the column from row 2 on. */
    method InsertIds() returns (r: Result<seq<string>, SheetError>)
      requires Valid()
      modifies this`cells
      ensures r == IdValues(old(cells), name, baseId, columns)
      ensures r.Ok? ==> "ID" in columns && cells == WriteColumn(old(cells), FirstIndex(columns, "ID"), 2, r.value)
      ensures r.Err? ==> cells == old(cells)
    {
      if "ID" !in columns {
        return Err(NoIdColumn);
      }
      // At most 33 columns, so neither column index can make `index2A1` raise.
      var idIdx := FirstIndex(columns, "ID");
      var countryIdx := if "country" in columns then FirstIndex(columns, "country") else 5;
      var idRead := ReadColumn(cells, idIdx);
      if idRead.Err? {
        return Err(idRead.error);
      }
      var texts := idRead.value[1..];
      var countries := ReadColumn(cells, countryIdx);
      if countries.Err? {
        return Err(countries.error);
      }
      r := Number(name, baseId, texts, |countries.value|, Ids.ParseId);
      if r.Ok? {
        cells := WriteColumn(cells, idIdx, 2, r.value);
      }
    }

    /** The numbering loops of `insert_ids` over the ID texts below the header. */
    static method Number(name: string, baseId: string, texts: seq<string>, countryRows: nat, parse: string -> Option<int>)
      returns (r: Result<seq<string>, SheetError>)
      ensures r == NumberedIds(name, baseId, texts, countryRows, parse)
    {
      var diff := countryRows - |texts|;
      var parsed, maxid := ParseIdCells(texts, parse);
      if parsed.Err? {
        return Err(BadId(parsed.error));
      }
      var filled, top := FillHolesInPlace(parsed.value, maxid);
      var newIds, _ := ExtraIds(diff, top);
      var all := filled + newIds;
      Ids.AllocateParts(parsed.value, diff);
      return Ok(Ids.NewValues(name, baseId, all));
    }

    /** The first loop of `insert_ids`: read each ID cell with `parse`,
        tracking the largest number from the sentinel on. */
    static method ParseIdCells(texts: seq<string>, parse: string -> Option<int>) returns (r: Result<seq<Option<int>>, string>, maxid: int)
      ensures r == Ids.ParseCells(texts, parse)
      ensures r.Ok? ==> maxid == Ids.MaxFrom(r.value)
    {
      var ids: seq<Option<int>> := [];
      maxid := Ids.Sentinel;
      for i := 0 to |texts|
        invariant Ids.ParseCells(texts[..i], parse) == Ok(ids)
        invariant maxid == Ids.MaxFrom(ids)
      {
        var x := texts[i];
        Ids.ParseCellsStep(texts, parse, i, ids);
        if x != "" {
          var num := parse(x);
          if num.None? {
            Ids.ParseCellsStaysErr(texts, parse, i + 1);
            return Err(Ids.ParseCells(texts, parse).error), maxid;
          }
          Ids.MaxFromSnoc(ids, num);
          ids := ids + [num];
          if num.value > maxid {
            maxid := num.value;
          }
        } else {
          Ids.MaxFromSnoc(ids, None);
          ids := ids + [None];
        }
      }
      assert texts[..|texts|] == texts;
      return Ok(ids), maxid;
    }

    /** The second loop of `insert_ids`: each hole, left to right, takes the
        next number after the running maximum; the list then holds numbers
        only. */
    static method FillHolesInPlace(ids0: seq<Option<int>>, maxid0: int) returns (filled: seq<int>, maxid: int)
      ensures filled == Ids.FillHoles(ids0, maxid0)
      ensures maxid == maxid0 + Ids.Holes(ids0)
    {
      var ids := ids0;
      maxid := maxid0;
      for i := 0 to |ids|
        invariant |ids| == |ids0|
        invariant forall k :: 0 <= k < i ==> ids[k] == Some(Ids.FillHoles(ids0, maxid0)[k])
        invariant forall k :: i <= k < |ids| ==> ids[k] == ids0[k]
        invariant maxid == maxid0 + Ids.Holes(ids0[..i])
      {
        Ids.HolesSnoc(ids0, i);
        if ids[i].None? {
          ids := ids[i := Some(maxid + 1)];
          maxid := maxid + 1;
        }
      }
      Ids.HolesAll(ids0);
      filled := seq(|ids|, k requires 0 <= k < |ids| && ids[k].Some? => ids[k].value);
    }

    /** The third loop of `insert_ids`: `diff` more numbers from the counter. */
    static method ExtraIds(diff: int, maxid0: int) returns (newIds: seq<int>, maxid: int)
      ensures newIds == Ids.Extra(maxid0, diff)
      ensures maxid == maxid0 + |newIds|
    {
      newIds, maxid := [], maxid0;
      while |newIds| < diff
        invariant |newIds| <= if diff > 0 then diff else 0
        invariant newIds == Ids.Extra(maxid0, |newIds|)
        invariant maxid == maxid0 + |newIds|
        decreases diff - |newIds|
      {
        newIds := newIds + [maxid + 1];
        maxid := maxid + 1;
      }
    }
  }
}
