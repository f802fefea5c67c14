/** The cell normalisers and error classification of sheet_cleaner/functions.py:
    turning raw sheet values into a frame, finding misspelled `N/A` values,
    testing columns against the field patterns and splitting the violations into
    fixable and unfixable ones, expanding aggregated rows, and the `sex` / `NA`
    normalisers. */
module Functions {
  import opened Wrappers
  import opened Text

  /** A data frame of strings: header names and rows of cells. */
  datatype Frame = Frame(columns: seq<string>, rows: seq<seq<string>>)

  /** Every row of a data frame has one cell per column. */
  predicate Rectangular(f: Frame) {
    forall k :: 0 <= k < |f.rows| ==> |f.rows[k]| == |f.columns|
  }

  datatype FrameError =
    | NoValues                    // `values[0]` of an empty read
    | RowTooLong                  // pandas refuses a data row wider than the header
    | MissingColumn(name: string) // pandas' KeyError on a column lookup

  /** One line of an error table: the sheet row, the record ID, the column, the
      offending value and, for fixable violations, the replacement. */
  datatype Violation = Violation(row: string, id: string, column: string, value: string, fix: Option<string>)

  function FirstIndex(xs: seq<string>, x: string): (k: nat)
    requires x in xs
    ensures k < |xs| && xs[k] == x
  {
    if xs[0] == x then 0 else 1 + FirstIndex(xs[1..], x)
  }

  /** `list.index` finds the first occurrence. */
  lemma {:induction false} FirstIndexIsFirst(xs: seq<string>, x: string)
    requires x in xs
    ensures x !in xs[..FirstIndex(xs, x)]
  {
    if xs[0] != x {
      FirstIndexIsFirst(xs[1..], x);
      assert xs[..FirstIndex(xs, x)] == [xs[0]] + xs[1..][..FirstIndex(xs[1..], x)];
    }
  }

  // ---------------------------------------------------------------------------
  // values2dataframe

  function PrevIndex(n: nat, i: nat): nat
    requires i < n
  {
    if i == 0 then n - 1 else i - 1
  }

  /** Header `i` after the repair loop: a header that is blank after stripping
      and follows a header exactly equal to 'province' becomes 'country'. For
      `i == 0` the previous header is the last one, as Python's `columns[-1]`. */
  function RepairHeader(h: seq<string>, i: nat): string
    requires i < |h|
  {
    if AllSpace(h[i]) && h[PrevIndex(|h|, i)] == "province" then "country" else h[i]
  }

  /** A data row extended with empty cells up to `n` cells. */
  function Pad(d: seq<string>, n: nat): (r: seq<string>)
    ensures |r| == if |d| < n then n else |d|
    ensures r[..|d|] == d
    ensures forall j :: |d| <= j < |r| ==> r[j] == ""
  {
    if |d| < n then d + seq(n - |d|, _ => "") else d
  }

  /** The frame `values2dataframe` builds from the raw values of a sheet. */
  function ToFrame(values: seq<seq<string>>): Result<Frame, FrameError> {
    if values == [] then Err(NoValues)
    else if exists k :: 1 <= k < |values| && |values[k]| > |values[0]| then Err(RowTooLong)
    else
      var h := values[0];
      Ok(Frame(seq(|h|, i requires 0 <= i < |h| => Strip(RepairHeader(h, i))) + ["row"],
               seq(|values| - 1, k requires 0 <= k < |values| - 1 => Pad(values[k + 1], |h|) + [IntToString(k + 2)])))
  }

  lemma ProvinceIsNotBlank()
    ensures !AllSpace("province")
  {
    assert !IsSpace("province"[0]);
  }

  /** The repair never creates or removes a header equal to 'province'. */
  lemma RepairHeaderProvince(h: seq<string>, k: nat)
    requires k < |h|
    ensures RepairHeader(h, k) == "province" <==> h[k] == "province"
  {
    ProvinceIsNotBlank();
  }

  /** The repair of header `i`, given a previous header that is 'province'
      exactly when the original one was. */
  lemma RepairHeaderFrom(h: seq<string>, i: nat, prev: string)
    requires i < |h|
    requires prev == "province" <==> h[PrevIndex(|h|, i)] == "province"
    ensures RepairHeader(h, i) == if Strip(h[i]) == "" && prev == "province" then "country" else h[i]
  {
    StripBlank(h[i]);
  }

  /** The header repair loop of values2dataframe, renaming in place. */
  method RepairHeaders(h: seq<string>) returns (columns: seq<string>)
    ensures |columns| == |h| && forall k :: 0 <= k < |h| ==> columns[k] == RepairHeader(h, k)
  {
    columns := h;
    var n := |columns|;
    var i := 0;
    while i < n
      invariant 0 <= i <= n && |columns| == n
      invariant forall k :: 0 <= k < i ==> columns[k] == RepairHeader(h, k)
      invariant forall k :: i <= k < n ==> columns[k] == h[k]
    {
      var prev := if i == 0 then columns[n - 1] else columns[i - 1];
      if i > 0 {
        RepairHeaderProvince(h, i - 1);
      }
      RepairHeaderFrom(h, i, prev);
      if Strip(h[i]) == "" && prev == "province" {
        columns := columns[i := "country"];
      }
      i := i + 1;
    }
  }

  /** The padding loop of values2dataframe: every row shorter than `n` is
      extended with empty cells. */
  method PadRows(data: seq<seq<string>>, n: nat) returns (padded: seq<seq<string>>)
    ensures |padded| == |data| && forall j :: 0 <= j < |data| ==> padded[j] == Pad(data[j], n)
  {
    padded := data;
    var k := 0;
    while k < |padded|
      invariant 0 <= k <= |padded| == |data|
      invariant forall j :: 0 <= j < k ==> padded[j] == Pad(data[j], n)
      invariant forall j :: k <= j < |data| ==> padded[j] == data[j]
    {
      if |padded[k]| < n {
        padded := padded[k := padded[k] + seq(n - |padded[k]|, _ => "")];
      }
      k := k + 1;
    }
  }

  method Values2DataFrame(values: seq<seq<string>>) returns (r: Result<Frame, FrameError>)
    ensures r == ToFrame(values)
  {
    if values == [] {
      return Err(NoValues);
    }
    var columns := RepairHeaders(values[0]);
    var n := |columns|;
    var data := PadRows(values[1..], n);
    if exists j :: 0 <= j < |data| && |data[j]| > n {
      var j :| 0 <= j < |data| && |data[j]| > n;
      assert |values[j + 1]| > |values[0]|;
      return Err(RowTooLong);
    }
    var rows := seq(|data|, j requires 0 <= j < |data| => data[j] + [IntToString(j + 2)]);
    var names := seq(n, j requires 0 <= j < n => Strip(columns[j])) + ["row"];
    r := Ok(Frame(names, rows));
    ghost var h := values[0];
    assert names == seq(|h|, i requires 0 <= i < |h| => Strip(RepairHeader(h, i))) + ["row"];
    assert rows == seq(|values| - 1, k requires 0 <= k < |values| - 1 => Pad(values[k + 1], |h|) + [IntToString(k + 2)]);
  }

  /** The load succeeds exactly when there is a header row and no data row is
      wider than it. */
  lemma ToFrameOk(values: seq<seq<string>>)
    ensures ToFrame(values).Ok? <==>
      values != [] && forall k :: 1 <= k < |values| ==> |values[k]| <= |values[0]|
  {
  }

  /** What a loaded frame holds: stripped header names ending in `row`, one
      rectangular row per data row, original cells first, `""` padding after
      them, and the sheet row number `2 .. n+1` in the `row` column. */
  lemma ToFrameContents(values: seq<seq<string>>)
    requires ToFrame(values).Ok?
    ensures var f := ToFrame(values).value; var n := |values[0]|;
      && Rectangular(f)
      && |f.columns| == n + 1 && f.columns[n] == "row"
      && (forall i :: 0 <= i < n ==> Strip(f.columns[i]) == f.columns[i])
      && |f.rows| == |values| - 1
      && (forall k, j :: 0 <= k < |f.rows| && 0 <= j < n ==>
            f.rows[k][j] == if j < |values[k + 1]| then values[k + 1][j] else "")
      && (forall k :: 0 <= k < |f.rows| ==> f.rows[k][n] == IntToString(k + 2))
  {
    var f := ToFrame(values).value;
    var n := |values[0]|;
    forall i | 0 <= i < n ensures Strip(f.columns[i]) == f.columns[i] {
      StripIdempotent(RepairHeader(values[0], i));
    }
    forall k, j | 0 <= k < |f.rows| && 0 <= j < n
      ensures f.rows[k][j] == if j < |values[k + 1]| then values[k + 1][j] else ""
    {
      var p := Pad(values[k + 1], n);
      assert f.rows[k][j] == p[j];
      if j < |values[k + 1]| { assert p[..|values[k + 1]|][j] == p[j]; }
    }
  }

  lemma CountryIsTrimmed()
    ensures Strip("country") == "country"
  {
    assert !IsSpace("country"[0]) && !IsSpace("country"[6]);
    StripOfTrimmed("country");
  }

  lemma ToFrameColumn(values: seq<seq<string>>, i: nat)
    requires ToFrame(values).Ok? && i < |values[0]|
    ensures ToFrame(values).value.columns[i] == Strip(RepairHeader(values[0], i))
  {
  }

  /** The header rename: a blank header right after 'province' becomes
      'country'; every other header keeps its stripped name. */
  lemma ToFrameCountryRename(values: seq<seq<string>>, i: nat)
    requires ToFrame(values).Ok? && i < |values[0]|
    ensures var h := values[0];
      ToFrame(values).value.columns[i] ==
        if Strip(h[i]) == "" && h[PrevIndex(|h|, i)] == "province" then "country" else Strip(h[i])
  {
    var h := values[0];
    var c := ToFrame(values).value.columns[i];
    ToFrameColumn(values, i);
    StripBlank(h[i]);
    if AllSpace(h[i]) && h[PrevIndex(|h|, i)] == "province" {
      assert c == Strip("country");
      CountryIsTrimmed();
    } else {
      assert c == Strip(h[i]);
    }
  }

  /** Data row `k` carries the sheet row number `k + 2` in its last cell. */
  lemma ToFrameRowNumber(values: seq<seq<string>>, k: nat)
    requires ToFrame(values).Ok? && k < |values| - 1
    ensures var n := |values[0]|;
      |ToFrame(values).value.rows[k]| == n + 1 && ToFrame(values).value.rows[k][n] == IntToString(k + 2)
  {
    var p := Pad(values[k + 1], |values[0]|);
    assert |p| == |values[0]|;
  }

  /** A frame whose last column numbers its rows `2, 3, ...` as the sheet
      does. */
  predicate RowsNumbered(f: Frame) {
    |f.columns| >= 1 && Rectangular(f) &&
    forall k :: 0 <= k < |f.rows| ==> f.rows[k][|f.columns| - 1] == IntToString(k + 2)
  }

  /** A loaded frame is numbered in its `row` column. */
  lemma ToFrameRowsNumbered(values: seq<seq<string>>)
    requires ToFrame(values).Ok?
    ensures RowsNumbered(ToFrame(values).value)
    ensures |ToFrame(values).value.columns| == |values[0]| + 1
  {
    var f := ToFrame(values).value;
    forall k | 0 <= k < |f.rows| ensures |f.rows[k]| == |f.columns| && f.rows[k][|f.columns| - 1] == IntToString(k + 2) {
      ToFrameRowNumber(values, k);
    }
  }

  /** Distinct rows of a numbered frame carry distinct `row` numbers. */
  lemma RowNumbersDistinct(f: Frame, k: nat, l: nat)
    requires RowsNumbered(f) && k < l < |f.rows|
    ensures f.rows[k][|f.columns| - 1] != f.rows[l][|f.columns| - 1]
  {
    IntToStringDistinct(k + 2, l + 2);
  }

  lemma IntToStringDistinct(i: int, j: int)
    requires i != j
    ensures IntToString(i) != IntToString(j)
  {
    if IntToString(i) == IntToString(j) {
      IntToStringInjective(i, j);
    }
  }

  // ---------------------------------------------------------------------------
  // Scanning a column: the common core of get_NA_errors and ErrorTest

  /** The violations found in column `ci` among the first `m` rows: one per row
      whose cell is flagged, in row order, with the row and ID cells taken from
      columns `ri` and `ii`. */
  function ScanRows(f: Frame, ci: nat, ri: nat, ii: nat, flag: string -> bool, fix: string -> Option<string>, m: nat): seq<Violation>
    requires Rectangular(f) && ci < |f.columns| && ri < |f.columns| && ii < |f.columns| && m <= |f.rows|
  {
    if m == 0 then []
    else
      var prev := ScanRows(f, ci, ri, ii, flag, fix, m - 1);
      var row := f.rows[m - 1];
      if flag(row[ci]) then prev + [Violation(row[ri], row[ii], f.columns[ci], row[ci], fix(row[ci]))] else prev
  }

  /** A violation is reported for a column exactly when some row's cell in it is flagged. */
  lemma {:induction false} ScanRowsComplete(f: Frame, ci: nat, ri: nat, ii: nat, flag: string -> bool, fix: string -> Option<string>, m: nat, v: Violation)
    requires Rectangular(f) && ci < |f.columns| && ri < |f.columns| && ii < |f.columns| && m <= |f.rows|
    ensures v in ScanRows(f, ci, ri, ii, flag, fix, m) <==>
      exists k :: 0 <= k < m && flag(f.rows[k][ci]) &&
        v == Violation(f.rows[k][ri], f.rows[k][ii], f.columns[ci], f.rows[k][ci], fix(f.rows[k][ci]))
  {
    if m > 0 {
      ScanRowsComplete(f, ci, ri, ii, flag, fix, m - 1, v);
    }
  }

  method ScanColumn(f: Frame, ci: nat, ri: nat, ii: nat, flag: string -> bool, fix: string -> Option<string>) returns (vs: seq<Violation>)
    requires Rectangular(f) && ci < |f.columns| && ri < |f.columns| && ii < |f.columns|
    ensures vs == ScanRows(f, ci, ri, ii, flag, fix, |f.rows|)
  {
    vs := [];
    var k := 0;
    while k < |f.rows|
      invariant 0 <= k <= |f.rows|
      invariant vs == ScanRows(f, ci, ri, ii, flag, fix, k)
    {
      var row := f.rows[k];
      if flag(row[ci]) {
        vs := vs + [Violation(row[ri], row[ii], f.columns[ci], row[ci], fix(row[ci]))];
      }
      k := k + 1;
    }
  }

  // ---------------------------------------------------------------------------
  // get_NA_errors

  /** `df[c].str.match('N/A')`: the value begins with "N/A". */
  predicate StartsWithNA(s: string) {
    |s| >= 3 && s[..3] == "N/A"
  }

  /** `.replace('N/A', 'NA')` on a whole value. */
  function NAFix(s: string): Option<string> {
    Some(if s == "N/A" then "NA" else s)
  }

  /** The N/A violations of the first `n` columns, skipping the `row` column. */
  function NAUpTo(f: Frame, ri: nat, ii: nat, n: nat): seq<Violation>
    requires Rectangular(f) && ri < |f.columns| && ii < |f.columns| && n <= |f.columns|
  {
    if n == 0 then []
    else if f.columns[n - 1] == "row" then NAUpTo(f, ri, ii, n - 1)
    else NAUpTo(f, ri, ii, n - 1) + ScanRows(f, n - 1, ri, ii, StartsWithNA, NAFix, |f.rows|)
  }

  /** The N/A error table of a frame; the row and ID lookups fail as soon as a
      column other than `row` is examined. */
  function NAErrors(f: Frame): Result<seq<Violation>, FrameError>
    requires Rectangular(f)
  {
    if forall c :: c in f.columns ==> c == "row" then Ok([])
    else if "row" !in f.columns then Err(MissingColumn("row"))
    else if "ID" !in f.columns then Err(MissingColumn("ID"))
    else Ok(NAUpTo(f, FirstIndex(f.columns, "row"), FirstIndex(f.columns, "ID"), |f.columns|))
  }

  method GetNAErrors(f: Frame) returns (r: Result<seq<Violation>, FrameError>)
    requires Rectangular(f)
    ensures r == NAErrors(f)
  {
    var table := [];
    var ri, ii := 0, 0;
    if forall c :: c in f.columns ==> c == "row" {
      return Ok([]);
    }
    if "row" !in f.columns {
      return Err(MissingColumn("row"));
    }
    if "ID" !in f.columns {
      return Err(MissingColumn("ID"));
    }
    ri, ii := FirstIndex(f.columns, "row"), FirstIndex(f.columns, "ID");
    var c := 0;
    while c < |f.columns|
      invariant 0 <= c <= |f.columns|
      invariant table == NAUpTo(f, ri, ii, c)
    {
      if f.columns[c] != "row" {
        var errors := ScanColumn(f, c, ri, ii, StartsWithNA, NAFix);
        table := table + errors;
      }
      c := c + 1;
    }
    r := Ok(table);
  }

  /** Every N/A violation names a column other than `row`, a value beginning
      with "N/A", and the fix "NA" exactly when the value is "N/A" (otherwise
      the value itself). */
  lemma {:induction false} NAUpToSound(f: Frame, ri: nat, ii: nat, n: nat, v: Violation)
    requires Rectangular(f) && ri < |f.columns| && ii < |f.columns| && n <= |f.columns|
    requires v in NAUpTo(f, ri, ii, n)
    ensures v.column != "row" && StartsWithNA(v.value)
    ensures v.fix == Some(if v.value == "N/A" then "NA" else v.value)
  {
    if f.columns[n - 1] == "row" || v in NAUpTo(f, ri, ii, n - 1) {
      NAUpToSound(f, ri, ii, n - 1, v);
    } else {
      ScanRowsComplete(f, n - 1, ri, ii, StartsWithNA, NAFix, |f.rows|, v);
    }
  }

  /** Every cell outside the `row` column that begins with "N/A" is reported. */
  lemma {:induction false} NAUpToComplete(f: Frame, ri: nat, ii: nat, n: nat, c: nat, k: nat)
    requires Rectangular(f) && ri < |f.columns| && ii < |f.columns| && n <= |f.columns|
    requires c < n && k < |f.rows| && f.columns[c] != "row" && StartsWithNA(f.rows[k][c])
    ensures Violation(f.rows[k][ri], f.rows[k][ii], f.columns[c], f.rows[k][c], NAFix(f.rows[k][c])) in NAUpTo(f, ri, ii, n)
  {
    var v := Violation(f.rows[k][ri], f.rows[k][ii], f.columns[c], f.rows[k][c], NAFix(f.rows[k][c]));
    if c < n - 1 {
      NAUpToComplete(f, ri, ii, n - 1, c, k);
    } else {
      ScanRowsComplete(f, c, ri, ii, StartsWithNA, NAFix, |f.rows|, v);
    }
  }

  // ---------------------------------------------------------------------------
  // ErrorTest

  /** The cells a pattern test flags: those the pattern does not match. */
  function Mismatches(rgx: string -> bool): string -> bool {
    s => !rgx(s)
  }

  /** The pattern tests propose no fix. */
  function NoFix(s: string): Option<string> {
    None
  }

  /** The violations of `rgx` in the first `m` of the named columns. A column
      missing from the frame, or a frame without `row` or `ID`, is a KeyError. */
  function RegexErrors(f: Frame, names: seq<string>, rgx: string -> bool, m: nat): Result<seq<Violation>, FrameError>
    requires Rectangular(f) && m <= |names|
  {
    if m == 0 then Ok([])
    else
      match RegexErrors(f, names, rgx, m - 1)
      case Err(e) => Err(e)
      case Ok(prev) =>
        if names[m - 1] !in f.columns then Err(MissingColumn(names[m - 1]))
        else if "row" !in f.columns then Err(MissingColumn("row"))
        else if "ID" !in f.columns then Err(MissingColumn("ID"))
        else
          var ci := FirstIndex(f.columns, names[m - 1]);
          Ok(prev + ScanRows(f, ci, FirstIndex(f.columns, "row"), FirstIndex(f.columns, "ID"),
                             Mismatches(rgx), NoFix, |f.rows|))
  }

  /** Once a column lookup fails, the error is the result of the whole test. */
  lemma {:induction false} RegexErrorsStaysErr(f: Frame, names: seq<string>, rgx: string -> bool, m: nat, m': nat)
    requires Rectangular(f) && m <= m' <= |names|
    requires RegexErrors(f, names, rgx, m).Err?
    ensures RegexErrors(f, names, rgx, m') == RegexErrors(f, names, rgx, m)
    decreases m' - m
  {
    if m < m' {
      RegexErrorsStaysErr(f, names, rgx, m, m' - 1);
    }
  }

  /** One more column found in the frame adds its scan to the violations. */
  lemma RegexErrorsStep(f: Frame, names: seq<string>, rgx: string -> bool, m: nat)
    requires Rectangular(f) && m < |names| && RegexErrors(f, names, rgx, m).Ok?
    requires names[m] in f.columns && "row" in f.columns && "ID" in f.columns
    ensures RegexErrors(f, names, rgx, m + 1) == Ok(RegexErrors(f, names, rgx, m).value +
      ScanRows(f, FirstIndex(f.columns, names[m]), FirstIndex(f.columns, "row"), FirstIndex(f.columns, "ID"),
               Mismatches(rgx), NoFix, |f.rows|))
  {
  }

  /** A column missing at step `m` is the error of the whole test. */
  lemma RegexErrorsMissing(f: Frame, names: seq<string>, rgx: string -> bool, m: nat)
    requires Rectangular(f) && m < |names| && RegexErrors(f, names, rgx, m).Ok?
    requires names[m] !in f.columns || "row" !in f.columns || "ID" !in f.columns
    ensures RegexErrors(f, names, rgx, |names|) == Err(MissingColumn(
      if names[m] !in f.columns then names[m] else if "row" !in f.columns then "row" else "ID"))
  {
    RegexErrorsStaysErr(f, names, rgx, m + 1, |names|);
  }

  /** Appends to `table` one violation per cell of the named columns that does
      not match `rgx`. */
  method ErrorTest(f: Frame, names: seq<string>, rgx: string -> bool, table: seq<Violation>)
    returns (r: Result<seq<Violation>, FrameError>)
    requires Rectangular(f)
    ensures r.Ok? <==> RegexErrors(f, names, rgx, |names|).Ok?
    ensures r.Ok? ==> r.value == table + RegexErrors(f, names, rgx, |names|).value
    ensures r.Err? ==> r.error == RegexErrors(f, names, rgx, |names|).error
  {
    var acc := table;
    var m := 0;
    while m < |names|
      invariant TestedUpTo(f, names, rgx, m, table, acc)
    {
      var c := names[m];
      if c !in f.columns || "row" !in f.columns || "ID" !in f.columns {
        RegexErrorsMissing(f, names, rgx, m);
        var missing := if c !in f.columns then c else if "row" !in f.columns then "row" else "ID";
        return Err(MissingColumn(missing));
      }
      var ci, ri, ii := FirstIndex(f.columns, c), FirstIndex(f.columns, "row"), FirstIndex(f.columns, "ID");
      var invalid := ScanColumn(f, ci, ri, ii, Mismatches(rgx), NoFix);
      ErrorTestStep(f, names, rgx, m, table, acc, invalid);
      acc, m := acc + invalid, m + 1;
    }
    r := Ok(acc);
  }

  /** The loop state of `ErrorTest` after `m` columns: no lookup has failed,
      and `acc` is `table` followed by their violations. */
  ghost predicate TestedUpTo(f: Frame, names: seq<string>, rgx: string -> bool, m: nat, table: seq<Violation>,
                             acc: seq<Violation>)
  {
    && Rectangular(f) && m <= |names|
    && RegexErrors(f, names, rgx, m).Ok?
    && acc == table + RegexErrors(f, names, rgx, m).value
  }

  /** One column of `ErrorTest`: appending its scan extends the table by the
      next step of `RegexErrors`. */
  lemma ErrorTestStep(f: Frame, names: seq<string>, rgx: string -> bool, m: nat, table: seq<Violation>,
                      acc: seq<Violation>, invalid: seq<Violation>)
    requires TestedUpTo(f, names, rgx, m, table, acc) && m < |names|
    requires names[m] in f.columns && "row" in f.columns && "ID" in f.columns
    requires invalid == ScanRows(f, FirstIndex(f.columns, names[m]), FirstIndex(f.columns, "row"),
                                 FirstIndex(f.columns, "ID"), Mismatches(rgx), NoFix, |f.rows|)
    ensures TestedUpTo(f, names, rgx, m + 1, table, acc + invalid)
    ensures m + 1 <= |names|
  {
    RegexErrorsStep(f, names, rgx, m);
    ConcatAssoc(table, RegexErrors(f, names, rgx, m).value, invalid);
  }

  lemma ConcatAssoc<T>(a: seq<T>, b: seq<T>, c: seq<T>)
    ensures a + b + c == a + (b + c)
  {
  }

  /** The pattern tests only report: none of their violations carries a fix,
      and each one's value fails the pattern. */
  lemma {:induction false} RegexErrorsUnfixed(f: Frame, names: seq<string>, rgx: string -> bool, m: nat, v: Violation)
    requires Rectangular(f) && m <= |names|
    requires RegexErrors(f, names, rgx, m).Ok? && v in RegexErrors(f, names, rgx, m).value
    ensures v.fix == None && !rgx(v.value) && v.column in names[..m]
  {
    var prev := RegexErrors(f, names, rgx, m - 1).value;
    if v in prev {
      RegexErrorsUnfixed(f, names, rgx, m - 1, v);
      assert names[..m - 1] <= names[..m];
    } else {
      var ci := FirstIndex(f.columns, names[m - 1]);
      ScanRowsComplete(f, ci, FirstIndex(f.columns, "row"), FirstIndex(f.columns, "ID"),
                       Mismatches(rgx), NoFix, |f.rows|, v);
      assert names[..m][m - 1] == names[m - 1];
    }
  }

  // ---------------------------------------------------------------------------
  // generate_error_tables

  /** The field patterns of the (not shown) constants module, as predicates on
      strings, and its list of date columns. */
  datatype Patterns = Patterns(
    age: string -> bool,
    sex: string -> bool,
    date: string -> bool,
    livesInWuhan: string -> bool,
    dateColumns: seq<string>)

  /** The fix tried for a `lives_in_Wuhan` value: its lower-cased, stripped form
      if that matches the pattern, else "yes"/"no" for the legacy "1"/"0"; an
      empty candidate is no fix. */
  function LivesInWuhanFix(s: string, livesInWuhan: string -> bool): Option<string> {
    var normal := Strip(Lower(s));
    if livesInWuhan(normal) then (if normal != "" then Some(normal) else None)
    else if s == "1" then Some("yes")
    else if s == "0" then Some("no")
    else None
  }

  /** Only `lives_in_Wuhan` violations are ever given a fix. */
  function FixOf(v: Violation, p: Patterns): Option<string> {
    if v.column == "lives_in_Wuhan" then LivesInWuhanFix(v.value, p.livesInWuhan) else None
  }

  /** `FixOf` for the given patterns, as the function the split applies. */
  function Fixer(p: Patterns): Violation -> Option<string> {
    v => FixOf(v, p)
  }

  /** The fixable violations among the first `m` of `table`, each carrying the
      fix `fixer` finds for it. */
  function FixableOf(table: seq<Violation>, fixer: Violation -> Option<string>, m: nat): seq<Violation>
    requires m <= |table|
  {
    if m == 0 then []
    else
      var v := table[m - 1];
      if fixer(v).Some? then FixableOf(table, fixer, m - 1) + [v.(fix := fixer(v))]
      else FixableOf(table, fixer, m - 1)
  }

  /** The unfixable violations among the first `m` of `table`, unchanged. */
  function UnfixableOf(table: seq<Violation>, fixer: Violation -> Option<string>, m: nat): seq<Violation>
    requires m <= |table|
  {
    if m == 0 then []
    else if fixer(table[m - 1]).Some? then UnfixableOf(table, fixer, m - 1)
    else UnfixableOf(table, fixer, m - 1) + [table[m - 1]]
  }

  /** All pattern violations of a frame, in test order: age, sex, the date
      columns, lives_in_Wuhan. */
  function AllViolations(f: Frame, p: Patterns): Result<seq<Violation>, FrameError>
    requires Rectangular(f)
  {
    var names := [["age"], ["sex"], p.dateColumns, ["lives_in_Wuhan"]];
    var rgxs := [p.age, p.sex, p.date, p.livesInWuhan];
    AllViolationsUpTo(f, names, rgxs, 4)
  }

  function AllViolationsUpTo(f: Frame, names: seq<seq<string>>, rgxs: seq<string -> bool>, t: nat): Result<seq<Violation>, FrameError>
    requires Rectangular(f) && t <= |names| == |rgxs|
  {
    if t == 0 then Ok([])
    else
      match AllViolationsUpTo(f, names, rgxs, t - 1)
      case Err(e) => Err(e)
      case Ok(prev) =>
        match RegexErrors(f, names[t - 1], rgxs[t - 1], |names[t - 1]|)
        case Err(e) => Err(e)
        case Ok(vs) => Ok(prev + vs)
  }

  lemma {:induction false} AllViolationsStaysErr(f: Frame, names: seq<seq<string>>, rgxs: seq<string -> bool>, t: nat, t': nat)
    requires Rectangular(f) && t <= t' <= |names| == |rgxs|
    requires AllViolationsUpTo(f, names, rgxs, t).Err?
    ensures AllViolationsUpTo(f, names, rgxs, t') == AllViolationsUpTo(f, names, rgxs, t)
    decreases t' - t
  {
    if t < t' {
      AllViolationsStaysErr(f, names, rgxs, t, t' - 1);
    }
  }

  /** The tests only report: no entry of the violation table carries a fix. */
  lemma {:induction false} AllViolationsUpToUnfixed(f: Frame, names: seq<seq<string>>, rgxs: seq<string -> bool>, t: nat)
    requires Rectangular(f) && t <= |names| == |rgxs|
    requires AllViolationsUpTo(f, names, rgxs, t).Ok?
    ensures var table := AllViolationsUpTo(f, names, rgxs, t).value;
      forall k :: 0 <= k < |table| ==> table[k].fix == None
  {
    if t > 0 {
      AllViolationsUpToUnfixed(f, names, rgxs, t - 1);
      var vs := RegexErrors(f, names[t - 1], rgxs[t - 1], |names[t - 1]|).value;
      forall k | 0 <= k < |vs| ensures vs[k].fix == None {
        RegexErrorsUnfixed(f, names[t - 1], rgxs[t - 1], |names[t - 1]|, vs[k]);
      }
    }
  }

  method GenerateErrorTables(f: Frame, p: Patterns) returns (r: Result<(seq<Violation>, seq<Violation>), FrameError>)
    requires Rectangular(f)
    ensures r.Ok? <==> AllViolations(f, p).Ok?
    ensures r.Ok? ==> var table := AllViolations(f, p).value;
      r.value == (FixableOf(table, Fixer(p), |table|), UnfixableOf(table, Fixer(p), |table|))
    ensures r.Ok? ==> multiset(Erased(r.value.0)) + multiset(r.value.1) == multiset(AllViolations(f, p).value)
  {
    var names := [["age"], ["sex"], p.dateColumns, ["lives_in_Wuhan"]];
    var rgxs := [p.age, p.sex, p.date, p.livesInWuhan];
    var table := [];
    var t := 0;
    while t < 4
      invariant 0 <= t <= 4
      invariant AllViolationsUpTo(f, names, rgxs, t) == Ok(table)
    {
      var next := ErrorTest(f, names[t], rgxs[t], table);
      if next.Err? {
        AllViolationsStaysErr(f, names, rgxs, t + 1, 4);
        return Err(next.error);
      }
      table := next.value;
      t := t + 1;
    }

    var fixer := Fixer(p);
    var fixable := [];
    var notFixable := [];
    var i := 0;
    while i < |table|
      invariant 0 <= i <= |table|
      invariant fixable == FixableOf(table, fixer, i)
      invariant notFixable == UnfixableOf(table, fixer, i)
    {
      var v := table[i];
      var fix := fixer(v);
      if fix.Some? {
        fixable := fixable + [v.(fix := fix)];
      } else {
        notFixable := notFixable + [v];
      }
      i := i + 1;
    }
    AllViolationsUpToUnfixed(f, names, rgxs, 4);
    FixablePartition(table, fixer, |table|);
    assert table[..|table|] == table;
    r := Ok((fixable, notFixable));
  }

  /** Each fixable entry is an entry of the table with the fix found for it. */
  lemma {:induction false} FixableOfSound(table: seq<Violation>, fixer: Violation -> Option<string>, m: nat, v: Violation)
    requires m <= |table| && v in FixableOf(table, fixer, m)
    ensures exists k :: 0 <= k < m && fixer(table[k]).Some? && v == table[k].(fix := fixer(table[k]))
  {
    if v in FixableOf(table, fixer, m - 1) {
      FixableOfSound(table, fixer, m - 1, v);
    }
  }

  /** Only `lives_in_Wuhan` violations are fixable, and each carries a
      non-empty fix. */
  lemma FixableOnlyLivesInWuhan(table: seq<Violation>, p: Patterns, v: Violation)
    requires v in FixableOf(table, Fixer(p), |table|)
    ensures v.column == "lives_in_Wuhan" && v.fix.Some? && v.fix.value != ""
  {
    FixableOfSound(table, Fixer(p), |table|, v);
  }

  /** Every violation lands in exactly one of `fixable` and `unfixable`. */
  lemma {:induction false} FixableSizes(table: seq<Violation>, fixer: Violation -> Option<string>, m: nat)
    requires m <= |table|
    ensures |FixableOf(table, fixer, m)| + |UnfixableOf(table, fixer, m)| == m
  {
    if m > 0 {
      FixableSizes(table, fixer, m - 1);
    }
  }

  /** `fixable` and `unfixable` partition the violation table: erasing the
      fixes, the two together hold every violation, each as often as it occurs. */
  lemma {:induction false} FixablePartition(table: seq<Violation>, fixer: Violation -> Option<string>, m: nat)
    requires m <= |table|
    requires forall k :: 0 <= k < |table| ==> table[k].fix == None
    ensures multiset(Erased(FixableOf(table, fixer, m))) + multiset(UnfixableOf(table, fixer, m)) == multiset(table[..m])
  {
    if m == 0 {
      assert table[..m] == [];
    } else {
      FixablePartition(table, fixer, m - 1);
      if fixer(table[m - 1]).Some? {
        PartitionFixAt(table, fixer, m);
      } else {
        PartitionKeepAt(table, fixer, m);
      }
    }
  }

  /** A fixable violation goes, erased, to the fixable side. */
  lemma PartitionFixAt(table: seq<Violation>, fixer: Violation -> Option<string>, m: nat)
    requires 0 < m <= |table| && table[m - 1].fix == None && fixer(table[m - 1]).Some?
    requires multiset(Erased(FixableOf(table, fixer, m - 1))) + multiset(UnfixableOf(table, fixer, m - 1)) == multiset(table[..m - 1])
    ensures multiset(Erased(FixableOf(table, fixer, m))) + multiset(UnfixableOf(table, fixer, m)) == multiset(table[..m])
  {
    var v := table[m - 1];
    var w := v.(fix := fixer(v));
    assert w.(fix := None) == v;
    assert table[..m] == table[..m - 1] + [v];
    PartitionFixStep(FixableOf(table, fixer, m - 1), UnfixableOf(table, fixer, m - 1), table[..m - 1], v, w);
  }

  /** An unfixable violation goes to the unfixable side. */
  lemma PartitionKeepAt(table: seq<Violation>, fixer: Violation -> Option<string>, m: nat)
    requires 0 < m <= |table| && fixer(table[m - 1]).None?
    requires multiset(Erased(FixableOf(table, fixer, m - 1))) + multiset(UnfixableOf(table, fixer, m - 1)) == multiset(table[..m - 1])
    ensures multiset(Erased(FixableOf(table, fixer, m))) + multiset(UnfixableOf(table, fixer, m)) == multiset(table[..m])
  {
    var v := table[m - 1];
    assert table[..m] == table[..m - 1] + [v];
    PartitionKeepStep(FixableOf(table, fixer, m - 1), UnfixableOf(table, fixer, m - 1), table[..m - 1], v);
  }

  lemma PartitionFixStep(fx: seq<Violation>, ux: seq<Violation>, before: seq<Violation>, v: Violation, w: Violation)
    requires multiset(Erased(fx)) + multiset(ux) == multiset(before)
    requires w.(fix := None) == v
    ensures multiset(Erased(fx + [w])) + multiset(ux) == multiset(before + [v])
  {
    ErasedSnoc(fx, w);
    assert multiset(Erased(fx + [w])) == multiset(Erased(fx)) + multiset{v};
  }

  lemma PartitionKeepStep(fx: seq<Violation>, ux: seq<Violation>, before: seq<Violation>, v: Violation)
    requires multiset(Erased(fx)) + multiset(ux) == multiset(before)
    ensures multiset(Erased(fx)) + multiset(ux + [v]) == multiset(before + [v])
  {
  }

  lemma ErasedSnoc(vs: seq<Violation>, v: Violation)
    ensures Erased(vs + [v]) == Erased(vs) + [v.(fix := None)]
  {
  }

  /** A violation left unfixable is one for which no fix exists. */
  lemma {:induction false} UnfixableHaveNoFix(table: seq<Violation>, fixer: Violation -> Option<string>, m: nat, v: Violation)
    requires m <= |table| && v in UnfixableOf(table, fixer, m)
    ensures fixer(v) == None && v in table[..m]
  {
    if v != table[m - 1] || fixer(table[m - 1]).Some? {
      UnfixableHaveNoFix(table, fixer, m - 1, v);
      assert table[..m - 1] <= table[..m];
    }
  }

  function Erased(vs: seq<Violation>): (r: seq<Violation>)
    ensures |r| == |vs| && forall k :: 0 <= k < |vs| ==> r[k] == vs[k].(fix := None)
  {
    seq(|vs|, k requires 0 <= k < |vs| => vs[k].(fix := None))
  }

  /** What a fix means: the fixable entries are exactly the `lives_in_Wuhan`
      entries the repair policy finds a fix for, and each fix either passes the
      pattern itself (the lower-cased, stripped value) or is the `yes`/`no`
      reading of a legacy `1`/`0`. */
  lemma FixesPassOrTranslate(table: seq<Violation>, p: Patterns, v: Violation)
    requires v in FixableOf(table, Fixer(p), |table|)
    ensures v.column == "lives_in_Wuhan" && v.fix.Some? && v.fix == LivesInWuhanFix(v.value, p.livesInWuhan)
    ensures var fix := v.fix.value;
      || (p.livesInWuhan(fix) && fix == Strip(Lower(v.value)))
      || (v.value == "1" && fix == "yes")
      || (v.value == "0" && fix == "no")
  {
    FixableOfSound(table, Fixer(p), |table|, v);
  }

  // ---------------------------------------------------------------------------
  // duplicate_rows_per_column

  /** A cell of a mixed-type frame: text, or a number that may be NaN (`None`). */
  datatype Cell = Text(text: string) | Number(num: Option<int>)

  /** A row of a mixed-type frame, by column name. */
  type Record = map<string, Cell>

  datatype DupError =
    | CountMissing(row: nat)  // KeyError: the row has no such column
    | CountNotNumeric(row: nat) // TypeError from `math.isnan` on text

  /** The row's count is a number (possibly NaN) that can be examined. */
  predicate CountReadable(r: Record, col: string) {
    col in r && r[col].Number?
  }

  /** The positive number of copies the row asks for, or 0. */
  function Copies(r: Record, col: string): nat
    requires CountReadable(r, col)
  {
    match r[col].num
    case Some(n) => if n > 0 then n else 0
    case None => 0
  }

  /** A row as it stands in a frame that has an `aggr` column: `append`
      aligns columns, so a row without an `aggr` cell gets NaN there. */
  function WithAggr(r: Record): (p: Record)
    ensures "aggr" in p && p["aggr"] == (if "aggr" in r then r["aggr"] else Number(None))
    ensures forall c :: c in r && c != "aggr" ==> c in p && p[c] == r[c]
    ensures p.Keys == r.Keys + {"aggr"}
  {
    if "aggr" in r then r else r["aggr" := Number(None)]
  }

  /** `df.at[i, 'aggr'] = np.nan` on a frame that may lack the column: the
      column is added, NaN in every row that has no such cell. */
  function PadAll(df: seq<Record>): (r: seq<Record>)
    ensures |r| == |df| && forall k :: 0 <= k < |df| ==> r[k] == WithAggr(df[k])
  {
    seq(|df|, k requires 0 <= k < |df| => WithAggr(df[k]))
  }

  /** The copies appended for the first `m` rows, in row order; each copy has
      its count cleared to NaN, and it joins a frame that has an `aggr` column
      by then, since `df.at[i, 'aggr']` runs before each append. */
  function Appended(rows: seq<Record>, col: string, m: nat): seq<Record>
    requires m <= |rows| && forall k :: 0 <= k < m ==> CountReadable(rows[k], col)
  {
    if m == 0 then []
    else Appended(rows, col, m - 1) + Repeat(WithAggr(rows[m - 1][col := Number(None)]), Copies(rows[m - 1], col))
  }

  /** An original row after the loop has seen the rows in question: a row that
      was expanded has its `aggr` cell cleared; once any row was expanded
      (`expanded`), the frame has an `aggr` column, NaN where it was added. */
  function Cleared(r: Record, col: string, expanded: bool): Record
    requires CountReadable(r, col)
  {
    if Copies(r, col) > 0 then r["aggr" := Number(None)]
    else if expanded then WithAggr(r)
    else r
  }

  function SumCopies(rows: seq<Record>, col: string, m: nat): nat
    requires m <= |rows| && forall k :: 0 <= k < m ==> CountReadable(rows[k], col)
  {
    if m == 0 then 0 else SumCopies(rows, col, m - 1) + Copies(rows[m - 1], col)
  }

  /** The frame `duplicate_rows_per_column` returns when every count is
      readable. */
  function Duplicated(rows: seq<Record>, col: string): seq<Record>
    requires forall k :: 0 <= k < |rows| ==> CountReadable(rows[k], col)
  {
    var expanded := SumCopies(rows, col, |rows|) > 0;
    seq(|rows|, k requires 0 <= k < |rows| => Cleared(rows[k], col, expanded)) + Appended(rows, col, |rows|)
  }

  method DuplicateRowsPerColumn(rows: seq<Record>, col: string) returns (r: Result<seq<Record>, DupError>)
    ensures r.Err? <==> exists k :: 0 <= k < |rows| && !CountReadable(rows[k], col)
    ensures r.Err? ==> var k := r.error.row;
      && k < |rows| && !CountReadable(rows[k], col)
      && (forall j :: 0 <= j < k ==> CountReadable(rows[j], col))
      && (r.error.CountMissing? <==> col !in rows[k])
    ensures r.Ok? ==> r.value == Duplicated(rows, col)
  {
    var df := rows;
    var i := 0;
    while i < |rows|
      invariant ExpandedUpTo(rows, col, i, df)
    {
      var row := rows[i];
      if col !in row {
        return Err(CountMissing(i));
      }
      if row[col].Text? {
        return Err(CountNotNumeric(i));
      }
      if row[col].num.None? || row[col].num.value <= 0 {
        ExpandSkip(rows, col, i, df);
        i := i + 1;
        continue;
      }
      var num := row[col].num.value;
      var copy := row[col := Number(None)];
      ExpandCopy(rows, col, i, df);
      df := PadAll(df);
      df := df[i := df[i]["aggr" := Number(None)]];
      df := df + Repeat(WithAggr(copy), num);
      i := i + 1;
    }
    ExpandedAll(rows, col, df);
    r := Ok(df);
  }

  /** The original rows after the loop has seen `i` of them: those are
      cleared, the rest untouched except for the `aggr` column an earlier
      expansion added. */
  function Front(rows: seq<Record>, col: string, i: nat): (f: seq<Record>)
    requires i <= |rows| && forall k :: 0 <= k < i ==> CountReadable(rows[k], col)
    ensures |f| == |rows|
  {
    var expanded := SumCopies(rows, col, i) > 0;
    seq(|rows|, k requires 0 <= k < |rows| =>
      if k < i then Cleared(rows[k], col, expanded) else if expanded then WithAggr(rows[k]) else rows[k])
  }

  /** The loop state of `duplicate_rows_per_column` after `i` rows: those rows
      were readable, and the frame is their `Front` followed by their copies. */
  ghost predicate ExpandedUpTo(rows: seq<Record>, col: string, i: nat, df: seq<Record>) {
    && i <= |rows|
    && (forall k :: 0 <= k < i ==> CountReadable(rows[k], col))
    && df == Front(rows, col, i) + Appended(rows, col, i)
  }

  lemma ExpandSkip(rows: seq<Record>, col: string, i: nat, df: seq<Record>)
    requires ExpandedUpTo(rows, col, i, df) && i < |rows|
    requires CountReadable(rows[i], col) && Copies(rows[i], col) == 0
    ensures ExpandedUpTo(rows, col, i + 1, df)
  {
    assert Appended(rows, col, i + 1) == Appended(rows, col, i) + [];
    assert SumCopies(rows, col, i + 1) == SumCopies(rows, col, i);
    var e := SumCopies(rows, col, i) > 0;
    var f0, f1 := Front(rows, col, i), Front(rows, col, i + 1);
    forall k | 0 <= k < |rows|
      ensures f1[k] == f0[k]
    {
      if k == i {
        assert Cleared(rows[i], col, e) == if e then WithAggr(rows[i]) else rows[i];
      }
    }
    assert f1 == f0;
  }

  lemma ExpandCopy(rows: seq<Record>, col: string, i: nat, df: seq<Record>)
    requires ExpandedUpTo(rows, col, i, df) && i < |rows|
    requires CountReadable(rows[i], col) && Copies(rows[i], col) > 0
    ensures var padded := PadAll(df);
      ExpandedUpTo(rows, col, i + 1,
        padded[i := padded[i]["aggr" := Number(None)]] + Repeat(WithAggr(rows[i][col := Number(None)]), Copies(rows[i], col)))
  {
    var front, app := Front(rows, col, i), Appended(rows, col, i);
    var extra := Repeat(WithAggr(rows[i][col := Number(None)]), Copies(rows[i], col));
    PadAllConcat(front, app);
    AppendedPadded(rows, col, i);
    var pf := PadAll(front);
    PadFront(rows, col, i);
    assert PadAll(df) == pf + app;
    UpdateConcat(pf, app, i, pf[i]["aggr" := Number(None)]);
    assert Appended(rows, col, i + 1) == app + extra;
  }

  lemma UpdateConcat<T>(a: seq<T>, b: seq<T>, i: nat, x: T)
    requires i < |a|
    ensures (a + b)[i] == a[i] && (a + b)[i := x] == a[i := x] + b
  {
  }

  lemma PadAllConcat(a: seq<Record>, b: seq<Record>)
    ensures PadAll(a + b) == PadAll(a) + PadAll(b)
  {
  }

  /** One expansion step on the original rows: with the `aggr` column added
      and row `i`'s `aggr` cleared, the rows are their `Front` after `i + 1`. */
  lemma PadFront(rows: seq<Record>, col: string, i: nat)
    requires i < |rows| && forall k :: 0 <= k <= i ==> CountReadable(rows[k], col)
    requires Copies(rows[i], col) > 0
    ensures var pf := PadAll(Front(rows, col, i));
      pf[i := pf[i]["aggr" := Number(None)]] == Front(rows, col, i + 1)
  {
    var e := SumCopies(rows, col, i) > 0;
    assert SumCopies(rows, col, i + 1) > 0;
    var pf := PadAll(Front(rows, col, i));
    var q := pf[i := pf[i]["aggr" := Number(None)]];
    forall k | 0 <= k < |rows|
      ensures q[k] == Front(rows, col, i + 1)[k]
    {
      if k < i {
        PadCleared(rows[k], col, e);
      } else if k > i {
        assert WithAggr(WithAggr(rows[k])) == WithAggr(rows[k]);
      } else {
        assert WithAggr(WithAggr(rows[k])) == WithAggr(rows[k]);
        assert WithAggr(rows[k])["aggr" := Number(None)] == rows[k]["aggr" := Number(None)];
      }
    }
  }

  /** Adding the `aggr` column to a row the loop has seen gives the row as it
      stands once a row was expanded. */
  lemma PadCleared(r: Record, col: string, expanded: bool)
    requires CountReadable(r, col)
    ensures WithAggr(Cleared(r, col, expanded)) == Cleared(r, col, true)
  {
    assert WithAggr(WithAggr(r)) == WithAggr(r);
  }

  /** The appended copies already have an `aggr` cell, so adding the column
      leaves them as they are. */
  lemma AppendedPadded(rows: seq<Record>, col: string, m: nat)
    requires m <= |rows| && forall k :: 0 <= k < m ==> CountReadable(rows[k], col)
    ensures PadAll(Appended(rows, col, m)) == Appended(rows, col, m)
  {
    var app := Appended(rows, col, m);
    forall j | 0 <= j < |app|
      ensures WithAggr(app[j]) == app[j]
    {
      AppendedHaveAggr(rows, col, m, j);
    }
  }

  /** Every appended copy already has an `aggr` cell. */
  lemma {:induction false} AppendedHaveAggr(rows: seq<Record>, col: string, m: nat, j: nat)
    requires m <= |rows| && forall k :: 0 <= k < m ==> CountReadable(rows[k], col)
    requires j < |Appended(rows, col, m)|
    ensures WithAggr(Appended(rows, col, m)[j]) == Appended(rows, col, m)[j]
  {
    if j < |Appended(rows, col, m - 1)| {
      AppendedHaveAggr(rows, col, m - 1, j);
    }
  }

  lemma ExpandedAll(rows: seq<Record>, col: string, df: seq<Record>)
    requires ExpandedUpTo(rows, col, |rows|, df)
    ensures df == Duplicated(rows, col)
  {
    assert Front(rows, col, |rows|) == Duplicated(rows, col)[..|rows|];
  }

  /** The expanded frame grows by exactly the sum of the positive counts. */
  lemma {:induction false} AppendedLength(rows: seq<Record>, col: string, m: nat)
    requires m <= |rows| && forall k :: 0 <= k < m ==> CountReadable(rows[k], col)
    ensures |Appended(rows, col, m)| == SumCopies(rows, col, m)
  {
    if m > 0 {
      AppendedLength(rows, col, m - 1);
    }
  }

  /** Every appended copy is some original row with its count cleared (and NaN
      in `aggr` if the row had no such cell), and that row asked for at least
      one copy. */
  lemma {:induction false} AppendedAreCopies(rows: seq<Record>, col: string, m: nat, j: nat)
    requires m <= |rows| && forall k :: 0 <= k < m ==> CountReadable(rows[k], col)
    requires j < |Appended(rows, col, m)|
    ensures exists k :: (0 <= k < m && Copies(rows[k], col) > 0 &&
                         Appended(rows, col, m)[j] == WithAggr(rows[k][col := Number(None)]))
  {
    var prev := Appended(rows, col, m - 1);
    if j < |prev| {
      AppendedAreCopies(rows, col, m - 1, j);
    } else {
      assert Appended(rows, col, m)[j] == WithAggr(rows[m - 1][col := Number(None)]);
    }
  }

  /** Once a row is expanded, every row of the result has an `aggr` cell; on a
      frame that had no `aggr` column, that column is NaN throughout. */
  lemma DuplicatedAggrColumn(rows: seq<Record>, col: string)
    requires forall k :: 0 <= k < |rows| ==> CountReadable(rows[k], col)
    requires SumCopies(rows, col, |rows|) > 0
    ensures forall j :: 0 <= j < |Duplicated(rows, col)| ==> "aggr" in Duplicated(rows, col)[j]
    ensures (forall k :: 0 <= k < |rows| ==> "aggr" !in rows[k]) ==>
      forall j :: 0 <= j < |Duplicated(rows, col)| ==> Duplicated(rows, col)[j]["aggr"] == Number(None)
  {
    var d := Duplicated(rows, col);
    forall j | |rows| <= j < |d|
      ensures "aggr" in d[j]
      ensures (forall k :: 0 <= k < |rows| ==> "aggr" !in rows[k]) ==> d[j]["aggr"] == Number(None)
    {
      AppendedAreCopies(rows, col, |rows|, j - |rows|);
      var k :| 0 <= k < |rows| && Copies(rows[k], col) > 0 &&
        Appended(rows, col, |rows|)[j - |rows|] == WithAggr(rows[k][col := Number(None)]);
    }
  }

  /** A frame without an `aggr` column: the one row with count 2 is kept with
      its count and NaN in a new `aggr` column, and its two copies carry NaN in
      both. */
  lemma DuplicateRowsNoAggrCase()
    ensures var nan := Number(None);
      var rows := [map["n" := Number(Some(2))]];
      Duplicated(rows, "n") == [map["n" := Number(Some(2)), "aggr" := nan],
                                map["n" := nan, "aggr" := nan],
                                map["n" := nan, "aggr" := nan]]
  {
    var nan := Number(None);
    var rows := [map["n" := Number(Some(2))]];
    var copy := map["n" := nan, "aggr" := nan];
    assert WithAggr(rows[0]["n" := nan]) == copy;
    assert Appended(rows, "n", 1) == [copy, copy];
    assert SumCopies(rows, "n", 1) == 2;
  }

  /** The test case of sheet_cleaner/test_functions.py: FR/NaN, CH/3, US/NaN
      expand to FR, CH, US, CH, CH, CH with every count NaN. */
  lemma DuplicateRowsTestCase()
    ensures var nan := Number(None);
      var rows := [map["country" := Text("FR"), "aggr" := nan],
                   map["country" := Text("CH"), "aggr" := Number(Some(3))],
                   map["country" := Text("US"), "aggr" := nan]];
      var ch := map["country" := Text("CH"), "aggr" := nan];
      Duplicated(rows, "aggr") == [rows[0], ch, rows[2], ch, ch, ch]
  {
    var nan := Number(None);
    var rows := [map["country" := Text("FR"), "aggr" := nan],
                 map["country" := Text("CH"), "aggr" := Number(Some(3))],
                 map["country" := Text("US"), "aggr" := nan]];
    var ch := map["country" := Text("CH"), "aggr" := nan];
    assert rows[1]["aggr" := nan] == ch;
    assert WithAggr(ch) == ch;
    assert Appended(rows, "aggr", 1) == [];
    assert Appended(rows, "aggr", 2) == [ch, ch, ch];
    assert Appended(rows, "aggr", 3) == [ch, ch, ch];
    assert SumCopies(rows, "aggr", 1) == 0;
    assert SumCopies(rows, "aggr", 2) == 3;
    assert SumCopies(rows, "aggr", 3) == 3;
  }

  // ---------------------------------------------------------------------------
  // trim_df

  /** The frame with every cell stripped. */
  function Trimmed(f: Frame): (g: Frame)
    ensures g.columns == f.columns && |g.rows| == |f.rows|
    ensures forall k :: 0 <= k < |f.rows| ==> |g.rows[k]| == |f.rows[k]|
  {
    Frame(f.columns, seq(|f.rows|, k requires 0 <= k < |f.rows| =>
      seq(|f.rows[k]|, j requires 0 <= j < |f.rows[k]| => Strip(f.rows[k][j]))))
  }

  /** Strips every string column, one column at a time. */
  method TrimDf(f: Frame) returns (g: Frame)
    requires Rectangular(f)
    ensures g == Trimmed(f)
  {
    g := f;
    var c := 0;
    while c < |f.columns|
      invariant 0 <= c <= |f.columns|
      invariant g.columns == f.columns && |g.rows| == |f.rows|
      invariant forall k :: 0 <= k < |f.rows| ==> |g.rows[k]| == |f.columns|
      invariant forall k, j :: 0 <= k < |f.rows| && 0 <= j < |f.columns| ==>
        g.rows[k][j] == if j < c then Strip(f.rows[k][j]) else f.rows[k][j]
    {
      var rows := seq(|g.rows|, k requires 0 <= k < |g.rows| => g.rows[k][c := Strip(g.rows[k][c])]);
      g := g.(rows := rows);
      c := c + 1;
    }
    forall k | 0 <= k < |f.rows| ensures g.rows[k] == Trimmed(f).rows[k] {
      assert |g.rows[k]| == |Trimmed(f).rows[k]|;
    }
  }

  /** Trimming twice is trimming once, and a trimmed frame has no cell with
      whitespace at either end. */
  lemma TrimmedIdempotent(f: Frame)
    ensures Trimmed(Trimmed(f)) == Trimmed(f)
    ensures forall k, j :: 0 <= k < |f.rows| && 0 <= j < |f.rows[k]| ==>
      var s := Trimmed(f).rows[k][j]; s == [] || (!IsSpace(s[0]) && !IsSpace(s[|s| - 1]))
  {
    var g := Trimmed(f);
    forall k, j | 0 <= k < |f.rows| && 0 <= j < |f.rows[k]| ensures Strip(g.rows[k][j]) == g.rows[k][j] {
      StripIdempotent(f.rows[k][j]);
    }
    forall k | 0 <= k < |g.rows| ensures Trimmed(g).rows[k] == g.rows[k] {
      assert |Trimmed(g).rows[k]| == |g.rows[k]|;
    }
  }

  // ---------------------------------------------------------------------------
  // _fix_sex / fix_sex and _fix_na / fix_na

  /** "m"/"f" in any case become "male"/"female"; "male"/"female" in any case
      are lower-cased; everything else is left alone. */
  function FixSex(val: string): string {
    var low := Lower(val);
    if low == "m" then "male"
    else if low == "f" then "female"
    else if low == "female" || low == "male" then low
    else val
  }

  lemma LowerOfCanonical()
    ensures Lower("male") == "male" && Lower("female") == "female"
    ensures Lower("m") == "m" && Lower("f") == "f"
    ensures Upper("NA") == "NA" && Upper("N/A") == "N/A"
  {
  }

  /** FixSex maps a value to "male" exactly when it spells m/male in some case,
      to "female" exactly when it spells f/female, and otherwise leaves it be. */
  lemma FixSexSpec(val: string)
    ensures FixSex(val) == "male" <==> Lower(val) == "m" || Lower(val) == "male"
    ensures FixSex(val) == "female" <==> Lower(val) == "f" || Lower(val) == "female"
    ensures Lower(val) !in {"m", "f", "male", "female"} ==> FixSex(val) == val
  {
    LowerOfCanonical();
  }

  lemma FixSexIdempotent(val: string)
    ensures FixSex(FixSex(val)) == FixSex(val)
  {
    LowerOfCanonical();
  }

  /** "N/A" and "NA" in any case become "NA"; everything else is left alone. */
  function FixNa(val: string): string {
    var up := Upper(val);
    if up == "N/A" then "NA"
    else if up == "NA" then "NA"
    else val
  }

  lemma FixNaSpec(val: string)
    ensures FixNa(val) == "NA" <==> Upper(val) == "N/A" || Upper(val) == "NA"
    ensures Upper(val) != "N/A" && Upper(val) != "NA" ==> FixNa(val) == val
  {
    LowerOfCanonical();
  }

  lemma FixNaIdempotent(val: string)
    ensures FixNa(FixNa(val)) == FixNa(val)
  {
    LowerOfCanonical();
  }

  /** `fix_sex` over a column: each value normalised in place of the original. */
  function FixSexColumn(col: seq<string>): (r: seq<string>)
    ensures |r| == |col| && forall i :: 0 <= i < |col| ==> r[i] == FixSex(col[i])
  {
    seq(|col|, i requires 0 <= i < |col| => FixSex(col[i]))
  }

  /** `fix_na` over a column. */
  function FixNaColumn(col: seq<string>): (r: seq<string>)
    ensures |r| == |col| && forall i :: 0 <= i < |col| ==> r[i] == FixNa(col[i])
  {
    seq(|col|, i requires 0 <= i < |col| => FixNa(col[i]))
  }

  /** Running either column normaliser twice changes nothing more. */
  lemma FixColumnsIdempotent(col: seq<string>)
    ensures FixSexColumn(FixSexColumn(col)) == FixSexColumn(col)
    ensures FixNaColumn(FixNaColumn(col)) == FixNaColumn(col)
  {
    forall i | 0 <= i < |col| ensures FixSex(FixSex(col[i])) == FixSex(col[i]) && FixNa(FixNa(col[i])) == FixNa(col[i]) {
      FixSexIdempotent(col[i]);
      FixNaIdempotent(col[i]);
    }
  }
}
