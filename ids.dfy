/** The ID allocation behind `GoogleSheet.insert_ids`: how an ID cell is read
    as a number, how missing numbers are allocated from the running maximum,
    and how the numbers are written back as ID text. The method that performs
    the allocation on a sheet lives in `Spreadsheet`; this module is its
    specification and the place where its properties are proved. */
module Ids {
  import opened Wrappers
  import opened Text

  /** The counter's value before any ID has been seen. */
  const Sentinel: int := -9999

  // ---------------------------------------------------------------------------
  // Reading ID cells

  /** The number in an ID cell: the piece between the first and the second
      dash when the text has one (`x.split('-')[1]`), the whole text
      otherwise; `None` where `int(...)` raises. */
  function ParseId(x: string): Option<int> {
    if '-' in x then ParseInt(Split(x, '-')[1]) else ParseInt(x)
  }

  /** The ID column below its header read as numbers with `parse` (which is
      `ParseId` on a sheet): an empty cell is a hole (`None`), any other cell
      must parse, and the first one that does not is returned as the error. */
  function ParseCells(xs: seq<string>, parse: string -> Option<int>): (r: Result<seq<Option<int>>, string>)
    ensures r.Ok? ==> |r.value| == |xs|
  {
    if xs == [] then Ok([])
    else
      var last := xs[|xs| - 1];
      match ParseCells(xs[..|xs| - 1], parse)
      case Err(e) => Err(e)
      case Ok(ids) =>
        if last == "" then Ok(ids + [None])
        else if parse(last).None? then Err(last)
        else Ok(ids + [parse(last)])
  }

  /** What a read holds: each blank cell is a hole at its position, every
      other cell its parsed number; a failed read names a non-blank cell that
      does not parse. */
  lemma {:induction false} ParseCellsMeaning(xs: seq<string>, parse: string -> Option<int>)
    ensures var r := ParseCells(xs, parse);
      && (r.Ok? ==> forall k :: 0 <= k < |xs| ==>
            (xs[k] == "" ==> r.value[k] == None) && (xs[k] != "" ==> r.value[k] == parse(xs[k]) && parse(xs[k]).Some?))
      && (r.Err? ==> r.error in xs && r.error != "" && parse(r.error) == None)
  {
    if xs != [] {
      var init := xs[..|xs| - 1];
      ParseCellsMeaning(init, parse);
      var r := ParseCells(xs, parse);
      if r.Ok? {
        var ids := ParseCells(init, parse).value;
        forall k | 0 <= k < |xs|
          ensures (xs[k] == "" ==> r.value[k] == None) && (xs[k] != "" ==> r.value[k] == parse(xs[k]) && parse(xs[k]).Some?)
        {
          if k < |xs| - 1 { assert r.value[k] == ids[k] && xs[k] == init[k]; }
        }
      } else if ParseCells(init, parse).Err? {
        assert r.error in init;
      }
    }
  }

  /** Once some cell fails to parse, the whole column fails. */
  lemma ParseCellsStaysErr(xs: seq<string>, parse: string -> Option<int>, i: nat)
    requires i <= |xs| && ParseCells(xs[..i], parse).Err?
    ensures ParseCells(xs, parse).Err?
  {
    var x := ParseCells(xs[..i], parse).error;
    ParseCellsMeaning(xs[..i], parse);
    ParseCellsMeaning(xs, parse);
    var k :| 0 <= k < i && xs[..i][k] == x;
    assert xs[k] == x;
  }

  /** One more cell read after a successful prefix. */
  lemma ParseCellsStep(xs: seq<string>, parse: string -> Option<int>, i: nat, ids: seq<Option<int>>)
    requires i < |xs| && ParseCells(xs[..i], parse) == Ok(ids)
    ensures ParseCells(xs[..i + 1], parse) ==
      if xs[i] == "" then Ok(ids + [None])
      else if parse(xs[i]).None? then Err(xs[i])
      else Ok(ids + [parse(xs[i])])
  {
    assert xs[..i + 1][..i] == xs[..i];
  }

  // ---------------------------------------------------------------------------
  // Allocation

  /** The largest present number, or the sentinel when it is larger. */
  function MaxFrom(ids: seq<Option<int>>): (m: int)
    ensures m >= Sentinel
    ensures forall k :: 0 <= k < |ids| && ids[k].Some? ==> ids[k].value <= m
    ensures m == Sentinel || exists k :: 0 <= k < |ids| && ids[k] == Some(m)
  {
    if ids == [] then Sentinel
    else
      var m := MaxFrom(ids[..|ids| - 1]);
      match ids[|ids| - 1]
      case Some(n) => if n > m then n else m
      case None => m
  }

  /** The running maximum after one more entry. */
  lemma MaxFromSnoc(ids: seq<Option<int>>, x: Option<int>)
    ensures MaxFrom(ids + [x]) == if x.Some? && x.value > MaxFrom(ids) then x.value else MaxFrom(ids)
  {
    assert (ids + [x])[..|ids|] == ids;
  }

  /** The number of holes in `ids`. */
  function Holes(ids: seq<Option<int>>): (h: nat)
    ensures h <= |ids|
  {
    if ids == [] then 0
    else Holes(ids[..|ids| - 1]) + (if ids[|ids| - 1].None? then 1 else 0)
  }

  /** Holes filled left to right with `m + 1`, `m + 2`, ...; present numbers
      stay where they are. */
  function FillHoles(ids: seq<Option<int>>, m: int): (r: seq<int>)
    ensures |r| == |ids|
  {
    seq(|ids|, i requires 0 <= i < |ids| => if ids[i].Some? then ids[i].value else m + Holes(ids[..i]) + 1)
  }

  /** `diff` further numbers after `from` (none when `diff` is not positive). */
  function Extra(from: int, diff: int): (r: seq<int>)
    ensures |r| == if diff > 0 then diff else 0
  {
    seq(if diff > 0 then diff else 0, k => from + k + 1)
  }

  /** The full list of numbers: holes filled, then `diff` new ones, all from
      one counter that starts at the largest present number. */
  function Allocate(ids: seq<Option<int>>, diff: int): seq<int> {
    var m := MaxFrom(ids);
    FillHoles(ids, m) + Extra(m + Holes(ids), diff)
  }

  lemma AllocateParts(ids: seq<Option<int>>, diff: int)
    ensures Allocate(ids, diff) == FillHoles(ids, MaxFrom(ids)) + Extra(MaxFrom(ids) + Holes(ids), diff)
  {
  }

  /** Whether position `i` of the allocated list is a newly assigned number. */
  predicate IsNew(ids: seq<Option<int>>, i: nat) {
    i >= |ids| || ids[i].None?
  }

  // ---------------------------------------------------------------------------
  // Writing IDs

  /** The two sheets whose IDs are bare numbers. */
  predicate Legacy(name: string) {
    name == "Hubei" || name == "outside_Hubei"
  }

  /** The ID text for number `n`: `str(n)` on the legacy sheets,
      `{base}-{n}` elsewhere. */
  function Format(name: string, baseId: string, n: int): string {
    if Legacy(name) then IntToString(n) else baseId + "-" + IntToString(n)
  }

  /** The values written to the ID column from row 2 on: every allocated
      number formatted, without the last one. */
  function NewValues(name: string, baseId: string, nums: seq<int>): (r: seq<string>)
    ensures |r| == if nums == [] then 0 else |nums| - 1
    ensures forall k :: 0 <= k < |r| ==> r[k] == Format(name, baseId, nums[k])
  {
    var all := seq(|nums|, k requires 0 <= k < |nums| => Format(name, baseId, nums[k]));
    if all == [] then [] else all[..|all| - 1]
  }

  // ---------------------------------------------------------------------------
  // Properties of the allocation

  lemma {:induction false} HolesSnoc(ids: seq<Option<int>>, i: nat)
    requires i < |ids|
    ensures Holes(ids[..i + 1]) == Holes(ids[..i]) + (if ids[i].None? then 1 else 0)
  {
    assert ids[..i + 1][..i] == ids[..i];
  }

  lemma {:induction false} HolesMonotone(ids: seq<Option<int>>, i: nat, j: nat)
    requires i <= j <= |ids|
    ensures Holes(ids[..i]) <= Holes(ids[..j])
    decreases j - i
  {
    if i < j {
      HolesMonotone(ids, i, j - 1);
      HolesSnoc(ids, j - 1);
    }
  }

  /** A hole before position `j` makes the count up to `j` larger. */
  lemma HolesStrict(ids: seq<Option<int>>, i: nat, j: nat)
    requires i < j <= |ids| && ids[i].None?
    ensures Holes(ids[..i]) < Holes(ids[..j])
  {
    HolesSnoc(ids, i);
    HolesMonotone(ids, i + 1, j);
  }

  lemma HolesAll(ids: seq<Option<int>>)
    ensures Holes(ids[..|ids|]) == Holes(ids)
  {
    assert ids[..|ids|] == ids;
  }

  /** Present numbers keep their positions, and the list grows by exactly the
      positive part of `diff`. */
  lemma AllocateKeeps(ids: seq<Option<int>>, diff: int)
    ensures |Allocate(ids, diff)| == |ids| + (if diff > 0 then diff else 0)
    ensures forall i :: 0 <= i < |ids| && ids[i].Some? ==> Allocate(ids, diff)[i] == ids[i].value
  {
  }

  /** Every newly assigned number is larger than every present number. */
  lemma {:induction false} AllocateNewAbove(ids: seq<Option<int>>, diff: int, i: nat, k: nat)
    requires i < |Allocate(ids, diff)| && IsNew(ids, i)
    requires k < |ids| && ids[k].Some?
    ensures Allocate(ids, diff)[i] > ids[k].value
  {
    var m := MaxFrom(ids);
    if i < |ids| {
      assert Allocate(ids, diff)[i] == m + Holes(ids[..i]) + 1;
    } else {
      assert Allocate(ids, diff)[i] == m + Holes(ids) + (i - |ids|) + 1;
    }
  }

  /** Newly assigned numbers increase strictly from left to right, so no two
      are equal. */
  lemma {:induction false} AllocateNewIncreasing(ids: seq<Option<int>>, diff: int, i: nat, j: nat)
    requires i < j < |Allocate(ids, diff)| && IsNew(ids, i) && IsNew(ids, j)
    ensures Allocate(ids, diff)[i] < Allocate(ids, diff)[j]
  {
    var m := MaxFrom(ids);
    var r := Allocate(ids, diff);
    if i >= |ids| {
      assert r[i] == m + Holes(ids) + (i - |ids|) + 1;
      assert r[j] == m + Holes(ids) + (j - |ids|) + 1;
    } else if j < |ids| {
      assert r[i] == m + Holes(ids[..i]) + 1;
      assert r[j] == m + Holes(ids[..j]) + 1;
      HolesStrict(ids, i, j);
    } else {
      assert r[i] == m + Holes(ids[..i]) + 1;
      assert r[j] == m + Holes(ids) + (j - |ids|) + 1;
      HolesStrict(ids, i, |ids|);
      HolesAll(ids);
    }
  }

  /** With no number present the counter starts at the sentinel, so the first
      number handed out is -9998. */
  lemma FirstFromSentinel(ids: seq<Option<int>>, diff: int)
    requires forall k :: 0 <= k < |ids| ==> ids[k].None?
    requires |Allocate(ids, diff)| > 0
    ensures Allocate(ids, diff)[0] == -9998
  {
    assert MaxFrom(ids) == Sentinel;
    if |ids| == 0 {
      assert Holes(ids) == 0;
    } else {
      assert ids[..0] == [];
    }
  }

  /** Holes are filled in order from the current maximum. */
  lemma AllocateExample()
    ensures Allocate([None, Some(5), None, Some(3)], 0) == [6, 5, 7, 3]
  {
    var ids := [None, Some(5), None, Some(3)];
    assert ids[..0] == [];
    assert ids[..1] == [None];
    assert ids[..2] == [None, Some(5)];
    assert ids[..3] == [None, Some(5), None];
    assert ids[..2][..1] == [None];
    assert ids[..3][..2] == ids[..2];
    assert ids[..|ids| - 1] == ids[..3];
    var none: seq<Option<int>> := [];
    assert Holes(ids[..1]) == 1 by { assert ids[..1][..0] == none; }
    assert Holes(ids[..2]) == 1;
    assert MaxFrom(ids[..1]) == Sentinel by { assert ids[..1][..0] == none; }
    assert MaxFrom(ids[..2]) == 5;
    assert MaxFrom(ids[..3]) == 5;
    assert MaxFrom(ids) == 5;
    var r := Allocate(ids, 0);
    assert Extra(5 + Holes(ids), 0) == [];
    assert r == FillHoles(ids, 5);
    assert r[0] == 6 && r[1] == 5 && r[2] == 7 && r[3] == 3;
  }

  // ---------------------------------------------------------------------------
  // Properties of the ID text

  /** A non-negative number written as an ID reads back as itself, provided
      the base ID has no dash. */
  lemma ParseIdFormat(name: string, baseId: string, n: nat)
    requires '-' !in baseId
    ensures ParseId(Format(name, baseId, n)) == Some(n)
  {
    var digits := IntToString(n);
    ParseIntToString(n);
    assert '-' !in digits;
    if !Legacy(name) {
      assert Format(name, baseId, n) == baseId + ['-'] + digits;
      SplitPrefix(baseId, '-', digits);
    }
  }

  lemma Print9998()
    ensures IntToString(-9998) == "-9998"
  {
    assert NatToString(9) == "9";
    assert NatToString(99) == "99";
    assert NatToString(999) == "999";
    assert NatToString(9998) == "9998";
  }

  lemma SecondPieceEmpty(a: string, b: string)
    requires '-' !in a && '-' !in b
    ensures Split(a + "--" + b, '-') == [a, [], b]
  {
    var s := a + "--" + b;
    var t := "-" + b;
    var e: string := [];
    assert s == a + ['-'] + t;
    assert t == e + ['-'] + b;
    SplitPrefix(a, '-', t);
    SplitPrefix(e, '-', b);
    assert Split(b, '-') == [b];
    assert Split(t, '-') == [e, b];
  }

  /** The sentinel can leak into the sheet: on a non-legacy sheet whose ID
      column holds no number, the first value written (row 2) is
      `{base}--9998`, which `ParseId` cannot read (`int('')` raises). */
  lemma SentinelIdUnreadable(name: string, baseId: string, ids: seq<Option<int>>, diff: int)
    requires !Legacy(name) && '-' !in baseId
    requires forall k :: 0 <= k < |ids| ==> ids[k].None?
    requires |Allocate(ids, diff)| >= 2
    ensures var written := NewValues(name, baseId, Allocate(ids, diff));
      |written| >= 1 && written[0] == baseId + "--9998" && ParseId(written[0]) == None
  {
    FirstFromSentinel(ids, diff);
    SentinelIdText(name, baseId);
    SentinelIdSplit(baseId);
  }

  lemma SentinelIdText(name: string, baseId: string)
    requires !Legacy(name)
    ensures Format(name, baseId, Sentinel + 1) == baseId + "--9998"
  {
    Print9998();
  }

  lemma SentinelIdSplit(baseId: string)
    requires '-' !in baseId
    ensures ParseId(baseId + "--9998") == None
  {
    assert '-' !in "9998";
    SecondPieceEmpty(baseId, "9998");
    var x := baseId + "--9998";
    assert x == baseId + "--" + "9998";
    assert x[|baseId|] == '-';
    assert Split(x, '-')[1] == [];
    assert Strip([]) == [];
  }

  /** Once such a value is in the ID column, the next numbering run fails on
      it. */
  lemma SentinelIdBlocksNextRun(baseId: string, texts: seq<string>)
    requires '-' !in baseId && baseId + "--9998" in texts
    ensures ParseCells(texts, ParseId).Err?
  {
    SentinelIdSplit(baseId);
    ParseCellsMeaning(texts, ParseId);
  }

  /** A bare negative number loses its sign when read back: only the text
      after the dash is parsed. */
  lemma NegativeLegacyIdLosesSign()
    ensures ParseId("-5") == Some(5)
  {
    assert "-5" == [] + ['-'] + "5";
    SplitPrefix([], '-', "5");
    assert Split("5", '-') == ["5"];
    assert Strip("5") == "5" by { StripOfTrimmed("5"); }
    assert DigitsValue("5") == 5 by { assert "5"[..0] == []; }
  }
}
