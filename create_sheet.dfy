/** The numbering step of sheet_cleaner/create_sheet.py: after a new sheet has
    been copied from the template, the configuration gets a section for it,
    named `SHEET<n>` one past the highest numbered section and holding an ID one
    past the highest ID, and the reference sheet gets a row describing it. The
    Drive copy and the file write are not modelled; the configuration is an
    object, the reference sheet a table of cells. */
module CreateSheet {
  import opened Wrappers
  import opened Text
  import Spreadsheet

  datatype CreateError =
    | NoSheetSections             // `max([])`
    | BareSheetSection(section: string)  // `int('')` on a section named `SHEET`
    | MissingId(section: string)  // `config[s]['ID']` has no such key
    | BadId(section: string)      // `int(...)` of an ID that is not a number
    | DuplicateSection(section: string)  // `add_section` of an existing name
    | BadInterpolation(value: string)    // `ValueError: invalid interpolation syntax`

  /** The name and ID picked for the new sheet. */
  datatype Next = Next(section: string, id: string)

  /** `re.match(r'^SHEET\d*$', s)`. */
  predicate IsSheetSection(s: string) {
    |s| >= 5 && s[..5] == "SHEET" && AllDigits(s[5..])
  }

  /** The sections that take part in the numbering: `SHEET0` and `SHEET1` do not. */
  predicate IsCandidate(s: string) {
    s != "SHEET0" && s != "SHEET1" && IsSheetSection(s)
  }

  /** The candidate sections, in configuration order. */
  function Candidates(sections: seq<string>): (r: seq<string>)
    ensures forall s :: s in r <==> s in sections && IsCandidate(s)
    ensures forall k :: 0 <= k < |r| ==> IsCandidate(r[k])
  {
    if sections == [] then []
    else
      var last := sections[|sections| - 1];
      Candidates(sections[..|sections| - 1]) + (if IsCandidate(last) then [last] else [])
  }

  /** The loop collecting `sheet_sections`. */
  method SheetSections(sections: seq<string>) returns (r: seq<string>)
    ensures r == Candidates(sections)
  {
    r := [];
    for i := 0 to |sections|
      invariant r == Candidates(sections[..i])
    {
      assert sections[..i + 1][..i] == sections[..i];
      if IsCandidate(sections[i]) {
        r := r + [sections[i]];
      }
    }
    assert sections[..|sections|] == sections;
  }

  /** The number after `SHEET`; none for the bare name. */
  function Suffix(s: string): (r: Option<nat>)
    ensures IsSheetSection(s) ==> (r.None? <==> s == "SHEET")
  {
    if |s| >= 5 then ParseNat(s[5..]) else None
  }

  /** The suffixes of all candidates, or the first bare `SHEET`. */
  function Suffixes(cands: seq<string>): (r: Result<seq<nat>, CreateError>)
    ensures r.Ok? ==> |r.value| == |cands| && forall k :: 0 <= k < |cands| ==> Suffix(cands[k]) == Some(r.value[k])
    ensures r.Err? <==> exists k :: 0 <= k < |cands| && Suffix(cands[k]).None?
    ensures r.Err? ==> exists k :: 0 <= k < |cands| && Suffix(cands[k]).None? && r.error == BareSheetSection(cands[k])
  {
    if cands == [] then Ok([])
    else
      var n := |cands| - 1;
      assert forall k :: 0 <= k < n ==> cands[..n][k] == cands[k];
      match Suffixes(cands[..n])
      case Err(e) => Err(e)
      case Ok(nums) =>
        match Suffix(cands[n])
        case None => Err(BareSheetSection(cands[n]))
        case Some(x) =>
          assert forall k :: 0 <= k < n ==> Suffix(cands[k]) == Some((nums + [x])[k]);
          Ok(nums + [x])
  }

  /** The ID of a section as `int(config[s]['ID'])` reads it. */
  function IdOf(entries: map<string, map<string, string>>, s: string): (r: Result<int, CreateError>)
    ensures r.Ok? ==> s in entries && "ID" in entries[s]
    ensures r.Err? ==> r.error == (if s in entries && "ID" in entries[s] then BadId(s) else MissingId(s))
  {
    if s !in entries || "ID" !in entries[s] then Err(MissingId(s))
    else match ParseInt(entries[s]["ID"])
      case None => Err(BadId(s))
      case Some(v) => Ok(v)
  }

  /** The IDs of all candidates, or the error of the first that has none. */
  function IdNumbers(cands: seq<string>, entries: map<string, map<string, string>>): (r: Result<seq<int>, CreateError>)
    ensures r.Ok? ==> |r.value| == |cands| && forall k :: 0 <= k < |cands| ==> IdOf(entries, cands[k]) == Ok(r.value[k])
    ensures r.Err? ==> (r.error.MissingId? || r.error.BadId?) && r.error.section in cands
  {
    if cands == [] then Ok([])
    else
      var n := |cands| - 1;
      assert forall k :: 0 <= k < n ==> cands[..n][k] == cands[k];
      match IdNumbers(cands[..n], entries)
      case Err(e) => Err(e)
      case Ok(ids) =>
        match IdOf(entries, cands[n])
        case Err(e) => Err(e)
        case Ok(v) =>
          assert forall k :: 0 <= k < n ==> IdOf(entries, cands[k]) == Ok((ids + [v])[k]);
          Ok(ids + [v])
  }

  /** `max(xs)` of a non-empty list: no element exceeds it (MaxOfAttained
      shows it is one of them). */
  function MaxOf(xs: seq<int>): (m: int)
    requires xs != []
    ensures forall k :: 0 <= k < |xs| ==> xs[k] <= m
  {
    if |xs| == 1 then xs[0]
    else
      var rest := MaxOf(xs[1..]);
      assert forall k :: 1 <= k < |xs| ==> xs[k] == xs[1..][k - 1];
      if xs[0] >= rest then xs[0] else rest
  }

  lemma {:induction false} MaxOfAttained(xs: seq<int>) returns (j: nat)
    requires xs != []
    ensures j < |xs| && xs[j] == MaxOf(xs)
  {
    if |xs| == 1 || xs[0] >= MaxOf(xs[1..]) {
      j := 0;
    } else {
      var i := MaxOfAttained(xs[1..]);
      j := i + 1;
    }
  }

  /** The two numbers `main` computes: one past the largest suffix and one
      past the largest ID. */
  datatype Plan = Plan(sheetNumber: nat, idNumber: int)

  /** `max_num + 1` and `max_id + 1`: the suffixes are read first (an empty
      list fails there), then the IDs. */
  function PlanFrom(cands: seq<string>, entries: map<string, map<string, string>>): (r: Result<Plan, CreateError>)
  {
    match Suffixes(cands)
    case Err(e) => Err(e)
    case Ok(nums) =>
      if nums == [] then Err(NoSheetSections)
      else match IdNumbers(cands, entries)
        case Err(e) => Err(e)
        case Ok(ids) => Ok(Plan(MaxOf(nums) + 1, MaxOf(ids) + 1))
  }

  /** The new section name and its zero-padded ID. */
  function NextFrom(cands: seq<string>, entries: map<string, map<string, string>>): (r: Result<Next, CreateError>)
  {
    match PlanFrom(cands, entries)
    case Err(e) => Err(e)
    case Ok(plan) => Ok(Next(SectionName(plan.sheetNumber), IdText(plan.idNumber)))
  }

  /** `'SHEET' + str(n)`. */
  function SectionName(n: nat): string {
    "SHEET" + NatToString(n)
  }

  /** `str(i).zfill(3)`. */
  function IdText(i: int): string {
    ZFill(IntToString(i), 3)
  }

  /** What a successful plan is made of. */
  lemma {:induction false} PlanParts(cands: seq<string>, entries: map<string, map<string, string>>)
    requires PlanFrom(cands, entries).Ok?
    ensures Suffixes(cands).Ok? && Suffixes(cands).value != []
    ensures IdNumbers(cands, entries).Ok? && IdNumbers(cands, entries).value != []
    ensures PlanFrom(cands, entries).value ==
      Plan(MaxOf(Suffixes(cands).value) + 1, MaxOf(IdNumbers(cands, entries).value) + 1)
  {
    match Suffixes(cands)
    case Ok(nums) =>
      match IdNumbers(cands, entries)
      case Ok(ids) =>
        assert nums != [] && |ids| == |nums|;
  }

  /** The error cases: no candidates, a bare `SHEET`, or a candidate without
      a numeric ID. */
  lemma {:induction false} NextFromFails(cands: seq<string>, entries: map<string, map<string, string>>)
    requires forall k :: 0 <= k < |cands| ==> IsCandidate(cands[k])
    ensures cands == [] ==> NextFrom(cands, entries) == Err(NoSheetSections)
    ensures "SHEET" in cands ==> NextFrom(cands, entries) == Err(BareSheetSection("SHEET"))
    ensures NextFrom(cands, entries).Err? && cands != [] && "SHEET" !in cands ==>
      var e := NextFrom(cands, entries).error;
      (e.MissingId? || e.BadId?) && e.section in cands
  {
  }

  /** The new section is numbered past every candidate, so it is none of them. */
  lemma {:induction false} NextSectionIsNew(cands: seq<string>, entries: map<string, map<string, string>>)
    requires NextFrom(cands, entries).Ok?
    ensures var next := NextFrom(cands, entries).value;
      && IsSheetSection(next.section)
      && (forall k :: 0 <= k < |cands| ==> Suffix(cands[k]).value < Suffix(next.section).value)
      && next.section !in cands
  {
    PlanParts(cands, entries);
    var nums := Suffixes(cands).value;
    var n := PlanFrom(cands, entries).value.sheetNumber;
    SheetName(n);
    forall k | 0 <= k < |cands|
      ensures Suffix(cands[k]).value < n
    {
      assert nums[k] <= MaxOf(nums);
    }
  }

  /** `"SHEET" + str(n)` is a numbered section with suffix `n`. */
  lemma {:induction false} SheetName(n: nat)
    ensures IsSheetSection(SectionName(n))
    ensures Suffix(SectionName(n)) == Some(n)
    ensures n >= 1 ==> SectionName(n) != "SHEET0"
  {
    var section := SectionName(n);
    assert section[..5] == "SHEET" && section[5..] == NatToString(n);
    ParseNatToString(n);
    if n >= 1 {
      assert section[5] == NatToString(n)[0];
    }
  }

  /** The only existing section the new name can hit is `SHEET1`, which is
      left out of the candidates. */
  lemma {:induction false} NextSectionClash(sections: seq<string>, entries: map<string, map<string, string>>)
    requires NextFrom(Candidates(sections), entries).Ok?
    ensures var section := NextFrom(Candidates(sections), entries).value.section;
      section in sections ==> section == "SHEET1"
  {
    var cands := Candidates(sections);
    NextSectionIsNew(cands, entries);
    var n := PlanFrom(cands, entries).value.sheetNumber;
    SheetName(n);
  }

  /** When every candidate is numbered 0 (`SHEET00`, say), the next name is
      `SHEET1`, the section the candidates leave out: if it exists, the new
      section clashes with it. */
  lemma {:induction false} ZeroSuffixesGiveSheet1(cands: seq<string>, entries: map<string, map<string, string>>)
    requires NextFrom(cands, entries).Ok?
    requires forall k :: 0 <= k < |cands| ==> Suffix(cands[k]) == Some(0)
    ensures NextFrom(cands, entries).value.section == "SHEET1"
  {
    assert PlanFrom(cands, entries).value.sheetNumber == 1 by {
      PlanParts(cands, entries);
      var nums := Suffixes(cands).value;
      var j := MaxOfAttained(nums);
      assert Suffix(cands[j]) == Some(nums[j]);
    }
    SheetOne();
  }

  lemma SheetOne()
    ensures SectionName(1) == "SHEET1"
  {
    assert NatToString(1) == "1";
  }

  /** The new ID is at least three characters and reads back as one more than
      every candidate's ID, and exactly one more than the largest. */
  lemma {:induction false} NextIdValue(cands: seq<string>, entries: map<string, map<string, string>>)
    requires NextFrom(cands, entries).Ok?
    ensures var id := NextFrom(cands, entries).value.id;
      && |id| >= 3
      && ParseInt(id).Some?
      && (forall k :: 0 <= k < |cands| ==> IdOf(entries, cands[k]).value < ParseInt(id).value)
      && (exists k :: 0 <= k < |cands| && IdOf(entries, cands[k]).value + 1 == ParseInt(id).value)
  {
    PlanParts(cands, entries);
    var ids := IdNumbers(cands, entries).value;
    var v := PlanFrom(cands, entries).value.idNumber;
    ZFillKeepsValue(v, 3);
    assert ParseInt(NextFrom(cands, entries).value.id) == Some(v);
    var j := MaxOfAttained(ids);
    assert IdOf(entries, cands[j]) == Ok(ids[j]);
    forall k | 0 <= k < |cands|
      ensures IdOf(entries, cands[k]).value < v
    {
      assert IdOf(entries, cands[k]) == Ok(ids[k]);
    }
  }

  // ---------------------------------------------------------------------------
  // Interpolation syntax

  /* A `ConfigParser` checks every value it stores (configparser's
     `BasicInterpolation.before_set`): it removes the escaped `%%` pairs, then
     every `%(name)s` reference, and refuses the value when a `%` is left. */

  /** `value.replace('%%', '')`: the escaped percent signs, removed left to
      right. */
  function DropEscapes(s: string): string
    decreases |s|
  {
    if s == [] then []
    else if |s| >= 2 && s[0] == '%' && s[1] == '%' then DropEscapes(s[2..])
    else [s[0]] + DropEscapes(s[1..])
  }

  /** The length of a `%(name)s` reference at the start of `s`, with `name`
      non-empty and free of `)`; 0 when `s` does not start with one. */
  function KeyLength(s: string): (n: nat)
    ensures n == 0 || (5 <= n <= |s| && s[0] == '%' && s[1] == '(' && s[n - 2] == ')' && s[n - 1] == 's')
  {
    if |s| >= 2 && s[0] == '%' && s[1] == '(' && ')' in s[2..] then
      var j := 2 + IndexOf(s[2..], ')');
      if j > 2 && j + 1 < |s| && s[j + 1] == 's' then j + 2 else 0
    else 0
  }

  /** `re.sub(r"%\(([^)]+)\)s", '', s)`: every reference removed, scanning
      left to right. */
  function DropKeys(s: string): string
    decreases |s|
  {
    if s == [] then []
    else if KeyLength(s) > 0 then DropKeys(s[KeyLength(s)..])
    else [s[0]] + DropKeys(s[1..])
  }

  /** The value is stored; otherwise the assignment raises `ValueError`. */
  predicate InterpolationOk(value: string) {
    '%' !in DropKeys(DropEscapes(value))
  }

  /** Text in front without a `%` passes both removals unchanged. */
  lemma PlainPrefix(a: string, t: string)
    requires '%' !in a
    ensures DropEscapes(a + t) == a + DropEscapes(t)
    ensures DropKeys(a + t) == a + DropKeys(t)
  {
    PlainPrefixEscapes(a, t);
    PlainPrefixKeys(a, t);
  }

  lemma {:induction false} PlainPrefixEscapes(a: string, t: string)
    requires '%' !in a
    ensures DropEscapes(a + t) == a + DropEscapes(t)
  {
    if a == [] {
      assert a + t == t;
    } else {
      var c, rest := a[0], a[1..];
      assert a == [c] + rest;
      assert a + t == [c] + (rest + t);
      PlainPrefixEscapes(rest, t);
      PlainCons(c, rest + t);
    }
  }

  lemma {:induction false} PlainPrefixKeys(a: string, t: string)
    requires '%' !in a
    ensures DropKeys(a + t) == a + DropKeys(t)
  {
    if a == [] {
      assert a + t == t;
    } else {
      var c, rest := a[0], a[1..];
      assert a == [c] + rest;
      assert a + t == [c] + (rest + t);
      PlainPrefixKeys(rest, t);
      PlainCons(c, rest + t);
    }
  }

  lemma PlainCons(c: char, u: string)
    requires c != '%'
    ensures DropEscapes([c] + u) == [c] + DropEscapes(u)
    ensures DropKeys([c] + u) == [c] + DropKeys(u)
  {
    assert ([c] + u)[1..] == u;
    assert KeyLength([c] + u) == 0;
  }

  /** A value without `%` is always accepted. */
  lemma PlainAccepted(v: string)
    requires '%' !in v
    ensures InterpolationOk(v)
  {
    PlainPrefix(v, []);
    assert v + [] == v;
  }

  /** A `%` that neither starts an escape nor a reference is refused, as in
      `a%b` when `a` and `b` hold no `%` and `b` does not start with `(`. */
  lemma LonePercentRefused(a: string, b: string)
    requires '%' !in a && '%' !in b && (b == [] || b[0] != '(')
    ensures !InterpolationOk(a + "%" + b)
  {
    var t := "%" + b;
    assert a + "%" + b == a + t;
    PlainPrefix(a, t);
    PlainPrefix(b, []);
    assert b + [] == b;
    assert t[1..] == b;
    assert KeyLength(t) == 0;
    assert DropEscapes(t) == t;
    assert DropKeys(t) == t;
    assert DropKeys(DropEscapes(a + t)) == a + t;
    assert (a + t)[|a|] == '%';
  }

  /** A sheet name such as `50% sample` cannot be stored. */
  lemma PercentNameRefused()
    ensures !InterpolationOk("50% sample")
  {
    assert "50% sample" == "50" + "%" + " sample";
    assert '%' !in "50" && '%' !in " sample";
    LonePercentRefused("50", " sample");
  }

  /** Every `%` doubled, the escape a caller needs for a literal `%`. */
  function Escape(v: string): (e: string)
  {
    if v == [] then [] else (if v[0] == '%' then "%%" else [v[0]]) + Escape(v[1..])
  }

  /** An escaped value is always accepted. */
  lemma EscapedAccepted(v: string)
    ensures InterpolationOk(Escape(v))
  {
    EscapesDropped(v);
    PlainAccepted(DropEscapes(Escape(v)));
    PlainPrefix(DropEscapes(Escape(v)), []);
    assert DropEscapes(Escape(v)) + [] == DropEscapes(Escape(v));
  }

  lemma {:induction false} EscapesDropped(v: string)
    ensures '%' !in DropEscapes(Escape(v))
  {
    if v != [] {
      EscapesDropped(v[1..]);
      var rest := Escape(v[1..]);
      if v[0] == '%' {
        assert ("%%" + rest)[2..] == rest;
      } else {
        assert ([v[0]] + rest)[1..] == rest;
      }
    }
  }

  /** The new ID, digits with at most a sign, is always accepted. */
  lemma IdTextAccepted(i: int)
    ensures InterpolationOk(IdText(i))
  {
    var s := IntToString(i);
    assert forall k :: 0 <= k < |s| ==> IsDigit(s[k]) || s[k] == '-' by {
      if i < 0 {
        forall k | 0 <= k < |s| ensures IsDigit(s[k]) || s[k] == '-' {
          if k > 0 { assert s[k] == s[1..][k - 1]; }
        }
      }
    }
    assert '%' !in s;
    var z := ZFill(s, 3);
    if |s| < 3 {
      var zeros := Repeat('0', 3 - |s|);
      assert '%' !in zeros;
      if s[0] == '+' || s[0] == '-' {
        assert z == [s[0]] + zeros + s[1..];
        assert '%' !in s[1..];
      } else {
        assert z == zeros + s;
      }
    }
    PlainAccepted(z);
  }

  // ---------------------------------------------------------------------------
  // The configuration

  /** `order` holds each name of `names` exactly once, and nothing else. */
  ghost predicate ListsOnce(order: seq<string>, names: set<string>) {
    && (forall s :: s in names <==> s in order)
    && (forall i, j :: 0 <= i < j < |order| ==> order[i] != order[j])
  }

  /** A `ConfigParser`: section names in order and their key-value pairs. */
  class Config {
    var sections: seq<string>
    var entries: map<string, map<string, string>>

    /** The order lists every section once. */
    ghost predicate Valid()
      reads this
    {
      ListsOnce(sections, entries.Keys)
    }

    constructor Init()
      ensures Valid() && sections == [] && entries == map[]
    {
      sections := [];
      entries := map[];
    }

    /** `add_section`: a new, empty section at the end; an existing name is
        an error and changes nothing. */
    method AddSection(name: string) returns (err: Option<CreateError>)
      requires Valid()
      modifies this`sections, this`entries
      ensures Valid()
      ensures name in old(entries) ==> err == Some(DuplicateSection(name)) && unchanged(this)
      ensures name !in old(entries) ==>
        err == None && sections == old(sections) + [name] && entries == old(entries)[name := map[]]
    {
      if name in entries {
        return Some(DuplicateSection(name));
      }
      sections := sections + [name];
      entries := entries[name := map[]];
      return None;
    }

    /** `config[section][key] = value`: a value the interpolation check
        refuses raises and changes nothing. */
    method Set(section: string, key: string, value: string) returns (err: Option<CreateError>)
      requires section in entries
      modifies this`entries
      ensures !InterpolationOk(value) ==> err == Some(BadInterpolation(value)) && entries == old(entries)
      ensures InterpolationOk(value) ==>
        err == None && entries == old(entries)[section := old(entries)[section][key := value]]
      ensures entries.Keys == old(entries).Keys
    {
      if !InterpolationOk(value) {
        return Some(BadInterpolation(value));
      }
      entries := entries[section := entries[section][key := value]];
      return None;
    }
  }

  /** The first of the three values the interpolation check refuses. */
  function FillError(name: string, sid: string, id: string): Option<CreateError> {
    if !InterpolationOk(name) then Some(BadInterpolation(name))
    else if !InterpolationOk(sid) then Some(BadInterpolation(sid))
    else if !InterpolationOk(id) then Some(BadInterpolation(id))
    else None
  }

  /** The keys the new section holds: those assigned before the first refused
      value, all three when none is refused. */
  function Filled(name: string, sid: string, id: string): map<string, string> {
    if !InterpolationOk(name) then map[]
    else if !InterpolationOk(sid) then map["NAME" := name]
    else if !InterpolationOk(id) then map["NAME" := name, "SID" := sid]
    else map["NAME" := name, "SID" := sid, "ID" := id]
  }

  /** The new ID is never refused: only the sheet name and the spreadsheet ID
      can stop the update, and when both are accepted the section holds
      exactly `NAME`, `SID` and `ID`. */
  lemma FillOfNewId(name: string, sid: string, i: int)
    ensures FillError(name, sid, IdText(i)) ==
      if !InterpolationOk(name) then Some(BadInterpolation(name))
      else if !InterpolationOk(sid) then Some(BadInterpolation(sid))
      else None
    ensures FillError(name, sid, IdText(i)).None? ==>
      Filled(name, sid, IdText(i)) == map["NAME" := name, "SID" := sid, "ID" := IdText(i)]
  {
    IdTextAccepted(i);
  }

  /** The configuration update of `main`: pick the next name and ID, add the
      section and assign `NAME`, `SID` and `ID`. An error in the planning or a
      duplicate name leaves the configuration as it was; a value the
      interpolation check refuses stops the update after `add_section`, with
      the section holding the keys assigned before it. */
  method UpdateConfig(config: Config, name: string, sid: string) returns (r: Result<Next, CreateError>)
    requires config.Valid()
    modifies config
    ensures config.Valid()
    ensures var planned := NextFrom(Candidates(old(config.sections)), old(config.entries));
      && (planned.Err? ==> r == planned && unchanged(config))
      && (planned.Ok? && planned.value.section in old(config.entries) ==>
            r == Err(DuplicateSection(planned.value.section)) && unchanged(config))
      && (planned.Ok? && planned.value.section !in old(config.entries) ==>
            var next := planned.value;
            && config.sections == old(config.sections) + [next.section]
            && config.entries == old(config.entries)[next.section := Filled(name, sid, next.id)]
            && r == (if FillError(name, sid, next.id).None? then planned else Err(FillError(name, sid, next.id).value)))
  {
    var cands := SheetSections(config.sections);
    var planned := NextFrom(cands, config.entries);
    if planned.Err? {
      return planned;
    }
    r := AddNumberedSection(config, planned.value, name, sid);
  }

  /** `add_section` of the new name followed by its three keys. */
  method AddNumberedSection(config: Config, next: Next, name: string, sid: string) returns (r: Result<Next, CreateError>)
    requires config.Valid()
    modifies config
    ensures config.Valid()
    ensures next.section in old(config.entries) ==>
      r == Err(DuplicateSection(next.section)) && unchanged(config)
    ensures next.section !in old(config.entries) ==>
      && config.sections == old(config.sections) + [next.section]
      && config.entries == old(config.entries)[next.section := Filled(name, sid, next.id)]
      && r == (if FillError(name, sid, next.id).None? then Ok(next) else Err(FillError(name, sid, next.id).value))
  {
    var err := config.AddSection(next.section);
    if err.Some? {
      return Err(err.value);
    }
    err := FillSection(config, next.section, name, sid, next.id);
    if err.Some? {
      return Err(err.value);
    }
    return Ok(next);
  }

  /** The section after each of the three assignments of `FillSection`. */
  lemma FillSteps(e: map<string, map<string, string>>, section: string, name: string, sid: string, id: string)
    requires section in e && e[section] == map[]
    ensures e[section := map[]] == e
    ensures e[section := e[section]["NAME" := name]] == e[section := map["NAME" := name]]
    ensures var e1 := e[section := map["NAME" := name]];
      e1[section := e1[section]["SID" := sid]] == e[section := map["NAME" := name, "SID" := sid]]
    ensures var e2 := e[section := map["NAME" := name, "SID" := sid]];
      e2[section := e2[section]["ID" := id]] == e[section := map["NAME" := name, "SID" := sid, "ID" := id]]
  {
    var e1 := e[section := map["NAME" := name]];
    assert e1[section]["SID" := sid] == map["NAME" := name, "SID" := sid];
    var e2 := e[section := map["NAME" := name, "SID" := sid]];
    assert e2[section]["ID" := id] == map["NAME" := name, "SID" := sid, "ID" := id];
  }

  /** The three assignments `config[section][key] = ...` into the new, empty
      section, stopping at the first value refused. */
  method FillSection(config: Config, section: string, name: string, sid: string, id: string) returns (err: Option<CreateError>)
    requires section in config.entries && config.entries[section] == map[]
    modifies config`entries
    ensures err == FillError(name, sid, id)
    ensures config.entries == old(config.entries)[section := Filled(name, sid, id)]
    ensures config.entries.Keys == old(config.entries).Keys
  {
    ghost var before := config.entries;
    FillSteps(before, section, name, sid, id);
    err := config.Set(section, "NAME", name);
    if err.Some? {
      return;
    }
    err := config.Set(section, "SID", sid);
    if err.Some? {
      return;
    }
    err := config.Set(section, "ID", id);
  }

  // ---------------------------------------------------------------------------
  // The reference sheet

  /** The link to a spreadsheet. */
  function Url(sid: string): string {
    "https://docs.google.com/spreadsheets/d/" + sid + "/"
  }

  /** The row describing the new sheet: its name, worksheet, ID (with a
      leading `'` so the sheet keeps the zeros), spreadsheet ID and link. */
  function ReferenceValues(name: string, worksheet: string, next: Next, sid: string): (vals: seq<string>)
    ensures |vals| == 5 && vals[2] == "'" + next.id && vals[2][1..] == next.id
  {
    [name, worksheet, "'" + next.id, sid, Url(sid)]
  }

  /** The row the reference append goes to: one past the rows of column A;
      an empty column A is the "Sheet data not found" error. */
  function ReferenceRow(refCells: seq<seq<string>>): (r: Result<nat, Spreadsheet.SheetError>)
    ensures r.Ok? ==> r.value >= 2
    ensures r.Ok? ==> Spreadsheet.Cell(refCells, r.value - 1, 0) != ""
    ensures r.Ok? ==> forall row: nat :: row >= r.value ==> Spreadsheet.Cell(refCells, row, 0) == ""
    ensures r.Err? <==> forall row: nat :: Spreadsheet.Cell(refCells, row, 0) == ""
  {
    var colA :- Spreadsheet.ReadColumn(refCells, 0);
    assert colA[|colA| - 1] == Spreadsheet.Cell(refCells, |colA|, 0);
    Ok(|colA| + 1)
  }

  /** `vals` written left to right into row `r` from column A. */
  function WriteRow(cells: seq<seq<string>>, r: nat, vals: seq<string>): (res: seq<seq<string>>)
    requires r >= 1
    ensures forall c :: 0 <= c < |vals| ==> Spreadsheet.Cell(res, r, c) == vals[c]
    ensures forall r2: nat, c2: nat :: (r2 != r || c2 >= |vals|) ==> Spreadsheet.Cell(res, r2, c2) == Spreadsheet.Cell(cells, r2, c2)
  {
    if vals == [] then cells
    else
      var n := |vals| - 1;
      var prefix := WriteRow(cells, r, vals[..n]);
      assert forall c :: 0 <= c < n ==> vals[..n][c] == vals[c];
      Spreadsheet.SetCell(prefix, r, n, vals[n])
  }

  /** The reference update of `main`: opening the reference sheet reads its
      header row, which fails on an empty row 1; then the five values land in
      columns A to E of the first row after the filled part of column A, and
      nothing else changes. */
  function AppendReference(refCells: seq<seq<string>>, name: string, worksheet: string, next: Next, sid: string)
    : (r: Result<seq<seq<string>>, Spreadsheet.SheetError>)
    ensures r.Ok? <==> Spreadsheet.ReadHeader(refCells).Ok? && ReferenceRow(refCells).Ok?
    ensures r.Err? ==> r.error == Spreadsheet.SheetDataNotFound
    ensures r.Ok? ==> var row := ReferenceRow(refCells).value;
      && Spreadsheet.Cell(refCells, row, 0) == ""
      && (forall c :: 0 <= c < 5 ==> Spreadsheet.Cell(r.value, row, c) == ReferenceValues(name, worksheet, next, sid)[c])
      && (forall r2: nat, c2: nat :: (r2 != row || c2 >= 5) ==> Spreadsheet.Cell(r.value, r2, c2) == Spreadsheet.Cell(refCells, r2, c2))
  {
    var header :- Spreadsheet.ReadHeader(refCells);
    var row :- ReferenceRow(refCells);
    Ok(WriteRow(refCells, row, ReferenceValues(name, worksheet, next, sid)))
  }
}
