/** The row writer of sheet_cleaner/geocoding/add_geocode.py: from the
    command-line arguments it picks a resolution, falls back to an external
    geocoding service when no coordinates were given, and appends one row to
    the dump `CsvGeocoder` reads. The service, the float formatting and the line
    count of the dump are parameters. */
module AddGeocode {
  import opened Wrappers
  import opened Text
  import CsvGeocoder

  /** The arguments of the script. `lat` and `lng` are floats; the others text. */
  datatype Args = Args(
    country: string, province: string, city: string,
    lat: Option<real>, lng: Option<real>, location: Option<string>,
    admin1: Option<string>, admin2: Option<string>, admin3: Option<string>)

  /** A point the external service found. */
  datatype Located = Located(lat: real, lng: real)

  /** Python truthiness of an optional text: given and not empty. */
  predicate Given(o: Option<string>) {
    o.Some? && o.value != ""
  }

  /** Python truthiness of an optional float: given and not zero. */
  predicate CoordGiven(o: Option<real>) {
    o.Some? && o.value != 0.0
  }

  function OrEmpty(o: Option<string>): string {
    if Given(o) then o.value else ""
  }

  /** The finest administrative level given: `admin3` over `admin2` over
      `admin1`, else none. */
  function Resolution(args: Args): string {
    if Given(args.admin3) then "admin3"
    else if Given(args.admin2) then "admin2"
    else if Given(args.admin1) then "admin1"
    else ""
  }

  /** The resolution as the script settles it, each given level overwriting
      the coarser one. */
  method GeoResolution(args: Args) returns (resolution: string)
    ensures resolution == Resolution(args)
  {
    resolution := "";
    if Given(args.admin1) {
      resolution := "admin1";
    }
    if Given(args.admin2) {
      resolution := "admin2";
    }
    if Given(args.admin3) {
      resolution := "admin3";
    }
  }

  /** `sep.join(parts)`. */
  function JoinWith(parts: seq<string>, sep: string): string {
    if parts == [] then ""
    else if |parts| == 1 then parts[0]
    else parts[0] + sep + JoinWith(parts[1..], sep)
  }

  function NonEmpty(xs: seq<string>): (r: seq<string>)
    ensures forall k :: 0 <= k < |r| ==> r[k] != "" && r[k] in xs
    ensures forall x :: x in xs && x != "" ==> x in r
  {
    if xs == [] then []
    else (if xs[0] != "" then [xs[0]] else []) + NonEmpty(xs[1..])
  }

  /** The positions in `xs` of the entries of `r`, strictly increasing, and
      covering every non-empty name at or after `from`. */
  ghost predicate PositionsOf(xs: seq<string>, r: seq<string>, idx: seq<nat>, from: nat) {
    && |idx| == |r|
    && (forall i :: 0 <= i < |idx| ==> from <= idx[i] < |xs| && r[i] == xs[idx[i]])
    && (forall i, j :: 0 <= i < j < |idx| ==> idx[i] < idx[j])
    && (forall k :: from <= k < |xs| && xs[k] != "" ==> k in idx)
  }

  /** `NonEmpty` keeps the order and the repeats of the source's list
      comprehension: its entries are `xs` at strictly increasing positions,
      and every position holding a non-empty name is one of them. */
  lemma {:induction false} NonEmptyPositions(xs: seq<string>) returns (idx: seq<nat>)
    ensures PositionsOf(xs, NonEmpty(xs), idx, 0)
  {
    if xs == [] {
      idx := [];
    } else {
      var rest := NonEmptyPositions(xs[1..]);
      var shifted := ShiftPositions(xs, NonEmpty(xs[1..]), rest);
      if xs[0] != "" {
        idx := [0] + shifted;
        ConsPosition(xs, NonEmpty(xs[1..]), shifted);
      } else {
        idx := shifted;
        assert NonEmpty(xs) == NonEmpty(xs[1..]);
      }
    }
  }

  /** Positions in the tail of `xs`, moved one place on. */
  lemma ShiftPositions(xs: seq<string>, r: seq<string>, rest: seq<nat>) returns (shifted: seq<nat>)
    requires xs != [] && PositionsOf(xs[1..], r, rest, 0)
    ensures PositionsOf(xs, r, shifted, 1)
  {
    shifted := seq(|rest|, i requires 0 <= i < |rest| => rest[i] + 1);
    forall i | 0 <= i < |shifted| ensures 1 <= shifted[i] < |xs| && r[i] == xs[shifted[i]] {
      assert xs[1..][rest[i]] == xs[rest[i] + 1];
    }
    forall i, j | 0 <= i < j < |shifted| ensures shifted[i] < shifted[j] {
      assert rest[i] < rest[j];
    }
    forall k | 1 <= k < |xs| && xs[k] != "" ensures k in shifted {
      ShiftCovers(xs, rest, shifted, k);
    }
  }

  lemma ShiftCovers(xs: seq<string>, rest: seq<nat>, shifted: seq<nat>, k: nat)
    requires 1 <= k < |xs| && xs[k] != ""
    requires |shifted| == |rest| && forall i :: 0 <= i < |rest| ==> shifted[i] == rest[i] + 1
    requires forall j :: 0 <= j < |xs| - 1 && xs[1..][j] != "" ==> j in rest
    ensures k in shifted
  {
    assert xs[1..][k - 1] == xs[k];
    var i :| 0 <= i < |rest| && rest[i] == k - 1;
    assert shifted[i] == k;
  }

  /** A non-empty first name goes in front, at position 0. */
  lemma ConsPosition(xs: seq<string>, r: seq<string>, shifted: seq<nat>)
    requires xs != [] && xs[0] != "" && PositionsOf(xs, r, shifted, 1)
    ensures PositionsOf(xs, [xs[0]] + r, [0] + shifted, 0)
  {
    var idx := [0] + shifted;
    forall k | 0 <= k < |xs| && xs[k] != "" ensures k in idx {
      if k > 0 {
        assert k in shifted;
      }
    }
  }

  /** The text sent to the external service: the non-empty names, comma
      separated, finest first. */
  function Query(args: Args): string {
    JoinWith(NonEmpty([args.city, args.province, args.country]), ", ")
  }

  /** The first field of a row: the three names joined by `;`. */
  function Input(args: Args): string {
    args.city + ";" + args.province + ";" + args.country
  }

  /** `main`: the row appended to the dump, or nothing when coordinates are
      missing and the external service finds nothing. `numLines` is the dump's
      current line count and `formatCoord` writes a float as the CSV writer
      does. */
  method NewRow(args: Args, service: string -> Option<Located>, numLines: nat, formatCoord: real -> string)
    returns (row: Option<seq<string>>)
    ensures var lookedUp := !CoordGiven(args.lat) || !CoordGiven(args.lng);
      && (row.None? <==> lookedUp && service(Query(args)).None?)
      && (row.Some? ==>
        && |row.value| == CsvGeocoder.RowWidth
        && row.value[CsvGeocoder.InputField] == Input(args)
        && row.value[CsvGeocoder.LatField] == formatCoord(if lookedUp then service(Query(args)).value.lat else args.lat.value)
        && row.value[CsvGeocoder.LngField] == formatCoord(if lookedUp then service(Query(args)).value.lng else args.lng.value)
        && row.value[CsvGeocoder.GeoResolutionField] == (if lookedUp then "point" else Resolution(args))
        && row.value[CsvGeocoder.LocationField] == OrEmpty(args.location)
        && row.value[CsvGeocoder.Admin3Field] == OrEmpty(args.admin3)
        && row.value[CsvGeocoder.Admin2Field] == OrEmpty(args.admin2)
        && row.value[CsvGeocoder.Admin1Field] == OrEmpty(args.admin1)
        && row.value[CsvGeocoder.CountryNewField] == args.country
        && row.value[CsvGeocoder.AdminIdField] == IntToString(numLines + 1))
  {
    var resolution := GeoResolution(args);
    var lat, lng := args.lat, args.lng;
    if !CoordGiven(lat) || !CoordGiven(lng) {
      var g := service(Query(args));
      if g.None? {
        return None;
      }
      lat, lng := Some(g.value.lat), Some(g.value.lng);
      resolution := "point";
    }
    row := Some([
      Input(args),
      formatCoord(lat.value),
      formatCoord(lng.value),
      resolution,
      OrEmpty(args.location),
      OrEmpty(args.admin3),
      OrEmpty(args.admin2),
      OrEmpty(args.admin1),
      if args.country != "" then args.country else "",
      IntToString(numLines + 1)
    ]);
  }

  /** A row appended to the dump is what the geocoder then finds for the same
      three names, in any case, with the line number as its `admin_id`. */
  lemma {:induction false} AppendedRowIsFound(rows: seq<seq<string>>, row: seq<string>, args: Args, numLines: nat)
    requires CsvGeocoder.Table(rows).Ok?
    requires |row| == CsvGeocoder.RowWidth
    requires row[CsvGeocoder.InputField] == Input(args)
    requires row[CsvGeocoder.AdminIdField] == IntToString(numLines + 1)
    ensures CsvGeocoder.Table(rows + [row]).Ok?
    ensures var table := CsvGeocoder.Table(rows + [row]).value;
      var key := CsvGeocoder.Key(args.city, args.province, args.country);
      && key in table
      && table[key] == CsvGeocoder.RowGeocode(row)
      && table[key].adminId == numLines + 1
  {
    var all := rows + [row];
    CsvGeocoder.TableUpToPrefix(rows, [row], |rows|);
    assert all[|rows|] == row;
    ParseIntToString(numLines + 1);
  }

  /** With all three names set, the service is asked for
      `city, province, country`, finest first. */
  lemma QueryAllGiven(args: Args)
    requires args.city != "" && args.province != "" && args.country != ""
    ensures Query(args) == args.city + ", " + args.province + ", " + args.country
  {
    var names := [args.city, args.province, args.country];
    assert names[1..] == [args.province, args.country];
    assert names[1..][1..] == [args.country];
    assert [args.country][1..] == [];
    assert NonEmpty([args.country]) == [args.country];
    assert NonEmpty([args.province, args.country]) == [args.province, args.country];
    assert NonEmpty(names) == names;
    assert names[1..][1..] == [args.country];
    assert JoinWith([args.province, args.country], ", ") == args.province + ", " + args.country;
  }

  /** Only the names that are set reach the service. */
  lemma QueryCountryOnly(args: Args)
    requires args.city == "" && args.province == ""
    ensures Query(args) == args.country
  {
    var names := [args.city, args.province, args.country];
    assert names[1..] == [args.province, args.country];
    assert names[1..][1..] == [args.country];
    assert [args.country][1..] == [];
    assert NonEmpty(names) == NonEmpty([args.province, args.country]);
    assert NonEmpty([args.province, args.country]) == NonEmpty([args.country]);
    if args.country == "" {
      assert NonEmpty([args.country]) == [];
    } else {
      assert NonEmpty([args.country]) == [args.country];
    }
  }
}
