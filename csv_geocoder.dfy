/** The exact-match gazetteer of sheet_cleaner/geocoding/csv_geocoder.py: a
    table from a lower-cased `city;province;country` text to the geocode of
    that location, built from the rows of a tab-separated dump, with a counter
    of the lookups that found nothing. */
module CsvGeocoder {
  import opened Wrappers
  import opened Text

  /** The location a lookup asks for, as the caller spelled it. */
  datatype Triple = Triple(city: string, province: string, country: string)

  /** What the table knows about a location. Latitude and longitude are kept as
      the text of their fields. */
  datatype Geocode = Geocode(
    lat: string, lng: string, geoResolution: string, countryNew: string, adminId: int,
    location: string, admin3: string, admin2: string, admin1: string)

  // Field positions in a row of the dump.
  const InputField := 0
  const LatField := 1
  const LngField := 2
  const GeoResolutionField := 3
  const LocationField := 4
  const Admin3Field := 5
  const Admin2Field := 6
  const Admin1Field := 7
  const CountryNewField := 8
  const AdminIdField := 9

  /** The number of fields a row must have. */
  const RowWidth := 10

  /** The lookup text for a location: the three names joined by `;`, lower-cased. */
  function Key(city: string, province: string, country: string): string {
    Lower(city + ";" + province + ";" + country)
  }

  /** The geocode a row describes; an `admin_id` that is not an integer is 0. */
  function RowGeocode(row: seq<string>): Geocode
    requires |row| >= RowWidth
  {
    Geocode(row[LatField], row[LngField], row[GeoResolutionField], row[CountryNewField],
            ParseInt(row[AdminIdField]).GetOr(0),
            row[LocationField], row[Admin3Field], row[Admin2Field], row[Admin1Field])
  }

  /** The table the dump builds. */
  function Table(rows: seq<seq<string>>): Result<map<string, Geocode>, nat> {
    TableUpTo(rows, |rows|)
  }

  /** The table the first `n` rows build, each row stored under its lower-cased
      input field over whatever was there; the first row too short to index is
      the error (`IndexError`). */
  function TableUpTo(rows: seq<seq<string>>, n: nat): (r: Result<map<string, Geocode>, nat>)
    requires n <= |rows|
    ensures r.Ok? <==> forall k :: 0 <= k < n ==> |rows[k]| >= RowWidth
    ensures r.Err? ==> (r.error < n && |rows[r.error]| < RowWidth
      && forall k :: 0 <= k < r.error ==> |rows[k]| >= RowWidth)
  {
    if n == 0 then Ok(map[])
    else
      match TableUpTo(rows, n - 1)
      case Err(e) => Err(e)
      case Ok(t) =>
        if |rows[n - 1]| < RowWidth then Err(n - 1)
        else Ok(t[Lower(rows[n - 1][InputField]) := RowGeocode(rows[n - 1])])
  }

  /** The table of a prefix does not look past it. */
  lemma {:induction false} TableUpToPrefix(rows: seq<seq<string>>, more: seq<seq<string>>, n: nat)
    requires n <= |rows|
    ensures TableUpTo(rows + more, n) == TableUpTo(rows, n)
  {
    if n > 0 {
      TableUpToPrefix(rows, more, n - 1);
      assert (rows + more)[n - 1] == rows[n - 1];
    }
  }

  /** The table holds exactly the lower-cased input fields of the rows. */
  lemma {:induction false} TableKeys(rows: seq<seq<string>>, n: nat, key: string)
    requires n <= |rows| && TableUpTo(rows, n).Ok?
    ensures key in TableUpTo(rows, n).value <==> exists k :: 0 <= k < n && Lower(rows[k][InputField]) == key
  {
    if n > 0 {
      TableKeys(rows, n - 1, key);
    }
  }

  /** Duplicate keys resolve to the last row that has them. */
  lemma {:induction false} TableLastWins(rows: seq<seq<string>>, n: nat, k: nat)
    requires n <= |rows| && TableUpTo(rows, n).Ok? && k < n
    requires forall j :: k < j < n ==> Lower(rows[j][InputField]) != Lower(rows[k][InputField])
    ensures Lower(rows[k][InputField]) in TableUpTo(rows, n).value
    ensures TableUpTo(rows, n).value[Lower(rows[k][InputField])] == RowGeocode(rows[k])
  {
    if k < n - 1 {
      TableLastWins(rows, n - 1, k);
    }
  }

  /** A lookup ignores the case of its three names. */
  lemma KeyIgnoresCase(city: string, province: string, country: string)
    ensures Key(Lower(city), Lower(province), Lower(country)) == Key(city, province, country)
  {
    LowerFields(city, province, country);
    LowerIdempotent(city + ";" + province + ";" + country);
  }

  /** Lower-casing the joined names lower-cases each name. */
  lemma LowerFields(a: string, b: string, c: string)
    ensures Lower(a + ";" + b + ";" + c) == Lower(a) + ";" + Lower(b) + ";" + Lower(c)
  {
    assert Lower(";") == ";";
    LowerConcat(a, ";");
    LowerConcat(a + ";", b);
    LowerConcat(a + ";" + b, ";");
    LowerConcat(a + ";" + b + ";", c);
  }

  // ---------------------------------------------------------------------------
  // The misses report

  /** A field as `csv.writer` writes it: quoted, with quotes doubled, when it
      holds a comma, a quote or a line break. */
  function CsvField(s: string): string {
    if exists i :: 0 <= i < |s| && s[i] in {',', '"', '\r', '\n'} then "\"" + DoubleQuotes(s) + "\"" else s
  }

  function DoubleQuotes(s: string): string {
    if s == [] then [] else (if s[0] == '"' then "\"\"" else [s[0]]) + DoubleQuotes(s[1..])
  }

  /** One line of the misses report: city, province, country and count. */
  function MissLine(t: Triple, count: nat): string {
    Join([CsvField(t.city), CsvField(t.province), CsvField(t.country), IntToString(count)], ',') + "\r\n"
  }

  /** The report for the triples in `order`, counted from `misses`. */
  function MissesReport(order: seq<Triple>, misses: multiset<Triple>): (r: string)
    ensures order == [] ==> r == ""
  {
    if order == [] then ""
    else MissesReport(order[..|order| - 1], misses) + MissLine(order[|order| - 1], misses[order[|order| - 1]])
  }

  predicate Plain(s: string) {
    forall i :: 0 <= i < |s| ==> s[i] !in {',', '"', '\r', '\n'}
  }

  /** A line for names without commas, quotes or line breaks reads back as the
      three names and the count. */
  lemma MissLineReadsBack(t: Triple, count: nat)
    requires Plain(t.city) && Plain(t.province) && Plain(t.country)
    ensures var line := MissLine(t, count);
      var fields := Split(line[..|line| - 2], ',');
      && line[|line| - 2..] == "\r\n"
      && |fields| == 4
      && fields[0] == t.city && fields[1] == t.province && fields[2] == t.country
      && ParseInt(fields[3]) == Some(count)
  {
    var parts := [t.city, t.province, t.country, IntToString(count)];
    assert CsvField(t.city) == t.city;
    assert CsvField(t.province) == t.province;
    assert CsvField(t.country) == t.country;
    assert ',' !in IntToString(count);
    var line := MissLine(t, count);
    assert line == Join(parts, ',') + "\r\n";
    assert line[..|line| - 2] == Join(parts, ',');
    SplitJoin(parts, ',');
    ParseIntToString(count);
  }

  // ---------------------------------------------------------------------------
  // The geocoder

  class CSVGeocoder {
    var geocodes: map<string, Geocode>
    /** How often each triple was looked up without success. */
    var misses: multiset<Triple>
    /** The missed triples in the order they were first missed, each once. */
    var missOrder: seq<Triple>

    ghost predicate Valid()
      reads this
    {
      && (forall t :: t in misses <==> t in missOrder)
      && (forall i, j :: 0 <= i < j < |missOrder| ==> missOrder[i] != missOrder[j])
    }

    constructor Init(geocodes: map<string, Geocode>)
      ensures Valid()
      ensures this.geocodes == geocodes && misses == multiset{} && missOrder == []
    {
      this.geocodes := geocodes;
      misses := multiset{};
      missOrder := [];
    }

    /** `__init__`: every row of the dump goes into the table in order; a row
        with fewer than ten fields raises. */
    static method Load(rows: seq<seq<string>>) returns (r: Result<CSVGeocoder, nat>)
      ensures Table(rows).Err? ==> r == Err(Table(rows).error)
      ensures Table(rows).Ok? ==> (r.Ok? && fresh(r.value) && r.value.Valid()
        && r.value.geocodes == Table(rows).value && r.value.misses == multiset{})
    {
      var geocodes: map<string, Geocode> := map[];
      for i := 0 to |rows|
        invariant TableUpTo(rows, i) == Ok(geocodes)
      {
        var row := rows[i];
        if |row| < RowWidth {
          return Err(i);
        }
        geocodes := geocodes[Lower(row[InputField]) := RowGeocode(row)];
      }
      var g := new CSVGeocoder.Init(geocodes);
      return Ok(g);
    }

    /** `geocode`: the stored geocode for the location, if any; a miss is
        counted once more under the triple as the caller spelled it. The table
        never changes. */
    method Geocode(city: string, province: string, country: string) returns (r: Option<Geocode>)
      requires Valid()
      modifies this`misses, this`missOrder
      ensures Valid()
      ensures Key(city, province, country) in geocodes ==>
        r == Some(geocodes[Key(city, province, country)]) && misses == old(misses) && missOrder == old(missOrder)
      ensures Key(city, province, country) !in geocodes ==>
        var t := Triple(city, province, country);
        && r == None
        && misses == old(misses) + multiset{t}
        && missOrder == if t in old(missOrder) then old(missOrder) else old(missOrder) + [t]
    {
      var key := Key(city, province, country);
      if key !in geocodes {
        var t := Triple(city, province, country);
        if t !in misses {
          missOrder := missOrder + [t];
        }
        misses := misses + multiset{t};
        return None;
      }
      return Some(geocodes[key]);
    }

    /** `write_misses_to_csv`: one line per distinct missed triple, in the
        order of first miss, with its count. */
    method WriteMissesToCsv() returns (out: string)
      requires Valid()
      ensures out == MissesReport(missOrder, misses)
    {
      out := "";
      for i := 0 to |missOrder|
        invariant out == MissesReport(missOrder[..i], misses)
      {
        assert missOrder[..i + 1][..i] == missOrder[..i];
        out := out + MissLine(missOrder[i], misses[missOrder[i]]);
      }
      assert missOrder[..|missOrder|] == missOrder;
    }
  }

  /** The report for a single missed triple is its one line. */
  lemma ReportOfOne(t: Triple, misses: multiset<Triple>)
    ensures MissesReport([t], misses) == MissLine(t, misses[t])
  {
    assert [t][..0] == [];
  }

  /** One miss of `foo`, `bar`, `baz` is reported as the line `foo,bar,baz,1`. */
  lemma ReportOfOneMiss()
    ensures var t := Triple("foo", "bar", "baz");
      MissesReport([t], multiset{t}) == "foo,bar,baz,1\r\n"
  {
    var t := Triple("foo", "bar", "baz");
    ReportOfOne(t, multiset{t});
    FooBarBazLine();
  }

  lemma FooBarBazLine()
    ensures MissLine(Triple("foo", "bar", "baz"), 1) == "foo,bar,baz,1\r\n"
  {
    LowerCaseIsPlain("foo");
    LowerCaseIsPlain("bar");
    LowerCaseIsPlain("baz");
    assert IntToString(1) == "1";
    JoinFour("foo", "bar", "baz", "1");
  }

  /** Lower-case letters need no quoting. */
  lemma LowerCaseIsPlain(s: string)
    requires forall i :: 0 <= i < |s| ==> 'a' <= s[i] <= 'z'
    ensures CsvField(s) == s
  {
  }

  lemma JoinFour(a: string, b: string, c: string, d: string)
    ensures Join([a, b, c, d], ',') == a + "," + b + "," + c + "," + d
  {
    assert Join([d], ',') == d;
    assert [c, d][1..] == [d];
    assert Join([c, d], ',') == c + "," + d;
    assert [b, c, d][1..] == [c, d];
    assert Join([b, c, d], ',') == b + "," + c + "," + d;
    assert [a, b, c, d][1..] == [b, c, d];
  }

  /** Two identical misses count twice; a hit leaves the counter alone; the
      report then holds the one line for the missed triple. */
  method MissesScenario(g: CSVGeocoder)
    requires g.Valid() && g.misses == multiset{} && g.missOrder == []
    requires Key("foo", "bar", "baz") !in g.geocodes
    modifies g`misses, g`missOrder
    ensures g.misses[Triple("foo", "bar", "baz")] == 2
  {
    var a := g.Geocode("foo", "bar", "baz");
    assert a == None;
    var report := g.WriteMissesToCsv();
    assert g.missOrder == [Triple("foo", "bar", "baz")];
    ReportOfOne(Triple("foo", "bar", "baz"), g.misses);
    assert report == MissLine(Triple("foo", "bar", "baz"), 1);
    var b := g.Geocode("foo", "bar", "baz");
    assert b == None;
  }
}
