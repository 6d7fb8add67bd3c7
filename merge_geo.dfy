/** `merge_geo.py`: joins the normalised population rows with GeoNames
    metadata and the REST Countries payload into the weighted country list
    the web app samples from. Reading the files and writing the JSON output
    are outside the model: the population CSV arrives as its rows, the
    GeoNames file as its lines, and the REST payload as the map
    `read_rest_countries` builds. Integer parsing (`int(...)`) is the
    partial function `parseInt`, `None` where Python raises `ValueError`. */
module MergeGeo {
  import opened Common
  import opened PyText

  /** `ord('🇦') - ord('A')`: shifts an ASCII capital onto its Regional Indicator Symbol. */
  const FLAG_BASE: int := 127397
  /** The largest code point `chr` accepts. */
  const MAX_CODE_POINT: int := 0x10FFFF

  // ----- read_population -----

  /** `[row for row in reader if row.get("population")]`. */
  function ReadPopulation(rows: seq<Row>): (kept: seq<Row>)
    ensures |kept| <= |rows|
    ensures forall r :: r in kept ==> r in rows && Truthy(GetOpt(r, "population"))
    ensures forall r :: r in rows && Truthy(GetOpt(r, "population")) ==> r in kept
  {
    if rows == [] then []
    else (if Truthy(GetOpt(rows[0], "population")) then [rows[0]] else []) + ReadPopulation(rows[1..])
  }

  /** The filter keeps the input order: it works piece by piece. */
  lemma {:induction false} ReadPopulationConcat(a: seq<Row>, b: seq<Row>)
    ensures ReadPopulation(a + b) == ReadPopulation(a) + ReadPopulation(b)
    decreases |a|
  {
    if a != [] {
      assert (a + b)[1..] == a[1..] + b;
      ReadPopulationConcat(a[1..], b);
    } else {
      assert a + b == b;
    }
  }

  // ----- _flag_emoji -----

  /** `chr(FLAG_BASE + ord(c))`, which raises `ValueError` past the last code point. */
  function RegionalIndicator(c: char): (r: Result<char, PyError>)
    ensures r.Ok? <==> FLAG_BASE + c as int <= MAX_CODE_POINT
    ensures r.Ok? ==> r.value as int == FLAG_BASE + c as int
  {
    var n := FLAG_BASE + c as int;
    if n <= MAX_CODE_POINT then Ok(n as char) else Err(ValueError)
  }

  /** `_flag_emoji(iso2)`: nothing unless the code has exactly two characters;
      otherwise one Regional Indicator Symbol per upper-cased character. */
  function FlagEmoji(iso2: Option<string>): (r: Result<Option<string>, PyError>)
    ensures iso2.None? || |iso2.value| != 2 ==> r == Ok(None)
    ensures iso2.Some? && |iso2.value| == 2 ==>
      (r.Ok? <==> forall i :: 0 <= i < 2 ==> FLAG_BASE + UpperChar(iso2.value[i]) as int <= MAX_CODE_POINT)
    ensures r.Ok? && r.value.Some? ==>
      && iso2.Some? && |iso2.value| == 2 && |r.value.value| == 2
      && forall i :: 0 <= i < 2 ==> r.value.value[i] as int == FLAG_BASE + UpperChar(iso2.value[i]) as int
    ensures r.Err? ==> r.error == ValueError
  {
    if iso2.None? || |iso2.value| != 2 then Ok(None)
    else
      var upper := Upper(iso2.value);
      var first := RegionalIndicator(upper[0]);
      var second := RegionalIndicator(upper[1]);
      if first.Err? || second.Err? then Err(ValueError)
      else Ok(Some([first.value, second.value]))
  }

  /** The flag does not depend on the letter case of the code. */
  lemma FlagEmojiIgnoresCase(iso2: string)
    ensures FlagEmoji(Some(Lower(iso2))) == FlagEmoji(Some(iso2))
    ensures FlagEmoji(Some(Upper(iso2))) == FlagEmoji(Some(iso2))
  {
    UpperIgnoresCase(iso2);
  }

  /** A two-letter code becomes the pair of Regional Indicator Symbols
      U+1F1E6..U+1F1FF that spell it, 'A' giving U+1F1E6. */
  lemma FlagOfLetters(iso2: string)
    requires |iso2| == 2
    requires forall i :: 0 <= i < 2 ==> 'A' <= UpperChar(iso2[i]) <= 'Z'
    ensures FlagEmoji(Some(iso2)).Ok? && FlagEmoji(Some(iso2)).value.Some?
    ensures forall i :: 0 <= i < 2 ==>
      FlagEmoji(Some(iso2)).value.value[i] as int == 0x1F1E6 + (UpperChar(iso2[i]) as int - 'A' as int)
  {
  }

  lemma FlagOfUnitedStates()
    ensures FlagEmoji(Some("us")) == Ok(Some("\U{1F1FA}\U{1F1F8}"))
  {
    assert Upper("us") == "US";
  }

  // ----- iso_from_population -----

  /** `record.get("Country", "").lower() == location.lower()`. */
  predicate NameMatches(record: Row, location: string) {
    Lower(Get(record, "Country", "")) == Lower(location)
  }

  /** The position of the first record whose country name equals `location` up to case. */
  function FirstNameMatch(records: seq<Row>, location: string): (r: Option<nat>)
    ensures r.Some? ==> r.value < |records| && NameMatches(records[r.value], location)
    ensures r.Some? ==> forall j :: 0 <= j < r.value ==> !NameMatches(records[j], location)
    ensures r.None? ==> forall j :: 0 <= j < |records| ==> !NameMatches(records[j], location)
  {
    if records == [] then None
    else if NameMatches(records[0], location) then Some(0)
    else match FirstNameMatch(records[1..], location)
      case None => None
      case Some(j) => Some(j + 1)
  }

  /** `iso_from_population(row, geonames)`: the row's own ISO3, upper-cased, when
      it has one; otherwise the `ISO3` cell of the first GeoNames record (in
      insertion order) whose country name matches the location up to case,
      which may be absent or empty; `None` when nothing matches. */
  function IsoFromPopulation(row: Row, geonames: Dict<string, Row>): (r: (Option<string>, string))
    ensures r.1 == Get(row, "location", "")
    ensures Get(row, "iso3", "") != [] ==> r.0 == Some(Upper(row["iso3"]))
    ensures Get(row, "iso3", "") == [] ==>
      var records := Values(geonames);
      match FirstNameMatch(records, r.1)
      case None => r.0 == None
      case Some(j) => r.0 == GetOpt(records[j], "ISO3")
  {
    var iso3 := Upper(Get(row, "iso3", ""));
    var location := Get(row, "location", "");
    if iso3 != [] then (Some(iso3), location)
    else match FirstNameMatch(Values(geonames), location)
      case None => (None, location)
      case Some(j) => (GetOpt(Values(geonames)[j], "ISO3"), location)
  }

  // ----- read_geonames -----

  /** The first `n` cells of a row, each under its column name; a later column
      of the same name overrides an earlier one. */
  function ZipPrefix(header: seq<string>, values: seq<string>, n: nat): (row: Row)
    requires n <= |header| && n <= |values|
    ensures forall k :: k in row <==> exists i :: 0 <= i < n && header[i] == k
  {
    if n == 0 then map[] else ZipPrefix(header, values, n - 1)[header[n - 1] := values[n - 1]]
  }

  /** `{header[i]: values[i] for i in range(min(len(header), len(values)))}`. */
  function ZipRow(header: seq<string>, values: seq<string>): (row: Row)
    ensures forall k :: k in row <==> exists i :: 0 <= i < Min(|header|, |values|) && header[i] == k
  {
    ZipPrefix(header, values, Min(|header|, |values|))
  }

  /** A column holds the cell at the last position that carries its name. */
  lemma {:induction false} ZipPrefixAt(header: seq<string>, values: seq<string>, n: nat, i: nat)
    requires n <= |header| && n <= |values| && i < n
    requires forall j :: i < j < n ==> header[j] != header[i]
    ensures ZipPrefix(header, values, n)[header[i]] == values[i]
    decreases n
  {
    if i < n - 1 {
      ZipPrefixAt(header, values, n - 1, i);
    }
  }

  lemma ZipRowAt(header: seq<string>, values: seq<string>, i: nat)
    requires i < |header| && i < |values|
    requires forall j :: i < j < Min(|header|, |values|) ==> header[j] != header[i]
    ensures ZipRow(header, values)[header[i]] == values[i]
  {
    ZipPrefixAt(header, values, Min(|header|, |values|), i);
  }

  /** What reading the GeoNames file has built so far: the current header and the records. */
  datatype GeoState = GeoState(header: seq<string>, records: Dict<string, Row>)

  predicate IsComment(line: string) {
    |line| > 0 && line[0] == '#'
  }

  /** The record a data line describes, under the current header. */
  function DataRow(header: seq<string>, line: string): Row {
    ZipRow(header, Split(Strip(line), '\t'))
  }

  /** One line of the GeoNames file (the function the loop of `ReadGeonames` follows). */
  function GeoStep(state: GeoState, line: string): GeoState {
    if IsComment(line) then state.(header := Split(Strip(line[1..]), '\t'))
    else if IsBlank(line) then state
    else
      var row := DataRow(state.header, line);
      if Truthy(GetOpt(row, "ISO3")) then state.(records := Insert(state.records, Upper(row["ISO3"]), row))
      else state
  }

  /** The state after the given lines, read in order from an empty header and no records. */
  function ParseGeonames(lines: seq<string>): (r: GeoState)
    ensures WellKeyed(r.records)
  {
    if lines == [] then GeoState([], [])
    else
      var before := ParseGeonames(lines[..|lines| - 1]);
      GeoStepWellKeyed(before, lines[|lines| - 1]);
      GeoStep(before, lines[|lines| - 1])
  }

  /** A record with a non-empty ISO3, stored under that code upper-cased. */
  predicate KeyedByCode(pair: (string, Row)) {
    Truthy(GetOpt(pair.1, "ISO3")) && pair.0 == Upper(pair.1["ISO3"])
  }

  /** Every record has a non-empty ISO3 and sits under it upper-cased; keys are distinct. */
  ghost predicate WellKeyed(records: Dict<string, Row>) {
    && UniqueKeys(records)
    && forall i :: 0 <= i < |records| ==> KeyedByCode(records[i])
  }

  /** One more line keeps the records well keyed. */
  lemma GeoStepWellKeyed(state: GeoState, line: string)
    requires WellKeyed(state.records)
    ensures WellKeyed(GeoStep(state, line).records)
  {
    if !IsComment(line) && !IsBlank(line) {
      var row := DataRow(state.header, line);
      if Truthy(GetOpt(row, "ISO3")) {
        InsertWellKeyed(state.records, row);
      }
    }
  }

  lemma InsertWellKeyed(records: Dict<string, Row>, row: Row)
    requires WellKeyed(records) && Truthy(GetOpt(row, "ISO3"))
    ensures WellKeyed(Insert(records, Upper(row["ISO3"]), row))
  {
    var k := Upper(row["ISO3"]);
    assert KeyedByCode((k, row));
    InsertKeepsKeysUnique(records, k, row);
    InsertKeepsRecords(records, k, row);
  }

  /** `d[k] = v` leaves every other pair as it was and puts `(k, v)` in. */
  lemma {:induction false} InsertKeepsRecords<K, V>(d: Dict<K, V>, k: K, v: V)
    ensures forall i :: 0 <= i < |Insert(d, k, v)| ==>
      Insert(d, k, v)[i] == (k, v) || (i < |d| && Insert(d, k, v)[i] == d[i])
    decreases |d|
  {
    if d != [] && d[0].0 != k {
      InsertKeepsRecords(d[1..], k, v);
    }
  }

  lemma ParseGeonamesStep(lines: seq<string>, i: nat)
    requires i < |lines|
    ensures ParseGeonames(lines[..i + 1]) == GeoStep(ParseGeonames(lines[..i]), lines[i])
  {
    assert lines[..i + 1][..i] == lines[..i];
  }

  /** `read_geonames`: header lines set the header, blank lines are skipped, and
      every other line becomes a record stored under its upper-cased ISO3,
      replacing an earlier record with the same key; lines without an ISO3 are
      dropped. */
  method ReadGeonames(lines: seq<string>) returns (records: Dict<string, Row>)
    ensures records == ParseGeonames(lines).records
    ensures WellKeyed(records)
  {
    records := [];
    var header: seq<string> := [];
    for i := 0 to |lines|
      invariant GeoState(header, records) == ParseGeonames(lines[..i])
    {
      ParseGeonamesStep(lines, i);
      ghost var before := GeoState(header, records);
      var line := lines[i];
      if |line| > 0 && line[0] == '#' {
        header := Split(Strip(line[1..]), '\t');
        assert GeoState(header, records) == GeoStep(before, line);
        continue;
      }
      BlankIffStripsToEmpty(line);
      if Strip(line) == [] {
        assert before == GeoStep(before, line);
        continue;
      }
      var values := Split(Strip(line), '\t');
      var row := ZipRow(header, values);
      assert row == DataRow(before.header, line);
      var iso3 := GetOpt(row, "ISO3");
      if iso3.Some? && iso3.value != [] {
        records := Insert(records, Upper(iso3.value), row);
      }
      assert GeoState(header, records) == GeoStep(before, line);
    }
    assert lines[..|lines|] == lines;
  }

  /** The effect of one more line on the lookups: a header line changes the
      header only, a blank line or a line without ISO3 changes nothing, and a
      data line with ISO3 makes its row the record for that code, overwriting an
      earlier one, while every other code keeps its record. */
  lemma GeonamesNextLine(lines: seq<string>, line: string, code: string)
    ensures var before, after := ParseGeonames(lines), ParseGeonames(lines + [line]);
      && (IsComment(line) ==> after == before.(header := Split(Strip(line[1..]), '\t')))
      && (!IsComment(line) ==> after.header == before.header)
      && (!IsComment(line) && !IsBlank(line) ==>
            var row := DataRow(before.header, line);
            if Truthy(GetOpt(row, "ISO3")) then
              && Lookup(after.records, Upper(row["ISO3"])) == Some(row)
              && (code != Upper(row["ISO3"]) ==> Lookup(after.records, code) == Lookup(before.records, code))
            else after == before)
      && (!IsComment(line) && IsBlank(line) ==> after == before)
  {
    assert (lines + [line])[..|lines|] == lines;
    var before := ParseGeonames(lines);
    if !IsComment(line) && !IsBlank(line) {
      var row := DataRow(before.header, line);
      if Truthy(GetOpt(row, "ISO3")) {
        LookupInsert(before.records, Upper(row["ISO3"]), row, code);
      }
    }
  }

  // ----- build_country_entry -----

  /** A REST Countries record, the fields `build_country_entry` reads; a missing
      list is empty. */
  datatype RestEntry = RestEntry(
    cca2: Option<string>,
    flag: Option<string>,
    capital: seq<string>,
    capitalLatLng: seq<real>,
    latLng: seq<real>,
    flagSvg: Option<string>,
    googleMaps: Option<string>,
    region: Option<string>,
    subregion: Option<string>)

  /** One record of the output list. */
  datatype CountryEntry = CountryEntry(
    iso3: string,
    iso2: Option<string>,
    country: string,
    population: int,
    weight: real,
    cumulativeWeight: real,
    capital: Option<string>,
    capitalLatLng: seq<real>,
    latLng: seq<real>,
    flag: Option<string>,
    flagEmoji: Option<string>,
    mapUrl: Option<string>,
    region: Option<string>,
    subregion: Option<string>,
    spotlightCity: Option<string>)

  /** `int(row["population"])`. */
  function ParsePopulation(row: Row, parseInt: string -> Option<int>): (r: Result<int, PyError>)
    ensures "population" !in row ==> r == Err(KeyError)
    ensures "population" in row ==>
      if parseInt(row["population"]).Some? then r == Ok(parseInt(row["population"]).value) else r == Err(ValueError)
  {
    if "population" !in row then Err(KeyError)
    else match parseInt(row["population"])
      case None => Err(ValueError)
      case Some(p) => Ok(p)
  }

  function FirstOf(xs: seq<string>): Option<string> {
    if xs == [] then None else Some(xs[0])
  }

  /** `build_country_entry`: the entry and the new running total. Errors come
      in the order Python meets them: the population cell, the division, and
      then the flag emoji (only computed when REST has no `flag`). */
  function BuildCountryEntry(row: Row, iso3: string, geonames: Dict<string, Row>, rest: RestEntry,
                             total: int, cumulative: real, parseInt: string -> Option<int>)
    : (r: Result<(CountryEntry, real), PyError>)
    ensures ParsePopulation(row, parseInt).Err? ==> r == Err(ParsePopulation(row, parseInt).error)
    ensures ParsePopulation(row, parseInt).Ok? && total == 0 ==> r == Err(ZeroDivisionError)
    ensures ParsePopulation(row, parseInt).Ok? && total != 0 && !Truthy(rest.flag) && FlagEmoji(rest.cca2).Err? ==>
      r == Err(ValueError)
    ensures r.Ok? ==>
      var population := ParsePopulation(row, parseInt).value;
      var entry := r.value.0;
      && ParsePopulation(row, parseInt).Ok? && total != 0
      && entry.iso3 == iso3 && entry.iso2 == rest.cca2 && entry.country == Get(row, "location", "")
      && entry.population == population
      && entry.weight == population as real / total as real
      && r.value.1 == cumulative + entry.weight && entry.cumulativeWeight == r.value.1
  {
    match ParsePopulation(row, parseInt)
    case Err(e) => Err(e)
    case Ok(population) =>
      if total == 0 then Err(ZeroDivisionError)
      else
        var weight := population as real / total as real;
        var next := cumulative + weight;
        var geo := Lookup(geonames, iso3).GetOr(map[]);
        var emoji := if Truthy(rest.flag) then Ok(rest.flag) else FlagEmoji(rest.cca2);
        if emoji.Err? then Err(emoji.error)
        else
          Ok((CountryEntry(
                iso3 := iso3,
                iso2 := rest.cca2,
                country := Get(row, "location", ""),
                population := population,
                weight := weight,
                cumulativeWeight := next,
                capital := OrElse(GetOpt(geo, "Capital"), FirstOf(rest.capital)),
                capitalLatLng := rest.capitalLatLng,
                latLng := if rest.latLng != [] then rest.latLng else rest.capitalLatLng,
                flag := rest.flagSvg,
                flagEmoji := emoji.value,
                mapUrl := rest.googleMaps,
                region := OrElse(rest.region, GetOpt(geo, "Continent")),
                subregion := OrElse(rest.subregion, GetOpt(geo, "Subregion")),
                spotlightCity := FirstOf(rest.capital)),
              next))
  }

  /** The capital is GeoNames' `Capital` when it is non-empty, else the first
      REST capital, else none; the spotlight city is the first REST capital;
      the emoji is REST's own `flag` when non-empty, else the one built from
      `cca2`; the region and subregion prefer REST over GeoNames. */
  lemma EntryFieldSources(row: Row, iso3: string, geonames: Dict<string, Row>, rest: RestEntry,
                          total: int, cumulative: real, parseInt: string -> Option<int>)
    requires BuildCountryEntry(row, iso3, geonames, rest, total, cumulative, parseInt).Ok?
    ensures var entry := BuildCountryEntry(row, iso3, geonames, rest, total, cumulative, parseInt).value.0;
      var geo := if Lookup(geonames, iso3).Some? then Lookup(geonames, iso3).value else map[];
      && (Truthy(GetOpt(geo, "Capital")) ==> entry.capital == GetOpt(geo, "Capital"))
      && (!Truthy(GetOpt(geo, "Capital")) && rest.capital != [] ==> entry.capital == Some(rest.capital[0]))
      && (!Truthy(GetOpt(geo, "Capital")) && rest.capital == [] ==> entry.capital == None)
      && (entry.spotlightCity.Some? <==> rest.capital != [])
      && (rest.capital != [] ==> entry.spotlightCity == Some(rest.capital[0]))
      && (Truthy(rest.flag) ==> entry.flagEmoji == rest.flag)
      && (!Truthy(rest.flag) ==> Ok(entry.flagEmoji) == FlagEmoji(rest.cca2))
      && (Truthy(rest.region) ==> entry.region == rest.region)
      && (!Truthy(rest.region) ==> entry.region == GetOpt(geo, "Continent"))
      && (entry.latLng == [] ==> rest.latLng == [] && rest.capitalLatLng == [])
  {
  }

  // ----- the accumulation loop of main -----

  /** `sum(int(row["population"]) for row in population)`, failing at the first bad row. */
  function TotalPopulation(rows: seq<Row>, parseInt: string -> Option<int>): (r: Result<int, PyError>)
    ensures r.Ok? <==> forall i :: 0 <= i < |rows| ==> ParsePopulation(rows[i], parseInt).Ok?
  {
    if rows == [] then Ok(0)
    else match ParsePopulation(rows[0], parseInt)
      case Err(e) => Err(e)
      case Ok(p) =>
        match TotalPopulation(rows[1..], parseInt)
        case Err(e) => Err(e)
        case Ok(s) => Ok(p + s)
  }

  /** The ISO3 code a row resolves to, when it is non-empty and REST knows it. */
  predicate Kept(row: Row, geonames: Dict<string, Row>, rest: map<string, RestEntry>) {
    var iso3 := IsoFromPopulation(row, geonames).0;
    Truthy(iso3) && iso3.value in rest
  }

  function KeptRows(rows: seq<Row>, geonames: Dict<string, Row>, rest: map<string, RestEntry>): seq<Row> {
    if rows == [] then []
    else (if Kept(rows[0], geonames, rest) then [rows[0]] else []) + KeptRows(rows[1..], geonames, rest)
  }

  /** The entries the loop appends from `rows` on, starting from the running total `cumulative`. */
  function Accumulate(rows: seq<Row>, geonames: Dict<string, Row>, rest: map<string, RestEntry>,
                      total: int, cumulative: real, parseInt: string -> Option<int>): (r: Result<seq<CountryEntry>, PyError>)
    ensures r.Ok? ==> |r.value| <= |rows|
  {
    if rows == [] then Ok([])
    else if !Kept(rows[0], geonames, rest) then Accumulate(rows[1..], geonames, rest, total, cumulative, parseInt)
    else
      var iso3 := IsoFromPopulation(rows[0], geonames).0.value;
      match BuildCountryEntry(rows[0], iso3, geonames, rest[iso3], total, cumulative, parseInt)
      case Err(e) => Err(e)
      case Ok(built) =>
        match Accumulate(rows[1..], geonames, rest, total, built.1, parseInt)
        case Err(e) => Err(e)
        case Ok(entries) => Ok([built.0] + entries)
  }

  /** `prefix` followed by the outcome of the rest of the loop. */
  function Then(prefix: seq<CountryEntry>, r: Result<seq<CountryEntry>, PyError>): Result<seq<CountryEntry>, PyError> {
    match r
    case Err(e) => Err(e)
    case Ok(entries) => Ok(prefix + entries)
  }

  /** One row of the loop: a skipped row leaves the outcome to the rest; a kept
      row contributes its entry first, or ends the loop with its error. */
  lemma AccumulateStep(rows: seq<Row>, geonames: Dict<string, Row>, rest: map<string, RestEntry>,
                       total: int, cumulative: real, parseInt: string -> Option<int>)
    requires rows != []
    ensures !Kept(rows[0], geonames, rest) ==>
      Accumulate(rows, geonames, rest, total, cumulative, parseInt)
        == Accumulate(rows[1..], geonames, rest, total, cumulative, parseInt)
    ensures Kept(rows[0], geonames, rest) ==>
      var iso3 := IsoFromPopulation(rows[0], geonames).0.value;
      var built := BuildCountryEntry(rows[0], iso3, geonames, rest[iso3], total, cumulative, parseInt);
      && (built.Err? ==> Accumulate(rows, geonames, rest, total, cumulative, parseInt) == Err(built.error))
      && (built.Ok? ==>
            Accumulate(rows, geonames, rest, total, cumulative, parseInt)
              == Then([built.value.0], Accumulate(rows[1..], geonames, rest, total, built.value.1, parseInt)))
  {
  }

  lemma ThenThen(a: seq<CountryEntry>, b: seq<CountryEntry>, r: Result<seq<CountryEntry>, PyError>)
    ensures Then(a, Then(b, r)) == Then(a + b, r)
  {
    if r.Ok? {
      assert a + (b + r.value) == (a + b) + r.value;
    }
  }

  /** The loop of `main`: the total over all rows, then one entry per kept row
      with the cumulative weight threaded through. */
  method MergeCountries(population: seq<Row>, geonames: Dict<string, Row>, rest: map<string, RestEntry>,
                        parseInt: string -> Option<int>)
    returns (r: Result<seq<CountryEntry>, PyError>)
    ensures TotalPopulation(population, parseInt).Err? ==> r == Err(TotalPopulation(population, parseInt).error)
    ensures TotalPopulation(population, parseInt).Ok? ==>
      r == Accumulate(population, geonames, rest, TotalPopulation(population, parseInt).value, 0.0, parseInt)
  {
    var sum := TotalPopulation(population, parseInt);
    if sum.Err? {
      return Err(sum.error);
    }
    var total := sum.value;
    var cumulative := 0.0;
    var enriched: seq<CountryEntry> := [];
    assert population[0..] == population;
    assert Then([], Accumulate(population, geonames, rest, total, 0.0, parseInt))
      == Accumulate(population, geonames, rest, total, 0.0, parseInt) by {
      var a := Accumulate(population, geonames, rest, total, 0.0, parseInt);
      if a.Ok? {
        assert [] + a.value == a.value;
      }
    }
    for i := 0 to |population|
      invariant Accumulate(population, geonames, rest, total, 0.0, parseInt) ==
        Then(enriched, Accumulate(population[i..], geonames, rest, total, cumulative, parseInt))
    {
      assert population[i..][1..] == population[i + 1..];
      AccumulateStep(population[i..], geonames, rest, total, cumulative, parseInt);
      var row := population[i];
      var iso3 := IsoFromPopulation(row, geonames).0;
      if iso3.None? || iso3.value == [] {
        continue;
      }
      if iso3.value !in rest {
        continue;
      }
      var built := BuildCountryEntry(row, iso3.value, geonames, rest[iso3.value], total, cumulative, parseInt);
      if built.Err? {
        return Err(built.error);
      }
      ThenThen(enriched, [built.value.0], Accumulate(population[i + 1..], geonames, rest, total, built.value.1, parseInt));
      enriched := enriched + [built.value.0];
      cumulative := built.value.1;
    }
    assert population[|population|..] == [];
    assert enriched + [] == enriched;
    r := Ok(enriched);
  }

  /** `entry` was built from `row`: same code, name and population. */
  predicate EntryOf(entry: CountryEntry, row: Row, geonames: Dict<string, Row>, parseInt: string -> Option<int>) {
    && Some(entry.iso3) == IsoFromPopulation(row, geonames).0
    && entry.country == Get(row, "location", "")
    && Ok(entry.population) == ParsePopulation(row, parseInt)
  }

  /** One entry per row, in order, each built from its row. */
  predicate Follows(entries: seq<CountryEntry>, kept: seq<Row>, geonames: Dict<string, Row>, parseInt: string -> Option<int>) {
    && |entries| == |kept|
    && forall k :: 0 <= k < |entries| ==> EntryOf(entries[k], kept[k], geonames, parseInt)
  }

  lemma PrependFollows(e: CountryEntry, row: Row, entries: seq<CountryEntry>, kept: seq<Row>,
                       geonames: Dict<string, Row>, parseInt: string -> Option<int>)
    requires EntryOf(e, row, geonames, parseInt) && Follows(entries, kept, geonames, parseInt)
    ensures Follows([e] + entries, [row] + kept, geonames, parseInt)
  {
    var es, ks := [e] + entries, [row] + kept;
    forall k | 0 < k < |es|
      ensures EntryOf(es[k], ks[k], geonames, parseInt)
    {
      assert es[k] == entries[k - 1] && ks[k] == kept[k - 1];
    }
  }

  /** Rows are skipped exactly when they have no usable ISO3 or no REST entry;
      the entries follow the kept rows in order, each built from its row. */
  lemma {:induction false} AccumulateFollowsKeptRows(rows: seq<Row>, geonames: Dict<string, Row>,
      rest: map<string, RestEntry>, total: int, cumulative: real, parseInt: string -> Option<int>)
    requires Accumulate(rows, geonames, rest, total, cumulative, parseInt).Ok?
    ensures Follows(Accumulate(rows, geonames, rest, total, cumulative, parseInt).value,
                    KeptRows(rows, geonames, rest), geonames, parseInt)
    decreases |rows|
  {
    if rows != [] {
      if !Kept(rows[0], geonames, rest) {
        AccumulateStep(rows, geonames, rest, total, cumulative, parseInt);
        assert KeptRows(rows, geonames, rest) == KeptRows(rows[1..], geonames, rest);
        AccumulateFollowsKeptRows(rows[1..], geonames, rest, total, cumulative, parseInt);
      } else {
        var e, next := KeptEntry(rows, geonames, rest, total, cumulative, parseInt);
        AccumulateFollowsKeptRows(rows[1..], geonames, rest, total, next, parseInt);
        assert KeptRows(rows, geonames, rest) == [rows[0]] + KeptRows(rows[1..], geonames, rest);
        PrependFollows(e, rows[0], Accumulate(rows[1..], geonames, rest, total, next, parseInt).value,
                       KeptRows(rows[1..], geonames, rest), geonames, parseInt);
      }
    }
  }

  /** Each entry's cumulative weight is the previous one plus its own weight:
      the running sum over the kept rows only. */
  lemma {:induction false} CumulativeIsRunningSum(rows: seq<Row>, geonames: Dict<string, Row>,
      rest: map<string, RestEntry>, total: int, cumulative: real, parseInt: string -> Option<int>)
    requires Accumulate(rows, geonames, rest, total, cumulative, parseInt).Ok?
    ensures var entries := Accumulate(rows, geonames, rest, total, cumulative, parseInt).value;
      && (entries != [] ==> entries[0].cumulativeWeight == cumulative + entries[0].weight)
      && forall k :: 0 < k < |entries| ==>
           entries[k].cumulativeWeight == entries[k - 1].cumulativeWeight + entries[k].weight
    decreases |rows|
  {
    if rows != [] {
      AccumulateStep(rows, geonames, rest, total, cumulative, parseInt);
      if !Kept(rows[0], geonames, rest) {
        CumulativeIsRunningSum(rows[1..], geonames, rest, total, cumulative, parseInt);
      } else {
        var iso3 := IsoFromPopulation(rows[0], geonames).0.value;
        var built := BuildCountryEntry(rows[0], iso3, geonames, rest[iso3], total, cumulative, parseInt).value;
        CumulativeIsRunningSum(rows[1..], geonames, rest, total, built.1, parseInt);
        var tail := Accumulate(rows[1..], geonames, rest, total, built.1, parseInt).value;
        var entries := [built.0] + tail;
        forall k | 0 < k < |entries|
          ensures entries[k].cumulativeWeight == entries[k - 1].cumulativeWeight + entries[k].weight
        {
          assert entries[k] == tail[k - 1];
          if k > 1 {
            assert entries[k - 1] == tail[k - 2];
          }
        }
      }
    }
  }

  /** No population is negative. */
  predicate NonNegative(rows: seq<Row>, parseInt: string -> Option<int>) {
    forall i :: 0 <= i < |rows| ==> ParsePopulation(rows[i], parseInt).Ok? && ParsePopulation(rows[i], parseInt).value >= 0
  }

  lemma NonNegativeTail(rows: seq<Row>, parseInt: string -> Option<int>)
    requires rows != [] && NonNegative(rows, parseInt)
    ensures ParsePopulation(rows[0], parseInt).Ok? && ParsePopulation(rows[0], parseInt).value >= 0
    ensures NonNegative(rows[1..], parseInt)
  {
    forall i | 0 <= i < |rows[1..]|
      ensures ParsePopulation(rows[1..][i], parseInt).Ok? && ParsePopulation(rows[1..][i], parseInt).value >= 0
    {
      assert rows[1..][i] == rows[i + 1];
    }
  }

  lemma DivideSum(a: real, b: real, t: real)
    requires t > 0.0
    ensures a / t + b / t == (a + b) / t
  {
  }

  lemma DivideMonotone(a: real, b: real, t: real)
    requires t > 0.0 && a <= b
    ensures a / t <= b / t
  {
  }

  /** Every weight is non-negative and every cumulative weight lies in [lo, hi]. */
  predicate CumulativeBetween(entries: seq<CountryEntry>, lo: real, hi: real) {
    forall k :: 0 <= k < |entries| ==> entries[k].weight >= 0.0 && lo <= entries[k].cumulativeWeight <= hi
  }

  lemma BetweenWiden(entries: seq<CountryEntry>, lo: real, hi: real, hi2: real)
    requires CumulativeBetween(entries, lo, hi) && hi <= hi2
    ensures CumulativeBetween(entries, lo, hi2)
  {
  }

  /** An entry carrying weight `p / t` on top of `cumulative`, followed by entries
      within the remaining `restSum / t`, stays within `(p + restSum) / t`. */
  lemma PrependBetween(e: CountryEntry, tail: seq<CountryEntry>, cumulative: real, p: int, restSum: int, sum: int, total: int)
    requires total > 0 && p >= 0 && restSum >= 0 && p + restSum == sum
    requires e.weight == p as real / total as real && e.cumulativeWeight == cumulative + e.weight
    requires CumulativeBetween(tail, e.cumulativeWeight, e.cumulativeWeight + restSum as real / total as real)
    ensures CumulativeBetween([e] + tail, cumulative, cumulative + sum as real / total as real)
  {
    var t := total as real;
    assert sum as real == p as real + restSum as real;
    DivideSum(p as real, restSum as real, t);
    DivideMonotone(0.0, p as real, t);
    DivideMonotone(0.0, restSum as real, t);
    var entries := [e] + tail;
    forall k | 0 <= k < |entries|
      ensures entries[k].weight >= 0.0 && cumulative <= entries[k].cumulativeWeight <= cumulative + sum as real / t
    {
      if k > 0 {
        assert entries[k] == tail[k - 1];
      }
    }
  }

  /** A kept row that the loop gets past contributes an entry weighing its
      share of the total, on top of `cumulative`. */
  lemma KeptEntry(rows: seq<Row>, geonames: Dict<string, Row>, rest: map<string, RestEntry>,
                  total: int, cumulative: real, parseInt: string -> Option<int>)
    returns (e: CountryEntry, next: real)
    requires rows != [] && Kept(rows[0], geonames, rest)
    requires Accumulate(rows, geonames, rest, total, cumulative, parseInt).Ok?
    ensures ParsePopulation(rows[0], parseInt).Ok? && total != 0
    ensures e.weight == ParsePopulation(rows[0], parseInt).value as real / total as real
    ensures e.cumulativeWeight == next == cumulative + e.weight
    ensures EntryOf(e, rows[0], geonames, parseInt)
    ensures Accumulate(rows[1..], geonames, rest, total, next, parseInt).Ok?
    ensures Accumulate(rows, geonames, rest, total, cumulative, parseInt).value
      == [e] + Accumulate(rows[1..], geonames, rest, total, next, parseInt).value
  {
    AccumulateStep(rows, geonames, rest, total, cumulative, parseInt);
    var iso3 := IsoFromPopulation(rows[0], geonames).0.value;
    var built := BuildCountryEntry(rows[0], iso3, geonames, rest[iso3], total, cumulative, parseInt).value;
    e, next := built.0, built.1;
  }

  /** The total splits into the first row's population and the rest's total. */
  lemma TotalSplit(rows: seq<Row>, sum: int, parseInt: string -> Option<int>)
    requires rows != [] && TotalPopulation(rows, parseInt) == Ok(sum)
    ensures ParsePopulation(rows[0], parseInt).Ok?
    ensures TotalPopulation(rows[1..], parseInt) == Ok(sum - ParsePopulation(rows[0], parseInt).value)
  {
  }

  /** Starting from `cumulative`, every running total stays between `cumulative`
      and `cumulative + sum / total`, where `sum` counts skipped rows too, and
      every weight is non-negative. */
  lemma {:induction false} CumulativeWithin(rows: seq<Row>, geonames: Dict<string, Row>,
      rest: map<string, RestEntry>, total: int, cumulative: real, sum: int, parseInt: string -> Option<int>)
    requires total > 0 && NonNegative(rows, parseInt) && TotalPopulation(rows, parseInt) == Ok(sum)
    requires Accumulate(rows, geonames, rest, total, cumulative, parseInt).Ok?
    ensures CumulativeBetween(Accumulate(rows, geonames, rest, total, cumulative, parseInt).value,
                              cumulative, cumulative + sum as real / total as real)
    decreases |rows|, 1
  {
    if rows != [] {
      TotalSplit(rows, sum, parseInt);
      NonNegativeTail(rows, parseInt);
      TotalNonNegative(rows[1..], parseInt);
      if Kept(rows[0], geonames, rest) {
        KeptWithin(rows, geonames, rest, total, cumulative, sum, parseInt);
      } else {
        AccumulateStep(rows, geonames, rest, total, cumulative, parseInt);
        var restSum := sum - ParsePopulation(rows[0], parseInt).value;
        CumulativeWithin(rows[1..], geonames, rest, total, cumulative, restSum, parseInt);
        DivideMonotone(restSum as real, sum as real, total as real);
        BetweenWiden(Accumulate(rows[1..], geonames, rest, total, cumulative, parseInt).value,
                     cumulative, cumulative + restSum as real / total as real, cumulative + sum as real / total as real);
      }
    }
  }

  /** The step of `CumulativeWithin` for a kept first row. */
  lemma {:induction false} KeptWithin(rows: seq<Row>, geonames: Dict<string, Row>,
      rest: map<string, RestEntry>, total: int, cumulative: real, sum: int, parseInt: string -> Option<int>)
    requires rows != [] && Kept(rows[0], geonames, rest)
    requires total > 0 && NonNegative(rows, parseInt) && TotalPopulation(rows, parseInt) == Ok(sum)
    requires Accumulate(rows, geonames, rest, total, cumulative, parseInt).Ok?
    ensures CumulativeBetween(Accumulate(rows, geonames, rest, total, cumulative, parseInt).value,
                              cumulative, cumulative + sum as real / total as real)
    decreases |rows|, 0
  {
    TotalSplit(rows, sum, parseInt);
    NonNegativeTail(rows, parseInt);
    TotalNonNegative(rows[1..], parseInt);
    var p := ParsePopulation(rows[0], parseInt).value;
    var restSum := sum - p;
    var e, next := KeptEntry(rows, geonames, rest, total, cumulative, parseInt);
    CumulativeWithin(rows[1..], geonames, rest, total, next, restSum, parseInt);
    var tail := Accumulate(rows[1..], geonames, rest, total, next, parseInt).value;
    PrependBetween(e, tail, cumulative, p, restSum, sum, total);
  }

  /** The loop fails on a zero total as soon as it keeps a row. */
  lemma {:induction false} EntriesNeedTotal(rows: seq<Row>, geonames: Dict<string, Row>,
      rest: map<string, RestEntry>, total: int, cumulative: real, parseInt: string -> Option<int>)
    requires Accumulate(rows, geonames, rest, total, cumulative, parseInt).Ok?
    requires Accumulate(rows, geonames, rest, total, cumulative, parseInt).value != []
    ensures total != 0
    decreases |rows|
  {
    if rows != [] {
      AccumulateStep(rows, geonames, rest, total, cumulative, parseInt);
      if !Kept(rows[0], geonames, rest) {
        EntriesNeedTotal(rows[1..], geonames, rest, total, cumulative, parseInt);
      }
    }
  }

  lemma {:induction false} TotalNonNegative(rows: seq<Row>, parseInt: string -> Option<int>)
    requires NonNegative(rows, parseInt) && TotalPopulation(rows, parseInt).Ok?
    ensures TotalPopulation(rows, parseInt).value >= 0
    decreases |rows|
  {
    if rows != [] {
      NonNegativeTail(rows, parseInt);
      TotalNonNegative(rows[1..], parseInt);
    }
  }

  /** With no negative populations, the cumulative weights of the merged list
      never decrease and lie in [0, 1]: the total also counts the rows that
      were skipped, so the last one may stay below 1. */
  lemma MergedCumulativeWithinUnit(population: seq<Row>, geonames: Dict<string, Row>,
      rest: map<string, RestEntry>, parseInt: string -> Option<int>)
    requires NonNegative(population, parseInt)
    requires TotalPopulation(population, parseInt).Ok?
    requires Accumulate(population, geonames, rest, TotalPopulation(population, parseInt).value, 0.0, parseInt).Ok?
    ensures var entries := Accumulate(population, geonames, rest, TotalPopulation(population, parseInt).value, 0.0, parseInt).value;
      && (forall k :: 0 <= k < |entries| ==> 0.0 <= entries[k].cumulativeWeight <= 1.0)
      && (forall k :: 0 < k < |entries| ==> entries[k - 1].cumulativeWeight <= entries[k].cumulativeWeight)
  {
    var total := TotalPopulation(population, parseInt).value;
    var entries := Accumulate(population, geonames, rest, total, 0.0, parseInt).value;
    if entries != [] {
      EntriesNeedTotal(population, geonames, rest, total, 0.0, parseInt);
      TotalNonNegative(population, parseInt);
      CumulativeWithin(population, geonames, rest, total, 0.0, total, parseInt);
      CumulativeIsRunningSum(population, geonames, rest, total, 0.0, parseInt);
      DivideSelf(total as real);
      assert CumulativeBetween(entries, 0.0, 1.0);
    }
  }

  lemma DivideSelf(t: real)
    requires t > 0.0
    ensures t / t == 1.0
  {
  }
}
