/** `normalize_population` of `fetch_population.py`: filters the rows of a UN
    World Population Prospects table (columns `Time`, `Variant`, `Sex`, ...)
    or of a World Bank style table (columns `Year`, `Value`, ...) down to one
    target year, variant and sex, and turns each surviving row into a
    normalised record. Number parsing is given by the caller: `yearOf` is
    `int(float(s))` and `scaled` is `int(round(float(s) * value_scale))`, each
    failing with the exception Python raises for that text. */
module FetchPopulation {
  import opened Common
  import opened PyText

  /** The columns tried, in order, for the population of a UN row. */
  const POPULATION_KEYS: seq<string> := ["PopTotal", "Pop1Jan", "Pop1Jul", "Value"]

  /** One output row: `location`, `iso3`, `loc_id`, `population`. */
  datatype PopRecord = PopRecord(location: string, iso3: string, locId: string, population: string)

  /** The arguments of `normalize_population` besides the rows. */
  datatype Request = Request(
    year: int,
    variant: string,
    sex: string,
    yearOf: string -> Result<int, PyError>,
    scaled: string -> Result<int, PyError>)

  /** What the loop does with one row: append a record, `continue`, or let an exception escape. */
  datatype RowOutcome = Keep(record: PopRecord) | Skip | Fail(error: PyError)

  /** `row.get("Time")`: the row is in the UN format. */
  predicate HasTime(row: Row) {
    Truthy(GetOpt(row, "Time"))
  }

  /** `row.get("Year")`: the row is in the World Bank format. */
  predicate HasYear(row: Row) {
    Truthy(GetOpt(row, "Year"))
  }

  /** `row.get(column) and row[column].strip().lower() != wanted.lower()`. */
  predicate Mismatch(row: Row, column: string, wanted: string) {
    Truthy(GetOpt(row, column)) && Lower(Strip(row[column])) != Lower(wanted)
  }

  /** `value and value.strip()` for `value = row.get(key)`: the cell is present and not blank. */
  predicate FilledAt(row: Row, key: string) {
    key in row && !IsBlank(row[key])
  }

  /** The position of the first column whose cell is present and not blank. */
  function FirstNonBlank(row: Row, keys: seq<string>): (r: Option<nat>)
    ensures r.Some? ==> r.value < |keys| && FilledAt(row, keys[r.value])
    ensures r.Some? ==> forall j :: 0 <= j < r.value ==> !FilledAt(row, keys[j])
    ensures r.None? ==> forall j :: 0 <= j < |keys| ==> !FilledAt(row, keys[j])
  {
    FirstMatch(keys, key => FilledAt(row, key))
  }

  /** The first cell among `keys` that is present and not blank. */
  function FirstFilledText(row: Row, keys: seq<string>): (r: Option<string>)
    ensures r.Some? ==> r.value != []
  {
    match FirstNonBlank(row, keys)
    case None => None
    case Some(i) => Some(row[keys[i]])
  }

  /** The text the population is read from, if there is one: for a UN row the
      first non-blank of `PopTotal`, `Pop1Jan`, `Pop1Jul`, `Value`; otherwise
      `row.get("Value") or row.get("population")` when that is non-empty. */
  function PopulationSource(row: Row): (r: Option<string>)
    ensures Truthy(r) <==> r.Some?
  {
    if HasTime(row) then FirstFilledText(row, POPULATION_KEYS)
    else
      var v := OrElse(GetOpt(row, "Value"), GetOpt(row, "population"));
      if Truthy(v) then v else None
  }

  /** The ISO3 column: `ISO3 Alpha-code`, else `ISO3`, for a UN row; `Country Code` otherwise. */
  function IsoCode(row: Row): string {
    if HasTime(row) then
      (if Truthy(GetOpt(row, "ISO3 Alpha-code")) then row["ISO3 Alpha-code"] else Get(row, "ISO3", ""))
    else Get(row, "Country Code", "")
  }

  /** The name column: `Location` for a UN row, `Country Name` otherwise. */
  function LocationName(row: Row): string {
    if HasTime(row) then Get(row, "Location", "") else Get(row, "Country Name", "")
  }

  /** The cell the year is read from. */
  function YearCell(row: Row): string
    requires HasTime(row) || HasYear(row)
  {
    if HasTime(row) then row["Time"] else row["Year"]
  }

  /** The body of the loop for one row. Rows with neither `Time` nor `Year` are
      skipped, and `Time` wins over `Year`; a UN row of another variant or sex
      is skipped; a row of another year is skipped, and a year that does not
      parse escapes as an exception; a row without population text, with text
      that is not a number (`ValueError`, caught), or with a population of at
      most 0 after scaling is skipped; any other failure of the scaling
      escapes. Fields are stripped, the population written in decimal. */
  function NormalizeRow(row: Row, req: Request): (r: RowOutcome)
    ensures !r.Skip? ==> HasTime(row) || HasYear(row)
    ensures r.Keep? ==> req.yearOf(YearCell(row)) == Ok(req.year)
  {
    if !HasTime(row) && !HasYear(row) then Skip
    else if HasTime(row) && (Mismatch(row, "Variant", req.variant) || Mismatch(row, "Sex", req.sex)) then Skip
    else YearOutcome(row, req)
  }

  /** The year test, for a row that passed the format and filter tests. */
  function YearOutcome(row: Row, req: Request): RowOutcome
    requires HasTime(row) || HasYear(row)
  {
    match req.yearOf(YearCell(row))
    case Err(e) => Fail(e)
    case Ok(y) => if y != req.year then Skip else PopulationOutcome(row, req.scaled)
  }

  /** The population test, for a row of the target year. */
  function PopulationOutcome(row: Row, scaled: string -> Result<int, PyError>): RowOutcome {
    match PopulationSource(row)
    case None => Skip
    case Some(text) =>
      match scaled(text)
      case Err(e) => if e == ValueError then Skip else Fail(e)
      case Ok(n) => if n <= 0 then Skip else Keep(RecordOf(row, n))
  }

  /** The record written for a kept row with population `n`. */
  function RecordOf(row: Row, n: nat): PopRecord {
    PopRecord(Strip(LocationName(row)), Strip(IsoCode(row)), Strip(Get(row, "LocID", "")), IntToString(n))
  }

  /** What the body of the loop decides for one row, stated by cases. */
  lemma RowOutcomeCases(row: Row, req: Request)
    ensures !HasTime(row) && !HasYear(row) ==> NormalizeRow(row, req) == Skip
    ensures HasTime(row) && (Mismatch(row, "Variant", req.variant) || Mismatch(row, "Sex", req.sex)) ==> NormalizeRow(row, req) == Skip
    ensures (HasTime(row) || HasYear(row)) && req.yearOf(YearCell(row)).Ok? && req.yearOf(YearCell(row)).value != req.year
      ==> NormalizeRow(row, req) == Skip
    ensures NormalizeRow(row, req).Keep? ==>
      && (HasTime(row) || HasYear(row))
      && req.yearOf(YearCell(row)) == Ok(req.year)
      && PopulationSource(row).Some?
      && req.scaled(PopulationSource(row).value).Ok?
      && req.scaled(PopulationSource(row).value).value > 0
      && NormalizeRow(row, req).record == RecordOf(row, req.scaled(PopulationSource(row).value).value)
    ensures NormalizeRow(row, req).Fail? ==>
      && (HasTime(row) || HasYear(row))
      && (|| req.yearOf(YearCell(row)) == Err(NormalizeRow(row, req).error)
          || (&& PopulationSource(row).Some?
              && req.scaled(PopulationSource(row).value) == Err(NormalizeRow(row, req).error)
              && NormalizeRow(row, req).error != ValueError))
  {
  }

  lemma KeptIsRecordOf(row: Row, req: Request) returns (n: nat)
    requires NormalizeRow(row, req).Keep?
    ensures n > 0 && NormalizeRow(row, req).record == RecordOf(row, n)
  {
    assert YearOutcome(row, req).Keep?;
    assert PopulationOutcome(row, req.scaled).Keep?;
    n := req.scaled(PopulationSource(row).value).value;
  }

  /** Where the text fields of a record come from: `Location` and
      `ISO3 Alpha-code`, else `ISO3`, for a UN row; `Country Name` and
      `Country Code` otherwise. */
  lemma SourceColumns(row: Row)
    ensures HasTime(row) ==>
      && LocationName(row) == Get(row, "Location", "")
      && IsoCode(row) == OrElse(GetOpt(row, "ISO3 Alpha-code"), Some(Get(row, "ISO3", ""))).value
    ensures !HasTime(row) ==>
      && LocationName(row) == Get(row, "Country Name", "")
      && IsoCode(row) == Get(row, "Country Code", "")
  {
  }

  /** The text fields of a kept row, by format. */
  lemma KeptRecordFields(row: Row, req: Request) returns (r: PopRecord)
    requires NormalizeRow(row, req).Keep?
    ensures r == NormalizeRow(row, req).record
    ensures HasTime(row) ==>
      && r.location == Strip(Get(row, "Location", ""))
      && r.iso3 == Strip(OrElse(GetOpt(row, "ISO3 Alpha-code"), Some(Get(row, "ISO3", ""))).value)
    ensures !HasTime(row) ==>
      && r.location == Strip(Get(row, "Country Name", ""))
      && r.iso3 == Strip(Get(row, "Country Code", ""))
  {
    var n := KeptIsRecordOf(row, req);
    r := RecordOf(row, n);
    SourceColumns(row);
  }

  // ----- the loop -----

  /** The skeleton of the loop, for any decision per row: records are appended
      in order, skipped rows add nothing, and the first escaping exception
      ends the loop. */
  function Collect(rows: seq<Row>, decide: Row -> RowOutcome): Result<seq<PopRecord>, PyError> {
    if rows == [] then Ok([])
    else
      match Collect(rows[..|rows| - 1], decide)
      case Err(e) => Err(e)
      case Ok(out) =>
        match decide(rows[|rows| - 1])
        case Keep(record) => Ok(out + [record])
        case Skip => Ok(out)
        case Fail(e) => Err(e)
  }

  /** The decision of `normalize_population` for each row. */
  function Decide(req: Request): Row -> RowOutcome {
    row => NormalizeRow(row, req)
  }

  /** The outcome of `normalize_population` over `rows`. */
  function NormalizeAll(rows: seq<Row>, req: Request): Result<seq<PopRecord>, PyError> {
    Collect(rows, Decide(req))
  }

  lemma CollectStep(rows: seq<Row>, i: nat, decide: Row -> RowOutcome)
    requires i < |rows|
    ensures Collect(rows[..i + 1], decide) ==
      match Collect(rows[..i], decide)
      case Err(e) => Err(e)
      case Ok(out) =>
        match decide(rows[i])
        case Keep(record) => Ok(out + [record])
        case Skip => Ok(out)
        case Fail(e) => Err(e)
  {
    assert rows[..i + 1][..i] == rows[..i];
  }

  /** Once an exception has escaped, later rows change nothing. */
  lemma {:induction false} ErrorPersists(rows: seq<Row>, i: nat, decide: Row -> RowOutcome)
    requires i <= |rows| && Collect(rows[..i], decide).Err?
    ensures Collect(rows, decide) == Collect(rows[..i], decide)
    decreases |rows| - i
  {
    if i < |rows| {
      CollectStep(rows, i, decide);
      ErrorPersists(rows, i + 1, decide);
    } else {
      assert rows[..i] == rows;
    }
  }

  /** The first non-blank column among `keys` is found by looking at each in turn. */
  lemma FirstNonBlankAt(row: Row, keys: seq<string>, k: nat)
    requires k < |keys| && FilledAt(row, keys[k])
    requires forall j :: 0 <= j < k ==> !FilledAt(row, keys[j])
    ensures FirstNonBlank(row, keys) == Some(k)
  {
    var r := FirstNonBlank(row, keys);
    assert r.Some? && r.value >= k;
    assert r.value <= k;
  }

  /** The body of the loop of `normalize_population` for one row: its
      `continue` guards, here returning `Skip`. */
  method NormalizeOne(row: Row, req: Request, variantLower: string, sexLower: string) returns (o: RowOutcome)
    requires variantLower == Lower(req.variant) && sexLower == Lower(req.sex)
    ensures o == NormalizeRow(row, req)
  {
    var yearText: string;
    if HasTime(row) {
      if Truthy(GetOpt(row, "Variant")) && Lower(Strip(row["Variant"])) != variantLower {
        return Skip;
      }
      if Truthy(GetOpt(row, "Sex")) && Lower(Strip(row["Sex"])) != sexLower {
        return Skip;
      }
      yearText := row["Time"];
    } else if HasYear(row) {
      yearText := row["Year"];
    } else {
      return Skip;
    }
    var year := req.yearOf(yearText);
    if year.Err? {
      return Fail(year.error);
    }
    if year.value != req.year {
      return Skip;
    }
    o := ScalePopulation(row, req.scaled);
  }

  /** The search for the population text of a row: for a UN row the first
      non-blank of the population columns, otherwise `Value or population`. */
  method FindPopulation(row: Row) returns (populationValue: Option<string>)
    ensures populationValue == PopulationSource(row)
  {
    if HasTime(row) {
      populationValue := SearchColumns(row, POPULATION_KEYS);
    } else {
      populationValue := OrElse(GetOpt(row, "Value"), GetOpt(row, "population"));
      if !Truthy(populationValue) {
        populationValue := None;
      }
    }
  }

  /** The inner loop over the columns `keys`, left at the first cell that is
      present and not blank. */
  method SearchColumns(row: Row, keys: seq<string>) returns (populationValue: Option<string>)
    ensures populationValue == FirstFilledText(row, keys)
  {
    populationValue := None;
    for k := 0 to |keys|
      invariant populationValue == None
      invariant forall j :: 0 <= j < k ==> !FilledAt(row, keys[j])
    {
      var value := GetOpt(row, keys[k]);
      if value.Some? && !IsBlank(value.value) {
        FirstNonBlankAt(row, keys, k);
        populationValue := value;
        break;
      }
    }
  }

  /** The `try`/`except ValueError` around the scaling, and the positivity test. */
  method ScalePopulation(row: Row, scaled: string -> Result<int, PyError>) returns (o: RowOutcome)
    ensures o == PopulationOutcome(row, scaled)
  {
    var populationValue := FindPopulation(row);
    if populationValue.None? {
      return Skip;
    }
    var population := scaled(populationValue.value);
    if population.Err? {
      if population.error == ValueError {
        return Skip;
      }
      return Fail(population.error);
    }
    if population.value <= 0 {
      return Skip;
    }
    var iso3 := IsoCode(row);
    var location := LocationName(row);
    o := Keep(PopRecord(Strip(location), Strip(iso3), Strip(Get(row, "LocID", "")), IntToString(population.value)));
  }

  /** `normalize_population`: rows in order, records appended, the first
      escaping exception propagated. */
  method NormalizePopulation(rows: seq<Row>, req: Request) returns (r: Result<seq<PopRecord>, PyError>)
    ensures r == NormalizeAll(rows, req)
  {
    var normalized: seq<PopRecord> := [];
    var variantLower := Lower(req.variant);
    var sexLower := Lower(req.sex);
    for i := 0 to |rows|
      invariant Collect(rows[..i], Decide(req)) == Ok(normalized)
    {
      CollectStep(rows, i, Decide(req));
      var outcome := NormalizeOne(rows[i], req, variantLower, sexLower);
      match outcome {
        case Skip =>
        case Fail(e) =>
          ErrorPersists(rows, i + 1, Decide(req));
          return Err(e);
        case Keep(record) =>
          normalized := normalized + [record];
      }
    }
    assert rows[..|rows|] == rows;
    r := Ok(normalized);
  }

  // ----- properties of the whole loop -----

  /** The output is the records of the kept rows, in input order: a
      subsequence of the input, taking every row that is kept. */
  lemma {:induction false} CollectKeepsOrder(rows: seq<Row>, decide: Row -> RowOutcome) returns (idx: seq<nat>)
    requires Collect(rows, decide).Ok?
    ensures var out := Collect(rows, decide).value;
      && |idx| == |out| && |out| <= |rows|
      && (forall k :: 0 <= k < |idx| ==> idx[k] < |rows| && decide(rows[idx[k]]) == Keep(out[k]))
      && (forall k, l :: 0 <= k < l < |idx| ==> idx[k] < idx[l])
      && (forall i :: 0 <= i < |rows| && decide(rows[i]).Keep? ==> i in idx)
    decreases |rows|
  {
    if rows == [] {
      idx := [];
    } else {
      var n := |rows| - 1;
      var front := rows[..n];
      var before := CollectKeepsOrder(front, decide);
      assert forall i :: 0 <= i < n ==> front[i] == rows[i];
      if decide(rows[n]).Keep? {
        idx := before + [n];
      } else {
        idx := before;
      }
    }
  }

  /** The loop fails exactly when some row lets an exception escape. */
  lemma {:induction false} CollectFailsIffSomeRowFails(rows: seq<Row>, decide: Row -> RowOutcome)
    ensures Collect(rows, decide).Err? <==> exists i :: 0 <= i < |rows| && decide(rows[i]).Fail?
    decreases |rows|
  {
    if rows != [] {
      var n := |rows| - 1;
      CollectFailsIffSomeRowFails(rows[..n], decide);
      if exists i :: 0 <= i < n && decide(rows[..n][i]).Fail? {
        var i :| 0 <= i < n && decide(rows[..n][i]).Fail?;
        assert rows[..n][i] == rows[i];
      }
      if exists i :: 0 <= i < |rows| && decide(rows[i]).Fail? {
        var i :| 0 <= i < |rows| && decide(rows[i]).Fail?;
        if i < n {
          assert rows[..n][i] == rows[i];
        }
      }
    }
  }

  /** An output record has stripped text fields and a population written as
      a positive decimal integer, without sign or leading zero. */
  predicate WellFormed(record: PopRecord) {
    && IsStripped(record.location)
    && IsStripped(record.iso3)
    && IsStripped(record.locId)
    && IsPositiveDecimal(record.population)
  }

  /** Text that `strip()` leaves as it is. */
  predicate IsStripped(s: string) {
    Strip(s) == s
  }

  /** The decimal text of a positive integer: digits only, without a leading zero. */
  predicate IsPositiveDecimal(s: string) {
    && s != []
    && s[0] != '0'
    && forall i :: 0 <= i < |s| ==> '0' <= s[i] <= '9'
  }

  lemma KeptRowWellFormed(row: Row, req: Request)
    requires NormalizeRow(row, req).Keep?
    ensures WellFormed(NormalizeRow(row, req).record)
  {
    var n := KeptIsRecordOf(row, req);
    RecordOfWellFormed(row, n);
  }

  lemma RecordOfWellFormed(row: Row, n: nat)
    requires n > 0
    ensures WellFormed(RecordOf(row, n))
  {
    StrippedOnce(LocationName(row));
    StrippedOnce(IsoCode(row));
    StrippedOnce(Get(row, "LocID", ""));
    PositiveDecimal(n);
  }

  lemma StrippedOnce(s: string)
    ensures IsStripped(Strip(s))
  {
    StripIdempotent(s);
  }

  lemma PositiveDecimal(n: nat)
    requires n > 0
    ensures IsPositiveDecimal(IntToString(n))
  {
  }

  /** The output of `normalize_population` keeps input order, is no longer than
      the input, takes every kept row, and holds only well-formed records. */
  lemma NormalizedRecords(rows: seq<Row>, req: Request) returns (idx: seq<nat>)
    requires NormalizeAll(rows, req).Ok?
    ensures var out := NormalizeAll(rows, req).value;
      && |idx| == |out| && |out| <= |rows|
      && (forall k :: 0 <= k < |idx| ==> idx[k] < |rows| && NormalizeRow(rows[idx[k]], req) == Keep(out[k]))
      && (forall k, l :: 0 <= k < l < |idx| ==> idx[k] < idx[l])
      && (forall i :: 0 <= i < |rows| && NormalizeRow(rows[i], req).Keep? ==> i in idx)
      && (forall k :: 0 <= k < |out| ==> WellFormed(out[k]))
  {
    idx := CollectKeepsOrder(rows, Decide(req));
    var out := NormalizeAll(rows, req).value;
    forall k | 0 <= k < |out|
      ensures WellFormed(out[k])
    {
      KeptRowWellFormed(rows[idx[k]], req);
    }
  }

  /** `normalize_population` raises exactly when some row's year cannot be
      read or its population fails with anything but `ValueError`. */
  lemma NormalizeFailsIffSomeRowFails(rows: seq<Row>, req: Request)
    ensures NormalizeAll(rows, req).Err? <==> exists i :: 0 <= i < |rows| && NormalizeRow(rows[i], req).Fail?
  {
    CollectFailsIffSomeRowFails(rows, Decide(req));
  }

  /** The outcome for a UN row depends only on these cells. */
  lemma SameCellsSameOutcome(row: Row, other: Row, req: Request)
    requires HasTime(row) && HasTime(other)
    requires Mismatch(row, "Variant", req.variant) == Mismatch(other, "Variant", req.variant)
    requires Mismatch(row, "Sex", req.sex) == Mismatch(other, "Sex", req.sex)
    requires YearCell(row) == YearCell(other) && PopulationSource(row) == PopulationSource(other)
    requires IsoCode(row) == IsoCode(other) && LocationName(row) == LocationName(other)
    requires Get(row, "LocID", "") == Get(other, "LocID", "")
    ensures NormalizeRow(row, req) == NormalizeRow(other, req)
  {
  }

  /** `Time` takes precedence: the `Year` column of a UN row is never read. */
  lemma YearIgnoredWithTime(row: Row, req: Request, year: string)
    requires HasTime(row)
    ensures NormalizeRow(row["Year" := year], req) == NormalizeRow(row, req)
  {
    var other := row["Year" := year];
    FirstNonBlankIgnores(row, POPULATION_KEYS, "Year", year);
    assert HasTime(other);
    assert Mismatch(other, "Variant", req.variant) == Mismatch(row, "Variant", req.variant);
    assert Mismatch(other, "Sex", req.sex) == Mismatch(row, "Sex", req.sex);
    assert YearCell(other) == YearCell(row);
    assert PopulationSource(other) == PopulationSource(row);
    assert IsoCode(other) == IsoCode(row) && LocationName(other) == LocationName(row);
    assert Get(other, "LocID", "") == Get(row, "LocID", "");
    SameCellsSameOutcome(other, row, req);
  }

  /** The search for a population column only looks at the population columns. */
  lemma FirstNonBlankIgnores(row: Row, keys: seq<string>, column: string, v: string)
    requires column !in keys
    ensures FirstNonBlank(row[column := v], keys) == FirstNonBlank(row, keys)
  {
    FirstMatchAgree(keys, key => FilledAt(row[column := v], key), key => FilledAt(row, key));
  }
}
