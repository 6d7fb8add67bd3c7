/** The records the web app passes around: one row of the static country
    dataset and one completed roll. Coordinates and bounding boxes are only
    rendered, so they are not part of these records. */
module WebTypes {
  import opened Common
  import opened JsText

  /** One row of `/data/country-stats.json`. `population` and
      `cumulativeWeight` are optional because the app reads them through
      `?? 0`. */
  datatype CountryStat = CountryStat(
    iso2: Option<Utf16>,
    iso3: Utf16,
    country: Utf16,
    population: Option<int>,
    weight: real,
    cumulativeWeight: Option<real>,
    capital: Option<Utf16>,
    flag: Option<Utf16>,
    flagEmoji: Option<Utf16>,
    mapUrl: Option<Utf16>,
    region: Option<Utf16>,
    subregion: Option<Utf16>,
    spotlightCity: Option<Utf16>
  )

  /** One completed dice roll, with the display fields copied at roll time. */
  datatype RollRecord = RollRecord(
    id: Utf16,
    fullName: Utf16,
    country: Utf16,
    iso3: Utf16,
    probability: real,
    rolledAt: nat,
    seed: Utf16,
    capital: Option<Utf16>,
    city: Option<Utf16>,
    flag: Option<Utf16>,
    flagEmoji: Option<Utf16>,
    mapUrl: Option<Utf16>
  )
}
