/** The roll controller of `App`: the roll guard, the start of a roll, its
    timed resolution, the cosmetic ticker and the guarded clearing of the
    history. Browser timers are explicit: `timeouts` and `intervals` hold the
    timers this component has scheduled and not cleared, each with the values
    its callback closed over when it was created; a timer firing is an event
    (`ResolveRoll`, `Tick`) naming its handle. The clock and `Math.random`
    are parameters of those events. */
module RollController {
  import opened Common
  import opened JsText
  import Trimming
  import opened WebTypes
  import opened SeededSampler
  import opened RollHistoryStore
  import opened PopulationData

  /** Browser timer handles are positive integers. */
  type Handle = x: int | x > 0 witness 1

  const ROLL_DURATION_MS: nat := 2000
  const SAMPLE_INTERVAL_MS: nat := 180

  /** `canRoll`: more than two code units after trimming, dataset ready, no roll in progress. */
  predicate CanRoll(fullName: Utf16, status: Status, isRolling: bool)
    ensures CanRoll(fullName, status, isRolling) ==> |fullName| > 2 && status == Ready && !isRolling
  {
    |Trim(fullName)| > 2 && status == Ready && !isRolling
  }

  /** A name of at most two code units, or of whitespace only, never enables the roll. */
  lemma ShortOrBlankNameCannotRoll(fullName: Utf16, status: Status, isRolling: bool)
    requires |fullName| <= 2 || AllWhitespace(fullName)
    ensures !CanRoll(fullName, status, isRolling)
  {
    Trimming.TrimShape(fullName, IsWhitespace);
    if AllWhitespace(fullName) {
      Trimming.BlankTrimsToEmpty(fullName, IsWhitespace);
    }
  }

  /** Without surrounding whitespace, the guard is exactly: longer than two, ready, not rolling. */
  lemma CanRollUntrimmedName(fullName: Utf16, status: Status, isRolling: bool)
    requires fullName != [] && !IsWhitespace(fullName[0]) && !IsWhitespace(fullName[|fullName| - 1])
    ensures CanRoll(fullName, status, isRolling) <==> |fullName| > 2 && status == Ready && !isRolling
  {
    Trimming.TrimOfTrimmed(fullName, IsWhitespace);
  }

  /** The button is disabled for an empty name and enabled once "Grace Hopper" is typed. */
  lemma GraceHopperEnablesRoll()
    ensures !CanRoll([], Ready, false)
    ensures CanRoll(Units("Grace Hopper"), Ready, false)
  {
    var name := Units("Grace Hopper");
    assert name[0] == 0x47 && name[|name| - 1] == 0x72;
    CanRollUntrimmedName(name, Ready, false);
  }

  /** `country.spotlightCity || country.capital`: one of the two, and a non-empty
      city whenever either of them is one. */
  function City(country: CountryStat): (r: Option<Utf16>)
    ensures r == country.spotlightCity || r == country.capital
    ensures (r.Some? && r.value != []) <==>
      (country.spotlightCity.Some? && country.spotlightCity.value != []) || (country.capital.Some? && country.capital.value != [])
  {
    if country.spotlightCity.Some? && country.spotlightCity.value != [] then country.spotlightCity
    else country.capital
  }

  /** The record built at resolution from the picked country: the stored name is
      the trimmed typed name, the id and the seed are derived from it, the time and
      the code, and the remaining fields are the country's own. */
  function BuildRollRecord(country: CountryStat, fullName: Utf16, timestamp: nat): (r: RollRecord)
    ensures r.rolledAt == timestamp && r.iso3 == country.iso3 && r.country == country.country
    ensures r.probability == country.weight
    ensures r.id == Decimal(r.rolledAt) + [DASH] + r.iso3
    ensures r.fullName == Trimming.Trim(fullName, IsWhitespace)
    ensures r.seed == r.fullName + [PIPE] + Decimal(r.rolledAt)
    ensures r.capital == country.capital && r.city == City(country)
    ensures r.flag == country.flag && r.flagEmoji == country.flagEmoji && r.mapUrl == country.mapUrl
  {
    RollRecord(
      id := Decimal(timestamp) + [DASH] + country.iso3,
      fullName := Trim(fullName),
      country := country.country,
      iso3 := country.iso3,
      probability := country.weight,
      rolledAt := timestamp,
      seed := Trim(fullName) + [PIPE] + Decimal(timestamp),
      capital := country.capital,
      city := City(country),
      flag := country.flag,
      flagEmoji := country.flagEmoji,
      mapUrl := country.mapUrl
    )
  }

  /** A record carries the picked country's code, country name and weight, and its
      stored name and timestamp reproduce the very same pick on the same dataset. */
  lemma RecordReproducesPick(data: seq<CountryStat>, fullName: Utf16, timestamp: nat, country: CountryStat)
    requires PickCountryByWeight(data, GenerateRandomValue(fullName, timestamp)) == Some(country)
    ensures var r := BuildRollRecord(country, fullName, timestamp);
      && r.iso3 == country.iso3 && r.country == country.country && r.probability == country.weight
      && r.seed[..|r.fullName|] == r.fullName
      && PickCountryByWeight(data, GenerateRandomValue(r.fullName, r.rolledAt)) == Some(country)
  {
    var r := BuildRollRecord(country, fullName, timestamp);
    assert r.seed == r.fullName + [PIPE] + Decimal(timestamp);
    assert r.seed[..|r.fullName|] == r.fullName;
    TrimmedNameSameValue(fullName, timestamp);
    assert GenerateRandomValue(r.fullName, r.rolledAt) == GenerateRandomValue(fullName, timestamp);
  }

  /** The stored name has no surrounding whitespace. */
  lemma StoredNameTrimmed(country: CountryStat, fullName: Utf16, timestamp: nat)
    ensures Trimming.IsTrimmed(BuildRollRecord(country, fullName, timestamp).fullName, IsWhitespace)
  {
    Trimming.TrimShape(fullName, IsWhitespace);
  }

  /** The city shown is the spotlight city when there is a non-empty one, else the capital. */
  lemma CityPrefersSpotlight(country: CountryStat, fullName: Utf16, timestamp: nat)
    ensures var r := BuildRollRecord(country, fullName, timestamp);
      && (country.spotlightCity.Some? && country.spotlightCity.value != [] ==> r.city == country.spotlightCity)
      && (country.spotlightCity.None? || country.spotlightCity == Some([]) ==> r.city == country.capital)
  {
  }

  /** A record id `<timestamp>-<iso3>` determines both the roll time and the country code. */
  lemma IdDeterminesTimeAndCode(t1: nat, iso1: Utf16, t2: nat, iso2: Utf16)
    requires Decimal(t1) + [DASH] + iso1 == Decimal(t2) + [DASH] + iso2
    ensures t1 == t2 && iso1 == iso2
  {
    var d1, d2 := Decimal(t1), Decimal(t2);
    var id := d1 + [DASH] + iso1;
    DashFollowsDigits(d1, iso1);
    DashFollowsDigits(d2, iso2);
    assert |d1| == |d2|;
    assert d1 == id[..|d1|];
    assert d2 == (d2 + [DASH] + iso2)[..|d2|];
    assert iso1 == id[|d1| + 1..];
    assert iso2 == (d2 + [DASH] + iso2)[|d2| + 1..];
    DecimalInjective(t1, t2);
  }

  /** In `<digits>-<rest>` the first dash is the one right after the digits. */
  lemma DashFollowsDigits(digits: Utf16, rest: Utf16)
    requires forall i :: 0 <= i < |digits| ==> 0x30 <= digits[i] <= 0x39
    ensures forall i :: 0 <= i < |digits| ==> (digits + [DASH] + rest)[i] != DASH
    ensures (digits + [DASH] + rest)[|digits|] == DASH
  {
  }

  /** What the resolution timer's callback closed over when the roll started. */
  datatype PendingRoll = PendingRoll(fullName: Utf16, data: seq<CountryStat>)

  class App {
    var fullName: Utf16
    var latestRoll: Option<RollRecord>
    var isRolling: bool
    var rollingSample: Option<CountryStat>
    var animationRef: Option<Handle>
    var tickerRef: Option<Handle>
    var timeouts: map<Handle, PendingRoll>
    var intervals: map<Handle, seq<CountryStat>>
    const history: RollHistory
    const loader: DatasetLoader

    /** At most one resolution timer and one ticker are outstanding, each the one
        its ref names; nothing is scheduled while idle; the ticker only runs while
        a resolution is pending. */
    ghost predicate Valid()
      reads this, history
    {
      && history.Valid()
      && (forall h :: h in timeouts ==> animationRef == Some(h))
      && (forall h :: h in intervals ==> tickerRef == Some(h) && intervals[h] != [])
      && (!isRolling ==> timeouts == map[] && intervals == map[] && rollingSample == None)
      && (timeouts == map[] ==> intervals == map[])
    }

    constructor (history: RollHistory, loader: DatasetLoader)
      requires history.Valid()
      ensures this.history == history && this.loader == loader
      ensures fullName == [] && latestRoll == None && !isRolling && rollingSample == None
      ensures animationRef == None && tickerRef == None && timeouts == map[] && intervals == map[]
      ensures Valid()
    {
      this.history := history;
      this.loader := loader;
      fullName := [];
      latestRoll := None;
      isRolling := false;
      rollingSample := None;
      animationRef := None;
      tickerRef := None;
      timeouts := map[];
      intervals := map[];
    }

    /** The input's `onChange`. */
    method TypeName(value: Utf16)
      requires Valid()
      modifies this
      ensures fullName == value
      ensures latestRoll == old(latestRoll) && isRolling == old(isRolling) && rollingSample == old(rollingSample)
      ensures animationRef == old(animationRef) && tickerRef == old(tickerRef)
      ensures timeouts == old(timeouts) && intervals == old(intervals)
      ensures Valid()
    {
      fullName := value;
    }

    /** `handleRoll`. When the guard fails nothing changes. Otherwise a pending
        resolution timer is cleared, the roll starts, the ticker starts on a
        non-empty dataset (showing `data[sampleIndex]` first), and a single
        resolution timer is scheduled that closed over the current name and data. */
    method HandleRoll(timeoutHandle: Handle, tickerHandle: Handle, sampleIndex: nat)
      requires Valid()
      requires loader.data != [] ==> sampleIndex < |loader.data|
      modifies this
      ensures !CanRoll(old(fullName), loader.status, old(isRolling)) ==>
        && isRolling == old(isRolling) && rollingSample == old(rollingSample)
        && animationRef == old(animationRef) && tickerRef == old(tickerRef)
        && timeouts == old(timeouts) && intervals == old(intervals)
      ensures CanRoll(old(fullName), loader.status, old(isRolling)) ==>
        && isRolling
        && animationRef == Some(timeoutHandle)
        && timeouts == map[timeoutHandle := PendingRoll(fullName, loader.data)]
        && (loader.data != [] ==>
              tickerRef == Some(tickerHandle) && intervals == map[tickerHandle := loader.data]
              && rollingSample == Some(loader.data[sampleIndex]))
        && (loader.data == [] ==> tickerRef == old(tickerRef) && intervals == map[] && rollingSample == None)
      ensures fullName == old(fullName) && latestRoll == old(latestRoll)
      ensures Valid()
    {
      if !CanRoll(fullName, loader.status, isRolling) {
        return;
      }
      StartRoll(timeoutHandle, tickerHandle, sampleIndex);
    }

    /** The part of `handleRoll` past the guard. */
    method StartRoll(timeoutHandle: Handle, tickerHandle: Handle, sampleIndex: nat)
      requires Valid() && !isRolling
      requires loader.data != [] ==> sampleIndex < |loader.data|
      modifies this
      ensures isRolling
      ensures animationRef == Some(timeoutHandle)
      ensures timeouts == map[timeoutHandle := PendingRoll(fullName, loader.data)]
      ensures loader.data != [] ==>
        tickerRef == Some(tickerHandle) && intervals == map[tickerHandle := loader.data]
        && rollingSample == Some(loader.data[sampleIndex])
      ensures loader.data == [] ==> tickerRef == old(tickerRef) && intervals == map[] && rollingSample == None
      ensures fullName == old(fullName) && latestRoll == old(latestRoll)
      ensures Valid()
    {
      if animationRef.Some? {
        timeouts := timeouts - {animationRef.value};
      }
      isRolling := true;
      StartTicker(tickerHandle, sampleIndex);
      animationRef := Some(timeoutHandle);
      timeouts := timeouts[timeoutHandle := PendingRoll(fullName, loader.data)];
    }

    /** `startTicker`: nothing on an empty dataset, otherwise show one sample and start the interval. */
    method StartTicker(tickerHandle: Handle, sampleIndex: nat)
      requires loader.data != [] ==> sampleIndex < |loader.data|
      requires intervals == map[]
      modifies this
      ensures loader.data == [] ==> rollingSample == old(rollingSample) && tickerRef == old(tickerRef) && intervals == map[]
      ensures loader.data != [] ==>
        && rollingSample == Some(loader.data[sampleIndex])
        && tickerRef == Some(tickerHandle) && intervals == map[tickerHandle := loader.data]
      ensures fullName == old(fullName) && latestRoll == old(latestRoll) && isRolling == old(isRolling)
      ensures animationRef == old(animationRef) && timeouts == old(timeouts)
    {
      if loader.data == [] {
        return;
      }
      rollingSample := Some(loader.data[sampleIndex]);
      tickerRef := Some(tickerHandle);
      intervals := intervals[tickerHandle := loader.data];
    }

    /** The interval `handle` fires: a running ticker shows the sample `Math.random` chose. */
    method Tick(handle: Handle, sampleIndex: nat)
      requires Valid()
      requires handle in intervals ==> sampleIndex < |intervals[handle]|
      modifies this
      ensures handle in old(intervals) ==> rollingSample == Some(old(intervals)[handle][sampleIndex])
      ensures handle !in old(intervals) ==> rollingSample == old(rollingSample)
      ensures fullName == old(fullName) && latestRoll == old(latestRoll) && isRolling == old(isRolling)
      ensures animationRef == old(animationRef) && tickerRef == old(tickerRef)
      ensures timeouts == old(timeouts) && intervals == old(intervals)
      ensures Valid()
    {
      if handle in intervals {
        rollingSample := Some(intervals[handle][sampleIndex]);
      }
    }

    /** `stopTicker`: clear the interval the ref names, null the ref, hide the sample. */
    method StopTicker()
      modifies this
      ensures tickerRef == None && rollingSample == None
      ensures intervals == if old(tickerRef).Some? then old(intervals) - {old(tickerRef).value} else old(intervals)
      ensures fullName == old(fullName) && latestRoll == old(latestRoll) && isRolling == old(isRolling)
      ensures animationRef == old(animationRef) && timeouts == old(timeouts)
    {
      if tickerRef.Some? {
        intervals := intervals - {tickerRef.value};
        tickerRef := None;
      }
      rollingSample := None;
    }

    /** The timeout `handle` fires at time `timestamp`. A cleared timer never fires.
        Otherwise the ticker stops; with no country picked the roll just ends;
        with a country the record becomes the latest roll, is added to the
        history once, the name is cleared and the roll ends. */
    method ResolveRoll(handle: Handle, timestamp: nat)
      requires Valid()
      modifies this, history
      ensures handle !in old(timeouts) ==>
        && fullName == old(fullName) && latestRoll == old(latestRoll) && isRolling == old(isRolling)
        && rollingSample == old(rollingSample) && tickerRef == old(tickerRef) && intervals == old(intervals)
        && timeouts == old(timeouts)
        && history.history == old(history.history) && history.store == old(history.store)
      ensures handle in old(timeouts) ==>
        var pending := old(timeouts)[handle];
        var pick := PickCountryByWeight(pending.data, GenerateRandomValue(pending.fullName, timestamp));
        && !isRolling && timeouts == map[] && intervals == map[] && tickerRef == None && rollingSample == None
        && (pick.None? ==>
              && fullName == old(fullName) && latestRoll == old(latestRoll)
              && history.history == old(history.history) && history.store == old(history.store))
        && (pick.Some? ==>
              var roll := BuildRollRecord(pick.value, pending.fullName, timestamp);
              && latestRoll == Some(roll) && fullName == []
              && history.history == Prepend(roll, old(history.history))
              && history.store == old(history.store)[history.key := history.stringify(history.history)])
      ensures animationRef == old(animationRef)
      ensures Valid()
    {
      if handle !in timeouts {
        return;
      }
      var pending := timeouts[handle];
      timeouts := timeouts - {handle};
      assert timeouts == map[];
      StopTicker();
      FinishRoll(pending, timestamp);
    }

    /** The resolution timer's callback after the ticker stopped: the pick, and
        either the end of the roll or the recording of its record. */
    method FinishRoll(pending: PendingRoll, timestamp: nat)
      requires Valid() && timeouts == map[] && intervals == map[] && tickerRef == None && rollingSample == None
      modifies this, history
      ensures
        var pick := PickCountryByWeight(pending.data, GenerateRandomValue(pending.fullName, timestamp));
        && !isRolling && timeouts == map[] && intervals == map[] && tickerRef == None && rollingSample == None
        && (pick.None? ==>
              && fullName == old(fullName) && latestRoll == old(latestRoll)
              && history.history == old(history.history) && history.store == old(history.store))
        && (pick.Some? ==>
              var roll := BuildRollRecord(pick.value, pending.fullName, timestamp);
              && latestRoll == Some(roll) && fullName == []
              && history.history == Prepend(roll, old(history.history))
              && history.store == old(history.store)[history.key := history.stringify(history.history)])
      ensures animationRef == old(animationRef)
      ensures Valid()
    {
      var randomValue := GenerateRandomValue(pending.fullName, timestamp);
      var country := PickCountryByWeight(pending.data, randomValue);
      if country.None? {
        isRolling := false;
        return;
      }
      var roll := BuildRollRecord(country.value, pending.fullName, timestamp);
      RecordRoll(roll);
    }

    /** The end of a roll that picked a country: the record becomes the latest
        roll and the newest history entry, and the name input is cleared. */
    method RecordRoll(roll: RollRecord)
      requires Valid() && timeouts == map[] && intervals == map[] && rollingSample == None
      modifies this, history
      ensures !isRolling && timeouts == map[] && intervals == map[] && rollingSample == None
      ensures latestRoll == Some(roll) && fullName == []
      ensures history.history == Prepend(roll, old(history.history))
      ensures history.store == old(history.store)[history.key := history.stringify(history.history)]
      ensures animationRef == old(animationRef) && tickerRef == old(tickerRef)
      ensures Valid()
    {
      latestRoll := Some(roll);
      history.AddEntry(roll);
      fullName := [];
      isRolling := false;
    }

    /** `handleResetHistory`: nothing on an empty history (no question is asked);
        otherwise the history is cleared exactly when the user confirms. */
    method HandleResetHistory(confirmed: bool)
      requires Valid()
      modifies history
      ensures old(history.history) == [] || !confirmed ==>
        history.history == old(history.history) && history.store == old(history.store)
      ensures old(history.history) != [] && confirmed ==>
        history.history == [] && history.store == old(history.store)[history.key := history.stringify([])]
      ensures Valid()
    {
      if |history.history| == 0 {
        return;
      }
      if confirmed {
        history.ClearHistory();
      }
    }

    /** Unmounting: the effect's cleanup clears the timers both refs name. */
    method Unmount()
      requires Valid()
      modifies this
      ensures timeouts == map[] && intervals == map[]
      ensures fullName == old(fullName) && latestRoll == old(latestRoll) && isRolling == old(isRolling)
      ensures rollingSample == old(rollingSample) && animationRef == old(animationRef) && tickerRef == old(tickerRef)
    {
      if animationRef.Some? {
        timeouts := timeouts - {animationRef.value};
      }
      if tickerRef.Some? {
        intervals := intervals - {tickerRef.value};
      }
      assert forall h :: h !in timeouts;
    }
  }
}
