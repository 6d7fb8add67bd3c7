/** The dataset loader of `usePopulationData`: one fetch of the static
    country list, the status it moves through, and the `cancelled` flag that
    makes a completion arriving after teardown change nothing. The fetch
    itself is outside the model; its completion arrives as one of the
    events `ResolveWithPayload`, `RejectWithHttpStatus` or `RejectWith`. */
module PopulationData {
  import opened Common
  import opened JsText
  import opened WebTypes

  /** `'idle'` is part of the declared type but never set. */
  datatype Status = Idle | Loading | Ready | Error

  function Population(c: CountryStat): int {
    c.population.GetOr(0)
  }

  /** `data.reduce((sum, record) => sum + (record.population ?? 0), 0)`, folding from the left. */
  function TotalPopulation(data: seq<CountryStat>): (total: int)
    ensures data == [] ==> total == 0
  {
    if data == [] then 0 else TotalPopulation(data[..|data| - 1]) + Population(data[|data| - 1])
  }

  /** The total of a concatenation is the sum of the totals. */
  lemma {:induction false} TotalOfConcat(a: seq<CountryStat>, b: seq<CountryStat>)
    ensures TotalPopulation(a + b) == TotalPopulation(a) + TotalPopulation(b)
    decreases |b|
  {
    if b == [] {
      assert a + b == a;
    } else {
      var c := a + b;
      assert c[..|c| - 1] == a + b[..|b| - 1];
      TotalOfConcat(a, b[..|b| - 1]);
    }
  }

  /** A row without a population contributes nothing. */
  lemma MissingPopulationCountsZero(a: seq<CountryStat>, c: CountryStat, b: seq<CountryStat>)
    requires c.population.None?
    ensures TotalPopulation(a + [c] + b) == TotalPopulation(a + b)
  {
    TotalOfConcat(a + [c], b);
    TotalOfConcat(a, [c]);
    assert [c][..0] == [];
    TotalOfConcat(a, b);
  }

  /** With no negative populations the total is never negative, and it bounds every entry. */
  lemma {:induction false} TotalBoundsEntries(data: seq<CountryStat>)
    requires forall i :: 0 <= i < |data| ==> Population(data[i]) >= 0
    ensures TotalPopulation(data) >= 0
    ensures forall i :: 0 <= i < |data| ==> Population(data[i]) <= TotalPopulation(data)
    decreases |data|
  {
    if data != [] {
      TotalBoundsEntries(data[..|data| - 1]);
    }
  }

  const FAILURE_PREFIX: Utf16 := Units("Failed to load population data (")

  /** The message of the error thrown for a response that is not ok: the status
      can be read back between the parentheses. */
  function FailureMessage(httpStatus: nat): (r: Utf16)
    ensures |r| == |FAILURE_PREFIX| + |Decimal(httpStatus)| + 1
    ensures r[..|FAILURE_PREFIX|] == FAILURE_PREFIX && r[|r| - 1] == 0x29
    ensures r[|FAILURE_PREFIX|..|r| - 1] == Decimal(httpStatus)
  {
    FAILURE_PREFIX + Decimal(httpStatus) + Units(")")
  }

  /** Different statuses give different messages. */
  lemma FailureMessageNamesStatus(a: nat, b: nat)
    ensures FailureMessage(a) == FailureMessage(b) <==> a == b
  {
    if FailureMessage(a) == FailureMessage(b) {
      DecimalInjective(a, b);
    }
  }

  /** The state of the hook: status, error and data, the `cancelled` flag of the
      effect, and whether the single fetch has already delivered its completion. */
  class DatasetLoader {
    var status: Status
    var error: Option<Utf16>
    var data: seq<CountryStat>
    var cancelled: bool
    var settled: bool

    ghost predicate Valid()
      reads this
    {
      && status != Idle
      && (status == Loading ==> error == None && data == [])
      && (status == Ready ==> error == None)
      && (status == Error ==> error.Some?)
      && (status != Loading ==> settled)
    }

    /** Mounting: loading, no error, no data, fetch in flight. */
    constructor ()
      ensures status == Loading && error == None && data == []
      ensures !cancelled && !settled
      ensures Valid()
    {
      status := Loading;
      error := None;
      data := [];
      cancelled := false;
      settled := false;
    }

    /** The effect's cleanup on unmount. */
    method Cancel()
      requires Valid()
      modifies this
      ensures cancelled
      ensures status == old(status) && error == old(error) && data == old(data) && settled == old(settled)
      ensures Valid()
    {
      cancelled := true;
    }

    /** The response was ok and parsed to `payload`. */
    method ResolveWithPayload(payload: seq<CountryStat>)
      requires Valid()
      modifies this
      ensures settled && cancelled == old(cancelled)
      ensures old(settled) || old(cancelled) ==>
        status == old(status) && error == old(error) && data == old(data)
      ensures !old(settled) && !old(cancelled) ==>
        status == Ready && data == payload && error == old(error)
      ensures Valid()
    {
      if !settled {
        settled := true;
        if !cancelled {
          data := payload;
          status := Ready;
        }
      }
    }

    /** The response was not ok: the thrown error reaches the `catch`. */
    method RejectWithHttpStatus(httpStatus: nat)
      requires Valid()
      modifies this
      ensures settled && cancelled == old(cancelled)
      ensures old(settled) || old(cancelled) ==>
        status == old(status) && error == old(error) && data == old(data)
      ensures !old(settled) && !old(cancelled) ==>
        status == Error && error == Some(FailureMessage(httpStatus)) && data == old(data)
      ensures Valid()
    {
      RejectWith(FailureMessage(httpStatus));
    }

    /** The fetch or the JSON parse failed with `message`. */
    method RejectWith(message: Utf16)
      requires Valid()
      modifies this
      ensures settled && cancelled == old(cancelled)
      ensures old(settled) || old(cancelled) ==>
        status == old(status) && error == old(error) && data == old(data)
      ensures !old(settled) && !old(cancelled) ==>
        status == Error && error == Some(message) && data == old(data)
      ensures Valid()
    {
      if !settled {
        settled := true;
        if !cancelled {
          error := Some(message);
          status := Error;
        }
      }
    }
  }

  /** `ready` and `error` are final: no later event changes status, error or data. */
  method FinalStatesStay(loader: DatasetLoader, payload: seq<CountryStat>, httpStatus: nat, message: Utf16)
    requires loader.Valid() && loader.status != Loading
    modifies loader
    ensures loader.status == old(loader.status) && loader.error == old(loader.error) && loader.data == old(loader.data)
  {
    loader.ResolveWithPayload(payload);
    loader.RejectWithHttpStatus(httpStatus);
    loader.RejectWith(message);
    loader.Cancel();
  }
}
