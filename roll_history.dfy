/** The bounded roll history: newest first, at most 50 entries after any
    addition, and written through to a key/value store after every change.
    The browser's storage is the map `store`; JSON encoding and decoding are
    the functions `stringify` and `parse` given at construction. */
module RollHistoryStore {
  import opened Common
  import opened JsText
  import opened WebTypes

  const HISTORY_LIMIT: nat := 50
  const DEFAULT_STORAGE_KEY: Utf16 := Units("where-born-rolls")

  type Store = map<Utf16, Utf16>

  /** `[entry, ...prev].slice(0, HISTORY_LIMIT)`: the new entry first, then the
      newest old entries in their order; only the oldest are dropped. */
  function Prepend(entry: RollRecord, prev: seq<RollRecord>): (r: seq<RollRecord>)
    ensures |r| == Min(|prev| + 1, HISTORY_LIMIT)
    ensures r[0] == entry
    ensures r[1..] == prev[..Min(|prev|, HISTORY_LIMIT - 1)]
  {
    ([entry] + prev)[..Min(|prev| + 1, HISTORY_LIMIT)]
  }

  /** `loadFromStorage`: a missing key or an empty payload gives no history,
      and so does a payload that fails to parse; a parsed list is taken as it
      is, without truncation. */
  function LoadFromStorage(key: Utf16, store: Store, parse: Utf16 -> Option<seq<RollRecord>>): (r: seq<RollRecord>)
    ensures key !in store ==> r == []
    ensures key in store && store[key] == [] ==> r == []
    ensures key in store && parse(store[key]).None? ==> r == []
    ensures key in store && store[key] != [] && parse(store[key]).Some? ==> r == parse(store[key]).value
  {
    if key in store && store[key] != [] then parse(store[key]).GetOr([]) else []
  }

  /** Entries added one after another, `entries[0]` first. */
  function AddAll(history: seq<RollRecord>, entries: seq<RollRecord>): seq<RollRecord>
    decreases |entries|
  {
    if entries == [] then history else AddAll(Prepend(entries[0], history), entries[1..])
  }

  function Reverse<T>(s: seq<T>): (r: seq<T>)
    ensures |r| == |s|
  {
    if s == [] then [] else Reverse(s[1..]) + [s[0]]
  }

  lemma PrefixOfConcat<T>(a: seq<T>, b: seq<T>, m: nat, n: nat)
    requires m <= |b| && n <= |a| + m
    ensures (a + b[..m])[..n] == (a + b)[..n]
  {
  }

  /** Adding entries keeps the newest 50 of everything, newest first (a loaded
      history longer than 50 is only cut once something is added). */
  lemma {:induction false} AddAllKeepsNewest(history: seq<RollRecord>, entries: seq<RollRecord>)
    requires entries != [] || |history| <= HISTORY_LIMIT
    ensures AddAll(history, entries) ==
      (Reverse(entries) + history)[..Min(|entries| + |history|, HISTORY_LIMIT)]
    decreases |entries|
  {
    if entries == [] {
      assert Reverse(entries) + history == history;
    } else {
      var e, rest := entries[0], entries[1..];
      var m := Min(|history| + 1, HISTORY_LIMIT);
      var n := Min(|entries| + |history|, HISTORY_LIMIT);
      AddAllKeepsNewest(Prepend(e, history), rest);
      assert Reverse(entries) == Reverse(rest) + [e];
      assert Reverse(entries) + history == Reverse(rest) + ([e] + history);
      PrefixOfConcat(Reverse(rest), [e] + history, m, n);
    }
  }

  /** Adding 51 entries to an empty history leaves exactly the 50 most recent, newest first. */
  lemma FiftyNewestAfterFiftyOne(entries: seq<RollRecord>)
    requires |entries| == 51
    ensures |AddAll([], entries)| == 50
    ensures forall i :: 0 <= i < 50 ==> AddAll([], entries)[i] == entries[50 - i]
  {
    AddAllKeepsNewest([], entries);
    ReverseAt(entries);
  }

  lemma {:induction false} ReverseAt<T>(s: seq<T>)
    ensures forall i :: 0 <= i < |s| ==> Reverse(s)[i] == s[|s| - 1 - i]
    decreases |s|
  {
    if s != [] {
      ReverseAt(s[1..]);
    }
  }

  /** A history written with an encoder that the decoder inverts is loaded back unchanged. */
  lemma LoadAfterWrite(key: Utf16, store: Store, history: seq<RollRecord>,
                       parse: Utf16 -> Option<seq<RollRecord>>, stringify: seq<RollRecord> -> Utf16)
    requires stringify(history) != [] && parse(stringify(history)) == Some(history)
    ensures LoadFromStorage(key, store[key := stringify(history)], parse) == history
  {
  }

  /** The state of `useRollHistory`: the list and the storage it writes through to. */
  class RollHistory {
    const key: Utf16
    const parse: Utf16 -> Option<seq<RollRecord>>
    const stringify: seq<RollRecord> -> Utf16
    var history: seq<RollRecord>
    var store: Store

    /** The write-through effect has run: the store holds the whole current history. */
    ghost predicate Valid()
      reads this
    {
      key in store && store[key] == stringify(history)
    }

    /** Mounting the hook: load once, then the effect writes the loaded list back. */
    constructor (storageKey: Option<Utf16>, initialStore: Store,
                 parse: Utf16 -> Option<seq<RollRecord>>, stringify: seq<RollRecord> -> Utf16)
      ensures key == storageKey.GetOr(DEFAULT_STORAGE_KEY)
      ensures this.parse == parse && this.stringify == stringify
      ensures history == LoadFromStorage(key, initialStore, parse)
      ensures store == initialStore[key := stringify(history)]
      ensures Valid()
    {
      key := storageKey.GetOr(DEFAULT_STORAGE_KEY);
      this.parse := parse;
      this.stringify := stringify;
      var loaded := LoadFromStorage(storageKey.GetOr(DEFAULT_STORAGE_KEY), initialStore, parse);
      history := loaded;
      store := initialStore[storageKey.GetOr(DEFAULT_STORAGE_KEY) := stringify(loaded)];
    }

    /** `addEntry`, followed by the write-through effect. */
    method AddEntry(entry: RollRecord)
      modifies this
      ensures history == Prepend(entry, old(history))
      ensures |history| <= HISTORY_LIMIT && history[0] == entry
      ensures store == old(store)[key := stringify(history)]
      ensures Valid()
    {
      history := Prepend(entry, history);
      store := store[key := stringify(history)];
    }

    /** `clearHistory`, followed by the write-through effect. */
    method ClearHistory()
      modifies this
      ensures history == []
      ensures store == old(store)[key := stringify([])]
      ensures Valid()
    {
      history := [];
      store := store[key := stringify(history)];
    }
  }
}
