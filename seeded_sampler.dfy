/** The seeded weighted sampler: a 32-bit rolling string hash, the
    pseudo-random value derived from a name and a timestamp, and the
    inverse-CDF pick over the cumulative weights of the dataset. */
module SeededSampler {
  import opened Common
  import opened JsText
  import Trimming
  import opened WebTypes

  const TWO_TO_32: int := 0x1_0000_0000
  const TWO_TO_31: int := 0x8000_0000

  /** Largest value the pick ever looks up, so that a value of 1 cannot overshoot the last bucket. */
  const MAX_SAMPLE: real := 0.999999

  // ----- 32-bit arithmetic of JavaScript -----

  /** ECMAScript ToInt32, the conversion behind `x | 0` and `x << k`. */
  function ToInt32(x: int): (r: int)
    ensures -TWO_TO_31 <= r < TWO_TO_31
    ensures (r - x) % TWO_TO_32 == 0
  {
    var m := x % TWO_TO_32;
    if m >= TWO_TO_31 then m - TWO_TO_32 else m
  }

  /** ECMAScript ToUint32, the conversion behind `x >>> 0`. */
  function ToUint32(x: int): (r: nat)
    ensures r < TWO_TO_32
    ensures (r - x) % TWO_TO_32 == 0
  {
    x % TWO_TO_32
  }

  /** `h << 5` for a 32-bit signed `h`: the low 32 bits of 32·h, read as signed. */
  function ShiftLeft5(h: int): int {
    ToInt32(h * 32)
  }

  // ----- the hash -----

  /** The unsigned hash: h = 31·h + c modulo 2^32 over the code units, the
      recurrence of Java's String.hashCode. */
  function SeedHash(s: Utf16): (h: nat)
    ensures h < TWO_TO_32
  {
    if s == [] then 0 else (31 * SeedHash(s[..|s| - 1]) + s[|s| - 1]) % TWO_TO_32
  }

  /** Two integers that differ by a multiple of 2^32 have the same residue. */
  lemma SameResidue(a: int, b: int)
    requires (a - b) % TWO_TO_32 == 0
    ensures a % TWO_TO_32 == b % TWO_TO_32
  {
    var k := (a - b) / TWO_TO_32;
    assert a == b + k * TWO_TO_32;
  }

  /** One iteration of the signed loop agrees with one step of the unsigned recurrence. */
  lemma StepAgrees(h: int, c: CodeUnit)
    ensures ToUint32(ToInt32(ShiftLeft5(h) - h + c)) == (31 * ToUint32(h) + c) % TWO_TO_32
  {
    var a := ShiftLeft5(h) - h + c;
    var b := 31 * ToUint32(h) + c;
    SameResidue(ToInt32(a), a);
    MultiplesCombine(ShiftLeft5(h) - h * 32, ToUint32(h) - h);
    assert a - b == (ShiftLeft5(h) - h * 32) - 31 * (ToUint32(h) - h);
    SameResidue(a, b);
  }

  lemma MultiplesCombine(x: int, y: int)
    requires x % TWO_TO_32 == 0 && y % TWO_TO_32 == 0
    ensures (x - 31 * y) % TWO_TO_32 == 0
  {
    var kx, ky := x / TWO_TO_32, y / TWO_TO_32;
    assert x == kx * TWO_TO_32 && y == ky * TWO_TO_32;
    assert x - 31 * y == (kx - 31 * ky) * TWO_TO_32;
  }

  /** `hashSeed`: the loop of the source on a signed 32-bit accumulator,
      returning the accumulator reinterpreted as unsigned. */
  method HashSeed(input: Utf16) returns (h: nat)
    ensures h == SeedHash(input)
    ensures h < TWO_TO_32
    ensures input == [] ==> h == 0
  {
    var hash := 0;
    var index := 0;
    while index < |input|
      invariant 0 <= index <= |input|
      invariant -TWO_TO_31 <= hash < TWO_TO_31
      invariant ToUint32(hash) == SeedHash(input[..index])
    {
      StepAgrees(hash, input[index]);
      assert input[..index + 1][..index] == input[..index];
      hash := ShiftLeft5(hash) - hash + input[index];
      hash := ToInt32(hash);
      index := index + 1;
    }
    assert input[..index] == input;
    h := ToUint32(hash);
  }

  /** Appending one code unit multiplies the hash by 31 and adds the unit, modulo 2^32. */
  lemma {:induction false} SeedHashAppend(s: Utf16, c: CodeUnit)
    ensures SeedHash(s + [c]) == (31 * SeedHash(s) + c) % TWO_TO_32
  {
    assert (s + [c])[..|s|] == s;
  }

  // ----- an independent reference: the polynomial of String.hashCode -----

  function Pow31(n: nat): (p: nat)
    ensures p >= 1
  {
    if n == 0 then 1 else 31 * Pow31(n - 1)
  }

  /** s[0]·31^(n-1) + s[1]·31^(n-2) + … + s[n-1], without any wrap-around. */
  function HashPolynomial(s: Utf16): nat {
    if s == [] then 0 else s[0] * Pow31(|s| - 1) + HashPolynomial(s[1..])
  }

  lemma {:induction false} PolynomialAppend(s: Utf16, c: CodeUnit)
    ensures HashPolynomial(s + [c]) == 31 * HashPolynomial(s) + c
    decreases |s|
  {
    if s == [] {
      assert [] + [c] == [c];
      assert [c][1..] == [];
    } else {
      var t := s + [c];
      assert t[0] == s[0];
      assert t[1..] == s[1..] + [c];
      PolynomialAppend(s[1..], c);
      assert Pow31(|t| - 1) == 31 * Pow31(|s| - 1);
      assert s[0] * (31 * Pow31(|s| - 1)) == 31 * (s[0] * Pow31(|s| - 1));
    }
  }

  lemma ResidueOfScaled(x: int, c: int)
    ensures (31 * (x % TWO_TO_32) + c) % TWO_TO_32 == (31 * x + c) % TWO_TO_32
  {
    var q := x / TWO_TO_32;
    var m := x % TWO_TO_32;
    assert x == q * TWO_TO_32 + m;
    var a := 31 * m + c;
    var b := 31 * x + c;
    assert b - a == (31 * q) * TWO_TO_32;
    SameResidue(a, b);
  }

  /** The hash is String.hashCode's polynomial in 31, taken modulo 2^32. */
  lemma {:induction false} SeedHashIsPolynomial(s: Utf16)
    ensures SeedHash(s) == HashPolynomial(s) % TWO_TO_32
    decreases |s|
  {
    if s != [] {
      var p := s[..|s| - 1];
      var c := s[|s| - 1];
      assert s == p + [c];
      SeedHashIsPolynomial(p);
      PolynomialAppend(p, c);
      ResidueOfScaled(HashPolynomial(p), c);
    }
  }

  // ----- the random value -----

  /** The text that is hashed: the trimmed, lower-cased name, `|`, and the timestamp
      in decimal. It holds no upper-case ASCII letter, and the timestamp can be
      read back after the last `|`. */
  function SeedText(fullName: Utf16, timestamp: nat): (r: Utf16)
    ensures |r| == |Trim(fullName)| + 1 + |Decimal(timestamp)|
    ensures forall i :: 0 <= i < |r| ==> !(0x41 <= r[i] <= 0x5A)
    ensures r[|r| - |Decimal(timestamp)| - 1] == PIPE && r[|r| - |Decimal(timestamp)|..] == Decimal(timestamp)
    ensures PIPE !in r[|r| - |Decimal(timestamp)|..]
  {
    var trimmed := Trim(fullName);
    var name, digits := ToLowerCase(trimmed), Decimal(timestamp);
    LowerCaseHasNoUpper(trimmed);
    SeedTextShape(name, digits);
    name + [PIPE] + digits
  }

  lemma LowerCaseHasNoUpper(s: Utf16)
    ensures forall i :: 0 <= i < |ToLowerCase(s)| ==> !(0x41 <= ToLowerCase(s)[i] <= 0x5A)
  {
  }

  /** A name without upper-case letters, `|`, and digits: no upper-case letter
      anywhere, and the digits are exactly what follows the last `|`. */
  lemma SeedTextShape(name: Utf16, digits: Utf16)
    requires forall i :: 0 <= i < |name| ==> !(0x41 <= name[i] <= 0x5A)
    requires forall i :: 0 <= i < |digits| ==> 0x30 <= digits[i] <= 0x39
    ensures var r := name + [PIPE] + digits;
      && (forall i :: 0 <= i < |r| ==> !(0x41 <= r[i] <= 0x5A))
      && r[|r| - |digits| - 1] == PIPE && r[|r| - |digits|..] == digits
      && PIPE !in digits
  {
    var r := name + [PIPE] + digits;
    assert r[|r| - |digits|..] == digits;
    forall i | 0 <= i < |r|
      ensures !(0x41 <= r[i] <= 0x5A)
    {
      if i < |name| {
        assert r[i] == name[i];
      } else if i > |name| {
        assert r[i] == digits[i - |name| - 1];
      }
    }
  }

  /** `generateRandomValue`: the hash of the seed text divided by 2^32. */
  function GenerateRandomValue(fullName: Utf16, timestamp: nat): (r: real)
    ensures 0.0 <= r < 1.0
  {
    SeedHash(SeedText(fullName, timestamp)) as real / TWO_TO_32 as real
  }

  /** Whitespace around the name does not change the value. */
  lemma SurroundingWhitespaceIgnored(pre: Utf16, fullName: Utf16, post: Utf16, timestamp: nat)
    requires AllWhitespace(pre) && AllWhitespace(post)
    ensures GenerateRandomValue(pre + fullName + post, timestamp) == GenerateRandomValue(fullName, timestamp)
  {
    Trimming.SurroundingWhitespaceTrimmed(pre, fullName, post, IsWhitespace);
  }

  /** Names that differ only in the case of ASCII letters give the same value. */
  lemma LetterCaseIgnored(a: Utf16, b: Utf16, timestamp: nat)
    requires ToLowerCase(a) == ToLowerCase(b)
    ensures GenerateRandomValue(a, timestamp) == GenerateRandomValue(b, timestamp)
  {
    LowerTrimCommute(a);
    LowerTrimCommute(b);
  }

  /** Trimming the name first changes nothing: a roll's stored, trimmed name reproduces its value. */
  lemma TrimmedNameSameValue(fullName: Utf16, timestamp: nat)
    ensures GenerateRandomValue(Trim(fullName), timestamp) == GenerateRandomValue(fullName, timestamp)
  {
    Trimming.TrimIdempotent(fullName, IsWhitespace);
  }

  // ----- the weighted pick -----

  function Max(a: real, b: real): real {
    if a >= b then a else b
  }

  function MinReal(a: real, b: real): real {
    if a <= b then a else b
  }

  /** `Math.max(0, Math.min(v, 0.999999))`. */
  function Clamp(v: real): (c: real)
    ensures 0.0 <= c <= MAX_SAMPLE
    ensures v <= 0.0 ==> c == 0.0
    ensures v >= MAX_SAMPLE ==> c == MAX_SAMPLE
    ensures 0.0 <= v <= MAX_SAMPLE ==> c == v
  {
    Max(0.0, MinReal(v, MAX_SAMPLE))
  }

  /** Upper edge of a country's bucket; a missing cumulative weight reads as 0. */
  function Boundary(c: CountryStat): real {
    c.cumulativeWeight.GetOr(0.0)
  }

  predicate Covers(c: CountryStat, clamped: real) {
    clamped <= Boundary(c)
  }

  /** `Array.prototype.find` for the first country whose bucket reaches `clamped`, as an index. */
  function FirstCovering(population: seq<CountryStat>, clamped: real): (i: Option<nat>)
    ensures i.Some? ==> i.value < |population| && Covers(population[i.value], clamped)
    ensures i.Some? ==> forall j :: 0 <= j < i.value ==> !Covers(population[j], clamped)
    ensures i.None? ==> forall j :: 0 <= j < |population| ==> !Covers(population[j], clamped)
  {
    if population == [] then None
    else if Covers(population[0], clamped) then Some(0)
    else match FirstCovering(population[1..], clamped)
      case None => None
      case Some(k) => Some(k + 1)
  }

  /** `pickCountryByWeight`: no country for an empty dataset, otherwise the first
      country whose bucket reaches the clamped value, or else the last one. */
  function PickCountryByWeight(population: seq<CountryStat>, randomValue: real): (r: Option<CountryStat>)
    ensures r.None? <==> population == []
    ensures r.Some? ==> r.value in population
  {
    if population == [] then None
    else match FirstCovering(population, Clamp(randomValue))
      case Some(i) => Some(population[i])
      case None => Some(population[|population| - 1])
  }

  /** The pick is the first covering entry when there is one, and the last entry otherwise. */
  lemma PickIsFirstCoveringOrLast(population: seq<CountryStat>, randomValue: real) returns (index: nat)
    requires population != []
    ensures index < |population| && PickCountryByWeight(population, randomValue) == Some(population[index])
    ensures Covers(population[index], Clamp(randomValue)) ==>
      forall j :: 0 <= j < index ==> !Covers(population[j], Clamp(randomValue))
    ensures !Covers(population[index], Clamp(randomValue)) ==>
      index == |population| - 1 && forall j :: 0 <= j < |population| ==> !Covers(population[j], Clamp(randomValue))
  {
    match FirstCovering(population, Clamp(randomValue))
    case Some(i) => index := i;
    case None => index := |population| - 1;
  }

  predicate SortedByBoundary(population: seq<CountryStat>) {
    forall i, j :: 0 <= i <= j < |population| ==> Boundary(population[i]) <= Boundary(population[j])
  }

  /** Inverse CDF: on a dataset sorted by cumulative weight, the picked entry is the
      bucket the clamped value falls in, (previous boundary, own boundary]. */
  lemma PickIsBucket(population: seq<CountryStat>, randomValue: real) returns (index: nat)
    requires population != [] && SortedByBoundary(population)
    ensures index < |population| && PickCountryByWeight(population, randomValue) == Some(population[index])
    ensures index > 0 ==> Boundary(population[index - 1]) < Clamp(randomValue)
    ensures index < |population| - 1 ==> Clamp(randomValue) <= Boundary(population[index])
    ensures forall j :: 0 <= j < |population| && InBucket(population, j, Clamp(randomValue)) ==> j == index
  {
    index := PickIsFirstCoveringOrLast(population, randomValue);
  }

  /** The clamped value lies in the bucket of entry `j`: above the previous
      boundary (none for the first entry) and at most its own (none for the last). */
  predicate InBucket(population: seq<CountryStat>, j: nat, clamped: real)
    requires j < |population|
  {
    && (j > 0 ==> Boundary(population[j - 1]) < clamped)
    && (j < |population| - 1 ==> clamped <= Boundary(population[j]))
  }

  /** Values below 0 pick like 0, values above 0.999999 pick like 0.999999. */
  lemma ClampedValuesPickAlike(population: seq<CountryStat>, v: real)
    ensures v < 0.0 ==> PickCountryByWeight(population, v) == PickCountryByWeight(population, 0.0)
    ensures v > MAX_SAMPLE ==> PickCountryByWeight(population, v) == PickCountryByWeight(population, MAX_SAMPLE)
  {
  }

  function Country(iso3: string, weight: real, cumulative: real): CountryStat {
    CountryStat(None, Units(iso3), Units(iso3), Some(100), weight, Some(cumulative),
                None, None, None, None, None, None, None)
  }

  /** Cumulative weights 0.25, 0.75, 1: the values 0.2, 0.74 and 0.99 pick the first,
      second and third entry. */
  lemma ThreeBucketExample()
    ensures var data := [Country("AAA", 0.25, 0.25), Country("BBB", 0.5, 0.75), Country("CCC", 0.25, 1.0)];
      && PickCountryByWeight(data, 0.2) == Some(data[0])
      && PickCountryByWeight(data, 0.74) == Some(data[1])
      && PickCountryByWeight(data, 0.99) == Some(data[2])
  {
    var data := [Country("AAA", 0.25, 0.25), Country("BBB", 0.5, 0.75), Country("CCC", 0.25, 1.0)];
    assert data[1..][1..] == [data[2]];
    var i0 := PickIsBucket(data, 0.2);
    var i1 := PickIsBucket(data, 0.74);
    var i2 := PickIsBucket(data, 0.99);
  }
}
