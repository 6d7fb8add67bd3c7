/** Small shared vocabulary: optional values, results with an error, and the
    decimal rendering of a natural number used both by JavaScript template
    strings and by Python's `str(int)`. */
module Common {

  datatype Option<T> = None | Some(value: T) {
    /** The `??` operator of JavaScript: the value, or `default` when absent. */
    function GetOr(default: T): T {
      if Some? then value else default
    }
  }

  datatype Result<T, E> = Ok(value: T) | Err(error: E)

  function Min(a: int, b: int): int {
    if a <= b then a else b
  }

  /** The position of the first element satisfying `p`: a linear search, as
      Python's first-match loops and JavaScript's `find` do it. */
  function FirstMatch<T>(xs: seq<T>, p: T -> bool): (r: Option<nat>)
    ensures r.Some? ==> r.value < |xs| && p(xs[r.value])
    ensures r.Some? ==> forall j :: 0 <= j < r.value ==> !p(xs[j])
    ensures r.None? ==> forall j :: 0 <= j < |xs| ==> !p(xs[j])
  {
    if xs == [] then None
    else if p(xs[0]) then Some(0)
    else match FirstMatch(xs[1..], p)
      case None => None
      case Some(j) => Some(j + 1)
  }

  /** Two tests that agree on every element find the same position. */
  lemma FirstMatchAgree<T>(xs: seq<T>, p: T -> bool, q: T -> bool)
    requires forall j :: 0 <= j < |xs| ==> p(xs[j]) == q(xs[j])
    ensures FirstMatch(xs, p) == FirstMatch(xs, q)
  {
    var a, b := FirstMatch(xs, p), FirstMatch(xs, q);
    if a.Some? && b.Some? {
      assert !(a.value < b.value) && !(b.value < a.value);
    }
  }

  /** Decimal digits of `n`, most significant first, without leading zeros. */
  function Digits(n: nat): (ds: seq<nat>)
    ensures 1 <= |ds|
    ensures forall i :: 0 <= i < |ds| ==> ds[i] < 10
    ensures n > 0 ==> ds[0] != 0
    ensures n == 0 ==> ds == [0]
    decreases n
  {
    if n < 10 then [n] else Digits(n / 10) + [n % 10]
  }

  /** The number a digit sequence denotes. */
  function ValueOf(ds: seq<nat>): nat {
    if ds == [] then 0 else ValueOf(ds[..|ds| - 1]) * 10 + ds[|ds| - 1]
  }

  /** Reading back the rendered digits gives the number: the rendering loses nothing. */
  lemma {:induction false} DigitsRoundTrip(n: nat)
    ensures ValueOf(Digits(n)) == n
    decreases n
  {
    if n >= 10 {
      var prefix := Digits(n / 10);
      var ds := prefix + [n % 10];
      assert ds[..|ds| - 1] == prefix;
      DigitsRoundTrip(n / 10);
    }
  }

  /** Different numbers are rendered differently. */
  lemma DigitsInjective(m: nat, n: nat)
    requires Digits(m) == Digits(n)
    ensures m == n
  {
    DigitsRoundTrip(m);
    DigitsRoundTrip(n);
  }
}
