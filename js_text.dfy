/** JavaScript strings as sequences of UTF-16 code units, with the string
    operations the web app uses: `trim`, `toLowerCase` and the rendering of
    a number inside a template literal. */
module JsText {
  import opened Common
  import Trimming

  type CodeUnit = x: int | 0 <= x < 0x1_0000
  type Utf16 = seq<CodeUnit>

  const PIPE: CodeUnit := 0x7C
  const DASH: CodeUnit := 0x2D

  /** A string literal as code units. Only ASCII literals are converted here; a
      character above U+FFFF, which UTF-16 would write as a surrogate pair,
      would become U+FFFD instead. */
  function Units(s: string): (r: Utf16)
    ensures |r| == |s|
  {
    seq(|s|, i requires 0 <= i < |s| => if (s[i] as int) < 0x1_0000 then s[i] as int else 0xFFFD)
  }

  /** The code units `String.prototype.trim` removes: ECMAScript WhiteSpace
      (tab, vertical tab, form feed, space, no-break space, the byte order mark
      and the Unicode space separators) and LineTerminator. */
  predicate IsWhitespace(c: CodeUnit) {
    || c == 0x09 || c == 0x0A || c == 0x0B || c == 0x0C || c == 0x0D
    || c == 0x20 || c == 0xA0 || c == 0x1680
    || (0x2000 <= c <= 0x200A)
    || c == 0x2028 || c == 0x2029 || c == 0x202F || c == 0x205F
    || c == 0x3000 || c == 0xFEFF
  }

  predicate AllWhitespace(s: Utf16) {
    Trimming.AllMatch(s, IsWhitespace)
  }

  /** `String.prototype.trim`. */
  function Trim(s: Utf16): Utf16 {
    Trimming.Trim(s, IsWhitespace)
  }

  /** Lower-casing of one code unit; only the ASCII letters are mapped. */
  function LowerUnit(c: CodeUnit): CodeUnit {
    if 0x41 <= c <= 0x5A then c + 0x20 else c
  }

  function ToLowerCase(s: Utf16): (r: Utf16)
    ensures |r| == |s| && forall i :: 0 <= i < |s| ==> r[i] == LowerUnit(s[i])
  {
    seq(|s|, i requires 0 <= i < |s| => LowerUnit(s[i]))
  }

  /** `${n}` for a non-negative integer below 10^21: the code units of its decimal
      digits, most significant first, without leading zeros. */
  function Decimal(n: nat): (r: Utf16)
    ensures |r| == |Digits(n)|
    ensures forall i :: 0 <= i < |r| ==> 0x30 <= r[i] <= 0x39 && r[i] == 0x30 + Digits(n)[i]
  {
    var ds := Digits(n);
    seq(|ds|, i requires 0 <= i < |ds| => 0x30 + ds[i])
  }

  /** Different numbers are written differently. */
  lemma DecimalInjective(m: nat, n: nat)
    requires Decimal(m) == Decimal(n)
    ensures m == n
  {
    var dm, dn := Digits(m), Digits(n);
    assert |dm| == |dn|;
    forall i | 0 <= i < |dm| ensures dm[i] == dn[i] {
      assert Decimal(m)[i] == 0x30 + dm[i];
      assert Decimal(n)[i] == 0x30 + dn[i];
    }
    assert dm == dn;
    DigitsInjective(m, n);
  }

  // ----- lower-casing commutes with trim -----

  lemma LowerKeepsWhitespace(c: CodeUnit)
    ensures IsWhitespace(LowerUnit(c)) <==> IsWhitespace(c)
  {
  }

  lemma {:induction false} LowerTrimStart(s: Utf16)
    ensures ToLowerCase(Trimming.TrimStart(s, IsWhitespace)) == Trimming.TrimStart(ToLowerCase(s), IsWhitespace)
    decreases |s|
  {
    if s != [] {
      LowerKeepsWhitespace(s[0]);
      if IsWhitespace(s[0]) {
        assert ToLowerCase(s)[1..] == ToLowerCase(s[1..]);
        LowerTrimStart(s[1..]);
      }
    }
  }

  lemma {:induction false} LowerTrimEnd(s: Utf16)
    ensures ToLowerCase(Trimming.TrimEnd(s, IsWhitespace)) == Trimming.TrimEnd(ToLowerCase(s), IsWhitespace)
    decreases |s|
  {
    if s != [] {
      LowerKeepsWhitespace(s[|s| - 1]);
      if IsWhitespace(s[|s| - 1]) {
        assert ToLowerCase(s)[..|s| - 1] == ToLowerCase(s[..|s| - 1]);
        LowerTrimEnd(s[..|s| - 1]);
      }
    }
  }

  /** Trimming then lower-casing equals lower-casing then trimming. */
  lemma LowerTrimCommute(s: Utf16)
    ensures ToLowerCase(Trim(s)) == Trim(ToLowerCase(s))
  {
    LowerTrimEnd(Trimming.TrimStart(s, IsWhitespace));
    LowerTrimStart(s);
  }
}
