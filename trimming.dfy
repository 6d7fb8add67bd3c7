/** Removing surrounding whitespace from a sequence, for any notion of
    whitespace: JavaScript's `trim` and Python's `strip()` differ only in the
    set of characters they remove. */
module Trimming {

  predicate AllMatch<T>(s: seq<T>, ws: T -> bool) {
    forall i :: 0 <= i < |s| ==> ws(s[i])
  }

  /** Drops leading whitespace: the result is the suffix that starts at the first non-whitespace element. */
  function TrimStart<T>(s: seq<T>, ws: T -> bool): (r: seq<T>)
    ensures |r| <= |s| && r == s[|s| - |r|..]
    ensures r == [] || !ws(r[0])
    ensures AllMatch(s[..|s| - |r|], ws)
  {
    if s != [] && ws(s[0]) then TrimStart(s[1..], ws) else s
  }

  /** Drops trailing whitespace: the result is the prefix that ends at the last non-whitespace element. */
  function TrimEnd<T>(s: seq<T>, ws: T -> bool): (r: seq<T>)
    ensures |r| <= |s| && r == s[..|r|]
    ensures r == [] || !ws(r[|r| - 1])
    ensures AllMatch(s[|r|..], ws)
  {
    if s != [] && ws(s[|s| - 1]) then TrimEnd(s[..|s| - 1], ws) else s
  }

  function Trim<T>(s: seq<T>, ws: T -> bool): seq<T> {
    TrimEnd(TrimStart(s, ws), ws)
  }

  /** No surrounding whitespace is left. */
  predicate IsTrimmed<T>(s: seq<T>, ws: T -> bool) {
    s == [] || (!ws(s[0]) && !ws(s[|s| - 1]))
  }

  /** A trimmed sequence is no longer than its input and has no surrounding whitespace. */
  lemma {:induction false} TrimShape<T>(s: seq<T>, ws: T -> bool)
    ensures |Trim(s, ws)| <= |s|
    ensures IsTrimmed(Trim(s, ws), ws)
  {
    var t := TrimStart(s, ws);
    var r := TrimEnd(t, ws);
    assert r == [] || r[0] == t[0];
  }

  /** A sequence with no surrounding whitespace is left as it is. */
  lemma {:induction false} TrimOfTrimmed<T>(s: seq<T>, ws: T -> bool)
    requires IsTrimmed(s, ws)
    ensures Trim(s, ws) == s
  {
  }

  lemma TrimIdempotent<T>(s: seq<T>, ws: T -> bool)
    ensures Trim(Trim(s, ws), ws) == Trim(s, ws)
  {
    TrimShape(s, ws);
    TrimOfTrimmed(Trim(s, ws), ws);
  }

  lemma {:induction false} TrimStartAfterWhitespace<T>(pre: seq<T>, s: seq<T>, ws: T -> bool)
    requires AllMatch(pre, ws)
    ensures TrimStart(pre + s, ws) == TrimStart(s, ws)
    decreases |pre|
  {
    if pre != [] {
      assert (pre + s)[1..] == pre[1..] + s;
      TrimStartAfterWhitespace(pre[1..], s, ws);
    } else {
      assert pre + s == s;
    }
  }

  lemma {:induction false} TrimEndBeforeWhitespace<T>(s: seq<T>, post: seq<T>, ws: T -> bool)
    requires AllMatch(post, ws)
    ensures TrimEnd(s + post, ws) == TrimEnd(s, ws)
    decreases |post|
  {
    if post != [] {
      var t := s + post;
      assert t[..|t| - 1] == s + post[..|post| - 1];
      TrimEndBeforeWhitespace(s, post[..|post| - 1], ws);
    } else {
      assert s + post == s;
    }
  }

  /** Removing leading whitespace does not look past a non-blank prefix. */
  lemma {:induction false} TrimStartAppend<T>(s: seq<T>, post: seq<T>, ws: T -> bool)
    ensures TrimStart(s + post, ws) ==
      if TrimStart(s, ws) == [] then TrimStart(post, ws) else TrimStart(s, ws) + post
    decreases |s|
  {
    if s == [] {
      assert s + post == post;
    } else if ws(s[0]) {
      assert (s + post)[1..] == s[1..] + post;
      TrimStartAppend(s[1..], post, ws);
    }
  }

  /** Whitespace around a sequence does not survive trimming. */
  lemma SurroundingWhitespaceTrimmed<T>(pre: seq<T>, s: seq<T>, post: seq<T>, ws: T -> bool)
    requires AllMatch(pre, ws) && AllMatch(post, ws)
    ensures Trim(pre + s + post, ws) == Trim(s, ws)
  {
    assert pre + s + post == pre + (s + post);
    TrimStartAfterWhitespace(pre, s + post, ws);
    TrimStartAppend(s, post, ws);
    if TrimStart(s, ws) == [] {
      TrimStartAfterWhitespace(post, [], ws);
      assert post + [] == post;
    } else {
      TrimEndBeforeWhitespace(TrimStart(s, ws), post, ws);
    }
  }

  /** A sequence of whitespace only trims to nothing. */
  lemma BlankTrimsToEmpty<T>(s: seq<T>, ws: T -> bool)
    requires AllMatch(s, ws)
    ensures Trim(s, ws) == []
  {
    assert [] + [] + s == s;
    SurroundingWhitespaceTrimmed([], [], s, ws);
  }
}
