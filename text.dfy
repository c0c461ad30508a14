/** String helpers with Python's meaning: `str.strip`, `str.strip(chars)` and the `in` test. */
module Text {

  /** The characters Python's `str.isspace` accepts, which `str.strip()` removes. */
  const Whitespace: set<char> :=
    {' ', '\t', '\n', '\r', '\U{0B}', '\U{0C}', '\U{1C}', '\U{1D}', '\U{1E}', '\U{1F}',
     '\U{85}', '\U{A0}', '\U{1680}', '\U{2000}', '\U{2001}', '\U{2002}', '\U{2003}',
     '\U{2004}', '\U{2005}', '\U{2006}', '\U{2007}', '\U{2008}', '\U{2009}', '\U{200A}',
     '\U{2028}', '\U{2029}', '\U{202F}', '\U{205F}', '\U{3000}'}

  /** `t` occurs in `s` starting at index `i`. */
  predicate OccursAt(s: string, t: string, i: nat) {
    i + |t| <= |s| && s[i..i + |t|] == t
  }

  /** `t in s` for strings: `t` occurs in `s` as a contiguous block. */
  predicate ContainsSubstring(s: string, t: string) {
    exists i: nat | i <= |s| :: OccursAt(s, t, i)
  }

  /** `s.lstrip(cs)`: drop the leading characters that belong to `cs`. */
  function TrimStart(s: string, cs: set<char>): (r: string)
    ensures |r| <= |s| && r == s[|s| - |r|..]
    ensures forall i :: 0 <= i < |s| - |r| ==> s[i] in cs
    ensures r == [] || r[0] !in cs
  {
    if |s| > 0 && s[0] in cs then TrimStart(s[1..], cs) else s
  }

  /** `s.rstrip(cs)`: drop the trailing characters that belong to `cs`. */
  function TrimEnd(s: string, cs: set<char>): (r: string)
    ensures |r| <= |s| && r == s[..|r|]
    ensures forall i :: |r| <= i < |s| ==> s[i] in cs
    ensures r == [] || r[|r| - 1] !in cs
  {
    if |s| > 0 && s[|s| - 1] in cs then TrimEnd(s[..|s| - 1], cs) else s
  }

  /** `s.strip(cs)`: drop characters of `cs` from both ends. */
  function Strip(s: string, cs: set<char>): (r: string)
    ensures |r| <= |s|
    ensures r == [] || (r[0] !in cs && r[|r| - 1] !in cs)
    ensures exists i: nat | i <= |s| :: TrimmedAt(s, cs, r, i)
  {
    var u := TrimStart(s, cs);
    TrimmedBothEnds(s, cs, u, TrimEnd(u, cs));
    TrimEnd(u, cs)
  }

  /** Trimming the start and then the end leaves the slice `TrimmedAt` describes. */
  lemma TrimmedBothEnds(s: string, cs: set<char>, u: string, r: string)
    requires u == TrimStart(s, cs) && r == TrimEnd(u, cs)
    ensures TrimmedAt(s, cs, r, |s| - |u|)
  {
    var i := |s| - |u|;
    assert u == s[i..] && r == u[..|r|];
    forall k | 0 <= k < |r|
      ensures s[i + k] == r[k]
    {
      assert r[k] == u[k] == s[i + k];
    }
    assert OccursAt(s, r, i);
    forall k | i + |r| <= k < |s|
      ensures s[k] in cs
    {
      assert s[k] == u[k - i];
    }
  }

  /** `r` is the slice of `s` starting at `i`, and every character outside it is in `cs`. */
  predicate TrimmedAt(s: string, cs: set<char>, r: string, i: nat)
  {
    OccursAt(s, r, i)
      && (forall k :: 0 <= k < i ==> s[k] in cs)
      && (forall k :: i + |r| <= k < |s| ==> s[k] in cs)
  }

  /** Two strips in a row leave a contiguous block of the original text. */
  lemma StripTwiceIsSlice(s: string, c1: set<char>, c2: set<char>)
    ensures exists k: nat | k <= |s| :: OccursAt(s, Strip(Strip(s, c1), c2), k)
  {
    var u := Strip(s, c1);
    var r := Strip(u, c2);
    var i: nat :| i <= |s| && TrimmedAt(s, c1, u, i);
    var j: nat :| j <= |u| && TrimmedAt(u, c2, r, j);
    OccursWithin(s, u, r, i, j);
  }

  /** An occurrence inside an occurrence is an occurrence in the outer text. */
  lemma OccursWithin(s: string, u: string, r: string, i: nat, j: nat)
    requires OccursAt(s, u, i) && OccursAt(u, r, j)
    ensures OccursAt(s, r, i + j)
  {
    forall k | 0 <= k < |r|
      ensures s[i + j + k] == r[k]
    {
      assert r[k] == u[j + k] == s[i + j + k];
    }
  }

  /** A string with no removable character at either end is its own strip. */
  lemma StripFixed(s: string, cs: set<char>)
    requires s == [] || (s[0] !in cs && s[|s| - 1] !in cs)
    ensures Strip(s, cs) == s
  {
    assert TrimStart(s, cs) == s;
  }

  /** Stripping twice is stripping once. */
  lemma StripIdempotent(s: string, cs: set<char>)
    ensures Strip(Strip(s, cs), cs) == Strip(s, cs)
  {
    StripFixed(Strip(s, cs), cs);
  }

  /** `lstrip` keeps an occurrence of `t` whose first character is not strippable. */
  lemma TrimStartKeeps(s: string, cs: set<char>, t: string, k: nat)
    requires |t| > 0 && t[0] !in cs && OccursAt(s, t, k)
    ensures |s| - |TrimStart(s, cs)| <= k
    ensures OccursAt(TrimStart(s, cs), t, k - (|s| - |TrimStart(s, cs)|))
  {
    var u := TrimStart(s, cs);
    var d := |s| - |u|;
    assert s[k] == s[k..k + |t|][0] == t[0];
    assert s[k] !in cs;
    assert d <= k;
    assert u == s[d..];
    assert u[k - d..k - d + |t|] == s[k..k + |t|];
  }

  /** `rstrip` keeps an occurrence of `t` whose last character is not strippable. */
  lemma TrimEndKeeps(u: string, cs: set<char>, t: string, k: nat)
    requires |t| > 0 && t[|t| - 1] !in cs && OccursAt(u, t, k)
    ensures OccursAt(TrimEnd(u, cs), t, k)
  {
    var w := TrimEnd(u, cs);
    var e := k + |t|;
    assert u[e - 1] == u[k..e][|t| - 1] == t[|t| - 1];
    assert u[e - 1] !in cs;
    assert e <= |w|;
    assert w == u[..|w|];
    assert w[k..e] == u[k..e];
  }

  /** Stripping keeps an occurrence of `t` whose end characters are not strippable. */
  lemma StripKeepsAt(s: string, cs: set<char>, t: string, k: nat) returns (k': nat)
    requires |t| > 0 && t[0] !in cs && t[|t| - 1] !in cs && OccursAt(s, t, k)
    ensures OccursAt(Strip(s, cs), t, k')
  {
    TrimStartKeeps(s, cs, t, k);
    var u := TrimStart(s, cs);
    k' := k - (|s| - |u|);
    TrimEndKeeps(u, cs, t, k');
  }

  /** Stripping never removes an occurrence of `t` whose end characters are not strippable. */
  lemma StripKeepsInner(s: string, cs: set<char>, t: string)
    requires |t| > 0 && t[0] !in cs && t[|t| - 1] !in cs
    requires ContainsSubstring(s, t)
    ensures ContainsSubstring(Strip(s, cs), t)
  {
    var k: nat :| k <= |s| && OccursAt(s, t, k);
    var k' := StripKeepsAt(s, cs, t, k);
    assert k' <= |Strip(s, cs)|;
  }

  /** Every string contains itself. */
  lemma ContainsSelf(t: string)
    ensures ContainsSubstring(t, t)
  {
    assert OccursAt(t, t, 0);
  }

  /** An occurrence survives appending text on the right. */
  lemma ContainsAppend(s: string, b: string, t: string)
    requires ContainsSubstring(s, t)
    ensures ContainsSubstring(s + b, t)
  {
    var k: nat :| k <= |s| && OccursAt(s, t, k);
    assert (s + b)[k..k + |t|] == s[k..k + |t|];
    assert OccursAt(s + b, t, k);
  }

  /** An occurrence survives prepending text on the left. */
  lemma ContainsPrepend(a: string, s: string, t: string)
    requires ContainsSubstring(s, t)
    ensures ContainsSubstring(a + s, t)
  {
    var k: nat :| k <= |s| && OccursAt(s, t, k);
    assert (a + s)[|a| + k..|a| + k + |t|] == s[k..k + |t|];
    assert OccursAt(a + s, t, |a| + k);
  }
}
