/**
 * The fuzzy-matching primitives that the column resolver takes from rapidfuzz.
 * `process.extractOne` is modelled over an abstract scorer (rapidfuzz applies a
 * version-dependent preprocessing step before scoring, so the scorer stands for
 * "ratio after whatever preprocessing"); `fuzz.ratio` itself is given as one concrete
 * scorer, the normalized Indel similarity 200 * LCS / (len1 + len2).
 */
module Similarity {
  import opened Wrappers

  /** A scorer called as `scorer(query, choice)`; rapidfuzz's scores lie in 0..100. */
  type Scorer = (string, string) -> real

  /** Index of the first choice among `choices[..n]` whose score is the highest. */
  function BestIndex(query: string, choices: seq<string>, scorer: Scorer, n: nat): (k: nat)
    requires 0 < n <= |choices|
    ensures k < n
    ensures forall j :: 0 <= j < n ==> scorer(query, choices[j]) <= scorer(query, choices[k])
    ensures forall j :: 0 <= j < k ==> scorer(query, choices[j]) < scorer(query, choices[k])
  {
    if n == 1 then 0
    else
      var b := BestIndex(query, choices, scorer, n - 1);
      if scorer(query, choices[n - 1]) > scorer(query, choices[b]) then n - 1 else b
  }

  /**
   * `process.extractOne(query, choices, scorer=...)`: the first choice with the highest
   * score, paired with that score; nothing for an empty list of choices.
   */
  function ExtractOne(query: string, choices: seq<string>, scorer: Scorer): (r: Option<(string, real)>)
    ensures r.None? <==> |choices| == 0
    ensures r.Some? ==> exists k :: 0 <= k < |choices| && r.value.0 == choices[k]
                          && (forall j :: 0 <= j < k ==> scorer(query, choices[j]) < r.value.1)
    ensures r.Some? ==> r.value.1 == scorer(query, r.value.0)
    ensures r.Some? ==> forall c :: c in choices ==> scorer(query, c) <= r.value.1
  {
    if |choices| == 0 then None
    else
      var k := BestIndex(query, choices, scorer, |choices|);
      Some((choices[k], scorer(query, choices[k])))
  }

  /** Length of a longest common subsequence of `a` and `b`. */
  function Lcs(a: string, b: string): (r: nat)
    ensures r <= |a| && r <= |b|
    decreases |a| + |b|
  {
    if |a| == 0 || |b| == 0 then 0
    else if a[0] == b[0] then 1 + Lcs(a[1..], b[1..])
    else
      var x := Lcs(a[1..], b);
      var y := Lcs(a, b[1..]);
      if x >= y then x else y
  }

  /** `fuzz.ratio(a, b)`: the normalized Indel similarity on a 0..100 scale. */
  function IndelRatio(a: string, b: string): (r: real)
    ensures 0.0 <= r <= 100.0
  {
    if TotalLength(a, b) == 0 then 100.0
    else
      ScaledAtMost(Lcs(a, b), Lcs(a, b), TotalLength(a, b), 100.0);
      Scaled(Lcs(a, b), TotalLength(a, b))
  }

  /** `len(a) + len(b)`, the denominator of the Indel ratio. */
  function TotalLength(a: string, b: string): nat
  {
    |a| + |b|
  }

  /** `200 * l / n` as a real number. */
  function Scaled(l: nat, n: nat): real
    requires n > 0
  {
    (200.0 * l as real) / (n as real)
  }

  /** `Scaled(l, n)` is at most `m` when `200 * c <= m * n` for some `c >= l`. */
  lemma ScaledAtMost(l: nat, c: nat, n: nat, m: real)
    requires n > 0 && l <= c && 200.0 * (c as real) <= m * (n as real)
    ensures Scaled(l, n) <= m
  {
    var x := 200.0 * l as real;
    assert x <= 200.0 * c as real;
    DivAtMost(x, n as real, m);
  }

  /** Dividing by a positive `n` keeps a bound `x <= m * n` as `x / n <= m`. */
  lemma DivAtMost(x: real, n: real, m: real)
    requires n > 0.0 && x <= m * n
    ensures x / n <= m
  {
    var q := x / n;
    assert q * n == x;
    assert (q - m) * n <= 0.0;
  }

  /** Dividing by a positive `n` keeps a bound `x >= m * n` as `x / n >= m`. */
  lemma DivAtLeast(x: real, n: real, m: real)
    requires n > 0.0 && x >= m * n
    ensures x / n >= m
  {
    var q := x / n;
    assert q * n == x;
    assert (q - m) * n >= 0.0;
  }

  lemma {:induction false} LcsSelf(a: string)
    ensures Lcs(a, a) == |a|
    decreases |a|
  {
    if |a| > 0 { LcsSelf(a[1..]); }
  }

  /** Only equal strings have a common subsequence as long as both of them. */
  lemma {:induction false} LcsFullMeansEqual(a: string, b: string)
    requires Lcs(a, b) == |a| == |b|
    ensures a == b
    decreases |a|
  {
    if |a| > 0 {
      if a[0] == b[0] {
        LcsFullMeansEqual(a[1..], b[1..]);
        assert a == [a[0]] + a[1..] && b == [b[0]] + b[1..];
      } else {
        assert Lcs(a[1..], b) <= |a| - 1 && Lcs(a, b[1..]) <= |b| - 1;
        assert false;
      }
    }
  }

  lemma {:induction false} LcsSymmetric(a: string, b: string)
    ensures Lcs(a, b) == Lcs(b, a)
    decreases |a| + |b|
  {
    if |a| > 0 && |b| > 0 {
      if a[0] == b[0] {
        LcsSymmetric(a[1..], b[1..]);
      } else {
        LcsSymmetric(a[1..], b);
        LcsSymmetric(a, b[1..]);
      }
    }
  }

  /** fuzz.ratio is symmetric in its two arguments. */
  lemma IndelRatioSymmetric(a: string, b: string)
    ensures IndelRatio(a, b) == IndelRatio(b, a)
  {
    LcsSymmetric(a, b);
  }

  /** fuzz.ratio is 100 exactly for identical strings. */
  lemma IndelRatioHundredIffEqual(a: string, b: string)
    ensures IndelRatio(a, b) == 100.0 <==> a == b
  {
    if a == b {
      LcsSelf(a);
      if TotalLength(a, b) > 0 {
        ScaledHalf(Lcs(a, b), TotalLength(a, b));
      }
    } else if TotalLength(a, b) > 0 && IndelRatio(a, b) == 100.0 {
      ScaledHundred(Lcs(a, b), TotalLength(a, b));
      LcsFullMeansEqual(a, b);
      assert false;
    }
  }

  /** A ratio of exactly 100 means the count is half the total. */
  lemma ScaledHundred(l: nat, n: nat)
    requires n > 0 && Scaled(l, n) == 100.0
    ensures 2 * l == n
  {
    var x := 200.0 * l as real;
    var q := x / n as real;
    assert q * n as real == x;
  }

  /** A count of half the total gives a ratio of exactly 100. */
  lemma ScaledHalf(l: nat, n: nat)
    requires n > 0 && 2 * l == n
    ensures Scaled(l, n) == 100.0
  {
    var x := 200.0 * l as real;
    var r := n as real;
    assert x == 100.0 * r;
    DivAtMost(x, r, 100.0);
    DivAtLeast(x, r, 100.0);
  }

  /** The number of characters of `a` that occur somewhere in `pool`. */
  function CountIn(a: string, pool: string): (r: nat)
    ensures r <= |a|
  {
    if |a| == 0 then 0 else (if a[0] in pool then 1 else 0) + CountIn(a[1..], pool)
  }

  lemma {:induction false} CountInMonotone(a: string, p: string, q: string)
    requires forall c :: c in p ==> c in q
    ensures CountIn(a, p) <= CountIn(a, q)
    decreases |a|
  {
    if |a| > 0 { CountInMonotone(a[1..], p, q); }
  }

  /** A common subsequence uses only characters of `a` that also occur in `b`. */
  lemma {:induction false} LcsAtMostShared(a: string, b: string)
    ensures Lcs(a, b) <= CountIn(a, b)
    decreases |a| + |b|
  {
    if |a| > 0 && |b| > 0 {
      assert forall c :: c in b[1..] ==> c in b;
      if a[0] == b[0] {
        LcsAtMostShared(a[1..], b[1..]);
        CountInMonotone(a[1..], b[1..], b);
      } else {
        LcsAtMostShared(a[1..], b);
        LcsAtMostShared(a, b[1..]);
        CountInMonotone(a, b[1..], b);
      }
    }
  }

  /** fuzz.ratio is bounded by the share of characters the two strings have in common. */
  lemma IndelRatioAtMost(a: string, b: string, m: real)
    requires TotalLength(a, b) > 0
    requires 200.0 * (CountIn(a, b) as real) <= m * (TotalLength(a, b) as real)
    ensures IndelRatio(a, b) <= m
  {
    LcsAtMostShared(a, b);
    ScaledAtMost(Lcs(a, b), CountIn(a, b), TotalLength(a, b), m);
  }
}
