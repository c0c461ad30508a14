/**
 * The column-name resolver: maps a user-supplied header onto one of a table's column
 * names by a cascade of strategies (normalized exact match, synonym, fuzzy, LLM), and
 * reports which strategy produced the answer.
 */
module ColumnMapping {
  import opened Wrappers
  import opened Text
  import opened Similarity
  import opened LlmUtils

  // ---------------------------------------------------------------- normalization

  predicate IsUpper(c: char) { 'A' <= c <= 'Z' }

  /** `str.lower` on one character, for the ASCII range. */
  function LowerChar(c: char): char
  {
    if IsUpper(c) then (c as int + 32) as char else c
  }

  /** `header.lower()`. */
  function Lower(s: string): (r: string)
    ensures |r| == |s|
    ensures forall i :: 0 <= i < |r| ==> !IsUpper(r[i])
    ensures forall i :: 0 <= i < |s| && !IsUpper(s[i]) ==> r[i] == s[i]
    ensures forall i :: 0 <= i < |s| && IsUpper(s[i]) ==> r[i] as int == s[i] as int + 32
  {
    seq(|s|, i requires 0 <= i < |s| => LowerChar(s[i]))
  }

  /** The characters the pattern `[^a-z0-9_ ]` does not match. */
  predicate IsKept(c: char) { 'a' <= c <= 'z' || '0' <= c <= '9' || c == '_' || c == ' ' }

  /** `re.sub(r'[^a-z0-9_ ]', '', header)`: drop every character outside the class, keep order. */
  function RemoveDisallowed(s: string): (r: string)
    ensures |r| <= |s|
    ensures forall i :: 0 <= i < |r| ==> IsKept(r[i])
    ensures (forall i :: 0 <= i < |s| ==> IsKept(s[i])) ==> r == s
    ensures |s| == 1 && !IsKept(s[0]) ==> r == ""
  {
    if |s| == 0 then ""
    else (if IsKept(s[0]) then [s[0]] else []) + RemoveDisallowed(s[1..])
  }

  /** The filter works character by character: it distributes over concatenation. */
  lemma {:induction false} RemoveDisallowedAppend(a: string, b: string)
    ensures RemoveDisallowed(a + b) == RemoveDisallowed(a) + RemoveDisallowed(b)
    decreases |a|
  {
    if |a| == 0 {
      assert a + b == b;
    } else {
      assert (a + b)[1..] == a[1..] + b;
      RemoveDisallowedAppend(a[1..], b);
    }
  }

  /** `header.replace(' ', '_')`. */
  function SpacesToUnderscores(s: string): (r: string)
    ensures |r| == |s|
    ensures forall i :: 0 <= i < |r| ==> r[i] != ' '
    ensures forall i :: 0 <= i < |s| && s[i] == ' ' ==> r[i] == '_'
    ensures forall i :: 0 <= i < |s| && s[i] != ' ' ==> r[i] == s[i]
  {
    seq(|s|, i requires 0 <= i < |s| => if s[i] == ' ' then '_' else s[i])
  }

  /** The alphabet of normalized headers: `[a-z0-9_]`. */
  predicate IsNormalChar(c: char) { 'a' <= c <= 'z' || '0' <= c <= '9' || c == '_' }

  predicate IsNormalized(s: string) { forall i :: 0 <= i < |s| ==> IsNormalChar(s[i]) }

  /** `normalize_header`: lowercase, drop characters outside `[a-z0-9_ ]`, spaces to `_`. */
  function NormalizeHeader(header: string): (r: string)
    ensures IsNormalized(r)
    ensures |r| <= |header|
    ensures IsNormalized(header) ==> r == header
  {
    SpacesToUnderscores(RemoveDisallowed(Lower(header)))
  }

  /** Normalizing a normalized header changes nothing. */
  lemma NormalizeHeaderIdempotent(header: string)
    ensures NormalizeHeader(NormalizeHeader(header)) == NormalizeHeader(header)
  {
  }

  /** `normalize_headers`: normalize each header, keeping positions. */
  function NormalizeHeaders(headers: seq<string>): (r: seq<string>)
    ensures |r| == |headers|
    ensures forall i :: 0 <= i < |r| ==> r[i] == NormalizeHeader(headers[i]) && IsNormalized(r[i])
  {
    seq(|headers|, i requires 0 <= i < |headers| => NormalizeHeader(headers[i]))
  }

  /** `xs.index(x)`: the position of the first occurrence. */
  function FirstIndex(xs: seq<string>, x: string): (k: nat)
    requires x in xs
    ensures k < |xs| && xs[k] == x
    ensures forall j :: 0 <= j < k ==> xs[j] != x
  {
    if xs[0] == x then 0 else 1 + FirstIndex(xs[1..], x)
  }

  // ---------------------------------------------------------------- synonyms

  /** `SYNONYM_DICT`: business abbreviations, both ways. */
  const SynonymDict: map<string, string> := map[
    "qty" := "quantity", "quantity" := "qty",
    "amt" := "amount", "amount" := "amt",
    "cust" := "customer", "customer" := "cust",
    "prod" := "product", "product" := "prod",
    "desc" := "description", "description" := "desc"
  ]

  /** The table is symmetric and never maps a word to itself. */
  lemma SynonymDictSymmetric(k: string)
    requires k in SynonymDict
    ensures SynonymDict[k] in SynonymDict
    ensures SynonymDict[SynonymDict[k]] == k
    ensures SynonymDict[k] != k
  {
  }

  /** Every key is already normalized, so a normalized lookup can reach each of them. */
  lemma SynonymKeysNormalized(k: string)
    requires k in SynonymDict
    ensures NormalizeHeader(k) == k
  {
    SynonymKeyChars(k);
    NormalizedIsFixed(k);
  }

  /** Every key is spelled in the normalized alphabet. */
  lemma SynonymKeyChars(k: string)
    requires k in SynonymDict
    ensures IsNormalized(k)
  {
    if k == "qty" { assert IsNormalized("qty"); }
    else if k == "quantity" { assert IsNormalized("quantity"); }
    else if k == "amt" { assert IsNormalized("amt"); }
    else if k == "amount" { assert IsNormalized("amount"); }
    else if k == "cust" { assert IsNormalized("cust"); }
    else if k == "customer" { assert IsNormalized("customer"); }
    else if k == "prod" { assert IsNormalized("prod"); }
    else if k == "product" { assert IsNormalized("product"); }
    else if k == "desc" { assert IsNormalized("desc"); }
    else { assert IsNormalized("description"); }
  }

  /** A header already in the normalized alphabet is its own normalization. */
  lemma NormalizedIsFixed(h: string)
    requires IsNormalized(h)
    ensures NormalizeHeader(h) == h
  {
  }

  // ---------------------------------------------------------------- fuzzy

  const FuzzyThreshold: int := 80
  const SynonymThreshold: int := 70

  /** `fuzzy_match_column`: the best-scoring candidate, kept only if it reaches `threshold`. */
  function FuzzyMatchColumn(query: string, candidates: seq<string>, threshold: int, scorer: Scorer)
    : (r: Option<(string, real)>)
    ensures |candidates| == 0 ==> r.None?
    ensures r.None? <==> forall c :: c in candidates ==> scorer(query, c) < threshold as real
    ensures r.Some? ==> r.value.0 in candidates && r.value.1 == scorer(query, r.value.0)
    ensures r.Some? ==> r.value.1 >= threshold as real
    ensures r.Some? ==> forall c :: c in candidates ==> scorer(query, c) <= r.value.1
    ensures r.Some? ==> r == ExtractOne(query, candidates, scorer)
  {
    var result := ExtractOne(query, candidates, scorer);
    if result.Some? && result.value.1 >= threshold as real then result else None
  }

  /** `map_with_synonyms`: fuzzy-match the synonym of the normalized header, threshold 70. */
  function MapWithSynonyms(header: string, candidates: seq<string>, scorer: Scorer): (r: Option<string>)
    ensures r.Some? ==> NormalizeHeader(header) in SynonymDict
    ensures r.Some? ==> r.value in candidates
    ensures r.Some? ==> scorer(SynonymDict[NormalizeHeader(header)], r.value) >= SynonymThreshold as real
    ensures r.Some? ==> forall c :: c in candidates ==>
      scorer(SynonymDict[NormalizeHeader(header)], c) <= scorer(SynonymDict[NormalizeHeader(header)], r.value)
    ensures r.Some? ==>
      ExtractOne(SynonymDict[NormalizeHeader(header)], candidates, scorer)
        == Some((r.value, scorer(SynonymDict[NormalizeHeader(header)], r.value)))
    ensures r.None? <==> (NormalizeHeader(header) !in SynonymDict ||
      forall c :: c in candidates ==> scorer(SynonymDict[NormalizeHeader(header)], c) < SynonymThreshold as real)
  {
    var normHeader := NormalizeHeader(header);
    if normHeader in SynonymDict then
      match FuzzyMatchColumn(SynonymDict[normHeader], candidates, SynonymThreshold, scorer)
      case Some(m) => Some(m.0)
      case None => None
    else None
  }

  // ---------------------------------------------------------------- LLM suggestion

  const Quotes: set<char> := {'"', '\''}

  /** The request the resolver passes to `run_gemini_query` as its user query. */
  function SuggestionRequest(userHeader: string, candidates: seq<string>): (r: string)
    ensures ContainsSubstring(r, userHeader)
    ensures ContainsSubstring(r, ListRepr(candidates))
  {
    var head := "Given the ambiguous column name '";
    var middle := "' and the available columns: ";
    var tail := ", suggest the most likely correct column name. Return only the best match or None.";
    ContainsSelf(userHeader);
    ContainsPrepend(head, userHeader, userHeader);
    ContainsAppend(head + userHeader, middle + ListRepr(candidates) + tail, userHeader);
    assert head + userHeader + (middle + ListRepr(candidates) + tail)
      == head + userHeader + middle + ListRepr(candidates) + tail;
    ContainsSelf(ListRepr(candidates));
    ContainsPrepend(head + userHeader + middle, ListRepr(candidates), ListRepr(candidates));
    ContainsAppend(head + userHeader + middle + ListRepr(candidates), tail, ListRepr(candidates));
    head + userHeader + middle + ListRepr(candidates) + tail
  }

  /** `suggestion.strip().strip('"\'')`. */
  function CleanSuggestion(code: string): (r: string)
    ensures |r| <= |code|
    ensures r == [] || (r[0] !in Quotes && r[|r| - 1] !in Quotes)
    ensures exists k: nat | k <= |code| :: OccursAt(code, r, k)
    ensures code == [] || (code[0] !in Whitespace + Quotes && code[|code| - 1] !in Whitespace + Quotes)
      ==> r == code
  {
    var u := Strip(code, Whitespace);
    StripTwiceIsSlice(code, Whitespace, Quotes);
    CleanTextIsKept(code);
    Strip(u, Quotes)
  }

  /** Text with no whitespace or quote at either end survives cleaning unchanged. */
  lemma CleanTextIsKept(code: string)
    ensures code == [] || (code[0] !in Whitespace + Quotes && code[|code| - 1] !in Whitespace + Quotes)
      ==> Strip(Strip(code, Whitespace), Quotes) == code
  {
    if code == [] || (code[0] !in Whitespace + Quotes && code[|code| - 1] !in Whitespace + Quotes) {
      StripFixed(code, Whitespace);
      StripFixed(code, Quotes);
    }
  }


  /**
   * `suggest_column_mapping_with_llm`: asks through `run_gemini_query('filter', ...)`,
   * cleans the code it returns and keeps it only if it is verbatim a candidate. A missing
   * API key raises out of it.
   */
  function SuggestWithLlm(userHeader: string, candidates: seq<string>, g: Gemini): (r: Outcome<Option<string>>)
    ensures r.Raised? <==> !HasApiKey(g)
    ensures r.Raised? ==> r.error == MissingApiKey
    ensures r.Returned? && r.value.Some? ==> r.value.value in candidates
  {
    match RunGeminiQuery("filter", SuggestionRequest(userHeader, candidates), candidates, g)
    case Raised(e) => Raised(e)
    case Returned(suggestion) =>
      if suggestion.None? || suggestion.value == "" then Returned(None)
      else
        var cleaned := CleanSuggestion(suggestion.value);
        if cleaned in candidates then Returned(Some(cleaned)) else Returned(None)
  }

  /** The full prompt the model receives for a column suggestion. */
  function SuggestionPrompt(userHeader: string, candidates: seq<string>): string
  {
    Render(Filter, SuggestionRequest(userHeader, candidates), candidates)
  }

  /**
   * A suggestion is accepted exactly when the model replies, the stripped reply passes
   * `parse_llm_response` (it mentions `df`), and the reply stripped of whitespace and
   * then of quotes is one of the candidates; the accepted name is that cleaned reply.
   */
  lemma SuggestWithLlmAccepts(userHeader: string, candidates: seq<string>, g: Gemini, c: string)
    ensures SuggestWithLlm(userHeader, candidates, g) == Returned(Some(c)) <==>
      HasApiKey(g) &&
      g.invoke(SuggestionPrompt(userHeader, candidates)).Some? &&
      ContainsSubstring(Strip(g.invoke(SuggestionPrompt(userHeader, candidates)).value, Whitespace), "df") &&
      c == CleanSuggestion(g.invoke(SuggestionPrompt(userHeader, candidates)).value) &&
      c in candidates
  {
    var request := SuggestionRequest(userHeader, candidates);
    var prompt := SuggestionPrompt(userHeader, candidates);
    var r := SuggestWithLlm(userHeader, candidates, g);
    if HasApiKey(g) {
      assert GetPrompt("filter", request, candidates) == Returned(prompt);
      if g.invoke(prompt).Some? {
        var reply := g.invoke(prompt).value;
        RunGeminiQueryParsesReply("filter", request, candidates, g, reply);
        StripIdempotent(reply, Whitespace);
        if ContainsSubstring(Strip(reply, Whitespace), "df") {
          assert CleanSuggestion(Strip(reply, Whitespace)) == CleanSuggestion(reply);
        }
      } else {
        RunGeminiQueryCatchesCallFailure("filter", request, candidates, g);
      }
    }
  }

  /**
   * Because the suggestion passes through `parse_llm_response`, an accepted LLM answer
   * always contains the text `df`: a plain column name such as "Revenue" is never accepted.
   */
  lemma SuggestWithLlmNeedsDf(userHeader: string, candidates: seq<string>, g: Gemini)
    requires SuggestWithLlm(userHeader, candidates, g).Returned?
    requires SuggestWithLlm(userHeader, candidates, g).value.Some?
    ensures ContainsSubstring(SuggestWithLlm(userHeader, candidates, g).value.value, "df")
  {
    var run := RunGeminiQuery("filter", SuggestionRequest(userHeader, candidates), candidates, g);
    assert run.Returned? && run.value.Some?;
    var code := run.value.value;
    assert ContainsSubstring(code, "df");
    assert SuggestWithLlm(userHeader, candidates, g).value.value == CleanSuggestion(code);
    CleaningKeepsDf(code);
  }

  /** Stripping whitespace and quotes cannot remove an occurrence of `df`. */
  lemma CleaningKeepsDf(code: string)
    requires ContainsSubstring(code, "df")
    ensures ContainsSubstring(CleanSuggestion(code), "df")
  {
    var df := "df";
    assert df[0] == 'd' && df[|df| - 1] == 'f';
    assert 'd' !in Whitespace && 'f' !in Whitespace && 'd' !in Quotes && 'f' !in Quotes;
    StripKeepsInner(code, Whitespace, df);
    StripKeepsInner(Strip(code, Whitespace), Quotes, df);
  }

  // ---------------------------------------------------------------- the cascade

  /** The strategy that produced a resolution (`'exact'`, ..., `'none'`). */
  datatype MatchMethod = Exact | Synonym | Fuzzy | Llm | NoMatch

  /** `(best_match, method_used)`. */
  datatype Resolution = Resolution(column: Option<string>, via: MatchMethod)

  /** Some candidate normalizes to the same text as the header. */
  predicate HasExactMatch(userHeader: string, candidates: seq<string>)
  {
    exists k :: 0 <= k < |candidates| && NormalizeHeader(candidates[k]) == NormalizeHeader(userHeader)
  }

  /** The synonym step produced a truthy (non-empty) name. */
  predicate SynonymSucceeds(userHeader: string, candidates: seq<string>, scorer: Scorer)
  {
    var s := MapWithSynonyms(userHeader, candidates, scorer);
    s.Some? && s.value != ""
  }

  /** The LLM step returned a truthy (non-empty) name. */
  predicate LlmSucceeds(userHeader: string, candidates: seq<string>, g: Gemini)
  {
    var s := SuggestWithLlm(userHeader, candidates, g);
    s.Returned? && s.value.Some? && s.value.value != ""
  }

  /**
   * `map_column`: exact, synonym, fuzzy (threshold 80), then LLM; the first strategy
   * with a truthy answer wins. Only the LLM step can raise (a missing API key).
   */
  function MapColumn(userHeader: string, candidates: seq<string>, scorer: Scorer, g: Gemini)
    : (r: Outcome<Resolution>)
    ensures r.Returned? && r.value.column.Some? ==> r.value.column.value in candidates
    ensures r.Returned? ==> (r.value.via == NoMatch <==> r.value.column.None?)
    ensures r.Raised? ==> r.error == MissingApiKey
  {
    var normCandidates := NormalizeHeaders(candidates);
    var normUserHeader := NormalizeHeader(userHeader);
    if normUserHeader in normCandidates then
      var idx := FirstIndex(normCandidates, normUserHeader);
      Returned(Resolution(Some(candidates[idx]), Exact))
    else
      var synMatch := MapWithSynonyms(userHeader, candidates, scorer);
      if synMatch.Some? && synMatch.value != "" then Returned(Resolution(synMatch, Synonym))
      else
        var fuzzy := FuzzyMatchColumn(userHeader, candidates, FuzzyThreshold, scorer);
        if fuzzy.Some? then Returned(Resolution(Some(fuzzy.value.0), Fuzzy))
        else
          match SuggestWithLlm(userHeader, candidates, g)
          case Raised(e) => Raised(e)
          case Returned(llm) =>
            if llm.Some? && llm.value != "" then Returned(Resolution(llm, Llm))
            else Returned(Resolution(None, NoMatch))
  }

  /** A normalized match wins with the lowest-index such candidate, whatever the oracle does. */
  lemma MapColumnExact(userHeader: string, candidates: seq<string>, scorer: Scorer, g: Gemini, k: nat)
    requires k < |candidates| && NormalizeHeader(candidates[k]) == NormalizeHeader(userHeader)
    requires forall j :: 0 <= j < k ==> NormalizeHeader(candidates[j]) != NormalizeHeader(userHeader)
    ensures MapColumn(userHeader, candidates, scorer, g) == Returned(Resolution(Some(candidates[k]), Exact))
  {
    var normCandidates := NormalizeHeaders(candidates);
    assert normCandidates[k] == NormalizeHeader(userHeader);
    var idx := FirstIndex(normCandidates, NormalizeHeader(userHeader));
    assert idx == k;
  }

  /**
   * The strategies run strictly in order and the first truthy answer short-circuits:
   * each method is reported only when every earlier strategy came up empty.
   */
  lemma MapColumnCascade(userHeader: string, candidates: seq<string>, scorer: Scorer, g: Gemini)
    ensures var r := MapColumn(userHeader, candidates, scorer, g);
      (r.Returned? && r.value.via == Exact <==> HasExactMatch(userHeader, candidates))
      && (r.Returned? && r.value.via == Synonym <==>
            !HasExactMatch(userHeader, candidates) && SynonymSucceeds(userHeader, candidates, scorer))
      && (r.Returned? && r.value.via == Synonym ==>
            r.value.column == MapWithSynonyms(userHeader, candidates, scorer))
      && (r.Returned? && r.value.via == Fuzzy <==>
            !HasExactMatch(userHeader, candidates) && !SynonymSucceeds(userHeader, candidates, scorer)
            && FuzzyMatchColumn(userHeader, candidates, FuzzyThreshold, scorer).Some?)
      && (r.Returned? && r.value.via == Fuzzy ==>
            r.value.column == Some(FuzzyMatchColumn(userHeader, candidates, FuzzyThreshold, scorer).value.0))
      && ((r.Returned? && r.value.via in {Llm, NoMatch}) || r.Raised? <==>
            !HasExactMatch(userHeader, candidates) && !SynonymSucceeds(userHeader, candidates, scorer)
            && FuzzyMatchColumn(userHeader, candidates, FuzzyThreshold, scorer).None?)
  {
    ExactMatchIff(userHeader, candidates);
    var r := MapColumn(userHeader, candidates, scorer, g);
    if HasExactMatch(userHeader, candidates) {
      assert r.Returned? && r.value.via == Exact;
    } else if SynonymSucceeds(userHeader, candidates, scorer) {
      assert r == Returned(Resolution(MapWithSynonyms(userHeader, candidates, scorer), Synonym));
    } else if FuzzyMatchColumn(userHeader, candidates, FuzzyThreshold, scorer).Some? {
      assert r == Returned(Resolution(Some(FuzzyMatchColumn(userHeader, candidates, FuzzyThreshold, scorer).value.0), Fuzzy));
    } else {
      assert (r.Returned? && r.value.via in {Llm, NoMatch}) || r.Raised?;
    }
  }

  /**
   * The last step: once exact, synonym and fuzzy matching have failed, `'llm'` is reported
   * exactly when the suggestion is truthy, with that suggestion as the column, `'none'`
   * exactly when the suggestion step returned without one, and an error exactly when the
   * suggestion step raised.
   */
  lemma MapColumnLlmStep(userHeader: string, candidates: seq<string>, scorer: Scorer, g: Gemini)
    requires !HasExactMatch(userHeader, candidates) && !SynonymSucceeds(userHeader, candidates, scorer)
    requires FuzzyMatchColumn(userHeader, candidates, FuzzyThreshold, scorer).None?
    ensures var r := MapColumn(userHeader, candidates, scorer, g);
      (r.Returned? && r.value.via == Llm <==> LlmSucceeds(userHeader, candidates, g))
      && (r.Returned? && r.value.via == Llm ==> r.value.column == SuggestWithLlm(userHeader, candidates, g).value)
      && (r.Returned? && r.value.via == NoMatch <==>
            SuggestWithLlm(userHeader, candidates, g).Returned? && !LlmSucceeds(userHeader, candidates, g))
      && (r.Raised? <==> SuggestWithLlm(userHeader, candidates, g).Raised?)
  {
    var r := MapColumn(userHeader, candidates, scorer, g);
    var llm := SuggestWithLlm(userHeader, candidates, g);
    ExactMatchIff(userHeader, candidates);
    if llm.Raised? {
      assert r == Raised(llm.error);
    } else if LlmSucceeds(userHeader, candidates, g) {
      assert r == Returned(Resolution(llm.value, Llm));
    } else {
      assert r == Returned(Resolution(None, NoMatch));
    }
  }

  /** The membership test `map_column` makes is the same as `HasExactMatch`. */
  lemma ExactMatchIff(userHeader: string, candidates: seq<string>)
    ensures NormalizeHeader(userHeader) in NormalizeHeaders(candidates) <==> HasExactMatch(userHeader, candidates)
  {
    var normCandidates := NormalizeHeaders(candidates);
    var normUserHeader := NormalizeHeader(userHeader);
    if HasExactMatch(userHeader, candidates) {
      var k :| 0 <= k < |candidates| && NormalizeHeader(candidates[k]) == normUserHeader;
      assert normCandidates[k] == normUserHeader;
    }
    if normUserHeader in normCandidates {
      var k := FirstIndex(normCandidates, normUserHeader);
      assert NormalizeHeader(candidates[k]) == normUserHeader;
    }
  }

  /**
   * The LLM oracle is consulted only after exact, synonym and fuzzy matching have all
   * failed: an answer from those strategies does not depend on the oracle at all.
   */
  lemma MapColumnOracleLast(userHeader: string, candidates: seq<string>, scorer: Scorer, g1: Gemini, g2: Gemini)
    requires MapColumn(userHeader, candidates, scorer, g1).Returned?
    requires MapColumn(userHeader, candidates, scorer, g1).value.via in {Exact, Synonym, Fuzzy}
    ensures MapColumn(userHeader, candidates, scorer, g2) == MapColumn(userHeader, candidates, scorer, g1)
  {
    MapColumnCascade(userHeader, candidates, scorer, g1);
    MapColumnCascade(userHeader, candidates, scorer, g2);
  }

  /** A missing API key escapes `map_column` exactly when the LLM step is reached. */
  lemma MapColumnRaises(userHeader: string, candidates: seq<string>, scorer: Scorer, g: Gemini)
    ensures MapColumn(userHeader, candidates, scorer, g).Raised? <==>
      !HasApiKey(g) && !HasExactMatch(userHeader, candidates)
      && !SynonymSucceeds(userHeader, candidates, scorer)
      && FuzzyMatchColumn(userHeader, candidates, FuzzyThreshold, scorer).None?
  {
    MapColumnCascade(userHeader, candidates, scorer, g);
    if !HasExactMatch(userHeader, candidates) && !SynonymSucceeds(userHeader, candidates, scorer)
      && FuzzyMatchColumn(userHeader, candidates, FuzzyThreshold, scorer).None?
    {
      MapColumnLlmStep(userHeader, candidates, scorer, g);
    }
  }

  /** A column resolved by the LLM always contains the text `df`. */
  lemma MapColumnLlmNeedsDf(userHeader: string, candidates: seq<string>, scorer: Scorer, g: Gemini)
    requires MapColumn(userHeader, candidates, scorer, g).Returned?
    requires MapColumn(userHeader, candidates, scorer, g).value.via == Llm
    ensures ContainsSubstring(MapColumn(userHeader, candidates, scorer, g).value.column.value, "df")
  {
    MapColumnCascade(userHeader, candidates, scorer, g);
    SuggestWithLlmNeedsDf(userHeader, candidates, g);
  }

  /** When no strategy before the LLM applies, the LLM step decides the outcome. */
  lemma MapColumnReachesLlm(userHeader: string, candidates: seq<string>, scorer: Scorer, g: Gemini)
    requires !HasExactMatch(userHeader, candidates)
    requires NormalizeHeader(userHeader) !in SynonymDict
    requires forall c :: c in candidates ==> scorer(userHeader, c) < FuzzyThreshold as real
    ensures var r := MapColumn(userHeader, candidates, scorer, g);
      r.Raised? || r.value.via in {Llm, NoMatch}
  {
    MapColumnCascade(userHeader, candidates, scorer, g);
  }

  /** A character-by-character check of `IsNormalized`, which literal strings evaluate. */
  function AllNormalChars(s: string): (r: bool)
    ensures r <==> IsNormalized(s)
  {
    |s| == 0 || (IsNormalChar(s[0]) && AllNormalChars(s[1..]))
  }

  /** "qtty" normalizes to neither "quantity" nor "amount" and has no synonym. */
  lemma QttyHasNoExactOrSynonymMatch(userHeader: string, candidates: seq<string>)
    requires userHeader == "qtty" && candidates == ["quantity", "amount"]
    ensures !HasExactMatch(userHeader, candidates)
    ensures NormalizeHeader(userHeader) !in SynonymDict
  {
    QttyWordsAreNormalized();
    var n := NormalizeHeader(userHeader);
    assert n == userHeader && |n| == 4;
    forall k | 0 <= k < |candidates|
      ensures NormalizeHeader(candidates[k]) != n
    {
      assert NormalizeHeader(candidates[k]) == candidates[k];
      assert |candidates[k]| != 4;
    }
    QttyIsNotASynonymKey();
  }

  lemma QttyWordsAreNormalized()
    ensures IsNormalized("qtty") && IsNormalized("quantity") && IsNormalized("amount")
  {
    assert AllNormalChars("qtty") && AllNormalChars("quantity") && AllNormalChars("amount");
  }

  lemma QttyIsNotASynonymKey()
    ensures "qtty" !in SynonymDict
  {
  }

  /** The characters of "qtty" found in each candidate: all four in "quantity", two in "amount". */
  lemma QttySharedCharacters()
    ensures CountIn("qtty", "quantity") == 4
    ensures CountIn("qtty", "amount") == 2
  {
  }

  /** `fuzz.ratio("qtty", c)` is at most 70 for "quantity" and at most 50 for "amount". */
  lemma QttyScoresBelowFuzzyThreshold(userHeader: string, candidates: seq<string>)
    requires userHeader == "qtty" && candidates == ["quantity", "amount"]
    ensures forall c :: c in candidates ==> IndelRatio(userHeader, c) < FuzzyThreshold as real
  {
    QttySharedCharacters();
    var quantity, amount := candidates[0], candidates[1];
    assert TotalLength(userHeader, quantity) == 12 && TotalLength(userHeader, amount) == 10;
    IndelRatioAtMost(userHeader, quantity, 70.0);
    IndelRatioAtMost(userHeader, amount, 50.0);
  }

  /**
   * With `fuzz.ratio` as the scorer, "qtty" scores at most 70 against "quantity" (the Indel
   * ratio is 200 * 4 / 12 at best) and at most 50 against "amount", so the fuzzy step
   * (threshold 80) does not resolve it: the cascade falls through to the LLM step.
   */
  lemma QttyFallsThroughFuzzy(userHeader: string, candidates: seq<string>, g: Gemini)
    requires userHeader == "qtty" && candidates == ["quantity", "amount"]
    ensures var r := MapColumn(userHeader, candidates, IndelRatio, g);
      r.Raised? || r.value.via in {Llm, NoMatch}
  {
    QttyHasNoExactOrSynonymMatch(userHeader, candidates);
    QttyScoresBelowFuzzyThreshold(userHeader, candidates);
    MapColumnReachesLlm(userHeader, candidates, IndelRatio, g);
  }
}
