# Excel assistant core: column resolution, LLM prompting and type inference

This project is a Dafny model of the decision logic behind a natural-language Excel
assistant. The model covers three parts.

- **Column-name resolver** (`column_mapping.dfy`, module `ColumnMapping`). A header the
  user types is mapped onto one of a sheet's column names. The strategies run as a cascade:
  1. an exact match after normalization (lowercase, keep `[a-z0-9_ ]`, spaces to `_`);
  2. a two-way synonym table, fuzzy-matched with threshold 70;
  3. a fuzzy match on the raw header with threshold 80;
  4. an LLM suggestion, kept only if it is verbatim a candidate.

  Every answer is tagged with the strategy that produced it.
- **Prompt selection and reply extraction** (`llm_utils.dfy`, module `LlmUtils`):
  - the four prompt templates (`filter`, `aggregate`, `sort`, `pivot`);
  - the `ValueError` raised for any other query type;
  - the "strip and require `df`" reply filter;
  - the oracle call, where a missing key or a bad type escapes but a failing call becomes `None`.
- **Type inference on a loaded sheet** (`type_inference.dfy`, module `TypeInference`):
  - the date-column test, a counting loop over at most 100 non-null values with a strict-majority rule;
  - the conversion pass, which rewrites `object` columns in place in an array of columns, to datetime or to numeric.

Supporting modules:

- `wrappers.dfy` (`Wrappers`): `Option` and an `Outcome` that is either a returned value or a raised error.
- `text.dfy` (`Text`): Python's `str.strip(chars)` and the substring test `t in s`.
- `similarity.dfy` (`Similarity`):
  - rapidfuzz's `process.extractOne`, as the first candidate with maximal score over an arbitrary scorer;
  - a concrete Indel ratio `200 * LCS / (len(a) + len(b))` standing for `fuzz.ratio`.

External behaviour is passed in as parameters:

- The scorer is a function parameter of type `(string, string) -> real`.
- The LLM is a value `Gemini(apiKey, invoke)`. `invoke: string -> Option<string>` is the model's reply to a prompt. `None` means the call raised.
- The pandas parsers are a `Parsers` value:
  - a per-value "parses as a date" test;
  - two whole-column conversions, where no result means the conversion raised.

One might expect `"qtty"` to resolve to `"quantity"` by the fuzzy step. With `fuzz.ratio`
it cannot: the Indel ratio of the two is at most 200·4/12 ≈ 66.7, below the threshold
of 80. `ColumnMapping.QttyFallsThroughFuzzy` proves
that the cascade falls through to the LLM step for this input.

One consequence of the code as written is worth knowing. The LLM suggestion is requested
through the `filter` query path, so the reply passes `parse_llm_response`. An accepted LLM
column name therefore always contains the text `df` (`ColumnMapping.MapColumnLlmNeedsDf`).

## Model

| member | source | states |
|---|---|---|
| ColumnMapping.Lower | column_mapping.py:26 | `lower()` keeps the length, leaves no uppercase letter, changes nothing else and shifts `A`-`Z` to `a`-`z` |
| ColumnMapping.RemoveDisallowed | column_mapping.py:27 | the `re.sub` keeps only characters of `[a-z0-9_ ]`, never lengthens, is the identity on text already in that class, and deletes a single character outside it |
| ColumnMapping.RemoveDisallowedAppend | column_mapping.py:27 | the filter distributes over concatenation; with the single-character cases this fixes the result as the allowed characters in their original order |
| ColumnMapping.SpacesToUnderscores | column_mapping.py:28 | `replace(' ', '_')` keeps the length, turns every space into `_`, and changes no other character |
| ColumnMapping.NormalizeHeader | column_mapping.py:24-29 | the normalized header uses only `[a-z0-9_]`, is no longer than the input, and a header already in that alphabet is returned unchanged |
| ColumnMapping.NormalizeHeaderIdempotent | column_mapping.py:24-29 | normalizing twice is the same as normalizing once |
| ColumnMapping.NormalizeHeaders | column_mapping.py:31-32 | the list is normalized position by position, same length |
| ColumnMapping.FirstIndex | column_mapping.py:76 | `list.index` gives the position of the first occurrence |
| ColumnMapping.SynonymDictSymmetric | column_mapping.py:10-22 | the synonym table is an involution: `d[d[k]] == k`, and no word maps to itself |
| ColumnMapping.SynonymKeysNormalized | column_mapping.py:10-22 | every key of the table is its own normalization, so the normalized lookup can reach each of them |
| ColumnMapping.SynonymKeyChars | column_mapping.py:10-22 | every key of the table is written in the normalized alphabet `[a-z0-9_]` |
| ColumnMapping.FuzzyMatchColumn | column_mapping.py:34-39 | none for an empty list; none exactly when every candidate scores below the threshold; otherwise a candidate with its own score, at least the threshold and maximal, and exactly `extractOne`'s answer (the first maximal candidate) |
| ColumnMapping.MapWithSynonyms | column_mapping.py:41-50 | a match only when the normalized header is a table key; the match is `extractOne`'s answer for the synonym (the first best-scoring candidate), scoring at least 70 and no less than any other candidate; none exactly when the key is absent or every candidate scores below 70 against the synonym |
| ColumnMapping.SuggestionRequest | column_mapping.py:54-57 | the request sent for a suggestion contains the user's header and `str(candidates)` |
| ColumnMapping.CleanSuggestion | column_mapping.py:61 | the cleaned reply is a contiguous block of the reply, neither of its ends is a quote, and a reply with no whitespace or quote at either end is kept unchanged |
| ColumnMapping.CleanTextIsKept | column_mapping.py:61 | a reply with no whitespace or quote at either end survives cleaning unchanged |
| ColumnMapping.SuggestionPrompt | column_mapping.py:58 | the full prompt the suggestion step sends: the `filter` template of llm_utils.py:20-28 rendered with the suggestion request as the query and the candidates as the columns |
| ColumnMapping.SuggestWithLlm | column_mapping.py:52-64 | raises exactly when the API key is missing, and the error is the missing key; an accepted suggestion is a candidate |
| ColumnMapping.SuggestWithLlmAccepts | column_mapping.py:52-64 | a suggestion is accepted iff the model replied, the stripped reply contains `df`, and the reply stripped of whitespace and then quotes is verbatim a candidate; that cleaned text is the result |
| ColumnMapping.SuggestWithLlmNeedsDf | column_mapping.py:58-63 | an accepted suggestion always contains `df` |
| ColumnMapping.CleaningKeepsDf | column_mapping.py:61 | stripping whitespace and quotes never removes an occurrence of `df` |
| ColumnMapping.MapColumn | column_mapping.py:66-90 | a returned match is a candidate; the method is `'none'` exactly when the match is `None`; only a missing API key can escape |
| ColumnMapping.MapColumnExact | column_mapping.py:72-77 | when some candidate normalizes like the header, the lowest-index such candidate is returned as `'exact'`, whatever the oracle does |
| ColumnMapping.ExactMatchIff | column_mapping.py:72-75 | the membership test on the normalized lists holds exactly when some candidate normalizes like the header |
| ColumnMapping.MapColumnCascade | column_mapping.py:66-90 | `'exact'`, `'synonym'` and `'fuzzy'` are each reported exactly when every earlier strategy failed and their own strategy produced a truthy answer, with that strategy's answer as the column; the LLM step (`'llm'`, `'none'` or an error) is reached exactly when all three failed |
| ColumnMapping.SynonymSucceeds | column_mapping.py:79-80 | the synonym step counts as a success when it returns a non-empty name (`if syn_match:`) |
| ColumnMapping.LlmSucceeds | column_mapping.py:87-88 | the LLM step counts as a success when it returns a non-empty name |
| ColumnMapping.MapColumnLlmStep | column_mapping.py:86-90 | once the first three strategies failed: `'llm'` is reported exactly when the suggestion is truthy, with the suggestion as the column; `'none'` exactly when the suggestion step returned nothing truthy; an error exactly when the suggestion step raised |
| ColumnMapping.MapColumnOracleLast | column_mapping.py:74-85 | an exact, synonym or fuzzy answer does not depend on the LLM oracle |
| ColumnMapping.MapColumnRaises | column_mapping.py:86-87 | the missing-key error escapes `map_column` exactly when the key is missing and the first three strategies all failed |
| ColumnMapping.MapColumnLlmNeedsDf | column_mapping.py:86-89 | a column resolved by the LLM always contains `df` |
| ColumnMapping.MapColumnReachesLlm | column_mapping.py:74-89 | with no exact match, no synonym entry and every fuzzy score below 80, the result comes from the LLM step (a match, `'none'` or the raised error) |
| ColumnMapping.QttyFallsThroughFuzzy | column_mapping.py:66-90 | with the Indel ratio as scorer, `"qtty"` against `["quantity", "amount"]` is not resolved by exact, synonym or fuzzy matching |
| ColumnMapping.QttyHasNoExactOrSynonymMatch | column_mapping.py:72-81 | `"qtty"` has no normalized match in `["quantity", "amount"]` and is not a synonym key |
| ColumnMapping.QttyScoresBelowFuzzyThreshold | column_mapping.py:83-85 | `fuzz.ratio("qtty", c)` is below 80 for both candidates |
| LlmUtils.KeyOf | llm_utils.py:19-53 | every template is filed under one of the four query-type names |
| LlmUtils.ParseQueryType | llm_utils.py:57 | a name selects a template exactly when it is one of the four keys, and then the one with that key |
| LlmUtils.Before | llm_utils.py:19-53 | the template text before `{columns}`, per query type |
| LlmUtils.Between | llm_utils.py:19-53 | the template text between `{columns}` and `{query}`, per query type |
| LlmUtils.After | llm_utils.py:19-53 | the template text after `{query}`, per query type |
| LlmUtils.ReprString | llm_utils.py:59 | a name rendered inside `str(columns)` keeps its text between the quotes (no escaping is modelled, see below) |
| LlmUtils.ListRepr | llm_utils.py:59 | `str(columns)` is bracketed, and the empty list renders as `[]` |
| LlmUtils.Render | llm_utils.py:19-59 | the rendered prompt contains the user query, `str(columns)`, and every column name, with names rendered unescaped |
| LlmUtils.ListReprContainsEach | llm_utils.py:59 | every column name appears verbatim in the model's unescaped rendering of the column list |
| LlmUtils.GetPrompt | llm_utils.py:55-59 | raises exactly for a query type outside `{filter, aggregate, sort, pivot}`, with that type in the error; a returned prompt embeds the query and every column, with names rendered unescaped |
| LlmUtils.ParseLlmResponse | llm_utils.py:61-67 | none exactly when the stripped reply lacks `df`; otherwise the stripped reply, with no whitespace at either end |
| LlmUtils.ParseLlmResponseIdempotent | llm_utils.py:61-67 | parsing an accepted reply again returns it unchanged |
| LlmUtils.HasApiKey | llm_utils.py:13-15 | the key counts as set only when present and non-empty |
| LlmUtils.RunGeminiQuery | llm_utils.py:69-79 | the missing-key error is raised exactly when the key is unset or empty; the unknown-type error is raised exactly when the key is set and the type is unknown; a returned code contains `df` |
| LlmUtils.RunGeminiQueryCatchesCallFailure | llm_utils.py:73-79 | a model call that raises yields `None`, not an exception |
| LlmUtils.RunGeminiQueryParsesReply | llm_utils.py:73-76 | a reply is returned through `parse_llm_response` and nothing else |
| Similarity.BestIndex | column_mapping.py:36 | the chosen index among the first `n` choices scores highest, and every earlier choice scores strictly lower |
| Similarity.ExtractOne | column_mapping.py:36 | none exactly for an empty list; otherwise a choice with its own score, no lower than any other choice's score |
| Similarity.Lcs | column_mapping.py:36 | the longest common subsequence behind `fuzz.ratio` is no longer than either string |
| Similarity.IndelRatio | column_mapping.py:36 | the ratio lies in 0..100 |
| Similarity.IndelRatioSymmetric | column_mapping.py:36 | the ratio does not depend on argument order |
| Similarity.IndelRatioHundredIffEqual | column_mapping.py:36 | the ratio is 100 exactly for identical strings |
| Similarity.LcsAtMostShared | column_mapping.py:36 | the common subsequence is no longer than the number of characters of `a` that occur in `b` |
| Similarity.IndelRatioAtMost | column_mapping.py:36 | an upper bound on the ratio from the shared characters |
| Text.TrimStart | llm_utils.py:64 | the left half of `str.strip`: a suffix of the input, everything dropped is in the set, and the first kept character is not |
| Text.TrimEnd | llm_utils.py:64 | the right half of `str.strip`: a prefix of the input, everything dropped is in the set, and the last kept character is not |
| Text.ContainsSubstring | llm_utils.py:65 | `'df' in code`: the text occurs somewhere in the string as a contiguous block |
| Text.Strip | llm_utils.py:64 | `str.strip(chars)`: the result is a contiguous slice of the input, every character outside the slice is in the stripped set, and neither end of the result is in it |
| Text.StripTwiceIsSlice | column_mapping.py:61 | two strips in a row leave a contiguous block of the original text |
| Text.StripIdempotent | llm_utils.py:64 | stripping twice is stripping once |
| Text.StripKeepsInner | column_mapping.py:61 | a substring whose first and last characters are not stripped survives stripping |
| TypeInference.NonNull | app.py:114 | `dropna` keeps no missing value, never lengthens, keeps a column with no missing value unchanged, and drops a single missing value; with `NonNullAppend` this fixes it as the non-missing values in order |
| TypeInference.NonNullAppend | app.py:114 | `dropna` distributes over concatenation |
| TypeInference.Head | app.py:114 | `head(n)` is the prefix of length `min(n, len)` |
| TypeInference.Sample | app.py:113-114 | the sample holds the first `min(100, number of non-null values)` non-null values, in order, none of them missing |
| TypeInference.CountDates | app.py:119-125 | the number of sampled values that parse as dates is at most the sample size |
| TypeInference.IsDateColumn | app.py:111-128 | the loop's verdict is the date rule: a non-empty sample in which more than half the values parse as dates |
| TypeInference.IsDateLike | app.py:116-128 | the rule: a non-empty sample in which twice the number of date-like values exceeds the sample size |
| TypeInference.ShareAboveHalf | app.py:128 | `date_count / len(sample) > 0.5` holds exactly when `2 * date_count > len(sample)`, so exactly half is not a majority |
| TypeInference.SampleIsFirstHundred | app.py:113-114 | the sample is the first (at most) 100 non-null values, in order |
| TypeInference.AllMissingIsNotDateLike | app.py:116-117 | a column without non-null values is never date-like |
| TypeInference.DateRuleSeesFirstHundred | app.py:113-128 | two columns that agree on their first 100 non-null values get the same verdict |
| TypeInference.DateRuleIgnoresLaterRows | app.py:113-128 | once 100 non-null values are present, appended rows do not change the verdict |
| TypeInference.DateRuleIsStrictMajority | app.py:119-128 | date-like means dates strictly outnumber non-dates in the sample |
| TypeInference.ConvertColumn | app.py:95-104 | the name is kept; non-object columns are unchanged; a date-like object column becomes its datetime conversion, or stays as it was when that raises; any other object column becomes numeric only when the conversion succeeds with a non-missing value, and otherwise stays as it was |
| TypeInference.AllMissing | app.py:103 | `numeric_series.isna().all()`: every converted value is missing |
| TypeInference.ConvertAt | app.py:93-107 | one column of the loop keeps its name; a column whose name is duplicated is skipped (its `.dtype` raises and the `except` continues); a non-object column is unchanged |
| TypeInference.ConvertAll | app.py:91-109 | length, names and order are preserved; non-object columns are unchanged; only uniquely named object columns can change |
| TypeInference.ConvertAllKeepsRows | app.py:91-109 | when both conversions keep one value per row, every column keeps its number of rows |
| TypeInference.ConvertColumnSettles | app.py:95-104 | a fact about the model's dtype tags, not a pass the source runs: a column the rule converted is tagged datetime or numeric, so the rule would leave it alone (pandas itself can return an object-dtype result from `to_datetime`, for example with mixed UTC offsets) |
| TypeInference.DetectAndConvertTypes | app.py:91-109 | in place, each column becomes what the per-column rule makes of it, and a column whose name is duplicated (its `.dtype` raises) is skipped |

## Left out

- The Streamlit UI, session state and both `main` functions: these are presentation only.
- Execution of generated code (`safe_exec`, `cached_safe_exec`) and its timing: this runs arbitrary code through `exec`.
- Logging, the event log file, and Excel reading and metadata (`load_excel_file`, `read_sheet_chunked`, `get_sheet_info`, `get_column_info`): these are I/O.
- `excel_tools.py`, `create_sample_data.py` and `setup.py`: they are thin pandas wrappers, random data generation and environment setup, and are not part of this model.
- `get_gemini_llm`:
  - the environment lookups are the `apiKey` field of the oracle value;
  - the model name (`GEMINI_MODEL_NAME`, default `gemini-pro`) is not modelled;
  - the network call is the `invoke` function.
- The error text printed when the model call fails is not modelled. Only the resulting `None` is.
- Similarity.ExtractOne:
  - stands for rapidfuzz's `extractOne` over any scorer;
  - the scorer stands for "ratio after whatever preprocessing the library version applies", since that version is not fixed;
  - scores are exact reals rather than floats;
  - `Similarity.IndelRatio` is one concrete scorer, used for the worked example.
- TypeInference.ShareAboveHalf: reasons on exact reals. With at most 100 samples, the float division compared with 0.5 gives the same answer.
- ColumnMapping.Lower: lowercases ASCII only. Python's `lower()` also maps a few non-ASCII characters (for example the Kelvin sign) to ASCII letters, and those would survive the character filter.
- ColumnMapping.FuzzyMatchColumn: returns the pair (choice, score); rapidfuzz's `extractOne` on a list also returns the choice's index as a third element, which nothing in the resolver reads.
- LlmUtils.Render: column labels are strings. pandas allows other labels (a header row of years gives integers), which `str(columns)` renders without quotes; those are not modelled.
- LlmUtils.ReprString: chooses the quote character as Python's `repr` does, but does not escape backslashes, control characters or a string holding both quote kinds.
- The pandas parsers (`pd.to_datetime`, `pd.to_numeric`) are parameters. The model states what the conversion loop does with their answers, not how they parse.
- TypeInference.DetectAndConvertTypes: the per-column warning log is not modelled.
