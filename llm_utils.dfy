/**
 * Prompt selection, response extraction and the guarded call to the Gemini model.
 * The model itself is an oracle: an API key read from the environment and a function
 * from prompt to reply, where no reply stands for a call that raised.
 */
module LlmUtils {
  import opened Wrappers
  import opened Text

  /** The four keys of the prompt-template table. */
  datatype QueryType = Filter | Aggregate | Sort | Pivot

  const QueryTypeNames: set<string> := {"filter", "aggregate", "sort", "pivot"}

  function KeyOf(q: QueryType): (name: string)
    ensures name in QueryTypeNames
  {
    match q
    case Filter => "filter"
    case Aggregate => "aggregate"
    case Sort => "sort"
    case Pivot => "pivot"
  }

  /** Looks a query-type name up among the template keys. */
  function ParseQueryType(name: string): (q: Option<QueryType>)
    ensures q.Some? <==> name in QueryTypeNames
    ensures q.Some? ==> KeyOf(q.value) == name
  {
    if name == "filter" then Some(Filter)
    else if name == "aggregate" then Some(Aggregate)
    else if name == "sort" then Some(Sort)
    else if name == "pivot" then Some(Pivot)
    else None
  }

  /** Python's `repr` of a string: double quotes when the text holds a single quote and no double quote, else single. */
  function ReprString(c: string): (r: string)
    ensures ContainsSubstring(r, c)
  {
    var quote := if '\'' in c && '"' !in c then "\"" else "'";
    ContainsSelf(c);
    ContainsPrepend(quote, c, c);
    ContainsAppend(quote + c, quote, c);
    quote + c + quote
  }

  /** The items of `str(columns)` for a list of strings, separated by ", ". */
  function JoinRepr(columns: seq<string>): string
  {
    if |columns| == 0 then ""
    else if |columns| == 1 then ReprString(columns[0])
    else ReprString(columns[0]) + ", " + JoinRepr(columns[1..])
  }

  /** `str(columns)`: how a column list is rendered into a prompt. */
  function ListRepr(columns: seq<string>): (r: string)
    ensures |r| >= 2 && r[0] == '[' && r[|r| - 1] == ']'
    ensures columns == [] ==> r == "[]"
  {
    "[" + JoinRepr(columns) + "]"
  }

  /** Every column name appears verbatim in the rendered list. */
  lemma {:induction false} ListReprContainsEach(columns: seq<string>, i: nat)
    requires i < |columns|
    ensures ContainsSubstring(ListRepr(columns), columns[i])
  {
    JoinReprContainsEach(columns, i);
    ContainsPrepend("[", JoinRepr(columns), columns[i]);
    ContainsAppend("[" + JoinRepr(columns), "]", columns[i]);
  }

  lemma {:induction false} JoinReprContainsEach(columns: seq<string>, i: nat)
    requires i < |columns|
    ensures ContainsSubstring(JoinRepr(columns), columns[i])
    decreases |columns|
  {
    var head := ReprString(columns[0]);
    if |columns| == 1 {
    } else if i == 0 {
      ContainsAppend(head, ", ", columns[0]);
      ContainsAppend(head + ", ", JoinRepr(columns[1..]), columns[0]);
    } else {
      JoinReprContainsEach(columns[1..], i - 1);
      ContainsPrepend(head + ", ", JoinRepr(columns[1..]), columns[i]);
    }
  }

  /** Template text before `{columns}`. */
  function Before(q: QueryType): string
  {
    match q
    case Filter => "You are an expert data analyst. Given the following columns: "
    case _ => "Given columns: "
  }

  /** Template text between `{columns}` and `{query}`. */
  function Between(q: QueryType): string
  {
    match q
    case Filter => ", translate the user's request into a pandas filter expression. User request: '"
    case Aggregate => ", translate the user's aggregation query into a pandas groupby/agg expression. User request: '"
    case Sort => ", translate the user's sorting/grouping query into a pandas sort_values or groupby expression. User request: '"
    case Pivot => ", translate the user's pivot table query into a pandas pivot_table expression. User request: '"
  }

  /** Template text after `{query}`. */
  function After(q: QueryType): string
  {
    match q
    case Filter => "'\nReturn only the pandas filter code (e.g., df[df['Region'] == 'Delhi'])"
    case _ => "'\nReturn only the pandas code."
  }

  /** `PROMPT_TEMPLATES[q].format(query=query, columns=columns)`. */
  function Render(q: QueryType, query: string, columns: seq<string>): (prompt: string)
    ensures ContainsSubstring(prompt, query)
    ensures ContainsSubstring(prompt, ListRepr(columns))
    ensures forall i :: 0 <= i < |columns| ==> ContainsSubstring(prompt, columns[i])
  {
    var cols := ListRepr(columns);
    var prompt := Before(q) + cols + Between(q) + query + After(q);
    ContainsSelf(query);
    ContainsPrepend(Before(q) + cols + Between(q), query, query);
    ContainsAppend(Before(q) + cols + Between(q) + query, After(q), query);
    forall t | t == cols || exists i :: 0 <= i < |columns| && t == columns[i]
      ensures ContainsSubstring(prompt, t)
    {
      if t == cols {
        ContainsSelf(cols);
      } else {
        var i :| 0 <= i < |columns| && t == columns[i];
        ListReprContainsEach(columns, i);
      }
      ContainsPrepend(Before(q), cols, t);
      ContainsAppend(Before(q) + cols, Between(q), t);
      ContainsAppend(Before(q) + cols + Between(q), query, t);
      ContainsAppend(Before(q) + cols + Between(q) + query, After(q), t);
    }
    prompt
  }

  /** `get_prompt`: render the template of a known query type, raise ValueError otherwise. */
  function GetPrompt(queryType: string, query: string, columns: seq<string>): (r: Outcome<string>)
    ensures r.Raised? <==> queryType !in QueryTypeNames
    ensures r.Raised? ==> r.error == UnknownQueryType(queryType)
    ensures r.Returned? ==> ContainsSubstring(r.value, query)
    ensures r.Returned? ==> forall i :: 0 <= i < |columns| ==> ContainsSubstring(r.value, columns[i])
  {
    match ParseQueryType(queryType)
    case None => Raised(UnknownQueryType(queryType))
    case Some(q) => Returned(Render(q, query, columns))
  }

  /** `parse_llm_response`: the stripped reply, kept only when it mentions `df`. */
  function ParseLlmResponse(response: string): (code: Option<string>)
    ensures code.None? <==> !ContainsSubstring(Strip(response, Whitespace), "df")
    ensures code.Some? ==> code.value == Strip(response, Whitespace)
    ensures code.Some? ==> code.value[0] !in Whitespace && code.value[|code.value| - 1] !in Whitespace
  {
    var code := Strip(response, Whitespace);
    if ContainsSubstring(code, "df") then Some(code) else None
  }

  /** Parsing an accepted reply again accepts it unchanged. */
  lemma ParseLlmResponseIdempotent(response: string)
    requires ParseLlmResponse(response).Some?
    ensures ParseLlmResponse(ParseLlmResponse(response).value) == ParseLlmResponse(response)
  {
    StripIdempotent(response, Whitespace);
  }

  /** The environment's API key and the model behind it. */
  datatype Gemini = Gemini(apiKey: Option<string>, invoke: string -> Option<string>)

  /** `get_gemini_llm` succeeds only when the key is set and non-empty. */
  predicate HasApiKey(g: Gemini) {
    g.apiKey.Some? && g.apiKey.value != ""
  }

  /**
   * `run_gemini_query`: the key check and the prompt lookup raise before the `try`;
   * inside it, a failed call gives no code and a reply goes through `parse_llm_response`.
   */
  function RunGeminiQuery(queryType: string, query: string, columns: seq<string>, g: Gemini): (r: Outcome<Option<string>>)
    ensures r == Raised(MissingApiKey) <==> !HasApiKey(g)
    ensures r == Raised(UnknownQueryType(queryType)) <==> HasApiKey(g) && queryType !in QueryTypeNames
    ensures r.Returned? ==> HasApiKey(g) && queryType in QueryTypeNames
    ensures r.Returned? && r.value.Some? ==> ContainsSubstring(r.value.value, "df")
  {
    if !HasApiKey(g) then Raised(MissingApiKey)
    else
      match GetPrompt(queryType, query, columns)
      case Raised(e) => Raised(e)
      case Returned(prompt) =>
        match g.invoke(prompt)
        case None => Returned(None)
        case Some(response) => Returned(ParseLlmResponse(response))
  }

  /** A call that raises inside the `try` yields no code rather than an exception. */
  lemma RunGeminiQueryCatchesCallFailure(queryType: string, query: string, columns: seq<string>, g: Gemini)
    requires HasApiKey(g) && queryType in QueryTypeNames
    requires g.invoke(GetPrompt(queryType, query, columns).value).None?
    ensures RunGeminiQuery(queryType, query, columns, g) == Returned(None)
  {
  }

  /** A reply is passed through `parse_llm_response` and nothing else. */
  lemma RunGeminiQueryParsesReply(queryType: string, query: string, columns: seq<string>, g: Gemini, reply: string)
    requires HasApiKey(g) && queryType in QueryTypeNames
    requires g.invoke(GetPrompt(queryType, query, columns).value) == Some(reply)
    ensures RunGeminiQuery(queryType, query, columns, g) == Returned(ParseLlmResponse(reply))
  {
  }
}
