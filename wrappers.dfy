/** Small result types shared by the other modules. */
module Wrappers {

  /** Python's `Optional[T]`: `None` or a value. */
  datatype Option<+T> = None | Some(value: T)

  /** What the exceptions that escape a Python call can be. */
  datatype Error =
    | MissingApiKey                      // ValueError raised by get_gemini_llm
    | UnknownQueryType(queryType: string) // ValueError raised by get_prompt

  /** A Python call either returns a value or raises an exception that the caller sees. */
  datatype Outcome<+T> = Returned(value: T) | Raised(error: Error)
}
