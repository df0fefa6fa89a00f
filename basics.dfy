/** Small value types shared by every module of the scraper model. */
module Basics {

  datatype Option<+T> = None | Some(value: T)

  /** The result of an operation that may raise one of the scraper's exceptions. */
  datatype Result<+T> = Success(value: T) | Failure(error: Error)

  /** The exceptions that can escape a stage and reach the scheduling loop. */
  datatype Error =
    | ValidationError   // RuntimeError('Query parameters invalid'), raised by scrape
    | NetworkError      // connection failure from the HTTP client (an error status does not raise)
    | TimeoutError      // the request's timeout budget elapsed
    | DecodeError       // json.loads or xmltodict.parse rejected the body
    | KeyError          // a key the stage reads is missing from the decoded document
    | IndexError        // a list the stage indexes is too short
    | TypeError         // a non-string uuid concatenated into a URL
    | NameError         // the undefined name leagueId in scrapeScoreBoard

  /** A scalar query parameter or decoded JSON field: Python's None, an int or a str. */
  datatype Value = Null | Int(i: int) | Str(s: string)

  newtype byte = x: int | 0 <= x < 256
}
