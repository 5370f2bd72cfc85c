/** The record the analyser hands to the web layer and the database: a
    span of the CV text, what to put there, and why. */
module Corrections {

  /** `{"original", "position": {"start", "end"}, "suggestion",
      "explanation", "category"}`.  Offsets are plain integers because the
      edit applier receives them back from the browser unchecked. */
  datatype Correction = Correction(
    original: string,
    start: int,
    end: int,
    suggestion: string,
    explanation: string,
    category: string)
}
