/** The MIME types the pipeline knows. */
module Mime {

  const UNKNOWN: string := "unknown"

  predicate Known(m: string) {
    m in {"audio/mpeg", "audio/wav", "audio/x-aiff", "application/pdf",
          "image/png", "image/jpeg", "image/gif", "video/mp4"}
  }

  /** Types outside the list all become `unknown`, which stays `unknown`. */
  function ToMIME(m: string): (r: string)
    ensures Known(r) || r == UNKNOWN
    ensures r == m <==> Known(m) || m == UNKNOWN
  {
    if Known(m) then m else UNKNOWN
  }

  /** The eight types that are kept, by name; every other type becomes `unknown`. */
  lemma TypeTable(m: string)
    ensures ToMIME(m) ==
      if m == "audio/mpeg" || m == "audio/wav" || m == "audio/x-aiff" || m == "application/pdf"
         || m == "image/png" || m == "image/jpeg" || m == "image/gif" || m == "video/mp4"
      then m else "unknown"
  {
  }
}
