/** The errors the conversion routine throws, and the messages they carry. */
module Errors {
  import opened JsValue
  import opened Format

  datatype Error =
    | NoVideoId                                            // index.js:10-11
    | InvalidFormat(given: string)                         // index.js:14-15
    | FetchFailed(step: string, status: nat, statusText: string)  // index.js:27
    | FetchRejected(reason: string)                        // a rejected fetch or unreadable JSON body
    | ApiError(reported: Value)                            // index.js:47

  /** `err.message` of the thrown error. */
  function Message(e: Error): string {
    match e
    case NoVideoId => "Cannot extract YouTube video ID. Please check your YouTube link."
    case InvalidFormat(f) => "Invalid format: " + f + ". Available: " + Join(Available, ", ")
    case FetchFailed(step, status, text) => "Fetch failed on " + step + " | " + Decimal(status) + " " + text
    case FetchRejected(reason) => reason
    case ApiError(v) => "Error from API: " + Show(v)
  }

  /** The format error names the format exactly as given and lists both formats. */
  lemma InvalidFormatMessage(f: string)
    ensures Message(InvalidFormat(f)) == "Invalid format: " + f + ". Available: mp3, mp4"
  {
    AvailableListed();
  }
}
