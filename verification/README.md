# ytmp3mobi — a Dafny model of the conversion routine

The repository is a small HTTP service. It turns a YouTube link into an
MP3 or MP4 download link by driving a third-party converter (ytmp3.mobi).
The core is the async function `ytmp3mobi(youtubeUrl, format = "mp3")` in
`index.js`. It runs these steps in order:

1. Extract the video ID with a regular expression.
2. Check the format against `mp3`/`mp4`, ignoring case.
3. Ask the vendor for a `convertURL`.
4. Submit the job with `v` = ID and `f` = format.
5. Poll the `progressURL` until the vendor reports an `error` (abort) or
   `progress === 3` (done).

The Express route `GET /api/ytmp3mobi` wraps the routine in 400/500/200
replies.

The project models those steps as pure functions. The network is replaced
by the responses it would have returned: `Upstream.Response` is an ok
body, a non-ok status, or a rejected promise. The vendor's JSON fields are
JavaScript values (`JsValue.Value`), so `if (error)` truthiness and the
strict `progress !== 3` are modelled as written.

The polling loop has no bound. It is modelled over a finite sequence of
poll responses. `Polling.Waiting` / `Workflow.StillPolling` mean the loop
has not ended within the responses supplied. `Polling.PollPrefix` shows
that a finished result never changes when more responses are appended. So
"never terminates" is exactly "still waiting on every prefix".

`index.js` never checks that `convertURL`, `progressURL` or `downloadURL`
is present. An absent field reads as `undefined` and is carried into the
next request or into the result. The model does the same: a body field is
a `Value`, and `Undefined` is one of them.

Modules, in dependency order:

| module | file | models |
|---|---|---|
| `Wrappers` | `wrappers.dfy` | `Option`, `Result` |
| `JsValue` | `js_value.dfy` | JSON field values, truthiness, template-literal rendering |
| `Format` | `format.dfy` | the format check and the list in its message |
| `Errors` | `errors.dfy` | every error the routine throws, with its exact message |
| `Upstream` | `upstream.dfy` | vendor responses and requests, `fetchJson` |
| `VideoId` | `video_id.dfy` | the regular expression and `String.prototype.match` |
| `Polling` | `polling.dfy` | the `while (progress !== 3)` loop |
| `Workflow` | `workflow.dfy` | the whole routine and the route |

## Model

| member | source | states |
|---|---|---|
| VideoId.ExtractIdLeftmost | index.js:8-9 | The extracted ID is `id` exactly when the pattern captures `id` at some position (a prefix followed by the longest run of characters other than ampersand, vertical bar, caret and question mark) and no alternative is anchored at any earlier position. This is leftmost-match semantics. |
| VideoId.ExtractIdFails | index.js:8-11 | Extraction yields nothing exactly when no `https://` + prefix is followed anywhere by an admitted character. Because a capture is never empty, this is the only way to reach "Cannot extract YouTube video ID". |
| VideoId.ExtractId | index.js:9-10 | Every extracted ID is non-empty and free of ampersand, vertical bar, caret and question mark. So `!videoId` can only be true when there was no match. |
| VideoId.CanonicalLink | index.js:8-9 | The four recognised link shapes, followed by an ID and then the end or a stop character, give back exactly that ID. |
| VideoId.AlternativesExclusive | index.js:8 | At any position at most one of the four alternatives occurs. The order in which the pattern lists them therefore never changes the result. |
| VideoId.CaptureUnique | index.js:8 | At a given position and alternative, the greedy `+` determines the capture uniquely. |
| VideoId.NoSchemeNoId | index.js:8-11 | A URL that contains no `https://` anywhere (an `http://` link, for example) yields no ID. |
| VideoId.UnlistedHostSkipped | index.js:8-9 | An `https://` whose host starts with neither `w` nor `y` (`m.youtube.com`, `music.youtube.com`) contributes nothing. The search resumes after it. |
| VideoId.EmptyIdSkipped | index.js:8-9 | A recognised prefix followed by the end or by one of those four stop characters is not a match. The search resumes after `https://`. |
| VideoId.SchemeSkipped | index.js:8-9 | An `https://` that no alternative follows with an admitted character is skipped. Extraction equals extraction on the rest of the string. |
| VideoId.ExtractFromShift | index.js:9 | Matching only looks forward: scanning `p + r` from the length of `p` plus `i` finds what scanning `r` from `i` finds, for any text `p` in front. |
| VideoId.RunLength | index.js:8 | The greedy run stays within the string, admits only non-stop characters, and ends at the end or at a stop character. |
| Format.AvailableSpelled | index.js:13-14 | A format is accepted exactly when it is three characters: `m`/`M`, then `p`/`P`, then `3` or `4`. |
| Format.AvailableIgnoresCase | index.js:14 | A format is accepted exactly when its lower-case form is. |
| Format.AvailableListed | index.js:13-15 | The list in the error message renders as `mp3, mp4`. |
| Errors.InvalidFormatMessage | index.js:15 | The invalid-format error reads `Invalid format: <format as given>. Available: mp3, mp4`. |
| JsValue.DecimalRoundTrip | index.js:27 | The status code printed in a fetch error reads back as the same number. |
| JsValue.Decimal | index.js:27 | A printed status is a non-empty run of digits with no leading zero. |
| Upstream.FetchJson | index.js:25-29 | `fetchJson` succeeds exactly when the response is ok, and then yields its body. A non-ok response fails with `Fetch failed on <desc>`, a vertical bar, then `<status> <statusText>`. A rejected fetch fails with the rejection's message. |
| Workflow.Convert | index.js:7-52 | The routine itself: the ID check, then the format check (default `mp3`), then the two setup requests, then the polling loop, each failure ending the run. Its behaviour is stated by ValidationBeforeFetch, JobRequestCarriesIdAndFormat, FetchFailureAborts, ConvertSucceeds, ConvertAbortsOnVendorError and ConvertWaitsWithoutTerminal. |
| Workflow.JobParams | index.js:17-21 | The job parameters are `v` (the ID) and `f` (the format as supplied), without the random `_`. JobRequestCarriesIdAndFormat states that these are exactly the parameters sent. |
| Workflow.Handle | index.js:55-65 | The route: 400 for a missing or empty `url`, 500 with the error message, 200 with the result. HandleStatus states this. |
| Format.IsAvailable | index.js:13-14 | The format check is case-insensitive membership in mp3/mp4. AvailableSpelled and AvailableIgnoresCase state it. |
| Format.ToLower | index.js:14 | Lower-casing on ASCII letters. AvailableIgnoresCase relies on it being idempotent, and AvailableSpelled on each letter mapping from itself or its upper-case form. |
| Errors.Message | index.js:10-47 | The message of each thrown error, character for character. InvalidFormatMessage, FetchJson and ConvertAbortsOnVendorError state the format, fetch and vendor messages. |
| JsValue.Truthy | index.js:47 | The `if (error)` test. FalsyValues states that exactly `undefined`, `null`, `false`, `0` and the empty string are falsy. |
| JsValue.FalsyValues | index.js:47 | A value is falsy exactly when it is `undefined`, `null`, `false`, `0` or the empty string. |
| JsValue.Show | index.js:47 | How a reported error is interpolated into `Error from API: ...`. ShowNumber states that numbers print in decimal and read back. |
| JsValue.ShowNumber | index.js:47 | A number the vendor reports prints as its decimal digits, with a leading minus sign when negative, and reads back as the same number. |
| Polling.AbortReason | index.js:25-47 | A poll that is not ok throws the fetch error for step `progressURL`. A poll with a truthy `error` throws `Error from API` with that value. Poll states that the loop throws exactly this reason. |
| Polling.ErrorBeforeProgress | index.js:46-47 | A poll that reports both a truthy error and progress 3 still aborts, because the error is checked first. |
| Upstream.FetchMessageNamesStatus | index.js:27 | The fetch error pins down the status: two failures of the same step with the same status text and the same message had the same status. |
| Polling.Poll | index.js:44-49 | The loop ends exactly at the first poll that is not ok, reports a truthy `error`, or reports `progress` strictly equal to 3. An error aborts with that poll's reason. Progress 3 completes with that poll's title. With no such poll it is still waiting. |
| Polling.PollLoop | index.js:44-49 | The same outcome from the `while` loop as written: state kept in mutable `progress`/`title`, the error check before the progress check. |
| Polling.OutcomeDetermined | index.js:44-49 | Any outcome that meets the loop's contract is the outcome of `Poll`, so `PollLoop` and `Poll` agree on every sequence of responses. |
| Polling.PollPrefix | index.js:45-49 | A finished loop ignores every later response. A loop still waiting after some polls continues as the loop on the remaining responses. |
| Polling.FirstTerminalIsPolls | index.js:45-47 | The number of polls made is one more than the index of the first terminal response. |
| Polling.StrictReadyCode | index.js:45 | Progress `"3"` (a string) does not end the loop, because `!==` is strict. |
| Polling.ThreePolls | index.js:44-51 | Progress 1, 2, 3 ends after exactly three polls, with the last poll's title. |
| Workflow.ValidationBeforeFetch | index.js:7-15 | No request is issued exactly when the ID cannot be extracted or the format (default `mp3`) is not accepted. The ID check comes first. The format error quotes the format as given. |
| Workflow.NoIdFailsFirst | index.js:9-11 | With no anchored alternative anywhere, the routine fails with the video-ID error before anything else, whatever the format. |
| Workflow.JobRequestCarriesIdAndFormat | index.js:17-41 | After a successful first request, the second request goes to the returned `convertURL`. Its parameters are exactly `v` = extracted ID and `f` = the format as supplied. |
| Workflow.FormatCasePreserved | index.js:14-19 | `MP4` is accepted but sent as `MP4`, not lower-cased. |
| Workflow.FetchFailureAborts | index.js:25-41 | A non-ok first request aborts with its fetch error after one request. A non-ok second request aborts after two. |
| Workflow.ConvertSucceeds | index.js:7-51 | The routine returns a result exactly when validation passes, both setup requests are ok, and the first terminal poll completes. The result is that poll's title and the second response's `downloadURL`, after 2 + k + 1 requests, all polls going to the `progressURL`. |
| Workflow.ConvertAbortsOnVendorError | index.js:44-47 | The first terminal poll aborting makes the routine throw its reason, after 2 + k + 1 requests. A vendor error reads `Error from API: <error>`. |
| Workflow.ConvertWaitsWithoutTerminal | index.js:44-49 | After the setup requests, the routine is still polling exactly when no supplied poll is terminal, and it has then issued one request per poll. |
| Workflow.HandleStatus | index.js:55-65 | The route replies 400 exactly for a missing or empty `url`. Every failure of the routine becomes 500 with the thrown message. A result becomes 200. |

## Left out

- Networking, `node-fetch`, headers (`Referer`) and the hard-coded init URL are not modelled. Each request is identified by its kind and by the URL or parameters taken from earlier responses. The responses are inputs.
- JSON parsing is not modelled. A body that does not parse is a rejected fetch (`Rejected(reason)`), carrying the rejection's message.
- Destructuring a `null` JSON body throws a `TypeError`. This is folded into `Rejected`, not modelled separately.
- Vendor fields are integers, strings, booleans, `null` or `undefined`. Non-integer numbers, `NaN`, objects and arrays are left out. `Show` does not render them.
- JsValue.Show: numbers are modelled only as integers of magnitude below 2^53, because a JSON number is a double. Larger ones, and the exponent form `1e+21` that template literals print from 10^21 on, are left out.
- `Math.random()` (the `_` cache-buster in both URLs) is not modelled. `Workflow.JobParams` holds only `v` and `f`.
- `URLSearchParams` percent-encoding and concatenation of the job URL are not modelled. The request carries the base URL and the parameter map.
- The one-second `setTimeout` between polls, and time in general, are not modelled.
- The loop has no maximum attempt count. Non-termination is represented by `StillPolling` on every finite prefix, not by a timeout error.
- Concurrency between requests to the route is not modelled.
- Format.IsAvailable: `toLowerCase` is modelled on ASCII letters only. No non-ASCII character lowercases to `m`, `p`, `3` or `4`, so the accepted set is the same.
- Strings are sequences of Dafny characters rather than UTF-16 code units. Surrogate pairs are not modelled separately.
- Workflow.Handle takes the query parameters as optional strings. Repeated parameters (`?format=a&format=b`, which Express turns into an array) are not modelled. The `/` route and the server start-up are not modelled.
