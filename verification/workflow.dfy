/**
 * The whole conversion routine `ytmp3mobi` (index.js:7-52) and the route
 * that exposes it (index.js:55-65), with the vendor's responses as inputs.
 */
module Workflow {
  import opened Wrappers
  import opened JsValue
  import opened Errors
  import opened Upstream
  import opened VideoId
  import opened Format
  import opened Polling

  datatype Outcome =
    | Converted(title: Value, downloadURL: Value)   // the resolved `{ title, downloadURL }`
    | Failed(error: Error)                          // the thrown error
    | StillPolling                                  // the supplied polls ran out before the loop ended

  /** What the routine returned and the requests it issued, in order. */
  datatype Run = Run(outcome: Outcome, requests: seq<Request>)

  /** `urlParam` without its random `_` entry (index.js:17-21). */
  function JobParams(id: string, format: string): map<string, string> {
    map["v" := id, "f" := format]
  }

  /** `n` polls of the same progress URL. */
  function Polls(progressURL: Value, n: nat): seq<Request> {
    seq(n, _ => ProgressRequest(progressURL))
  }

  /**
   * `ytmp3mobi(youtubeUrl, format)`: `init`, `job` and `polls` are what the
   * three kinds of request return. `None` for `format` is an omitted argument.
   */
  function Convert(youtubeUrl: string, format: Option<string>,
                   init: Response<InitBody>, job: Response<JobBody>,
                   polls: seq<Response<ProgressBody>>): Run
  {
    var f := format.GetOr(DefaultFormat);
    match ExtractId(youtubeUrl)
    case None => Run(Failed(NoVideoId), [])
    case Some(id) =>
      if !IsAvailable(f) then Run(Failed(InvalidFormat(f)), [])
      else match FetchJson(init, InitStep)
        case Failure(e) => Run(Failed(e), [InitRequest])
        case Success(ib) =>
          var sent := [InitRequest, JobRequest(ib.convertURL, JobParams(id, f))];
          match FetchJson(job, JobStep)
          case Failure(e) => Run(Failed(e), sent)
          case Success(jb) =>
            match Poll(polls)
            case Ready(title, n) => Run(Converted(title, jb.downloadURL), sent + Polls(jb.progressURL, n))
            case Aborted(e, n) => Run(Failed(e), sent + Polls(jb.progressURL, n))
            case Waiting => Run(StillPolling, sent + Polls(jb.progressURL, |polls|))
  }

  /* ---------------------------------------------------------------- */
  /* Order of the checks                                               */
  /* ---------------------------------------------------------------- */

  /**
   * A link with no recognisable video ID fails first, whatever the
   * format, and before any request.
   */
  lemma NoIdFailsFirst(youtubeUrl: string, format: Option<string>,
                       init: Response<InitBody>, job: Response<JobBody>,
                       polls: seq<Response<ProgressBody>>)
    requires forall i: nat, a: nat :: !Anchored(youtubeUrl, i, a)
    ensures Convert(youtubeUrl, format, init, job, polls) == Run(Failed(NoVideoId), [])
  {
    ExtractIdFails(youtubeUrl);
  }

  /**
   * Validation happens before any request: nothing is sent exactly when
   * the ID cannot be extracted or the format is not mp3/mp4 in some case.
   */
  lemma ValidationBeforeFetch(youtubeUrl: string, format: Option<string>,
                              init: Response<InitBody>, job: Response<JobBody>,
                              polls: seq<Response<ProgressBody>>)
    ensures var run := Convert(youtubeUrl, format, init, job, polls);
            var f := format.GetOr(DefaultFormat);
            && (run.requests == [] <==> ExtractId(youtubeUrl).None? || !IsAvailable(f))
            && (ExtractId(youtubeUrl).None? ==> run.outcome == Failed(NoVideoId))
            && (ExtractId(youtubeUrl).Some? && !IsAvailable(f) ==>
                  run.outcome == Failed(InvalidFormat(f))
                  && Message(run.outcome.error) == "Invalid format: " + f + ". Available: mp3, mp4")
  {
    InvalidFormatMessage(format.GetOr(DefaultFormat));
  }

  /* ---------------------------------------------------------------- */
  /* The requests                                                      */
  /* ---------------------------------------------------------------- */

  /**
   * Once validation passes and the first request is ok, the second one
   * goes to `convertURL` with `v` the extracted ID and `f` the format as
   * the caller spelled it.
   */
  lemma JobRequestCarriesIdAndFormat(youtubeUrl: string, format: Option<string>,
                                     init: Response<InitBody>, job: Response<JobBody>,
                                     polls: seq<Response<ProgressBody>>, id: string)
    requires ExtractId(youtubeUrl) == Some(id)
    requires IsAvailable(format.GetOr(DefaultFormat))
    requires init.Ok?
    ensures var run := Convert(youtubeUrl, format, init, job, polls);
            && |run.requests| >= 2
            && run.requests[0] == InitRequest
            && run.requests[1].JobRequest?
            && run.requests[1].convertURL == init.body.convertURL
            && run.requests[1].params.Keys == {"v", "f"}
            && run.requests[1].params["v"] == id
            && run.requests[1].params["f"] == format.GetOr(DefaultFormat)
  {
  }

  /** An upper-case format is accepted and sent as written, not lower-cased. */
  lemma FormatCasePreserved(id: string, init: Response<InitBody>, job: Response<JobBody>,
                            polls: seq<Response<ProgressBody>>)
    requires IsVideoId(id)
    requires init.Ok?
    ensures var run := Convert(Scheme + "youtu.be/" + id, Some("MP4"), init, job, polls);
            |run.requests| >= 2 && run.requests[1].params["f"] == "MP4"
  {
    assert Prefixes[1] == "youtu.be/";
    CanonicalLink(1, id, []);
    assert Scheme + Prefixes[1] + id + [] == Scheme + "youtu.be/" + id;
    AvailableSpelled("MP4");
  }

  /**
   * A request that is not ok aborts the routine with the error `fetchJson`
   * throws, and nothing after it is sent.
   */
  lemma FetchFailureAborts(youtubeUrl: string, format: Option<string>,
                           init: Response<InitBody>, job: Response<JobBody>,
                           polls: seq<Response<ProgressBody>>)
    requires ExtractId(youtubeUrl).Some? && IsAvailable(format.GetOr(DefaultFormat))
    ensures var run := Convert(youtubeUrl, format, init, job, polls);
            && (!init.Ok? ==> run.outcome == Failed(FetchJson(init, InitStep).error) && run.requests == [InitRequest])
            && (init.Ok? && !job.Ok? ==> run.outcome == Failed(FetchJson(job, JobStep).error) && |run.requests| == 2)
  {
  }

  /* ---------------------------------------------------------------- */
  /* The outcome                                                       */
  /* ---------------------------------------------------------------- */

  /**
   * The routine succeeds exactly when validation passes, both setup
   * requests are ok, and some poll completes before any aborts; it then
   * returns that poll's title and the download URL from the second
   * request, after `2 + k + 1` requests where `k` is that poll's index.
   */
  lemma ConvertSucceeds(youtubeUrl: string, format: Option<string>,
                        init: Response<InitBody>, job: Response<JobBody>,
                        polls: seq<Response<ProgressBody>>)
    ensures var run := Convert(youtubeUrl, format, init, job, polls);
            run.outcome.Converted? <==>
              && ExtractId(youtubeUrl).Some?
              && IsAvailable(format.GetOr(DefaultFormat))
              && init.Ok? && job.Ok?
              && exists k: nat :: FirstTerminal(polls, k) && Completes(polls[k])
    ensures var run := Convert(youtubeUrl, format, init, job, polls);
            forall k: nat :: run.outcome.Converted? && FirstTerminal(polls, k) ==>
              && run.outcome.title == polls[k].body.title
              && run.outcome.downloadURL == job.body.downloadURL
              && |run.requests| == 2 + k + 1
              && forall j :: 2 <= j < |run.requests| ==> run.requests[j] == ProgressRequest(job.body.progressURL)
  {
    forall k: nat | FirstTerminal(polls, k)
      ensures !Poll(polls).Waiting? && Poll(polls).polls == k + 1
    {
      FirstTerminalIsPolls(polls, k);
    }
  }

  /**
   * The routine aborts at the first poll that reports a truthy `error`
   * or is not ok, provided no earlier poll completed; the thrown message
   * carries the vendor's error.
   */
  lemma ConvertAbortsOnVendorError(youtubeUrl: string, format: Option<string>,
                                   init: Response<InitBody>, job: Response<JobBody>,
                                   polls: seq<Response<ProgressBody>>, k: nat)
    requires ExtractId(youtubeUrl).Some? && IsAvailable(format.GetOr(DefaultFormat))
    requires init.Ok? && job.Ok?
    requires FirstTerminal(polls, k) && Aborts(polls[k])
    ensures var run := Convert(youtubeUrl, format, init, job, polls);
            && run.outcome == Failed(AbortReason(polls[k]))
            && |run.requests| == 2 + k + 1
            && (polls[k].Ok? ==> Message(run.outcome.error) == "Error from API: " + Show(polls[k].body.error))
  {
    FirstTerminalIsPolls(polls, k);
  }

  /**
   * Without a terminal poll the loop never ends: the run is still polling
   * after every supplied response, however many are supplied.
   */
  lemma ConvertWaitsWithoutTerminal(youtubeUrl: string, format: Option<string>,
                                    init: Response<InitBody>, job: Response<JobBody>,
                                    polls: seq<Response<ProgressBody>>)
    requires ExtractId(youtubeUrl).Some? && IsAvailable(format.GetOr(DefaultFormat))
    requires init.Ok? && job.Ok?
    ensures var run := Convert(youtubeUrl, format, init, job, polls);
            run.outcome == StillPolling <==> forall j :: 0 <= j < |polls| ==> !Terminal(polls[j])
    ensures var run := Convert(youtubeUrl, format, init, job, polls);
            run.outcome == StillPolling ==> |run.requests| == 2 + |polls|
  {
  }

  /* ---------------------------------------------------------------- */
  /* The route                                                         */
  /* ---------------------------------------------------------------- */

  datatype ReplyBody =
    | ErrorBody(error: string)                        // `{ error }`
    | ResultBody(title: Value, downloadURL: Value)    // `{ status: 200, success: true, result }`

  datatype Reply = Reply(status: nat, body: ReplyBody)

  /**
   * `GET /api/ytmp3mobi` (index.js:55-65): `url` and `format` are the
   * query parameters. `None` means the route has not answered yet.
   */
  function Handle(url: Option<string>, format: Option<string>,
                  init: Response<InitBody>, job: Response<JobBody>,
                  polls: seq<Response<ProgressBody>>): Option<Reply>
  {
    if url.None? || url.value == "" then Some(Reply(400, ErrorBody("Missing url parameter")))
    else match Convert(url.value, Some(format.GetOr(DefaultFormat)), init, job, polls).outcome
      case Converted(title, downloadURL) => Some(Reply(200, ResultBody(title, downloadURL)))
      case Failed(e) => Some(Reply(500, ErrorBody(Message(e))))
      case StillPolling => None
  }

  /**
   * The route answers 400 exactly for a missing or empty `url`, 500 with
   * the thrown message for every failure of the routine, and 200 with the
   * routine's result otherwise.
   */
  lemma HandleStatus(url: Option<string>, format: Option<string>,
                     init: Response<InitBody>, job: Response<JobBody>,
                     polls: seq<Response<ProgressBody>>)
    ensures var reply := Handle(url, format, init, job, polls);
            reply.Some? && reply.value.status == 400 <==> url.None? || url.value == ""
    ensures url.Some? && url.value != "" ==>
              var reply := Handle(url, format, init, job, polls);
              var run := Convert(url.value, format, init, job, polls);
              && (run.outcome.Failed? <==> reply.Some? && reply.value.status == 500)
              && (run.outcome.Failed? ==> reply.value.body == ErrorBody(Message(run.outcome.error)))
              && (run.outcome.Converted? <==> reply.Some? && reply.value.status == 200)
  {
  }
}
