/**
 * The vendor API as the routine sees it: each GET either yields a parsed
 * JSON body, a response whose status is not ok, or a rejection.
 */
module Upstream {
  import opened Wrappers
  import opened JsValue
  import opened Errors

  /** A status outside 200-299: exactly the responses whose `ok` flag is false. */
  type FailStatus = s: nat | !(200 <= s <= 299)

  /** What one request and the parsing of its JSON body produced. */
  datatype Response<T> = Ok(body: T) | NotOk(status: FailStatus, statusText: string) | Rejected(reason: string)

  /** Step 1 body: `{ convertURL }` (index.js:32). */
  datatype InitBody = InitBody(convertURL: Value)

  /** Step 2 body: `{ progressURL, downloadURL }` (index.js:38). */
  datatype JobBody = JobBody(progressURL: Value, downloadURL: Value)

  /** Step 3 body: `{ error, progress, title }` (index.js:46). */
  datatype ProgressBody = ProgressBody(error: Value, progress: Value, title: Value)

  /** The requests the routine issues, without the random cache-busting values. */
  datatype Request =
    | InitRequest
    | JobRequest(convertURL: Value, params: map<string, string>)
    | ProgressRequest(progressURL: Value)

  /** The `desc` argument of each `fetchJson` call. */
  const InitStep: string := "init convertURL"
  const JobStep: string := "get progress/downloadURL"
  const ProgressStep: string := "progressURL"

  /**
   * `fetchJson(url, desc)` (index.js:25-29): any response that is not ok
   * aborts with a message naming the step and the status.
   */
  function FetchJson<T>(resp: Response<T>, desc: string): (r: Result<T, Error>)
    ensures r.Success? <==> resp.Ok?
    ensures r.Success? ==> r.value == resp.body
    ensures resp.NotOk? ==>
              && r.Failure?
              && Message(r.error) == "Fetch failed on " + desc + " | " + Decimal(resp.status) + " " + resp.statusText
    ensures resp.Rejected? ==> r.Failure? && Message(r.error) == resp.reason
  {
    match resp
    case Ok(body) => Success(body)
    case NotOk(status, text) => Failure(FetchFailed(desc, status, text))
    case Rejected(reason) => Failure(FetchRejected(reason))
  }

  /**
   * The fetch error is informative: two failures of the same step with
   * the same status text and the same message had the same status.
   */
  lemma FetchMessageNamesStatus<T>(desc: string, r1: Response<T>, r2: Response<T>)
    requires r1.NotOk? && r2.NotOk? && r1.statusText == r2.statusText
    requires Message(FetchJson(r1, desc).error) == Message(FetchJson(r2, desc).error)
    ensures r1.status == r2.status
  {
    var pre := "Fetch failed on " + desc + " | ";
    var d1, d2 := Decimal(r1.status), Decimal(r2.status);
    var m1 := pre + d1 + " " + r1.statusText;
    var m2 := pre + d2 + " " + r2.statusText;
    assert |d1| == |d2|;
    assert d1 == m1[|pre|..|pre| + |d1|];
    assert d2 == m2[|pre|..|pre| + |d2|];
    DecimalInjective(r1.status, r2.status);
  }
}
