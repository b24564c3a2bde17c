/**
 * Step 3 of the conversion (index.js:44-49): poll the progress URL until
 * the vendor reports an error or progress 3. Each element of the response
 * sequence is what one poll returned; a sequence that ends before either
 * happens leaves the loop still running.
 */
module Polling {
  import opened Wrappers
  import opened JsValue
  import opened Errors
  import opened Upstream

  /** The progress code that ends the loop; compared strictly, so only the number 3 matches. */
  const ReadyCode: Value := Num(3)

  datatype PollOutcome =
    | Ready(title: Value, polls: nat)       // the loop exited after `polls` polls
    | Aborted(error: Error, polls: nat)     // the `polls`-th poll threw
    | Waiting                               // every supplied poll said "not yet"

  /** Adds `k` earlier polls to an outcome. */
  function After(k: nat, o: PollOutcome): PollOutcome {
    match o
    case Ready(t, n) => Ready(t, n + k)
    case Aborted(e, n) => Aborted(e, n + k)
    case Waiting => Waiting
  }

  /* ---------------------------------------------------------------- */
  /* What one poll means                                               */
  /* ---------------------------------------------------------------- */

  /** The poll throws: the fetch was not ok, or the body carries a truthy `error`. */
  predicate Aborts(r: Response<ProgressBody>) {
    !r.Ok? || Truthy(r.body.error)
  }

  /** The poll ends the loop: an ok body without a truthy error, reporting exactly progress 3. */
  predicate Completes(r: Response<ProgressBody>) {
    r.Ok? && !Truthy(r.body.error) && r.body.progress == ReadyCode
  }

  predicate Terminal(r: Response<ProgressBody>) {
    Aborts(r) || Completes(r)
  }

  /** The error an aborting poll throws. */
  function AbortReason(r: Response<ProgressBody>): Error
    requires Aborts(r)
  {
    match r
    case Ok(b) => ApiError(b.error)
    case NotOk(status, text) => FetchFailed(ProgressStep, status, text)
    case Rejected(reason) => FetchRejected(reason)
  }

  /** `k` is the index of the first terminal poll. */
  ghost predicate FirstTerminal(rs: seq<Response<ProgressBody>>, k: nat) {
    k < |rs| && Terminal(rs[k]) && forall j :: 0 <= j < k ==> !Terminal(rs[j])
  }

  /* ---------------------------------------------------------------- */
  /* The loop                                                          */
  /* ---------------------------------------------------------------- */

  /** The loop, one poll per unfolding. */
  function Poll(rs: seq<Response<ProgressBody>>): (o: PollOutcome)
    ensures o.Waiting? <==> forall j :: 0 <= j < |rs| ==> !Terminal(rs[j])
    ensures !o.Waiting? ==> 1 <= o.polls <= |rs| && FirstTerminal(rs, o.polls - 1)
    ensures o.Ready? ==> Completes(rs[o.polls - 1]) && o.title == rs[o.polls - 1].body.title
    ensures o.Aborted? ==> Aborts(rs[o.polls - 1]) && o.error == AbortReason(rs[o.polls - 1])
    decreases |rs|
  {
    if rs == [] then Waiting
    else match FetchJson(rs[0], ProgressStep)
      case Failure(e) => Aborted(e, 1)
      case Success(b) =>
        if Truthy(b.error) then Aborted(ApiError(b.error), 1)
        else if b.progress == ReadyCode then Ready(b.title, 1)
        else
          var o := After(1, Poll(rs[1..]));
          assert forall j :: 1 <= j < |rs| ==> rs[j] == rs[1..][j - 1];
          o
  }

  /**
   * The loop as index.js:44-49 writes it: `progress` starts unset, and
   * each turn overwrites `error`, `progress` and `title` with the latest poll.
   */
  method PollLoop(rs: seq<Response<ProgressBody>>) returns (o: PollOutcome)
    ensures o.Waiting? <==> forall j :: 0 <= j < |rs| ==> !Terminal(rs[j])
    ensures !o.Waiting? ==> 1 <= o.polls <= |rs| && FirstTerminal(rs, o.polls - 1)
    ensures o.Ready? ==> Completes(rs[o.polls - 1]) && o.title == rs[o.polls - 1].body.title
    ensures o.Aborted? ==> Aborts(rs[o.polls - 1]) && o.error == AbortReason(rs[o.polls - 1])
  {
    var progress := Undefined;
    var title := Undefined;
    var i := 0;
    while progress != ReadyCode
      invariant 0 <= i <= |rs|
      invariant progress != ReadyCode ==> forall j :: 0 <= j < i ==> !Terminal(rs[j])
      invariant progress == ReadyCode ==>
                  && i >= 1
                  && Completes(rs[i - 1])
                  && title == rs[i - 1].body.title
                  && forall j :: 0 <= j < i - 1 ==> !Terminal(rs[j])
      decreases |rs| - i, if progress == ReadyCode then 0 else 1
    {
      if i == |rs| {
        return Waiting;
      }
      var fetched := FetchJson(rs[i], ProgressStep);
      if fetched.Failure? {
        return Aborted(fetched.error, i + 1);
      }
      var body := fetched.value;
      if Truthy(body.error) {
        return Aborted(ApiError(body.error), i + 1);
      }
      progress := body.progress;
      title := body.title;
      i := i + 1;
    }
    o := Ready(title, i);
  }

  /* ---------------------------------------------------------------- */
  /* Properties                                                        */
  /* ---------------------------------------------------------------- */

  /**
   * Once the loop has ended, later responses are never read; while it is
   * still waiting, the rest of the run is the loop on the later responses.
   */
  lemma {:induction false} PollPrefix(rs: seq<Response<ProgressBody>>, more: seq<Response<ProgressBody>>)
    ensures !Poll(rs).Waiting? ==> Poll(rs + more) == Poll(rs)
    ensures Poll(rs).Waiting? ==> Poll(rs + more) == After(|rs|, Poll(more))
    decreases |rs|
  {
    if rs == [] {
      assert rs + more == more;
      assert After(0, Poll(more)) == Poll(more);
    } else {
      assert (rs + more)[0] == rs[0];
      assert (rs + more)[1..] == rs[1..] + more;
      PollPrefix(rs[1..], more);
    }
  }

  /** The loop stops at the first terminal poll, and only there. */
  lemma FirstTerminalIsPolls(rs: seq<Response<ProgressBody>>, k: nat)
    requires FirstTerminal(rs, k)
    ensures !Poll(rs).Waiting? && Poll(rs).polls == k + 1
  {
  }

  /**
   * The contract of `Poll` (and of `PollLoop`) pins the outcome down:
   * any outcome meeting it is `Poll`'s, so the loop as written and the
   * recursive reading agree on every input.
   */
  lemma OutcomeDetermined(rs: seq<Response<ProgressBody>>, o: PollOutcome)
    requires o.Waiting? <==> forall j :: 0 <= j < |rs| ==> !Terminal(rs[j])
    requires !o.Waiting? ==> 1 <= o.polls <= |rs| && FirstTerminal(rs, o.polls - 1)
    requires o.Ready? ==> Completes(rs[o.polls - 1]) && o.title == rs[o.polls - 1].body.title
    requires o.Aborted? ==> Aborts(rs[o.polls - 1]) && o.error == AbortReason(rs[o.polls - 1])
    ensures o == Poll(rs)
  {
    if !o.Waiting? {
      FirstTerminalIsPolls(rs, o.polls - 1);
    }
  }

  /** A poll that reports both an error and progress 3 still aborts: the error is checked first. */
  lemma ErrorBeforeProgress(b: ProgressBody, rest: seq<Response<ProgressBody>>)
    requires Truthy(b.error) && b.progress == ReadyCode
    ensures Poll([Ok(b)] + rest) == Aborted(ApiError(b.error), 1)
  {
  }

  /** Progress that is merely numeric-looking (the string "3") never ends the loop. */
  lemma StrictReadyCode(title: Value, rest: seq<Response<ProgressBody>>)
    ensures Poll([Ok(ProgressBody(Undefined, Str("3"), title))] + rest) == After(1, Poll(rest))
  {
    var rs := [Ok(ProgressBody(Undefined, Str("3"), title))] + rest;
    assert rs[1..] == rest;
  }

  /** Three polls reporting progress 1, 2, 3: ready after exactly three, with the last title. */
  lemma ThreePolls(x: Value)
    ensures Poll([Ok(ProgressBody(Undefined, Num(1), Undefined)),
                  Ok(ProgressBody(Undefined, Num(2), Undefined)),
                  Ok(ProgressBody(Undefined, Num(3), x))]) == Ready(x, 3)
  {
    var rs := [Ok(ProgressBody(Undefined, Num(1), Undefined)),
               Ok(ProgressBody(Undefined, Num(2), Undefined)),
               Ok(ProgressBody(Undefined, Num(3), x))];
    assert rs[1..][1..] == [rs[2]];
  }
}
