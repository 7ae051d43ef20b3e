/** The paging loop of `_get_ad_archives_from_url`: request a page, retry on
    an error payload, filter the records by the delivery-start cutoff, stop on
    an empty filtered page, otherwise yield it and follow `paging.next`.

    The server is a finite sequence of responses, one per GET, so the
    generator becomes a pure function returning every URL requested, every
    batch yielded, and how the loop ended. */
module Traversal {
  import opened Results
  import opened Text
  import opened Values
  import opened Dates
  import opened Query

  type Url = string

  /** The `paging` part of a successful response. */
  datatype Paging =
    | NoPaging              // no "paging" key: the last page
    | PagingWithoutNext     // "paging" present but no "next": KeyError
    | NextPage(url: Url)    // the cursor URL of the next page
    | NullNext              // "next" is JSON null: the loop condition ends it

  /** One response body. */
  datatype Response =
    | Unparsable                                     // `json.loads` raises
    | ErrorBody(error: Value)                        // has an "error" key
    | Page(data: Option<seq<Record>>, paging: Paging) // `data` is None when the key is missing

  /** What the loop raises. */
  datatype Fault =
    | RemoteError(payload: Value, url: Url)  // the retry budget is spent on `url`
    | BadDate(text: string)                  // `strptime` raised ValueError
    | StartTimeNotText                       // `strptime` raised TypeError
    | MissingKey(key: string)                // KeyError on "data" or "next"
    | NotJson(url: Url)                      // the body did not parse

  /** How the traversal ended. `OutOfResponses` is the model's own: the
      sequence of responses ran out while the loop still wanted a page. */
  datatype Outcome = Done | Failed(fault: Fault) | OutOfResponses

  /** Everything a traversal did: the URLs requested, in order, and the
      batches yielded, in order, then how it ended. */
  datatype Run = Run(requested: seq<Url>, batches: seq<seq<Record>>, outcome: Outcome)

  /** `last_error_url` and `last_retry_count`. */
  datatype RetryState = RetryState(lastErrorUrl: Option<Url>, count: int)

  const Fresh := RetryState(None, 0)

  datatype RetryStep = Retry(next: RetryState) | GiveUp

  /** The bookkeeping on an error payload for `url`: a new failing URL starts a
      count of one; a repeated one adds one, or gives up once the count has
      reached the limit. */
  function OnError(s: RetryState, url: Url, limit: int): (r: RetryStep)
    ensures s.lastErrorUrl != Some(url) ==> r == Retry(RetryState(Some(url), 1))
    ensures r.GiveUp? <==> s.lastErrorUrl == Some(url) && s.count >= limit
    ensures r.Retry? && s.lastErrorUrl == Some(url) ==> r.next == RetryState(Some(url), s.count + 1)
  {
    if s.lastErrorUrl == Some(url) && s.count >= limit then GiveUp
    else if s.lastErrorUrl == Some(url) then Retry(RetryState(Some(url), s.count + 1))
    else Retry(RetryState(Some(url), 1))
  }

  /** The record carries a readable delivery-start date on or after the cutoff. */
  predicate StartsOnOrAfter(rec: Record, cutoff: Date) {
    && StartTimeField in rec
    && rec[StartTimeField].Str?
    && ParseIso(rec[StartTimeField].text).Some?
    && OnOrAfter(ParseIso(rec[StartTimeField].text).value, cutoff)
  }

  /** The record has a delivery-start field that `strptime` cannot read. */
  predicate Unreadable(rec: Record) {
    StartTimeField in rec && (!rec[StartTimeField].Str? || ParseIso(rec[StartTimeField].text).None?)
  }

  /** The filter's test for one record; records without the field are dropped. */
  function Keep(rec: Record, cutoff: Date): (r: Result<bool, Fault>)
    ensures r.Err? <==> Unreadable(rec)
    ensures r.Err? ==> r.error.BadDate? || r.error == StartTimeNotText
    ensures r.Ok? ==> (r.value <==> StartsOnOrAfter(rec, cutoff))
  {
    if StartTimeField !in rec then Ok(false)
    else match rec[StartTimeField]
      case Str(text) =>
        (match ParseIso(text)
         case None => Err(BadDate(text))
         case Some(d) => Ok(OnOrAfter(d, cutoff)))
      case _ => Err(StartTimeNotText)
  }

  /** `list(filter(...))` over one page: exactly the records dated on or after
      the cutoff, each as often as on the page, in page order; it raises as
      soon as it meets an unreadable date. */
  function FilterPage(data: seq<Record>, cutoff: Date): (r: Result<seq<Record>, Fault>)
    ensures r.Ok? <==> forall i | 0 <= i < |data| :: !Unreadable(data[i])
    ensures r.Ok? ==> IsSubsequence(r.value, data)
    ensures r.Ok? ==> forall x :: multiset(r.value)[x] == (if StartsOnOrAfter(x, cutoff) then multiset(data)[x] else 0)
    ensures r.Err? ==> r.error.BadDate? || r.error == StartTimeNotText
    decreases |data|
  {
    if |data| == 0 then Ok([])
    else
      ReadableShift(data);
      match Keep(data[0], cutoff)
      case Err(f) => Err(f)
      case Ok(keep) =>
        match FilterPage(data[1..], cutoff)
        case Err(f) => Err(f)
        case Ok(rest) =>
          FilterStep(data, cutoff, keep, rest);
          if keep then Ok([data[0]] + rest) else Ok(rest)
  }

  lemma ReadableShift(data: seq<Record>)
    requires |data| > 0
    ensures (forall i | 0 <= i < |data| :: !Unreadable(data[i])) <==>
      !Unreadable(data[0]) && forall i | 0 <= i < |data| - 1 :: !Unreadable(data[1..][i])
  {
    if !Unreadable(data[0]) && forall i | 0 <= i < |data| - 1 :: !Unreadable(data[1..][i]) {
      forall i | 0 < i < |data| ensures !Unreadable(data[i]) {
        assert data[i] == data[1..][i - 1];
      }
    }
  }

  /** Putting the head in front of the filtered tail, or not, keeps the
      filter's order and counts. */
  lemma FilterStep(data: seq<Record>, cutoff: Date, keep: bool, rest: seq<Record>)
    requires |data| > 0
    requires keep <==> StartsOnOrAfter(data[0], cutoff)
    requires IsSubsequence(rest, data[1..])
    requires forall x :: multiset(rest)[x] == (if StartsOnOrAfter(x, cutoff) then multiset(data[1..])[x] else 0)
    ensures var r := if keep then [data[0]] + rest else rest;
      IsSubsequence(r, data) &&
      forall x :: multiset(r)[x] == (if StartsOnOrAfter(x, cutoff) then multiset(data)[x] else 0)
  {
    assert data == [data[0]] + data[1..];
    if keep {
      assert ([data[0]] + rest)[1..] == rest;
    } else {
      SubsequenceSkip(rest, data);
    }
  }

  /** One pass of the loop body, on the response to a GET of `url`. */
  datatype Step =
    | Stop(yielded: seq<seq<Record>>, outcome: Outcome)
    | Continue(yielded: seq<seq<Record>>, next: Url, retry: RetryState)

  /** Where the loop goes after `response`, when it goes on: the same URL
      after an error, the cursor after a page. */
  function Advance(url: Url, response: Response): Option<Url> {
    match response
    case ErrorBody(_) => Some(url)
    case Page(_, NextPage(next)) => Some(next)
    case _ => None
  }

  function StepOn(url: Url, cutoff: Date, limit: int, retry: RetryState, response: Response): (s: Step)
    ensures s.Continue? ==> Advance(url, response) == Some(s.next)
    ensures s.Continue? && response.Page? ==> s.retry == retry
    ensures response.ErrorBody? ==> s.yielded == []
    ensures |s.yielded| <= 1 && forall b | b in s.yielded :: |b| > 0
  {
    match response
    case Unparsable => Stop([], Failed(NotJson(url)))
    case ErrorBody(payload) =>
      (match OnError(retry, url, limit)
       case GiveUp => Stop([], Failed(RemoteError(payload, url)))
       case Retry(next) => Continue([], url, next))
    case Page(data, paging) =>
      if data.None? then Stop([], Failed(MissingKey("data")))
      else match FilterPage(data.value, cutoff)
        case Err(f) => Stop([], Failed(f))
        case Ok(batch) =>
          if |batch| == 0 then Stop([], Done)
          else match paging
            case NoPaging => Stop([batch], Done)
            case NullNext => Stop([batch], Done)
            case PagingWithoutNext => Stop([batch], Failed(MissingKey("next")))
            case NextPage(next) => Continue([batch], next, retry)
  }

  /** The whole loop from `url` with the given retry bookkeeping. */
  function Walk(url: Url, cutoff: Date, limit: int, retry: RetryState, responses: seq<Response>): (run: Run)
    ensures |run.requested| <= |responses|
    ensures |responses| > 0 ==> |run.requested| > 0 && run.requested[0] == url
    ensures run.outcome.OutOfResponses? ==> |run.requested| == |responses|
    ensures forall b | b in run.batches :: |b| > 0
    decreases |responses|
  {
    if |responses| == 0 then Run([], [], OutOfResponses)
    else
      match StepOn(url, cutoff, limit, retry, responses[0])
      case Stop(yielded, outcome) => Run([url], yielded, outcome)
      case Continue(yielded, next, retry') =>
        var rest := Walk(next, cutoff, limit, retry', responses[1..]);
        Run([url] + rest.requested, yielded + rest.batches, rest.outcome)
  }

  /** `generate_ad_archives`: read the cutoff, then walk from the initial URL
      with the configured retry limit. An unreadable cutoff raises before the
      first request. */
  function GenerateAdArchives(t: Config, responses: seq<Response>): (run: Run)
    ensures ParseIso(t.afterDate).None? ==> run == Run([], [], Failed(BadDate(t.afterDate)))
    ensures ParseIso(t.afterDate).Some? && |responses| > 0 ==> |run.requested| > 0 && run.requested[0] == InitialUrl(t)
  {
    match ParseIso(t.afterDate)
    case None => Run([], [], Failed(BadDate(t.afterDate)))
    case Some(cutoff) => Walk(InitialUrl(t), cutoff, t.retryLimit, Fresh, responses)
  }

  /** `generate_ad_archives_from_url`: resume at a URL obtained earlier, with
      the default retry limit of 3. */
  function GenerateFromUrl(failureUrl: Url, afterDate: string, responses: seq<Response>): (run: Run)
    ensures ParseIso(afterDate).None? ==> run == Run([], [], Failed(BadDate(afterDate)))
    ensures ParseIso(afterDate).Some? && |responses| > 0 ==> |run.requested| > 0 && run.requested[0] == failureUrl
  {
    match ParseIso(afterDate)
    case None => Run([], [], Failed(BadDate(afterDate)))
    case Some(cutoff) => Walk(failureUrl, cutoff, DefaultRetryLimit, Fresh, responses)
  }

  // ---------------------------------------------------------------------
  // Properties of the loop
  // ---------------------------------------------------------------------

  /** Each request after the first goes where the previous response sent it. */
  predicate FollowsCursor(requested: seq<Url>, responses: seq<Response>)
    requires |requested| <= |responses|
  {
    forall i | 0 < i < |requested| :: Advance(requested[i - 1], responses[i - 1]) == Some(requested[i])
  }

  /** Each request after the first goes where the previous response sent it:
      to the same URL after an error (the cursor never advances on an error),
      to `paging.next` after a page. */
  lemma {:induction false} WalkFollowsCursor(url: Url, cutoff: Date, limit: int, retry: RetryState, responses: seq<Response>)
    ensures FollowsCursor(Walk(url, cutoff, limit, retry, responses).requested, responses)
    decreases |responses|
  {
    if |responses| > 0 {
      var run := Walk(url, cutoff, limit, retry, responses);
      var s := StepOn(url, cutoff, limit, retry, responses[0]);
      if s.Continue? {
        var rest := Walk(s.next, cutoff, limit, s.retry, responses[1..]);
        WalkContinues(url, cutoff, limit, retry, responses);
        WalkFollowsCursor(s.next, cutoff, limit, s.retry, responses[1..]);
        ConsCursor(url, rest.requested, responses, s.next);
      }
    }
  }

  lemma ConsCursor(url: Url, rest: seq<Url>, responses: seq<Response>, next: Url)
    requires 0 < |responses| && |rest| < |responses|
    requires FollowsCursor(rest, responses[1..])
    requires Advance(url, responses[0]) == Some(next)
    requires |rest| > 0 ==> rest[0] == next
    ensures FollowsCursor([url] + rest, responses)
  {
    var req := [url] + rest;
    forall i | 0 < i < |req|
      ensures Advance(req[i - 1], responses[i - 1]) == Some(req[i])
    {
      if i > 1 {
        assert req[i - 1] == rest[i - 2] && req[i] == rest[i - 1];
        assert responses[i - 1] == responses[1..][i - 2];
      }
    }
  }

  /** The batch a response contributes, judged on its own: the filtered page,
      when the page parses, filters without error, and keeps something. */
  function Yield(response: Response, cutoff: Date): seq<seq<Record>> {
    if response.Page? && response.data.Some? then
      match FilterPage(response.data.value, cutoff)
      case Ok(batch) => if |batch| > 0 then [batch] else []
      case Err(_) => []
    else []
  }

  function Harvest(responses: seq<Response>, cutoff: Date): seq<seq<Record>>
    decreases |responses|
  {
    if |responses| == 0 then [] else Yield(responses[0], cutoff) + Harvest(responses[1..], cutoff)
  }

  /** The batches yielded are exactly the non-empty filtered pages among the
      responses the traversal consumed, in the order they came. */
  lemma {:induction false} WalkYieldsFilteredPages(url: Url, cutoff: Date, limit: int, retry: RetryState, responses: seq<Response>)
    ensures var run := Walk(url, cutoff, limit, retry, responses);
      run.batches == Harvest(responses[..|run.requested|], cutoff)
    decreases |responses|
  {
    if |responses| > 0 {
      var run := Walk(url, cutoff, limit, retry, responses);
      var consumed := responses[..|run.requested|];
      var s := StepOn(url, cutoff, limit, retry, responses[0]);
      StepYields(url, cutoff, limit, retry, responses[0]);
      assert consumed[0] == responses[0];
      if s.Stop? {
        assert consumed == [responses[0]];
        assert Harvest(consumed, cutoff) == Yield(responses[0], cutoff) + Harvest([], cutoff);
      } else {
        var rest := Walk(s.next, cutoff, limit, s.retry, responses[1..]);
        WalkContinues(url, cutoff, limit, retry, responses);
        WalkYieldsFilteredPages(s.next, cutoff, limit, s.retry, responses[1..]);
        assert |consumed| == |rest.requested| + 1;
        assert consumed[1..] == responses[1..][..|rest.requested|];
        assert Harvest(consumed, cutoff) == Yield(responses[0], cutoff) + Harvest(consumed[1..], cutoff);
      }
    }
  }

  /** What one pass yields is the response's own batch. */
  lemma StepYields(url: Url, cutoff: Date, limit: int, retry: RetryState, response: Response)
    ensures StepOn(url, cutoff, limit, retry, response).yielded == Yield(response, cutoff)
  {
    var s := StepOn(url, cutoff, limit, retry, response);
    if response.Page? && response.data.Some? {
      var r := FilterPage(response.data.value, cutoff);
      if r.Ok? && |r.value| > 0 {
        assert s.yielded == [r.value];
      } else {
        assert s.yielded == [];
      }
    } else {
      assert s.yielded == [];
    }
  }

  /** An empty filtered page ends the traversal at once, normally, even when
      the server offers a next page. */
  lemma EmptyFilteredPageStops(url: Url, cutoff: Date, limit: int, retry: RetryState,
                               data: seq<Record>, next: Url, more: seq<Response>)
    requires FilterPage(data, cutoff) == Ok([])
    ensures Walk(url, cutoff, limit, retry, [Page(Some(data), NextPage(next))] + more) == Run([url], [], Done)
  {
  }

  function RetryBudget(limit: int): int {
    if limit >= 1 then limit else 1
  }

  lemma {:induction false} StreakFrom(url: Url, cutoff: Date, limit: int, c: int, responses: seq<Response>)
    requires c >= 1
    requires forall i | 0 <= i < |responses| :: responses[i].ErrorBody?
    ensures var n := if c >= limit then 1 else limit - c + 1;
      var run := Walk(url, cutoff, limit, RetryState(Some(url), c), responses);
      && run.batches == []
      && (forall i | 0 <= i < |run.requested| :: run.requested[i] == url)
      && (|responses| >= n ==> |run.requested| == n && run.outcome == Failed(RemoteError(responses[n - 1].error, url)))
      && (|responses| < n ==> run.outcome == OutOfResponses)
    decreases |responses|
  {
    var st := RetryState(Some(url), c);
    if |responses| > 0 {
      var payload := responses[0].error;
      assert responses[0] == ErrorBody(payload);
      if c < limit {
        var st' := RetryState(Some(url), c + 1);
        assert StepOn(url, cutoff, limit, st, responses[0]) == Continue([], url, st');
        WalkContinues(url, cutoff, limit, st, responses);
        StreakFrom(url, cutoff, limit, c + 1, responses[1..]);
        var n := limit - c + 1;
        if |responses| >= n {
          assert responses[1..][n - 2] == responses[n - 1];
        }
      } else {
        assert StepOn(url, cutoff, limit, st, responses[0]) == Stop([], Failed(RemoteError(payload, url)));
      }
    }
  }

  /** Consecutive errors on one URL that is not the last failing one: the
      first `max(retry_limit, 1)` are retried in place, and the next one
      raises with its own payload and that URL. Nothing is yielded meanwhile. */
  lemma GivesUpAfterRetryLimit(url: Url, cutoff: Date, limit: int, retry: RetryState, responses: seq<Response>)
    requires retry.lastErrorUrl != Some(url)
    requires forall i | 0 <= i < |responses| :: responses[i].ErrorBody?
    ensures var m := RetryBudget(limit) + 1;
      var run := Walk(url, cutoff, limit, retry, responses);
      && run.batches == []
      && (forall i | 0 <= i < |run.requested| :: run.requested[i] == url)
      && (|responses| >= m ==> |run.requested| == m && run.outcome == Failed(RemoteError(responses[m - 1].error, url)))
      && (|responses| < m ==> run.outcome == OutOfResponses)
  {
    if |responses| > 0 {
      StreakFrom(url, cutoff, limit, 1, responses[1..]);
      var m := RetryBudget(limit) + 1;
      if |responses| >= m {
        assert responses[1..][m - 2] == responses[m - 1];
      }
    }
  }

  /** A resumed traversal raises on the fourth consecutive error on its URL. */
  lemma ResumeGivesUpOnFourthError(failureUrl: Url, afterDate: string, responses: seq<Response>)
    requires ParseIso(afterDate).Some?
    requires |responses| >= 4
    requires forall i | 0 <= i < |responses| :: responses[i].ErrorBody?
    ensures GenerateFromUrl(failureUrl, afterDate, responses)
         == Run([failureUrl, failureUrl, failureUrl, failureUrl], [], Failed(RemoteError(responses[3].error, failureUrl)))
  {
    var cutoff := ParseIso(afterDate).value;
    GivesUpAfterRetryLimit(failureUrl, cutoff, DefaultRetryLimit, Fresh, responses);
    var run := GenerateFromUrl(failureUrl, afterDate, responses);
    assert run.requested == [failureUrl, failureUrl, failureUrl, failureUrl];
  }

  /** A success does not reset the count: once a URL has used up its retries,
      a good page whose cursor leads back to it leaves it no fresh budget, and
      the very next error there raises. */
  lemma SuccessKeepsRetryCount(url: Url, cutoff: Date, limit: int, c: int, data: seq<Record>, payload: Value, more: seq<Response>)
    requires c >= limit
    requires FilterPage(data, cutoff).Ok? && |FilterPage(data, cutoff).value| > 0
    ensures var run := Walk(url, cutoff, limit, RetryState(Some(url), c),
                            [Page(Some(data), NextPage(url)), ErrorBody(payload)] + more);
      && run.requested == [url, url]
      && run.batches == [FilterPage(data, cutoff).value]
      && run.outcome == Failed(RemoteError(payload, url))
  {
    var responses := [Page(Some(data), NextPage(url)), ErrorBody(payload)] + more;
    var st := RetryState(Some(url), c);
    var batch := FilterPage(data, cutoff).value;
    assert StepOn(url, cutoff, limit, st, responses[0]) == Continue([batch], url, st);
    WalkContinues(url, cutoff, limit, st, responses);
    assert responses[1..] == [ErrorBody(payload)] + more;
    assert OnError(st, url, limit) == GiveUp;
    assert StepOn(url, cutoff, limit, st, responses[1]) == Stop([], Failed(RemoteError(payload, url)));
    assert Walk(url, cutoff, limit, st, responses[1..]) == Run([url], [], Failed(RemoteError(payload, url)));
  }

  /** Every way the loop can end normally: the last response it read was a
      page whose filtered batch was empty, or that had no further cursor. */
  lemma {:induction false} DoneOnlyAtLastPage(url: Url, cutoff: Date, limit: int, retry: RetryState, responses: seq<Response>)
    ensures var run := Walk(url, cutoff, limit, retry, responses);
      run.outcome.Done? ==> |run.requested| > 0 && EndsCleanly(responses[|run.requested| - 1], cutoff)
    decreases |responses|
  {
    if |responses| > 0 {
      StopDone(url, cutoff, limit, retry, responses[0]);
      var s := StepOn(url, cutoff, limit, retry, responses[0]);
      if s.Continue? {
        var rest := Walk(s.next, cutoff, limit, s.retry, responses[1..]);
        WalkContinues(url, cutoff, limit, retry, responses);
        DoneOnlyAtLastPage(s.next, cutoff, limit, s.retry, responses[1..]);
        if rest.outcome.Done? {
          var n := |rest.requested|;
          assert responses[n] == responses[1..][n - 1];
        }
      }
    }
  }

  /** After a pass that goes on, the rest of the walk is the walk from the
      next URL on the remaining responses. */
  lemma WalkContinues(url: Url, cutoff: Date, limit: int, retry: RetryState, responses: seq<Response>)
    requires |responses| > 0
    ensures var s := StepOn(url, cutoff, limit, retry, responses[0]);
      s.Continue? ==>
        var rest := Walk(s.next, cutoff, limit, s.retry, responses[1..]);
        Walk(url, cutoff, limit, retry, responses) == Run([url] + rest.requested, s.yielded + rest.batches, rest.outcome)
  {
  }

  /** A page that ends the loop normally: it filters cleanly, and either
      nothing is kept or there is no further cursor. */
  predicate EndsCleanly(response: Response, cutoff: Date) {
    && response.Page? && response.data.Some? && FilterPage(response.data.value, cutoff).Ok?
    && (|FilterPage(response.data.value, cutoff).value| == 0 || response.paging.NoPaging? || response.paging.NullNext?)
  }

  /** What the last response read must have been for the loop to raise `f`
      on a GET of `url`. */
  predicate FailureCause(url: Url, response: Response, cutoff: Date, f: Fault) {
    match f
    case RemoteError(payload, u) => u == url && response == ErrorBody(payload)
    case NotJson(u) => u == url && response.Unparsable?
    case MissingKey(key) =>
      && response.Page?
      && (if response.data.None? then key == "data"
          else && key == "next" && response.paging.PagingWithoutNext?
               && FilterPage(response.data.value, cutoff).Ok?
               && |FilterPage(response.data.value, cutoff).value| > 0)
    case _ =>
      response.Page? && response.data.Some? && FilterPage(response.data.value, cutoff) == Err(f)
  }

  /** Every way the loop can raise: an error payload on the last URL
      requested once its retries are spent, a body that is not JSON, a page
      without `data`, a date the filter cannot read, or a kept page whose
      `paging` has no `next`. */
  lemma {:induction false} FailedOnlyAtLastResponse(url: Url, cutoff: Date, limit: int, retry: RetryState, responses: seq<Response>)
    ensures var run := Walk(url, cutoff, limit, retry, responses);
      run.outcome.Failed? ==>
        var n := |run.requested|;
        n > 0 && FailureCause(run.requested[n - 1], responses[n - 1], cutoff, run.outcome.fault)
    decreases |responses|
  {
    if |responses| > 0 {
      StopFailed(url, cutoff, limit, retry, responses[0]);
      var s := StepOn(url, cutoff, limit, retry, responses[0]);
      if s.Continue? {
        var rest := Walk(s.next, cutoff, limit, s.retry, responses[1..]);
        WalkContinues(url, cutoff, limit, retry, responses);
        FailedOnlyAtLastResponse(s.next, cutoff, limit, s.retry, responses[1..]);
        if rest.outcome.Failed? {
          var n := |rest.requested|;
          assert responses[n] == responses[1..][n - 1];
          assert ([url] + rest.requested)[n] == rest.requested[n - 1];
        }
      }
    }
  }

  /** One pass of the loop stops normally only on a page that ends cleanly. */
  lemma StopDone(url: Url, cutoff: Date, limit: int, retry: RetryState, response: Response)
    ensures var s := StepOn(url, cutoff, limit, retry, response);
      s.Stop? && s.outcome.Done? ==> EndsCleanly(response, cutoff)
  {
  }

  /** One pass of the loop raises only for a cause the response shows. */
  lemma StopFailed(url: Url, cutoff: Date, limit: int, retry: RetryState, response: Response)
    ensures var s := StepOn(url, cutoff, limit, retry, response);
      s.Stop? && s.outcome.Failed? ==> FailureCause(url, response, cutoff, s.outcome.fault)
  {
  }
}
