/**
 The request layer both backends share in spirit: `Slack._request`,
 `Discord._request` and `Slack._request_all_pages`.  The server is a
 script: the responses it gives, in order, to the HTTP calls the program
 makes.  Sleeping until the recorded time is not modelled; the table of
 rate-limited URLs is, with the delay the program would wait.
 */
module Http {
  import opened Types

  /**
   One server answer: the status code, the `ok` field of a Slack JSON body,
   and the delay the rate-limit header announces, if it is present.
   */
  datatype Response = Response(status: int, ok: bool, delay: Option<int>)

  const TOO_MANY_REQUESTS: int := 429

  /** The statuses `raise_for_status` raises on: client and server errors. */
  predicate IsHttpError(status: int) {
    400 <= status < 600
  }

  /** When no rate-limit header is present the program waits 60 seconds. */
  function RetryDelay(resp: Response): int {
    if resp.delay.Some? then resp.delay.value else 60
  }

  /**
   What one `_request` did: its outcome, the URL of every HTTP call it made
   (in order), and the rate-limit table (`_retry_after`) afterwards.
   */
  datatype Exchange = Exchange(result: Result<Response>, calls: seq<string>, retryAfter: map<string, int>)

  /** How many 429 answers open the script: the calls a request spends being rate limited. */
  function Throttled(script: seq<Response>): (n: nat)
    ensures n <= |script|
    ensures forall i :: 0 <= i < n ==> script[i].status == TOO_MANY_REQUESTS
    ensures n < |script| ==> script[n].status != TOO_MANY_REQUESTS
  {
    if |script| == 0 || script[0].status != TOO_MANY_REQUESTS then 0
    else 1 + Throttled(script[1..])
  }

  /** How Slack judges a settled answer: an HTTP error raises, a body with `ok` false fails the assertion. */
  function SlackVerdict(resp: Response): (r: Result<Response>)
    ensures r.Ok? <==> !IsHttpError(resp.status) && resp.ok
    ensures r.Ok? ==> r.value == resp
    ensures r.Err? && IsHttpError(resp.status) ==> r.error == HttpError(resp.status)
    ensures r.Err? && !IsHttpError(resp.status) ==> r.error == AssertionError
  {
    if IsHttpError(resp.status) then Err(HttpError(resp.status))
    else if !resp.ok then Err(AssertionError)
    else Ok(resp)
  }

  /** How Discord judges a settled answer: only an HTTP error fails it. */
  function DiscordVerdict(resp: Response): (r: Result<Response>)
    ensures r.Ok? <==> !IsHttpError(resp.status)
    ensures r.Ok? ==> r.value == resp
    ensures r.Err? ==> r.error == HttpError(resp.status)
  {
    if IsHttpError(resp.status) then Err(HttpError(resp.status)) else Ok(resp)
  }

  /**
   `Slack._request(method, url)`: every 429 records the URL's delay and
   re-issues the same call; the first other answer settles the request.
   All calls go to `url`, one per answer consumed.
   */
  function SlackRequest(url: string, script: seq<Response>, retryAfter: map<string, int>): (x: Exchange)
    ensures |x.calls| == if Throttled(script) < |script| then Throttled(script) + 1 else Throttled(script)
    ensures forall i :: 0 <= i < |x.calls| ==> x.calls[i] == url
    ensures Throttled(script) < |script| ==> x.result == SlackVerdict(script[Throttled(script)])
    ensures Throttled(script) == |script| ==> x.result == Err(ScriptEnded)
    ensures Throttled(script) == 0 ==> x.retryAfter == retryAfter
    ensures Throttled(script) > 0 ==> x.retryAfter == retryAfter[url := RetryDelay(script[Throttled(script) - 1])]
    decreases |script|
  {
    if |script| == 0 then Exchange(Err(ScriptEnded), [], retryAfter)
    else if script[0].status == TOO_MANY_REQUESTS then
      var rest := SlackRequest(url, script[1..], retryAfter[url := RetryDelay(script[0])]);
      Exchange(rest.result, [url] + rest.calls, rest.retryAfter)
    else Exchange(SlackVerdict(script[0]), [url], retryAfter)
  }

  const DISCORD_API: string := "https://discord.com/api/v6/"

  /** `Discord._url(urlfrag)`. */
  function DiscordUrl(urlfrag: string): string {
    DISCORD_API + urlfrag
  }

  /**
   `Discord._request(method, urlfrag)` as written: on a 429 it calls itself
   with the full URL in the place of the fragment, so the retry prefixes the
   API base a second time.  A 429 that carries `X-RateLimit-Reset-After`
   never gets that far: the header's text is added to a float, which raises
   `TypeError` before anything is recorded.
   */
  function DiscordRequestAsWritten(urlfrag: string, script: seq<Response>, retryAfter: map<string, int>): (x: Exchange)
    ensures |x.calls| <= |script|
    ensures |script| > 0 ==> |x.calls| >= 1 && x.calls[0] == DiscordUrl(urlfrag)
    ensures |script| > 0 && script[0].status == TOO_MANY_REQUESTS && script[0].delay.Some? ==>
      x == Exchange(Err(TypeError), [DiscordUrl(urlfrag)], retryAfter)
    ensures |script| > 0 && script[0].status != TOO_MANY_REQUESTS ==>
      x == Exchange(DiscordVerdict(script[0]), [DiscordUrl(urlfrag)], retryAfter)
    decreases |script|
  {
    var url := DiscordUrl(urlfrag);
    if |script| == 0 then Exchange(Err(ScriptEnded), [], retryAfter)
    else if script[0].status == TOO_MANY_REQUESTS && script[0].delay.Some? then
      Exchange(Err(TypeError), [url], retryAfter)
    else if script[0].status == TOO_MANY_REQUESTS then
      var rest := DiscordRequestAsWritten(url, script[1..], retryAfter[url := RetryDelay(script[0])]);
      Exchange(rest.result, [url] + rest.calls, rest.retryAfter)
    else Exchange(DiscordVerdict(script[0]), [url], retryAfter)
  }

  /**
   The retry the as-written request makes after one 429 without a
   rate-limit header goes to a different, doubly prefixed URL, and it is
   that URL, not the throttled one, whose answer settles the request.
   */
  lemma RetryDoublesBase(urlfrag: string, throttled: Response, answer: Response, retryAfter: map<string, int>)
    requires throttled.status == TOO_MANY_REQUESTS && throttled.delay.None? && answer.status == 200
    ensures DiscordRequestAsWritten(urlfrag, [throttled, answer], retryAfter).calls
         == [DISCORD_API + urlfrag, DISCORD_API + DISCORD_API + urlfrag]
    ensures DiscordRequestAsWritten(urlfrag, [throttled, answer], retryAfter).calls[1]
         != DiscordRequestAsWritten(urlfrag, [throttled, answer], retryAfter).calls[0]
  {
    var x := DiscordRequestAsWritten(urlfrag, [throttled, answer], retryAfter);
    var url := DiscordUrl(urlfrag);
    assert [throttled, answer][1..] == [answer];
    assert x.calls == [url] + DiscordRequestAsWritten(url, [answer], retryAfter[url := RetryDelay(throttled)]).calls;
    assert x.calls[1] == DISCORD_API + url;
    assert DISCORD_API + url == DISCORD_API + DISCORD_API + urlfrag;
    assert |x.calls[1]| == |DISCORD_API| + |x.calls[0]| > |x.calls[0]|;
  }

  /** The API base written `n` times over. */
  function Bases(n: nat): string {
    if n == 0 then "" else Bases(n - 1) + DISCORD_API
  }

  /** Putting the API base once more in front of `Bases(n) + urlfrag`'s fragment. */
  lemma OneMoreBase(n: nat, urlfrag: string)
    ensures Bases(n) + DiscordUrl(urlfrag) == Bases(n + 1) + urlfrag
  {
    assert Bases(n + 1) == Bases(n) + DISCORD_API;
  }

  /**
   As written, every retry puts one more copy of the API base in front of the
   fragment: the `i`-th call (from 0) goes to the base written `i + 1` times,
   so no two calls of a throttled request share a URL.
   */
  lemma {:induction false} AsWrittenRetriesGrowUrl(urlfrag: string, script: seq<Response>, retryAfter: map<string, int>)
    ensures forall i :: 0 <= i < |DiscordRequestAsWritten(urlfrag, script, retryAfter).calls| ==>
      DiscordRequestAsWritten(urlfrag, script, retryAfter).calls[i] == Bases(i + 1) + urlfrag
    decreases |script|
  {
    var x := DiscordRequestAsWritten(urlfrag, script, retryAfter);
    var url := DiscordUrl(urlfrag);
    assert Bases(1) == DISCORD_API;
    if |script| > 0 && script[0].status == TOO_MANY_REQUESTS && script[0].delay.None? {
      var ra := retryAfter[url := RetryDelay(script[0])];
      var rest := DiscordRequestAsWritten(url, script[1..], ra);
      AsWrittenRetriesGrowUrl(url, script[1..], ra);
      assert x.calls == [url] + rest.calls;
      forall i | 1 <= i < |x.calls| ensures x.calls[i] == Bases(i + 1) + urlfrag {
        assert x.calls[i] == rest.calls[i - 1];
        OneMoreBase(i, urlfrag);
      }
    }
  }

  /** The corrected retry loop: every call goes to the one URL built from the fragment. */
  function DiscordSend(url: string, script: seq<Response>, retryAfter: map<string, int>): (x: Exchange)
    ensures |x.calls| == if Throttled(script) < |script| then Throttled(script) + 1 else Throttled(script)
    ensures forall i :: 0 <= i < |x.calls| ==> x.calls[i] == url
    ensures Throttled(script) < |script| ==> x.result == DiscordVerdict(script[Throttled(script)])
    ensures Throttled(script) == |script| ==> x.result == Err(ScriptEnded)
    ensures Throttled(script) > 0 ==> url in x.retryAfter
    decreases |script|
  {
    if |script| == 0 then Exchange(Err(ScriptEnded), [], retryAfter)
    else if script[0].status == TOO_MANY_REQUESTS then
      var rest := DiscordSend(url, script[1..], retryAfter[url := RetryDelay(script[0])]);
      Exchange(rest.result, [url] + rest.calls, rest.retryAfter)
    else Exchange(DiscordVerdict(script[0]), [url], retryAfter)
  }

  /** `Discord._request(method, urlfrag)` with the retry re-issuing the same URL. */
  function DiscordRequest(urlfrag: string, script: seq<Response>, retryAfter: map<string, int>): (x: Exchange)
    ensures forall i :: 0 <= i < |x.calls| ==> x.calls[i] == DiscordUrl(urlfrag)
  {
    DiscordSend(DiscordUrl(urlfrag), script, retryAfter)
  }

  /** Answers that open with `k` 429s and then something else are throttled exactly `k` times. */
  lemma {:induction false} ThrottledPrefix(throttled: seq<Response>, rest: seq<Response>)
    requires forall i :: 0 <= i < |throttled| ==> throttled[i].status == TOO_MANY_REQUESTS
    requires |rest| > 0 && rest[0].status != TOO_MANY_REQUESTS
    ensures Throttled(throttled + rest) == |throttled|
    decreases |throttled|
  {
    if |throttled| == 0 {
      assert throttled + rest == rest;
    } else {
      assert (throttled + rest)[1..] == throttled[1..] + rest;
      ThrottledPrefix(throttled[1..], rest);
    }
  }

  /**
   The corrected request, rate limited any number of times before an answer
   that is no HTTP error: one call per answer, every one to the same URL,
   that answer returned, and the URL's retry time recorded if it was ever
   throttled.
   */
  lemma RetriedUntilAnswered(urlfrag: string, throttled: seq<Response>, answer: Response, retryAfter: map<string, int>)
    requires forall i :: 0 <= i < |throttled| ==> throttled[i].status == TOO_MANY_REQUESTS
    requires answer.status != TOO_MANY_REQUESTS && !IsHttpError(answer.status)
    ensures var x := DiscordRequest(urlfrag, throttled + [answer], retryAfter);
      && |x.calls| == |throttled| + 1
      && (forall i :: 0 <= i < |x.calls| ==> x.calls[i] == DiscordUrl(urlfrag))
      && x.result == Ok(answer)
      && (|throttled| > 0 ==> DiscordUrl(urlfrag) in x.retryAfter)
  {
    ThrottledPrefix(throttled, [answer]);
  }

  /** One 429 and then a 200: exactly two calls, both to the same URL, and the 200 is returned. */
  lemma OneRetryThenSuccess(urlfrag: string, throttled: Response, answer: Response, retryAfter: map<string, int>)
    requires throttled.status == TOO_MANY_REQUESTS && answer.status == 200
    ensures DiscordRequest(urlfrag, [throttled, answer], retryAfter).calls == [DiscordUrl(urlfrag), DiscordUrl(urlfrag)]
    ensures DiscordRequest(urlfrag, [throttled, answer], retryAfter).result == Ok(answer)
    ensures DiscordUrl(urlfrag) in DiscordRequest(urlfrag, [throttled, answer], retryAfter).retryAfter
  {
    RetriedUntilAnswered(urlfrag, [throttled], answer, retryAfter);
    assert [throttled] + [answer] == [throttled, answer];
  }

  // ----- pagination -----

  /** One page of a paged Slack answer: the array under the paged key, and `paging.pages`. */
  datatype Page<T> = Page(items: seq<T>, pages: int)

  /** The items of the successful answers, in order. */
  function Gathered<T>(answers: seq<Result<Page<T>>>): seq<T> {
    if |answers| == 0 then []
    else
      var last := answers[|answers| - 1];
      Gathered(answers[..|answers| - 1]) + (if last.Ok? then last.value.items else [])
  }

  /**
   `_request_all_pages`: request page 0, 1, 2, … (`answers[k]` is the
   outcome of `_request` for page `k`) until as many pages were fetched as
   the last answer announces; return the pages' items in order.  The first
   failing request ends it with its error.  `requested` lists the page
   parameters sent.
   */
  method RequestAllPages<T>(answers: seq<Result<Page<T>>>) returns (r: Result<seq<T>>, requested: seq<nat>)
    ensures |requested| >= 1
    ensures forall i :: 0 <= i < |requested| ==> requested[i] == i
    ensures forall i :: 0 <= i < |requested| - 1 ==> i < |answers| && answers[i].Ok? && answers[i].value.pages > i + 1
    ensures r.Ok? ==> |requested| <= |answers| && answers[|requested| - 1].Ok?
    ensures r.Ok? ==> answers[|requested| - 1].value.pages <= |requested|
    ensures r.Ok? ==> r.value == Gathered(answers[..|requested|])
    ensures r.Err? && |requested| > |answers| ==> r.error == ScriptEnded
    ensures r.Err? && |requested| <= |answers| ==> answers[|requested| - 1] == Err(r.error)
  {
    var accum: seq<T> := [];
    var fetched: nat := 0;
    var pages := 1;
    requested := [];
    while fetched < pages
      invariant |requested| == fetched <= |answers|
      invariant forall i :: 0 <= i < fetched ==> requested[i] == i
      invariant forall i :: 0 <= i < fetched ==> answers[i].Ok?
      invariant forall i :: 0 <= i < fetched - 1 ==> answers[i].value.pages > i + 1
      invariant fetched == 0 ==> pages == 1
      invariant fetched > 0 ==> pages == answers[fetched - 1].value.pages
      invariant accum == Gathered(answers[..fetched])
      decreases |answers| - fetched
    {
      requested := requested + [fetched];
      if fetched == |answers| {
        return Err(ScriptEnded), requested;
      }
      match answers[fetched]
      case Err(e) =>
        return Err(e), requested;
      case Ok(page) =>
        assert answers[..fetched + 1][..fetched] == answers[..fetched];
        accum := accum + page.items;
        pages := page.pages;
        fetched := fetched + 1;
    }
    r := Ok(accum);
  }
}
