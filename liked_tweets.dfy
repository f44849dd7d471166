/**
 * The liked-tweets crawl: a do-while walk over the cursor tokens of
 * `GET /2/users/{id}/liked_tweets`. The first request carries no
 * `pagination_token`; each later one carries the `meta.next_token` of the page
 * before it (an empty token is treated like none and the parameter is left
 * off). Every page's ids are kept, the last page's included, and the walk
 * stops after the first page whose `meta` has no `next_token`.
 *
 * The server is a finite script of exchanges: the k-th request the crawl
 * sends receives the k-th reply, together with the clock reading taken when
 * that reply's rate-limit gate runs.
 */
module LikedTweets {
  import opened Wrappers
  import opened JavaLang
  import opened RateLimit
  import opened Exporter

  const API_BASE: string := "https://api.twitter.com/2/users/"
  const PAGINATION_PARAMETER: string := "?pagination_token="
  const LIKED_TWEETS_PATH: string := "/liked_tweets"

  /** One element of a page's `data` array. */
  datatype TweetRef = TweetRef(id: Option<string>)

  /** A page's `meta` object. */
  datatype Meta = Meta(nextToken: Option<string>)

  /** The JSON body of a liked-tweets page. */
  datatype PageBody = PageBody(data: Option<seq<TweetRef>>, meta: Option<Meta>)

  /** One round trip: the reply (`None` when the transport returned null) and the clock then. */
  datatype Exchange = Exchange(reply: Option<Response<PageBody>>, clockMillis: Int64)

  /** The exceptions that escape the crawl. */
  datatype CrawlError =
    | NullResponse   // the transport returned null and `body()` was called on it
    | MissingMeta    // `getJSONObject("meta")` on a page without `meta`

  datatype CrawlOutcome =
    | Finished(liked: seq<seq<string>>)    // the list `retrieveLikedTweets` returns
    | Aborted(error: CrawlError)           // the exception it throws instead
    | OutOfPages(liked: seq<seq<string>>)  // the script ended while the server still had tokens

  // ---------------------------------------------------------------------
  // parseLikedTweetsResponse

  /** The ids of the elements that have one, in array order. */
  function IdsOf(items: seq<TweetRef>): seq<string> {
    if |items| == 0 then []
    else IdsOf(items[..|items| - 1]) + (if items[|items| - 1].id.Some? then [items[|items| - 1].id.value] else [])
  }

  /** The list a page yields: the present ids of `data`, or nothing when there is no `data`. */
  function PageIds(body: PageBody): seq<string> {
    if body.data.Some? then IdsOf(body.data.value) else []
  }

  /** `parseLikedTweetsResponse`: the for-loop over `data` that collects the ids. */
  method ParseLikedTweetsResponse(body: PageBody) returns (tweetList: seq<string>)
    ensures tweetList == PageIds(body)
    ensures body.data.None? ==> tweetList == []
  {
    tweetList := [];
    if body.data.Some? {
      var tweetArray := body.data.value;
      for index := 0 to |tweetArray|
        invariant tweetList == IdsOf(tweetArray[..index])
      {
        assert tweetArray[..index + 1][..index] == tweetArray[..index];
        if tweetArray[index].id.Some? {
          tweetList := tweetList + [tweetArray[index].id.value];
        }
      }
      assert tweetArray[..|tweetArray|] == tweetArray;
    }
  }

  /** Collecting ids distributes over concatenation: the order of the array is kept. */
  lemma {:induction false} IdsOfAppend(a: seq<TweetRef>, b: seq<TweetRef>)
    ensures IdsOf(a + b) == IdsOf(a) + IdsOf(b)
    decreases |b|
  {
    if |b| == 0 {
      assert a + b == a;
    } else {
      var b' := b[..|b| - 1];
      assert (a + b)[..|a + b| - 1] == a + b';
      IdsOfAppend(a, b');
    }
  }

  /** A string is collected exactly when some element carries it as its id. */
  lemma {:induction false} IdsOfMember(items: seq<TweetRef>, x: string)
    ensures x in IdsOf(items) <==> exists j :: 0 <= j < |items| && items[j].id == Some(x)
  {
    if |items| > 0 {
      var front := items[..|items| - 1];
      IdsOfMember(front, x);
      if x in IdsOf(front) {
        var j :| 0 <= j < |front| && front[j].id == Some(x);
        assert items[j].id == Some(x);
      }
      if exists j :: 0 <= j < |items| && items[j].id == Some(x) {
        var j :| 0 <= j < |items| && items[j].id == Some(x);
        if j < |front| {
          assert front[j].id == Some(x);
        }
      }
    }
  }

  /** When every element has an id, the result is exactly those ids, one per element. */
  lemma {:induction false} IdsOfAllPresent(items: seq<TweetRef>)
    requires forall j :: 0 <= j < |items| ==> items[j].id.Some?
    ensures |IdsOf(items)| == |items|
    ensures forall j :: 0 <= j < |items| ==> IdsOf(items)[j] == items[j].id.value
  {
    if |items| > 0 {
      IdsOfAllPresent(items[..|items| - 1]);
    }
  }

  /** Collecting never yields more ids than there are elements. */
  lemma {:induction false} IdsOfBounded(items: seq<TweetRef>)
    ensures |IdsOf(items)| <= |items|
  {
    if |items| > 0 {
      IdsOfBounded(items[..|items| - 1]);
    }
  }

  // ---------------------------------------------------------------------
  // getNextPaginationToken

  /** `getNextPaginationToken`: `None` is the null that ends the walk. */
  function NextPaginationToken(body: PageBody): (r: Result<Option<string>, CrawlError>)
    ensures r.Err? <==> body.meta.None?
    ensures r.Err? ==> r.error == MissingMeta
    ensures r.Ok? ==> r.value == body.meta.value.nextToken
  {
    match body.meta
    case None => Err(MissingMeta)
    case Some(m) => Ok(m.nextToken)
  }

  // ---------------------------------------------------------------------
  // retrieveLikedTweets

  /** The exchange delivered a page that names a next page. */
  predicate Continues(x: Exchange) {
    x.reply.Some? && x.reply.value.body.meta.Some? && x.reply.value.body.meta.value.nextToken.Some?
  }

  /** That page's `next_token`. */
  function TokenOf(x: Exchange): string
    requires Continues(x)
  {
    x.reply.value.body.meta.value.nextToken.value
  }

  /** The exchange delivered a well-formed last page. */
  predicate IsLastPage(x: Exchange) {
    x.reply.Some? && NextPaginationToken(x.reply.value.body) == Ok(None)
  }

  /** The ids of the page an exchange delivered (none for a null reply). */
  function ExchangeIds(x: Exchange): seq<string> {
    if x.reply.Some? then PageIds(x.reply.value.body) else []
  }

  /** The index of the first exchange that does not continue the walk, or the script's length. */
  function FirstStop(server: seq<Exchange>): (n: nat)
    ensures n <= |server|
    ensures forall k :: 0 <= k < n ==> Continues(server[k])
    ensures n < |server| ==> !Continues(server[n])
  {
    if |server| == 0 || !Continues(server[0]) then 0
    else 1 + FirstStop(server[1..])
  }

  /**
   * The first exchange that does not continue is the stop: a crawl that has
   * followed `m` tokens and then meets a page without one (or the end of the
   * script) has reached `FirstStop`.
   */
  lemma {:induction false} FirstStopAt(server: seq<Exchange>, m: nat)
    requires m <= |server|
    requires forall k :: 0 <= k < m ==> Continues(server[k])
    requires m < |server| ==> !Continues(server[m])
    ensures FirstStop(server) == m
  {
    if m > 0 {
      assert Continues(server[0]);
      forall k | 0 <= k < m - 1 ensures Continues(server[1..][k]) {
        assert server[1..][k] == server[k + 1];
      }
      FirstStopAt(server[1..], m - 1);
    }
  }

  /** The first page's URL: the users endpoint, the user id, then the liked-tweets path. */
  function LikedTweetsUrl(userId: string): string {
    API_BASE + userId + LIKED_TWEETS_PATH
  }

  /** The user id sits between the users endpoint and the `/liked_tweets` path, and can be read back. */
  lemma LikedTweetsUrlParts(userId: string)
    ensures var url := LikedTweetsUrl(userId);
            && |url| == |API_BASE| + |userId| + |LIKED_TWEETS_PATH|
            && url[..|API_BASE|] == API_BASE
            && url[|API_BASE|..|url| - |LIKED_TWEETS_PATH|] == userId
            && url[|url| - |LIKED_TWEETS_PATH|..] == LIKED_TWEETS_PATH
  {
    var url := LikedTweetsUrl(userId);
    assert url == API_BASE + userId + LIKED_TWEETS_PATH;
  }

  /** The URL requested for a page, given the token held when it is requested. */
  function PageUrl(base: string, paginationToken: string): string {
    if paginationToken == "" then base else base + PAGINATION_PARAMETER + paginationToken
  }

  /**
   * An empty token requests the base URL; any other token is appended, after
   * the parameter name, so that it can be read back from the URL.
   */
  lemma PageUrlParts(base: string, paginationToken: string)
    ensures paginationToken == "" ==> PageUrl(base, paginationToken) == base
    ensures paginationToken != "" ==>
              var url := PageUrl(base, paginationToken);
              && |url| == |base| + |PAGINATION_PARAMETER| + |paginationToken|
              && url[..|base|] == base
              && url[|base|..|base| + |PAGINATION_PARAMETER|] == PAGINATION_PARAMETER
              && url[|base| + |PAGINATION_PARAMETER|..] == paginationToken
  {
  }

  /** The token the crawl holds when it sends request `k`: none for the first request. */
  function TokenBefore(server: seq<Exchange>, k: nat): string
    requires k <= |server|
  {
    if k > 0 && Continues(server[k - 1]) then TokenOf(server[k - 1]) else ""
  }

  /** The number of requests the crawl sends before it stops or the script ends. */
  function RequestCount(server: seq<Exchange>): (c: nat)
    ensures c <= |server|
  {
    var n := FirstStop(server);
    if n < |server| then n + 1 else n
  }

  /** The number of pages whose headers reach the rate-limit gate: a null reply has none. */
  function GateCount(server: seq<Exchange>): (c: nat)
    ensures c <= RequestCount(server)
  {
    var n := FirstStop(server);
    if n < |server| && server[n].reply.Some? then n + 1 else n
  }

  /** The first `n` request URLs: each carries the token the page before it named. */
  function Requests(base: string, server: seq<Exchange>, n: nat): (r: seq<string>)
    requires n <= |server|
    ensures |r| == n
  {
    if n == 0 then [] else Requests(base, server, n - 1) + [PageUrl(base, TokenBefore(server, n - 1))]
  }

  /** The id lists of the first `n` pages. */
  function Liked(server: seq<Exchange>, n: nat): seq<seq<string>>
    requires n <= |server|
  {
    if n == 0 then [] else Liked(server, n - 1) + [ExchangeIds(server[n - 1])]
  }

  /** The gate an exchange's reply triggers (a null reply never reaches one). */
  function ExchangeGate(x: Exchange): Gate {
    if x.reply.Some? then RateLimitGate(x.reply.value.headers, x.clockMillis) else NotLimited
  }

  /** The gates of the first `n` pages. */
  function Gates(server: seq<Exchange>, n: nat): seq<Gate>
    requires n <= |server|
  {
    if n == 0 then [] else Gates(server, n - 1) + [ExchangeGate(server[n - 1])]
  }

  /**
   * What the crawl returns, read off the script: follow tokens up to the first
   * exchange that names no next page, then classify that exchange.
   */
  function CrawlResult(server: seq<Exchange>): CrawlOutcome {
    var n := FirstStop(server);
    if n == |server| then OutOfPages(Liked(server, n))
    else if server[n].reply.None? then Aborted(NullResponse)
    else if server[n].reply.value.body.meta.None? then Aborted(MissingMeta)
    else Finished(Liked(server, n + 1))
  }

  /**
   * `retrieveLikedTweets()`. Besides the outcome, the model returns the URLs
   * requested and the rate-limit gate run after each page that was read.
   */
  method RetrieveLikedTweets(exporter: Exporter, server: seq<Exchange>)
    returns (outcome: CrawlOutcome, requests: seq<string>, gates: seq<Gate>)
    ensures outcome == CrawlResult(server)
    ensures requests == Requests(LikedTweetsUrl(exporter.userId), server, RequestCount(server))
    ensures gates == Gates(server, GateCount(server))
  {
    var base := LikedTweetsUrl(exporter.userId);
    var paginationToken := "";
    var likedList: seq<seq<string>> := [];
    requests, gates := [], [];
    var i := 0;
    while i < |server|
      invariant 0 <= i <= |server|
      invariant forall k :: 0 <= k < i ==> Continues(server[k])
      invariant requests == Requests(base, server, i)
      invariant likedList == Liked(server, i)
      invariant gates == Gates(server, i)
      invariant paginationToken == TokenBefore(server, i)
    {
      requests := requests + [PageUrl(base, paginationToken)];
      var exchange := server[i];
      if exchange.reply.None? {
        FirstStopAt(server, i);
        return Aborted(NullResponse), requests, gates;
      }
      var response := exchange.reply.value;
      var ids := ParseLikedTweetsResponse(response.body);
      likedList := likedList + [ids];
      // an exception thrown by the pause is caught and printed: the walk goes on
      gates := gates + [RateLimitGate(response.headers, exchange.clockMillis)];
      var next := NextPaginationToken(response.body);
      if next.Err? {
        FirstStopAt(server, i);
        return Aborted(next.error), requests, gates;
      }
      if next.value.None? {
        FirstStopAt(server, i);
        return Finished(likedList), requests, gates;
      }
      paginationToken := next.value.value;
      i := i + 1;
    }
    // the server still names a next page, but the script has no more replies
    FirstStopAt(server, i);
    outcome := OutOfPages(likedList);
  }

  // ---------------------------------------------------------------------
  // What the crawl promises

  /** Request `k` is the base URL with the token held then: none for the first. */
  lemma {:induction false} RequestsAt(base: string, server: seq<Exchange>, n: nat)
    requires n <= |server|
    ensures |Requests(base, server, n)| == n
    ensures forall k :: 0 <= k < n ==> Requests(base, server, n)[k] == PageUrl(base, TokenBefore(server, k))
  {
    if n > 0 {
      RequestsAt(base, server, n - 1);
    }
  }

  /** The first request carries no token; each later one the previous page's token. */
  lemma FirstRequestHasNoToken(exporter: Exporter, server: seq<Exchange>, requests: seq<string>)
    requires requests == Requests(LikedTweetsUrl(exporter.userId), server, RequestCount(server))
    requires |server| > 0
    ensures 1 <= |requests| <= |server| && requests[0] == LikedTweetsUrl(exporter.userId)
    ensures forall k :: 0 < k < |requests| ==>
              Continues(server[k - 1]) && requests[k] == PageUrl(LikedTweetsUrl(exporter.userId), TokenOf(server[k - 1]))
  {
    var base, n := LikedTweetsUrl(exporter.userId), RequestCount(server);
    RequestsAt(base, server, n);
    forall k | 0 < k < n
      ensures Continues(server[k - 1]) && requests[k] == PageUrl(base, TokenOf(server[k - 1]))
    {
      assert k - 1 < FirstStop(server);
      assert requests[k] == PageUrl(base, TokenBefore(server, k));
    }
  }

  /**
   * An empty `next_token` does not end the walk, but the next request leaves
   * the parameter off, so that request goes to the first page's URL again.
   */
  lemma EmptyTokenRequestsFirstPageAgain(base: string, server: seq<Exchange>, k: nat)
    requires k + 1 < RequestCount(server)
    requires TokenOf(server[k]) == ""
    ensures Requests(base, server, RequestCount(server))[k + 1] == base
  {
    RequestsAt(base, server, RequestCount(server));
  }

  /** List `k` holds exactly the ids of page `k`. */
  lemma {:induction false} LikedAt(server: seq<Exchange>, n: nat)
    requires n <= |server|
    ensures |Liked(server, n)| == n
    ensures forall k :: 0 <= k < n ==> Liked(server, n)[k] == ExchangeIds(server[k])
  {
    if n > 0 {
      LikedAt(server, n - 1);
    }
  }

  /** Gate `k` is the rule applied to page `k`'s headers at that exchange's clock reading. */
  lemma {:induction false} GatesAt(server: seq<Exchange>, n: nat)
    requires n <= |server|
    requires forall k :: 0 <= k < n ==> server[k].reply.Some?
    ensures |Gates(server, n)| == n
    ensures forall k :: 0 <= k < n ==>
              Gates(server, n)[k] == RateLimitGate(server[k].reply.value.headers, server[k].clockMillis)
  {
    if n > 0 {
      GatesAt(server, n - 1);
    }
  }

  /** Every page that was read reached the rate-limit gate. */
  lemma GatedPagesWereRead(server: seq<Exchange>)
    ensures forall k :: 0 <= k < GateCount(server) ==> server[k].reply.Some?
  {
  }

  /**
   * Termination and counting: when page `N` is the first page without a
   * `next_token`, the crawl returns exactly `N` lists, one per page, in fetch
   * order, after exactly `N` requests.
   */
  lemma PagesFetched(server: seq<Exchange>, N: nat)
    requires 1 <= N <= |server|
    requires forall k :: 0 <= k < N - 1 ==> Continues(server[k])
    requires IsLastPage(server[N - 1])
    ensures CrawlResult(server).Finished?
    ensures |CrawlResult(server).liked| == N
    ensures forall k :: 0 <= k < N ==> CrawlResult(server).liked[k] == ExchangeIds(server[k])
    ensures RequestCount(server) == N
  {
    FirstStopAt(server, N - 1);
    LikedAt(server, N);
  }

  /**
   * And conversely: a crawl that finishes with `N` lists followed `N - 1`
   * tokens and stopped at a well-formed page without one.
   */
  lemma FinishedMeansLastPage(server: seq<Exchange>)
    requires CrawlResult(server).Finished?
    ensures var N := |CrawlResult(server).liked|;
            1 <= N <= |server| && IsLastPage(server[N - 1]) &&
            forall k :: 0 <= k < N - 1 ==> Continues(server[k])
  {
    LikedAt(server, FirstStop(server) + 1);
  }

  /** The crawl aborts exactly at a null reply or a page without `meta`, where the walk stopped. */
  lemma AbortedAtStop(server: seq<Exchange>)
    ensures var r := CrawlResult(server); var n := FirstStop(server);
            (r == Aborted(NullResponse) <==> n < |server| && server[n].reply.None?) &&
            (r == Aborted(MissingMeta) <==> n < |server| && server[n].reply.Some? && server[n].reply.value.body.meta.None?)
  {
  }

  /** Every page carries a token and the script ends first: all pages were fetched, none dropped. */
  lemma {:induction false} OutOfPagesKeepsAll(server: seq<Exchange>)
    requires forall k :: 0 <= k < |server| ==> Continues(server[k])
    ensures CrawlResult(server) == OutOfPages(Liked(server, |server|))
    ensures |CrawlResult(server).liked| == |server|
  {
    FirstStopAt(server, |server|);
    LikedAt(server, |server|);
  }

  /**
   * The rate-limit gate never changes what the crawl returns: two scripts
   * that differ only in headers and clock readings give the same outcome and
   * the same requests. (The exception a pause may raise is caught.)
   */
  lemma {:induction false} GatesDoNotAffectCrawl(s1: seq<Exchange>, s2: seq<Exchange>, base: string)
    requires |s1| == |s2|
    requires forall k :: 0 <= k < |s1| ==>
               s1[k].reply.None? == s2[k].reply.None? &&
               (s1[k].reply.Some? ==> s1[k].reply.value.body == s2[k].reply.value.body)
    ensures CrawlResult(s1) == CrawlResult(s2)
    ensures Requests(base, s1, RequestCount(s1)) == Requests(base, s2, RequestCount(s2))
  {
    SameBodiesSameStop(s1, s2);
    SameBodiesSamePrefixes(s1, s2, base, RequestCount(s1));
    var n := FirstStop(s1);
    if n < |s1| {
      assert s1[n].reply.None? == s2[n].reply.None?;
    }
  }

  lemma {:induction false} SameBodiesSameStop(s1: seq<Exchange>, s2: seq<Exchange>)
    requires |s1| == |s2|
    requires forall k :: 0 <= k < |s1| ==>
               s1[k].reply.None? == s2[k].reply.None? &&
               (s1[k].reply.Some? ==> s1[k].reply.value.body == s2[k].reply.value.body)
    ensures FirstStop(s1) == FirstStop(s2)
  {
    var n := FirstStop(s1);
    assert forall k :: 0 <= k < n ==> Continues(s2[k]) by {
      forall k | 0 <= k < n ensures Continues(s2[k]) {
        assert Continues(s1[k]);
      }
    }
    if n < |s1| {
      assert !Continues(s2[n]) by {
        assert !Continues(s1[n]);
      }
    }
    FirstStopAt(s2, n);
  }

  lemma {:induction false} SameBodiesSamePrefixes(s1: seq<Exchange>, s2: seq<Exchange>, base: string, n: nat)
    requires |s1| == |s2| && n <= |s1|
    requires forall k :: 0 <= k < |s1| ==>
               s1[k].reply.None? == s2[k].reply.None? &&
               (s1[k].reply.Some? ==> s1[k].reply.value.body == s2[k].reply.value.body)
    ensures Liked(s1, n) == Liked(s2, n)
    ensures Requests(base, s1, n) == Requests(base, s2, n)
  {
    if n > 0 {
      SameBodiesSamePrefixes(s1, s2, base, n - 1);
      assert ExchangeIds(s1[n - 1]) == ExchangeIds(s2[n - 1]);
      assert TokenBefore(s1, n - 1) == TokenBefore(s2, n - 1);
    }
  }
}
