# UranusExporter core, in Dafny

A model of the sequential logic of `UranusExporter`, a crawler that lists the
tweets a user has liked and downloads the media attached to tweets. The HTTP
client, the subprocesses, the clock and `Thread.sleep` are not modelled.
What is modelled is the logic between them:

- **Construction** (`Exporter`). A bearer token or user id that is null, empty
  or made entirely of `\s` characters is rejected. The token is checked
  first. Otherwise the `Authorization` value `"Bearer " + token` is built.
- **Rate limit** (`RateLimit`). After a response whose
  `x-rate-limit-remaining` is 0, `pauseExecution` computes
  `reset*1000 - now + 5000` in Java `long` arithmetic, with wrap-around.
  The wait is an exception when it exceeds `Integer.MAX_VALUE`, and a sleep
  only when it is positive. Callers catch that exception and go on.
- **Liked-tweets crawl** (`LikedTweets`). This is a do-while walk over
  cursor tokens. The server is a finite script of exchanges. Each exchange
  holds a reply, or none for the transport's null, and the clock reading the
  gate uses. The crawl returns the outcome, the URLs it requested and the
  gates it ran.
- **Media resolver** (`TweetMedia`). The skip rules come first. Then the
  type of the first media entry classifies the tweet. The result is the list
  of `downloadMedia` / `changeMediaInfo` calls, with their command strings,
  that would be dispatched.

JSON bodies are datatypes whose optional fields are `Option`s. Java `null` is
`None`, and `Show` renders it as `"null"`, as string concatenation does.
Exceptions that escape are explicit outcomes: `Aborted`, `Err`, `Fault`.

Files: `wrappers.dfy` (Option, Result), `java_lang.dfy` (Java integer
widths, `lastIndexOf`, `\s+`, decimal rendering), `exporter.dfy`,
`rate_limit.dfy`, `liked_tweets.dfy`, `tweet_media.dfy`.

Four methods are proved against a specification function:
- `ParseLikedTweetsResponse` against `PageIds`;
- `RetrieveLikedTweets` against `CrawlResult`, `Requests` and `Gates`;
- `DispatchPhotos` against `PhotoPlan`;
- `DownloadTweetMedia` against `Resolve`.

The lemmas below state what those functions promise.

## Model

| member | source | states |
|---|---|---|
| `JavaLang.Show` | src/main/java/UranusExporter.java:27 | Java's `+` on a possibly-null string: the string itself, or `"null"` for null. Lines 30, 207, 209 and 218 concatenate the same way. |
| `JavaLang.IsRegexSpace` | src/main/java/UranusExporter.java:26 | A character of the regular-expression class `\s`: space, tab, newline, vertical tab, form feed or carriage return. |
| `JavaLang.MatchesWhitespaceRun` | src/main/java/UranusExporter.java:26 | `matches("\\s+")`: the string is non-empty and every character is in `\s`. |
| `JavaLang.LastIndexOf` | src/main/java/UranusExporter.java:135 | The result is -1 exactly when the character is absent. Otherwise it is an index holding the character, and no later index holds it. |
| `JavaLang.WrapLong` | src/main/java/UranusExporter.java:80-83 | A `long` operation's result is the one `long` congruent to the exact value modulo 2^64, as two's complement wrap-around gives, however far out of range the exact value is. It equals the exact value when that fits. |
| `JavaLang.DecimalString` | src/main/java/UranusExporter.java:205 | The decimal form of the ordinal is non-empty, all digits, and has no leading zero. Its length is one exactly for n < 10. |
| `JavaLang.DecimalStringValue` | src/main/java/UranusExporter.java:205 | The digits stand for the number: their decimal value is n. |
| `JavaLang.DecimalStringInjective` | src/main/java/UranusExporter.java:205 | Different ordinals give different decimal strings. |
| `Exporter.IsValidArgument` | src/main/java/UranusExporter.java:26-29 | The constructor's test on one argument: it is not null, not empty and not `\s+`. |
| `Exporter.HasVisibleChar` | src/main/java/UranusExporter.java:26-29 | The argument has a character outside `\s`. This is the reference that `ValidArgumentIffVisible` compares the test with. |
| `Exporter.ValidArgumentIffVisible` | src/main/java/UranusExporter.java:26-30 | The test "null, empty or `\s+`" rejects an argument exactly when it is null or has no non-`\s` character. |
| `Exporter.New` | src/main/java/UranusExporter.java:24-34 | Construction succeeds exactly when both arguments are non-null and hold a visible character. The token's error, with `"null"` for null, takes precedence over the user id's. On success the header is `"Bearer " + token` and the user id is stored unchanged. |
| `Exporter.HeaderRoundTrip` | src/main/java/UranusExporter.java:32 | The token can be read back from the header after its `"Bearer "` prefix. |
| `RateLimit.WaitMillis` | src/main/java/UranusExporter.java:80-83 | The wait is congruent modulo 2^64 to `reset*1000 - now + 5000`: the product, the difference and the margin are each wrapped as Java `long` operations. |
| `RateLimit.WaitIsDistanceToReset` | src/main/java/UranusExporter.java:80-83 | Without overflow, the wait is exactly `reset*1000 - now + 5000`. |
| `RateLimit.RealisticClocksDoNotOverflow` | src/main/java/UranusExporter.java:80-83 | Epoch readings from 1970 up to 2^48 seconds never overflow the wait arithmetic. |
| `RateLimit.PauseExecution` | src/main/java/UranusExporter.java:76-92 | The wait is an exception exactly when it exceeds 2147483647. A sleep is always in (0, 2147483647], and there is no sleep exactly when the wait is not positive. Without overflow, a sleep ends exactly 5 s after the reset, and there is no sleep exactly when that instant has already passed. |
| `RateLimit.TenSecondsToReset` | src/main/java/UranusExporter.java:83-91 | A reset 10 s after now sleeps exactly 15000 ms. |
| `RateLimit.TenSecondsAfterCurrentSecond` | src/main/java/UranusExporter.java:80-91 | A reset 10 whole seconds after the current second sleeps more than 14000 ms and at most 15000 ms. |
| `RateLimit.RateLimitGate` | src/main/java/UranusExporter.java:238-244 | The gate pauses exactly when `remaining == 0`, and then it applies `pauseExecution` to the reset header and the clock. |
| `RateLimit.RemainingRequestsNeverSleep` | src/main/java/UranusExporter.java:180-186 | A response with `remaining > 0` never sleeps. |
| `LikedTweets.IdsOf` | src/main/java/UranusExporter.java:55-59 | The ids of the `data` elements that have an `id`, in array order. Elements without one are skipped. |
| `LikedTweets.PageIds` | src/main/java/UranusExporter.java:53-63 | A page's list: `IdsOf(data)` when `data` is present, and `[]` when it is not. |
| `LikedTweets.ParseLikedTweetsResponse` | src/main/java/UranusExporter.java:51-65 | The loop returns the present ids of `data`, and `[]` when there is no `data`. |
| `LikedTweets.IdsOfMember` | src/main/java/UranusExporter.java:55-59 | A string is returned exactly when some `data` element has it as its `id`. |
| `LikedTweets.IdsOfAppend` | src/main/java/UranusExporter.java:55-59 | Collecting ids distributes over concatenation, so array order is kept. |
| `LikedTweets.IdsOfAllPresent` | src/main/java/UranusExporter.java:55-59 | When every element has an id, the result is those ids, one per element and in order. |
| `LikedTweets.IdsOfBounded` | src/main/java/UranusExporter.java:55-59 | There are never more ids than elements. |
| `LikedTweets.NextPaginationToken` | src/main/java/UranusExporter.java:68-74 | A missing `meta` is the `MissingMeta` exception. Otherwise the result is `meta.next_token`, and its absence is the null that ends the walk. |
| `LikedTweets.Continues` | src/main/java/UranusExporter.java:246-248 | The exchange is a non-null reply whose `meta` has a `next_token`. This is exactly when `while (paginationToken != null)` goes round again. |
| `LikedTweets.TokenOf` | src/main/java/UranusExporter.java:73 | The `next_token` of a page that continues the walk. |
| `LikedTweets.IsLastPage` | src/main/java/UranusExporter.java:246-248 | The exchange is a non-null reply whose `meta` has no `next_token`: the walk ends normally after it. |
| `LikedTweets.ExchangeIds` | src/main/java/UranusExporter.java:237 | The list a reply adds: its page's ids, or `[]` for a null reply, which never gets this far. |
| `LikedTweets.FirstStop` | src/main/java/UranusExporter.java:246-248 | This is the index of the first exchange that names no next page: every earlier exchange names one. |
| `LikedTweets.FirstStopAt` | src/main/java/UranusExporter.java:227-248 | Following m tokens and then meeting a page without one, or the end of the script, means the stop is at m. |
| `LikedTweets.LikedTweetsUrl` | src/main/java/UranusExporter.java:223 | The first page's URL: `https://api.twitter.com/2/users/`, the user id, then `/liked_tweets`. `LikedTweetsUrlParts` states its parts. |
| `LikedTweets.LikedTweetsUrlParts` | src/main/java/UranusExporter.java:223 | The user id can be read back from between the users endpoint and `/liked_tweets`. |
| `LikedTweets.PageUrl` | src/main/java/UranusExporter.java:230-234 | A page's URL: the base URL for an empty token, otherwise the base, `?pagination_token=` and the token. `PageUrlParts` states its parts. |
| `LikedTweets.PageUrlParts` | src/main/java/UranusExporter.java:230-234 | An empty token requests the base URL. Any other token is the exact suffix after `?pagination_token=`. |
| `LikedTweets.TokenBefore` | src/main/java/UranusExporter.java:224-246 | The token held when request k is sent: `""` for the first request, otherwise the `next_token` of page k-1 when that page continued the walk. |
| `LikedTweets.RequestCount` | src/main/java/UranusExporter.java:227-248 | The crawl sends at most one request per scripted reply. |
| `LikedTweets.GateCount` | src/main/java/UranusExporter.java:235-244 | No more gates run than requests were sent. |
| `LikedTweets.Requests` | src/main/java/UranusExporter.java:230-234 | The specification of the first n requests has length n. |
| `LikedTweets.Liked` | src/main/java/UranusExporter.java:225-237 | The `likedList` after n pages: page k's ids appended at position k. |
| `LikedTweets.ExchangeGate` | src/main/java/UranusExporter.java:238-244 | The gate after one reply: `RateLimitGate` on its headers at that exchange's clock. |
| `LikedTweets.Gates` | src/main/java/UranusExporter.java:238-244 | The gates of the first n pages, in fetch order. |
| `LikedTweets.CrawlResult` | src/main/java/UranusExporter.java:227-250 | The reference for the do-while loop. The crawl stops at `FirstStop`. A null reply there is `Aborted(NullResponse)` and a page without `meta` is `Aborted(MissingMeta)`. A page without a token is `Finished` with the ids of every page read, that page's included. A script that ends before a stop is `OutOfPages`, holding every page it had. `PagesFetched`, `FinishedMeansLastPage`, `AbortedAtStop` and `OutOfPagesKeepsAll` state its cases. |
| `LikedTweets.RetrieveLikedTweets` | src/main/java/UranusExporter.java:222-250 | The do-while loop's outcome is `CrawlResult`. Its requests are the first `RequestCount` URLs, and its gates are the gates of the pages it read. |
| `LikedTweets.RequestsAt` | src/main/java/UranusExporter.java:230-234 | Request k is the base URL with the token held then. |
| `LikedTweets.FirstRequestHasNoToken` | src/main/java/UranusExporter.java:224-234 | The first request is the bare liked-tweets URL. Each later request uses the previous page's `next_token`. |
| `LikedTweets.EmptyTokenRequestsFirstPageAgain` | src/main/java/UranusExporter.java:230-233 | An empty `next_token` keeps the walk going, and the next request goes to the bare URL again. |
| `LikedTweets.LikedAt` | src/main/java/UranusExporter.java:237 | List k is exactly the ids of page k. |
| `LikedTweets.GatesAt` | src/main/java/UranusExporter.java:238-244 | Gate k is the rule applied to page k's headers at that exchange's clock. |
| `LikedTweets.GatedPagesWereRead` | src/main/java/UranusExporter.java:235-238 | Only non-null replies reach the gate. |
| `LikedTweets.PagesFetched` | src/main/java/UranusExporter.java:227-250 | When page N is the first page without a token, the crawl finishes after exactly N requests. It returns exactly N lists, list k holding page k's ids, the last page's included. |
| `LikedTweets.FinishedMeansLastPage` | src/main/java/UranusExporter.java:246-248 | Conversely, a crawl that finishes with N lists followed N-1 tokens and stopped at a well-formed page without one. |
| `LikedTweets.AbortedAtStop` | src/main/java/UranusExporter.java:235-248 | The crawl throws exactly when the stop exchange is a null reply or a page without `meta`. |
| `LikedTweets.OutOfPagesKeepsAll` | src/main/java/UranusExporter.java:227-248 | A script whose every page names a next page is fetched completely. No page is dropped. |
| `LikedTweets.GatesDoNotAffectCrawl` | src/main/java/UranusExporter.java:238-244 | Headers and clock readings never change the crawl's outcome or requests, because the pause's exception is swallowed. |
| `TweetMedia.ExtractTweetLink` | src/main/java/UranusExporter.java:133-137 | The link is a suffix of the text and contains no space. It is the whole text when the text has no space, and otherwise it follows the last space. |
| `TweetMedia.ExtractTweetText` | src/main/java/UranusExporter.java:139-146 | The result is "" when the text has no space, and otherwise a proper prefix of the text. |
| `TweetMedia.TextAndLinkSplit` | src/main/java/UranusExporter.java:133-146 | When the text has a space, text + " " + link is the original text. |
| `TweetMedia.WorkingDirectory` | src/main/java/UranusExporter.java:94-97 | The directory a `downloadMedia` call runs in. A null or empty directory becomes ".", and any other is kept. The directory is never empty. |
| `TweetMedia.TweetDetailUrl` | src/main/java/UranusExporter.java:218 | The tweet-detail URL: `https://api.twitter.com/2/tweets/`, the id, then the query asking for `author_id`, `created_at`, the media, author and mention expansions, and media `url`. `TweetDetailUrlParts` states its parts. |
| `TweetMedia.TweetDetailUrlParts` | src/main/java/UranusExporter.java:218 | The tweet id can be read back from between the tweets endpoint and the query. |
| `TweetMedia.VideoTitle` | src/main/java/UranusExporter.java:196 | The video's file name before its extension is `<user>_<id>`. |
| `TweetMedia.VideoCommand` | src/main/java/UranusExporter.java:198 | The video command `yt-dlp -o '<user>_<id>.%(ext)s' <link>`. `VideoCommandParts` states its parts. |
| `TweetMedia.VideoCommandParts` | src/main/java/UranusExporter.java:196-198 | The command's output template is `<user>_<id>` followed by `.%(ext)s`, and the command ends with the link taken from the tweet's text. |
| `TweetMedia.PhotoTitle` | src/main/java/UranusExporter.java:205 | The photo file name `<user>_<id>_<ordinal>.jpg`. `PhotoTitleParts` states its parts. |
| `TweetMedia.PhotoTitleParts` | src/main/java/UranusExporter.java:205 | The file name is `<user>_<id>_`, then the ordinal in decimal, then `.jpg`. The middle is all digits, has no leading zero and has the ordinal as its decimal value. |
| `TweetMedia.WgetCommand` | src/main/java/UranusExporter.java:206 | The download command `wget -O '<title>' -o /dev/null "<url>"`. `WgetCommandParts` states its parts. |
| `TweetMedia.WgetCommandParts` | src/main/java/UranusExporter.java:206 | The download writes exactly the file `title`, with log output to `/dev/null`, from exactly `url`. |
| `TweetMedia.ExifCommand` | src/main/java/UranusExporter.java:207 | The stamp command `exiftool "-FileModifyDate=<created_at>" "./<dirPath>/<title>"`, with a null `dirPath` written as `null`. `ExifCommandParts` states its parts. |
| `TweetMedia.ExifCommandParts` | src/main/java/UranusExporter.java:207 | The stamp sets `FileModifyDate` to exactly `created_at` on exactly the file `./<dirPath>/<title>`. |
| `TweetMedia.PhotoDispatches` | src/main/java/UranusExporter.java:204-209 | One photo iteration: `downloadMedia(dirPath, wget)` then `changeMediaInfo(".", "/<dirPath>/<title>", exif)` for title number k+1. `PhotoDispatchesParts` states its parts. |
| `TweetMedia.PhotoTitlesDistinct` | src/main/java/UranusExporter.java:205 | Different ordinals give different photo file names. |
| `TweetMedia.LeadingWithUrl` | src/main/java/UranusExporter.java:201-203 | The photo loop reaches entry n exactly when all entries before n have a `url`, and entry n is the first without one. |
| `TweetMedia.PhotoPlan` | src/main/java/UranusExporter.java:201-211 | The calls of the first n iterations of the photo loop: iteration k's `PhotoDispatches` appended in order. |
| `TweetMedia.DispatchPhotos` | src/main/java/UranusExporter.java:201-211 | The loop dispatches the calls of every entry before the first one without `url`. It reports that entry's index, or none when every entry has a `url`. |
| `TweetMedia.PhotoPlanAt` | src/main/java/UranusExporter.java:201-211 | The first n iterations give 2n calls, and calls 2k and 2k+1 are iteration k's pair. |
| `TweetMedia.PhotoDispatchesParts` | src/main/java/UranusExporter.java:204-209 | Iteration k is a `wget` run in `dirPath` that writes `<user>_<id>_<k+1>.jpg` from the entry's `url`. It is followed by an `exiftool` call run in `.` on `/<dirPath>/` plus that same title, whose command sets `FileModifyDate` to `created_at` on `./<dirPath>/` plus that title. |
| `TweetMedia.IsErrorEnvelope` | src/main/java/UranusExporter.java:173 | `errors` is present, or `data` or `includes` is absent. |
| `TweetMedia.HasMedia` | src/main/java/UranusExporter.java:187 | `includes` has a `media` array, and that array is not empty. |
| `TweetMedia.Resolve` | src/main/java/UranusExporter.java:171-215 | The reference for `downloadTweetMedia`. The rules apply in order: a null reply, an error envelope (before the gate), the gate, no media, no users, then the first entry's type: video, photo or other. The lemmas from `ErrorEnvelopeSkipped` to `AllUrlsLeading` state its cases. |
| `TweetMedia.DownloadTweetMedia` | src/main/java/UranusExporter.java:171-215 | The resolver's resolution, gate and dispatched calls are those of `Resolve`. |
| `TweetMedia.DownloadTweetMediaById` | src/main/java/UranusExporter.java:217-220 | The request is the tweet-detail URL for that id. A null id, which `main` passes at the end of its input, requests `.../tweets/null?...`. The reply is resolved as above. |
| `TweetMedia.ErrorEnvelopeSkipped` | src/main/java/UranusExporter.java:173-176 | A body with `errors`, or without `data` or `includes`, dispatches nothing and skips the gate. |
| `TweetMedia.NoMediaSkippedAfterGate` | src/main/java/UranusExporter.java:180-190 | For a tweet without media, or with empty media, the gate runs and nothing is dispatched. |
| `TweetMedia.GateRunsUnlessSkipped` | src/main/java/UranusExporter.java:173-186 | The gate runs exactly when the reply is non-null and not an error envelope, on that reply's headers. A dispatch never happens without the gate. |
| `TweetMedia.GatesDoNotAffectResolution` | src/main/java/UranusExporter.java:180-186 | Two replies with the same body resolve and dispatch identically, whatever their rate-limit headers and clocks: the pause's exception is swallowed. |
| `TweetMedia.VideoGivesOneCommand` | src/main/java/UranusExporter.java:195-199 | When the first entry is a video, there is exactly one call: `yt-dlp -o '<user>_<id>.%(ext)s' <link>`. |
| `TweetMedia.PhotosGiveTwoCommandsEach` | src/main/java/UranusExporter.java:200-211 | When the first entry is a photo and every entry has a `url`, there are 2·\|media\| calls, with entry k's pair of calls at positions 2k and 2k+1. |
| `TweetMedia.PhotoLoopStopsAtMissingUrl` | src/main/java/UranusExporter.java:201-211 | In a photo tweet whose entry n is the first without a `url`, the resolver throws `MissingUrl(n)` after 2·n calls. Those calls are, at positions 2k and 2k+1, the pair for entry k, for every k < n. |
| `TweetMedia.OtherTypeDispatchesNothing` | src/main/java/UranusExporter.java:212-214 | Any other type of the first entry is reported as unsupported, and nothing is dispatched. |
| `TweetMedia.PhotoDownloadsDistinct` | src/main/java/UranusExporter.java:205-208 | The `wget` calls of one tweet write pairwise distinct files. |
| `TweetMedia.AllUrlsLeading` | src/main/java/UranusExporter.java:201-211 | When every entry has a `url`, the photo loop runs to the end. |

## Left out

- HTTP transport (`executeTwitterAPIRequest`, lines 36-49): the reply is an input. Its null result on failure is the `None` reply.
- Subprocess execution (`downloadMedia` after line 97, `changeMediaInfo`, `readProcessOutput`) and the `Files.isDirectory` check: these are operating-system I/O. The model returns the calls that would be made. A call `downloadMedia` would refuse for a missing directory is still listed. The unused `filePath` argument of `changeMediaInfo` is recorded as passed.
- `Thread.sleep`, `new Date()`, `Calendar` and the `SimpleDateFormat` output of `pauseExecution`: the clock is an input, and the sleep is a returned `Pause`. The `(int)` cast only feeds the printed time and is not modelled.
- Header parsing: `x-rate-limit-remaining` and `x-rate-limit-reset` arrive already parsed as Java `int` and `long`. A missing header, or a `NumberFormatException` on a non-numeric one, is not modelled.
- JSON exceptions for fields the request always asks for: a missing or non-string `id`, `text`, `created_at`, media `type` or user `username` (line 192) is not modelled, nor a `next_token` that is present but not a string (line 73). A `data` that is not an array, or elements that are not objects, is not modelled either. A missing `users` array is treated like an empty one; both throw at line 192, which is `Fault(NoUsers)`.
- RetrieveLikedTweets: the real server answers every request. The script of replies is finite, so a crawl that outlives it ends in `OutOfPages`, an outcome the Java code does not have.
- Console and error logging, including the `count` printed by the crawl, is not modelled.
- `main` (lines 252-281): file reading, the hard-coded directory and the 75-line cap are not modelled.
- Own-posts filtering, dedup against a directory listing, and username-to-id resolution do not exist in this source file, so they are not modelled.
