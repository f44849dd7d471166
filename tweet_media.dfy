/**
 * The media resolver: from the reply to
 * `GET /2/tweets/{id}?tweet.fields=author_id,created_at&expansions=...&media.fields=url`,
 * decide what to download and build the shell command lines handed to the
 * download and metadata-stamping subprocesses. The model returns those
 * dispatches instead of running them.
 *
 * Order of the rules: a null reply fails; an error envelope (or one missing
 * `data` or `includes`) is skipped before the rate-limit gate; the gate runs;
 * a tweet without media is skipped; then the type of the FIRST media entry
 * decides: a video gives one `yt-dlp` command, a photo gives a `wget` and an
 * `exiftool` command for every entry (whatever that entry's own type), and
 * any other type gives nothing.
 */
module TweetMedia {
  import opened Wrappers
  import opened JavaLang
  import opened RateLimit

  const TWEETS_BASE: string := "https://api.twitter.com/2/tweets/"
  const VIDEO_PREFIX: string := "yt-dlp -o '"
  const VIDEO_EXTENSION: string := ".%(ext)s' "
  const WGET_PREFIX: string := "wget -O '"
  const WGET_QUIET: string := "' -o /dev/null \""
  const EXIF_PREFIX: string := "exiftool \"-FileModifyDate="
  const EXIF_FILE: string := "\" \"./"
  const DETAIL_QUERY: string :=
    "?tweet.fields=author_id,created_at&expansions=attachments.media_keys,author_id,entities.mentions.username&media.fields=url"

  /** The tweet object under `data`. */
  datatype Tweet = Tweet(id: string, text: string, createdAt: string)

  /** One entry of `includes.media`; `url` is present for photos only. */
  datatype Media = Media(kind: string, url: Option<string>)

  /** One entry of `includes.users`. */
  datatype User = User(username: string)

  /** The `includes` object; a missing `users` array is represented as an empty one. */
  datatype Includes = Includes(media: Option<seq<Media>>, users: seq<User>)

  /** The JSON body of a tweet-detail reply. */
  datatype DetailBody = DetailBody(errors: Option<seq<string>>, data: Option<Tweet>, includes: Option<Includes>)

  /**
   * A subprocess call the resolver makes. `downloadMedia` receives `dirPath`
   * unchanged and runs its command in `WorkingDirectory(dirPath)`.
   */
  datatype Dispatch =
    | DownloadMedia(dirPath: Option<string>, cmdArgs: string)                // downloadMedia(dirPath, cmdArgs)
    | ChangeMediaInfo(workDir: string, filePath: string, cmdArgs: string)  // changeMediaInfo(workDir, filePath, cmdArgs)

  /** Exceptions that escape the resolver. */
  datatype MediaError =
    | NullResponse         // the transport returned null
    | NoUsers              // `includes.users` has no first element
    | MissingUrl(index: nat) // a media entry met by the photo loop has no `url`

  /** How one tweet was handled. */
  datatype Resolution =
    | NoData                     // "A tweet was found with no data/media"
    | NoMedia                    // "This tweet contains no media to download"
    | VideoQueued
    | PhotosQueued
    | UnsupportedType(kind: string) // "Invalid Type of data"
    | Fault(error: MediaError)

  // ---------------------------------------------------------------------
  // extractTweetLink / extractTweetText

  /** `extractTweetLink`: the text after the last space, or all of it when there is none. */
  function ExtractTweetLink(text: string): (link: string)
    ensures |link| <= |text| && text[|text| - |link|..] == link
    ensures forall j :: 0 <= j < |link| ==> link[j] != ' '
    ensures ' ' !in text ==> link == text
    ensures ' ' in text ==> |link| < |text| && text[|text| - |link| - 1] == ' '
  {
    text[LastIndexOf(text, ' ') + 1..]
  }

  /** `extractTweetText`: the text before the last space, or "" when there is none. */
  function ExtractTweetText(text: string): (prefix: string)
    ensures ' ' !in text ==> prefix == ""
    ensures ' ' in text ==> |prefix| < |text| && text[..|prefix|] == prefix
  {
    var lastSpace := LastIndexOf(text, ' ');
    if lastSpace == -1 then "" else text[..lastSpace]
  }

  /** When the text has a space, the two parts and that space make up the whole text. */
  lemma TextAndLinkSplit(text: string)
    requires ' ' in text
    ensures ExtractTweetText(text) + " " + ExtractTweetLink(text) == text
  {
    var i := LastIndexOf(text, ' ');
    assert text == text[..i] + [text[i]] + text[i + 1..];
  }

  // ---------------------------------------------------------------------
  // Names and command lines, built by concatenation

  /** Each of four concatenated pieces can be cut back out of the whole. */
  lemma FourParts<T>(a: seq<T>, b: seq<T>, c: seq<T>, d: seq<T>)
    ensures var w := a + b + c + d;
            && |w| == |a| + |b| + |c| + |d|
            && w[..|a|] == a && w[|a|..|a| + |b|] == b
            && w[|a| + |b|..|w| - |d|] == c && w[|w| - |d|..] == d
  {
    var w := a + b + c + d;
    assert w[..|a|] == a;
    assert w[|a|..|a| + |b|] == b;
    assert w[|a| + |b|..|w| - |d|] == c;
    assert w[|w| - |d|..] == d;
  }

  /** `downloadMedia` runs in `dirPath`, or in "." when that is null or empty. */
  function WorkingDirectory(dirPath: Option<string>): (dir: string)
    ensures |dir| > 0
    ensures dirPath.None? || dirPath.value == "" ==> dir == "."
    ensures dirPath.Some? && dirPath.value != "" ==> dir == dirPath.value
  {
    if dirPath.None? || dirPath.value == "" then "." else dirPath.value
  }

  /** The request URL for one tweet's detail. */
  function TweetDetailUrl(tweetId: string): string {
    TWEETS_BASE + tweetId + DETAIL_QUERY
  }

  /** The tweet id sits between the tweets endpoint and the query, and can be read back. */
  lemma TweetDetailUrlParts(tweetId: string)
    ensures var url := TweetDetailUrl(tweetId);
            && |url| == |TWEETS_BASE| + |tweetId| + |DETAIL_QUERY|
            && url[..|TWEETS_BASE|] == TWEETS_BASE
            && url[|TWEETS_BASE|..|url| - |DETAIL_QUERY|] == tweetId
            && url[|url| - |DETAIL_QUERY|..] == DETAIL_QUERY
  {
    var url := TweetDetailUrl(tweetId);
    assert url == TWEETS_BASE + tweetId + DETAIL_QUERY;
  }

  /** `<user>_<id>`: the video's file name before the extension yt-dlp picks. */
  function VideoTitle(username: string, tweetId: string): string {
    username + "_" + tweetId
  }

  /** `yt-dlp -o '<user>_<id>.%(ext)s' <link>`. */
  function VideoCommand(username: string, tweetId: string, text: string): string {
    VIDEO_PREFIX + VideoTitle(username, tweetId) + VIDEO_EXTENSION + ExtractTweetLink(text)
  }

  /**
   * The video command names the output template `<user>_<id>` and ends with
   * the link taken from the tweet's text.
   */
  lemma VideoCommandParts(username: string, tweetId: string, text: string)
    ensures var cmd, title, link := VideoCommand(username, tweetId, text), VideoTitle(username, tweetId), ExtractTweetLink(text);
            && |cmd| == |VIDEO_PREFIX| + |title| + |VIDEO_EXTENSION| + |link|
            && cmd[..|VIDEO_PREFIX|] == VIDEO_PREFIX
            && cmd[|VIDEO_PREFIX|..|VIDEO_PREFIX| + |title|] == title == username + "_" + tweetId
            && cmd[|VIDEO_PREFIX| + |title|..|cmd| - |link|] == VIDEO_EXTENSION
            && cmd[|cmd| - |link|..] == link
  {
    FourParts(VIDEO_PREFIX, VideoTitle(username, tweetId), VIDEO_EXTENSION, ExtractTweetLink(text));
  }

  /** `<user>_<id>_<ordinal>.jpg`, with a 1-based ordinal. */
  function PhotoTitle(username: string, tweetId: string, ordinal: nat): string {
    username + "_" + tweetId + "_" + DecimalString(ordinal) + ".jpg"
  }

  /** The photo file name is `<user>_<id>_`, then digits that stand for the ordinal, then `.jpg`. */
  lemma PhotoTitleParts(username: string, tweetId: string, ordinal: nat)
    ensures var title, stem := PhotoTitle(username, tweetId, ordinal), username + "_" + tweetId + "_";
            && |title| > |stem| + 4
            && title[..|stem|] == stem
            && title[|title| - 4..] == ".jpg"
            && (forall i :: |stem| <= i < |title| - 4 ==> '0' <= title[i] <= '9')
            && (|title| - 4 - |stem| > 1 ==> title[|stem|] != '0')
            && DigitsValue(title[|stem|..|title| - 4]) == ordinal
  {
    var title, stem, digits := PhotoTitle(username, tweetId, ordinal), username + "_" + tweetId + "_", DecimalString(ordinal);
    assert title == stem + digits + ".jpg";
    assert title[|stem|..|title| - 4] == digits;
    DecimalStringValue(ordinal);
  }

  /** `wget -O '<title>' -o /dev/null "<url>"`. */
  function WgetCommand(title: string, url: string): string {
    WGET_PREFIX + title + WGET_QUIET + url + "\""
  }

  /** The download writes exactly the file `title`, quietly, from exactly `url`. */
  lemma WgetCommandParts(title: string, url: string)
    ensures var cmd, at := WgetCommand(title, url), |WGET_PREFIX| + |title| + |WGET_QUIET|;
            && |cmd| == at + |url| + 1
            && cmd[..|WGET_PREFIX|] == WGET_PREFIX
            && cmd[|WGET_PREFIX|..|WGET_PREFIX| + |title|] == title
            && cmd[|WGET_PREFIX| + |title|..at] == WGET_QUIET
            && cmd[at..|cmd| - 1] == url
            && cmd[|cmd| - 1] == '"'
  {
    var cmd := WgetCommand(title, url);
    assert cmd == WGET_PREFIX + title + WGET_QUIET + url + "\"";
  }

  /** `exiftool "-FileModifyDate=<created_at>" "./<dirPath>/<title>"`, with a null `dirPath` written as `null`. */
  function ExifCommand(createdAt: string, dirPath: Option<string>, title: string): string {
    EXIF_PREFIX + createdAt + EXIF_FILE + Show(dirPath) + "/" + title + "\""
  }

  /** The stamp sets `FileModifyDate` to `created_at` on the file `./<dirPath>/<title>`. */
  lemma ExifCommandParts(createdAt: string, dirPath: Option<string>, title: string)
    ensures var cmd, at := ExifCommand(createdAt, dirPath, title), |EXIF_PREFIX| + |createdAt| + |EXIF_FILE|;
            && |cmd| == at + |Show(dirPath)| + 1 + |title| + 1
            && cmd[..|EXIF_PREFIX|] == EXIF_PREFIX
            && cmd[|EXIF_PREFIX|..|EXIF_PREFIX| + |createdAt|] == createdAt
            && cmd[|EXIF_PREFIX| + |createdAt|..at] == EXIF_FILE
            && cmd[at..|cmd| - 1] == Show(dirPath) + "/" + title
            && cmd[|cmd| - 1] == '"'
  {
    var cmd := ExifCommand(createdAt, dirPath, title);
    assert cmd == EXIF_PREFIX + createdAt + EXIF_FILE + (Show(dirPath) + "/" + title) + "\"";
  }

  /** The two calls of one iteration of the photo loop, for the entry at `index`. */
  function PhotoDispatches(username: string, tweetId: string, createdAt: string, dirPath: Option<string>,
                           index: nat, url: string): seq<Dispatch>
  {
    var title := PhotoTitle(username, tweetId, index + 1);
    [ DownloadMedia(dirPath, WgetCommand(title, url)),
      ChangeMediaInfo(".", "/" + Show(dirPath) + "/" + title, ExifCommand(createdAt, dirPath, title)) ]
  }

  /** Different ordinals name different photo files: no photo overwrites another of its tweet. */
  lemma PhotoTitlesDistinct(username: string, tweetId: string, i: nat, j: nat)
    requires i != j
    ensures PhotoTitle(username, tweetId, i) != PhotoTitle(username, tweetId, j)
  {
    var p := username + "_" + tweetId + "_";
    var di, dj := DecimalString(i), DecimalString(j);
    if PhotoTitle(username, tweetId, i) == PhotoTitle(username, tweetId, j) {
      var t := PhotoTitle(username, tweetId, i);
      assert t == p + di + ".jpg" == p + dj + ".jpg";
      assert |di| == |dj|;
      assert di == t[|p|..|p| + |di|] == dj;
      DecimalStringInjective(i, j);
    }
  }

  // ---------------------------------------------------------------------
  // The photo loop

  /** The number of leading media entries that have a `url`. */
  function LeadingWithUrl(media: seq<Media>): (n: nat)
    ensures n <= |media|
    ensures forall k :: 0 <= k < n ==> media[k].url.Some?
    ensures n < |media| ==> media[n].url.None?
  {
    if |media| == 0 || media[0].url.None? then 0 else 1 + LeadingWithUrl(media[1..])
  }

  /** The calls of the first `n` iterations of the photo loop. */
  function PhotoPlan(username: string, tweetId: string, createdAt: string, dirPath: Option<string>,
                     media: seq<Media>, n: nat): seq<Dispatch>
    requires n <= LeadingWithUrl(media)
  {
    if n == 0 then []
    else PhotoPlan(username, tweetId, createdAt, dirPath, media, n - 1)
         + PhotoDispatches(username, tweetId, createdAt, dirPath, n - 1, media[n - 1].url.value)
  }

  /**
   * The photo loop (`for index ...`): a `wget` then an `exiftool` call per
   * entry, until an entry without `url` throws.
   */
  method DispatchPhotos(username: string, tweetId: string, createdAt: string, dirPath: Option<string>,
                        media: seq<Media>)
    returns (dispatched: seq<Dispatch>, missing: Option<nat>)
    ensures missing.None? <==> LeadingWithUrl(media) == |media|
    ensures missing.Some? ==> missing.value == LeadingWithUrl(media) && media[missing.value].url.None?
    ensures dispatched == PhotoPlan(username, tweetId, createdAt, dirPath, media, LeadingWithUrl(media))
  {
    dispatched := [];
    for index := 0 to |media|
      invariant forall k :: 0 <= k < index ==> media[k].url.Some?
      invariant index <= LeadingWithUrl(media)
      invariant dispatched == PhotoPlan(username, tweetId, createdAt, dirPath, media, index)
    {
      var mediaObj := media[index];
      if mediaObj.url.None? {
        return dispatched, Some(index);
      }
      dispatched := dispatched + PhotoDispatches(username, tweetId, createdAt, dirPath, index, mediaObj.url.value);
    }
    missing := None;
  }

  /** A slice that lies within the first part of a concatenation is a slice of that part. */
  lemma SliceOfPrefix<T>(a: seq<T>, b: seq<T>, i: nat, j: nat)
    requires i <= j <= |a|
    ensures (a + b)[i..j] == a[i..j]
  {
  }

  /** Iteration `k` contributes calls `2k` and `2k + 1`. */
  lemma {:induction false} PhotoPlanAt(username: string, tweetId: string, createdAt: string, dirPath: Option<string>,
                                       media: seq<Media>, n: nat)
    requires n <= LeadingWithUrl(media)
    ensures var plan := PhotoPlan(username, tweetId, createdAt, dirPath, media, n);
            |plan| == 2 * n &&
            forall k :: 0 <= k < n ==>
              plan[2 * k..2 * k + 2] == PhotoDispatches(username, tweetId, createdAt, dirPath, k, media[k].url.value)
  {
    if n > 0 {
      PhotoPlanAt(username, tweetId, createdAt, dirPath, media, n - 1);
      var prev := PhotoPlan(username, tweetId, createdAt, dirPath, media, n - 1);
      var last := PhotoDispatches(username, tweetId, createdAt, dirPath, n - 1, media[n - 1].url.value);
      var plan := prev + last;
      forall k | 0 <= k < n
        ensures plan[2 * k..2 * k + 2] == PhotoDispatches(username, tweetId, createdAt, dirPath, k, media[k].url.value)
      {
        if k < n - 1 {
          SliceOfPrefix(prev, last, 2 * k, 2 * k + 2);
        } else {
          assert plan[|prev|..] == last;
        }
      }
    }
  }

  /**
   * The two calls of iteration `k`: a `wget` in `dirPath` that writes
   * `<user>_<id>_<k+1>.jpg` from `url`, then an `exiftool` call run in "."
   * that stamps `created_at` on that same file under `dirPath`.
   */
  lemma PhotoDispatchesParts(username: string, tweetId: string, createdAt: string, dirPath: Option<string>,
                             k: nat, url: string)
    ensures var d := PhotoDispatches(username, tweetId, createdAt, dirPath, k, url);
            var title, file := PhotoTitle(username, tweetId, k + 1), Show(dirPath) + "/" + PhotoTitle(username, tweetId, k + 1);
            && |d| == 2 && d[0].DownloadMedia? && d[1].ChangeMediaInfo?
            && d[0].dirPath == dirPath
            && (var wget := d[0].cmdArgs;
                && |wget| == |WGET_PREFIX| + |title| + |WGET_QUIET| + |url| + 1
                && wget[..|WGET_PREFIX|] == WGET_PREFIX
                && wget[|WGET_PREFIX|..|WGET_PREFIX| + |title|] == title
                && wget[|WGET_PREFIX| + |title| + |WGET_QUIET|..|wget| - 1] == url)
            && d[1].workDir == "." && d[1].filePath == "/" + file
            && (var exif := d[1].cmdArgs;
                && |exif| == |EXIF_PREFIX| + |createdAt| + |EXIF_FILE| + |file| + 1
                && exif[..|EXIF_PREFIX|] == EXIF_PREFIX
                && exif[|EXIF_PREFIX|..|EXIF_PREFIX| + |createdAt|] == createdAt
                && exif[|EXIF_PREFIX| + |createdAt| + |EXIF_FILE|..|exif| - 1] == file)
  {
    var title := PhotoTitle(username, tweetId, k + 1);
    WgetCommandParts(title, url);
    ExifCommandParts(createdAt, dirPath, title);
  }

  // ---------------------------------------------------------------------
  // downloadTweetMedia

  /** An error envelope, or a body missing `data` or `includes`. */
  predicate IsErrorEnvelope(body: DetailBody) {
    body.errors.Some? || body.data.None? || body.includes.None?
  }

  /** `includes` has a non-empty `media` array. */
  predicate HasMedia(includes: Includes) {
    includes.media.Some? && |includes.media.value| > 0
  }

  /** The outcome of one tweet-detail reply: what happened, the gate if it ran, the calls made. */
  datatype MediaOutcome = MediaOutcome(resolution: Resolution, gate: Option<Gate>, dispatched: seq<Dispatch>)

  /** What `downloadTweetMedia(HttpResponse, dirPath)` does, read off the reply. */
  function Resolve(reply: Option<Response<DetailBody>>, nowMillis: Int64, dirPath: Option<string>): MediaOutcome {
    if reply.None? then MediaOutcome(Fault(NullResponse), None, [])
    else
      var body := reply.value.body;
      if IsErrorEnvelope(body) then MediaOutcome(NoData, None, [])
      else
        var gate := Some(RateLimitGate(reply.value.headers, nowMillis));
        var tweet, includes := body.data.value, body.includes.value;
        if !HasMedia(includes) then MediaOutcome(NoMedia, gate, [])
        else if |includes.users| == 0 then MediaOutcome(Fault(NoUsers), gate, [])
        else
          var media, username := includes.media.value, includes.users[0].username;
          if media[0].kind == "video" then
            MediaOutcome(VideoQueued, gate, [DownloadMedia(dirPath, VideoCommand(username, tweet.id, tweet.text))])
          else if media[0].kind == "photo" then
            var n := LeadingWithUrl(media);
            MediaOutcome(if n == |media| then PhotosQueued else Fault(MissingUrl(n)), gate,
                         PhotoPlan(username, tweet.id, tweet.createdAt, dirPath, media, n))
          else MediaOutcome(UnsupportedType(media[0].kind), gate, [])
  }

  /**
   * `downloadTweetMedia(HttpResponse, dirPath)`. An exception thrown by the
   * pause is caught and printed, so the gate never stops the resolver.
   */
  method DownloadTweetMedia(reply: Option<Response<DetailBody>>, nowMillis: Int64, dirPath: Option<string>)
    returns (resolution: Resolution, gate: Option<Gate>, dispatched: seq<Dispatch>)
    ensures MediaOutcome(resolution, gate, dispatched) == Resolve(reply, nowMillis, dirPath)
  {
    if reply.None? {
      return Fault(NullResponse), None, [];
    }
    var body := reply.value.body;
    if body.errors.Some? || body.data.None? || body.includes.None? {
      return NoData, None, [];
    }
    var tweetData, additionalData := body.data.value, body.includes.value;
    gate := Some(RateLimitGate(reply.value.headers, nowMillis));
    if additionalData.media.None? || |additionalData.media.value| == 0 {
      return NoMedia, gate, [];
    }
    var mediaArr := additionalData.media.value;
    if |additionalData.users| == 0 {
      return Fault(NoUsers), gate, [];
    }
    var tweetUsername := additionalData.users[0].username;
    var tweetId := tweetData.id;
    if mediaArr[0].kind == "video" {
      dispatched := [DownloadMedia(dirPath, VideoCommand(tweetUsername, tweetId, tweetData.text))];
      resolution := VideoQueued;
    } else if mediaArr[0].kind == "photo" {
      var missing;
      dispatched, missing := DispatchPhotos(tweetUsername, tweetId, tweetData.createdAt, dirPath, mediaArr);
      resolution := if missing.None? then PhotosQueued else Fault(MissingUrl(missing.value));
    } else {
      resolution, dispatched := UnsupportedType(mediaArr[0].kind), [];
    }
  }

  /**
   * `downloadTweetMedia(tweetID, dirPath)`: request the detail, then resolve
   * the reply. A null id, which `main` passes once the input file runs out, is
   * concatenated as `null`.
   */
  method DownloadTweetMediaById(tweetId: Option<string>, reply: Option<Response<DetailBody>>, nowMillis: Int64,
                                dirPath: Option<string>)
    returns (url: string, resolution: Resolution, gate: Option<Gate>, dispatched: seq<Dispatch>)
    ensures tweetId.Some? ==> url == TweetDetailUrl(tweetId.value)
    ensures tweetId.None? ==> url == TweetDetailUrl("null")
    ensures MediaOutcome(resolution, gate, dispatched) == Resolve(reply, nowMillis, dirPath)
  {
    url := TweetDetailUrl(Show(tweetId));
    resolution, gate, dispatched := DownloadTweetMedia(reply, nowMillis, dirPath);
  }

  // ---------------------------------------------------------------------
  // What the resolver promises

  /** An error envelope is skipped before the rate-limit gate and dispatches nothing. */
  lemma ErrorEnvelopeSkipped(reply: Option<Response<DetailBody>>, nowMillis: Int64, dirPath: Option<string>)
    requires reply.Some? && IsErrorEnvelope(reply.value.body)
    ensures Resolve(reply, nowMillis, dirPath) == MediaOutcome(NoData, None, [])
  {
  }

  /** A tweet without media passes the gate, then is skipped. */
  lemma NoMediaSkippedAfterGate(reply: Option<Response<DetailBody>>, nowMillis: Int64, dirPath: Option<string>)
    requires reply.Some? && !IsErrorEnvelope(reply.value.body) && !HasMedia(reply.value.body.includes.value)
    ensures Resolve(reply, nowMillis, dirPath)
            == MediaOutcome(NoMedia, Some(RateLimitGate(reply.value.headers, nowMillis)), [])
  {
  }

  /** The rate-limit gate runs exactly when the reply is not null and not an error envelope. */
  lemma GateRunsUnlessSkipped(reply: Option<Response<DetailBody>>, nowMillis: Int64, dirPath: Option<string>)
    ensures var r := Resolve(reply, nowMillis, dirPath);
            (r.gate.Some? <==> reply.Some? && !IsErrorEnvelope(reply.value.body)) &&
            (r.gate.Some? ==> r.gate.value == RateLimitGate(reply.value.headers, nowMillis))
    ensures Resolve(reply, nowMillis, dirPath).dispatched != [] ==> Resolve(reply, nowMillis, dirPath).gate.Some?
  {
  }

  /** A video tweet gives exactly one `yt-dlp` command, whatever the other entries are. */
  lemma VideoGivesOneCommand(reply: Option<Response<DetailBody>>, nowMillis: Int64, dirPath: Option<string>)
    requires reply.Some? && !IsErrorEnvelope(reply.value.body)
    requires var inc := reply.value.body.includes.value;
             HasMedia(inc) && |inc.users| > 0 && inc.media.value[0].kind == "video"
    ensures var r := Resolve(reply, nowMillis, dirPath);
            var tweet := reply.value.body.data.value;
            var user := reply.value.body.includes.value.users[0].username;
            r.resolution == VideoQueued &&
            r.dispatched == [DownloadMedia(dirPath, VideoCommand(user, tweet.id, tweet.text))]
  {
  }

  /**
   * A photo tweet whose entries all have a `url` gives 2 x |media| calls: for
   * entry `k`, a `wget` to `<user>_<id>_<k+1>.jpg` then an `exiftool` call
   * stamping that file with `created_at`.
   */
  lemma PhotosGiveTwoCommandsEach(reply: Option<Response<DetailBody>>, nowMillis: Int64, dirPath: Option<string>)
    requires reply.Some? && !IsErrorEnvelope(reply.value.body)
    requires var inc := reply.value.body.includes.value;
             HasMedia(inc) && |inc.users| > 0 && inc.media.value[0].kind == "photo" &&
             forall k :: 0 <= k < |inc.media.value| ==> inc.media.value[k].url.Some?
    ensures var r := Resolve(reply, nowMillis, dirPath);
            var tweet := reply.value.body.data.value;
            var inc := reply.value.body.includes.value;
            var media, user := inc.media.value, inc.users[0].username;
            r.resolution == PhotosQueued && |r.dispatched| == 2 * |media| &&
            forall k :: 0 <= k < |media| ==>
              r.dispatched[2 * k..2 * k + 2] == PhotoDispatches(user, tweet.id, tweet.createdAt, dirPath, k, media[k].url.value)
  {
    var inc := reply.value.body.includes.value;
    var media := inc.media.value;
    var tweet := reply.value.body.data.value;
    AllUrlsLeading(media);
    PhotoPlanAt(inc.users[0].username, tweet.id, tweet.createdAt, dirPath, media, |media|);
  }

  /**
   * A photo tweet with an entry lacking `url` (a video or GIF entry) dispatches
   * the calls for the entries before it, then throws.
   */
  lemma PhotoLoopStopsAtMissingUrl(reply: Option<Response<DetailBody>>, nowMillis: Int64, dirPath: Option<string>)
    requires reply.Some? && !IsErrorEnvelope(reply.value.body)
    requires var inc := reply.value.body.includes.value;
             HasMedia(inc) && |inc.users| > 0 && inc.media.value[0].kind == "photo" &&
             LeadingWithUrl(inc.media.value) < |inc.media.value|
    ensures var r := Resolve(reply, nowMillis, dirPath);
            var tweet := reply.value.body.data.value;
            var inc := reply.value.body.includes.value;
            var media, user := inc.media.value, inc.users[0].username;
            var n := LeadingWithUrl(media);
            r.resolution == Fault(MissingUrl(n)) && |r.dispatched| == 2 * n &&
            forall k :: 0 <= k < n ==>
              r.dispatched[2 * k..2 * k + 2] == PhotoDispatches(user, tweet.id, tweet.createdAt, dirPath, k, media[k].url.value)
  {
    var inc := reply.value.body.includes.value;
    var tweet := reply.value.body.data.value;
    PhotoPlanAt(inc.users[0].username, tweet.id, tweet.createdAt, dirPath, inc.media.value, LeadingWithUrl(inc.media.value));
  }

  /**
   * The rate-limit headers and the clock never change what is resolved or
   * dispatched: an exception from the pause is caught and printed.
   */
  lemma GatesDoNotAffectResolution(reply1: Option<Response<DetailBody>>, reply2: Option<Response<DetailBody>>,
                                   now1: Int64, now2: Int64, dirPath: Option<string>)
    requires reply1.Some? == reply2.Some?
    requires reply1.Some? ==> reply1.value.body == reply2.value.body
    ensures Resolve(reply1, now1, dirPath).resolution == Resolve(reply2, now2, dirPath).resolution
    ensures Resolve(reply1, now1, dirPath).dispatched == Resolve(reply2, now2, dirPath).dispatched
  {
  }

  /** Any other type of the first entry is reported and nothing is dispatched. */
  lemma OtherTypeDispatchesNothing(reply: Option<Response<DetailBody>>, nowMillis: Int64, dirPath: Option<string>)
    requires reply.Some? && !IsErrorEnvelope(reply.value.body)
    requires var inc := reply.value.body.includes.value;
             HasMedia(inc) && |inc.users| > 0 &&
             inc.media.value[0].kind != "video" && inc.media.value[0].kind != "photo"
    ensures Resolve(reply, nowMillis, dirPath).resolution == UnsupportedType(reply.value.body.includes.value.media.value[0].kind)
    ensures Resolve(reply, nowMillis, dirPath).dispatched == []
  {
  }

  /** The photo files a tweet's `wget` calls write are pairwise distinct. */
  lemma PhotoDownloadsDistinct(username: string, tweetId: string, createdAt: string, dirPath: Option<string>,
                               media: seq<Media>, n: nat, i: nat, j: nat)
    requires n <= LeadingWithUrl(media) && i < n && j < n && i != j
    ensures var plan := PhotoPlan(username, tweetId, createdAt, dirPath, media, n);
            |plan| == 2 * n &&
            plan[2 * i] == DownloadMedia(dirPath, WgetCommand(PhotoTitle(username, tweetId, i + 1), media[i].url.value)) &&
            plan[2 * j] == DownloadMedia(dirPath, WgetCommand(PhotoTitle(username, tweetId, j + 1), media[j].url.value)) &&
            PhotoTitle(username, tweetId, i + 1) != PhotoTitle(username, tweetId, j + 1)
  {
    var plan := PhotoPlan(username, tweetId, createdAt, dirPath, media, n);
    PhotoPlanAt(username, tweetId, createdAt, dirPath, media, n);
    assert plan[2 * i] == plan[2 * i..2 * i + 2][0];
    assert plan[2 * j] == plan[2 * j..2 * j + 2][0];
    PhotoTitlesDistinct(username, tweetId, i + 1, j + 1);
  }

  /** When every entry has a `url`, the photo loop runs to the end. */
  lemma {:induction false} AllUrlsLeading(media: seq<Media>)
    requires forall k :: 0 <= k < |media| ==> media[k].url.Some?
    ensures LeadingWithUrl(media) == |media|
  {
    if |media| > 0 {
      assert media[0].url.Some?;
      forall k | 0 <= k < |media| - 1 ensures media[1..][k].url.Some? {
        assert media[1..][k] == media[k + 1];
      }
      AllUrlsLeading(media[1..]);
    }
  }
}
