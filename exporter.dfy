/**
 * The exporter's configuration: the `Authorization` header value and the id of
 * the user whose liked tweets are crawled. Both are fixed by the constructor,
 * which rejects a missing, empty or all-whitespace bearer token or user id.
 */
module Exporter {
  import opened Wrappers
  import opened JavaLang

  const BEARER_PREFIX: string := "Bearer "

  datatype Exporter = Exporter(bearerHeaderValue: string, userId: string)

  /** The string has a character outside `\s`: independent of how the constructor tests it. */
  predicate HasVisibleChar(s: string) {
    exists i :: 0 <= i < |s| && !IsRegexSpace(s[i])
  }

  /** The constructor's test for one argument: not null, not empty, not `\s+`. */
  predicate IsValidArgument(s: Option<string>) {
    !(s.None? || |s.value| == 0 || MatchesWhitespaceRun(s.value))
  }

  /** An argument is accepted exactly when it is non-null and has a visible character. */
  lemma ValidArgumentIffVisible(s: Option<string>)
    ensures IsValidArgument(s) <==> s.Some? && HasVisibleChar(s.value)
  {
    if s.Some? && |s.value| > 0 && !MatchesWhitespaceRun(s.value) {
      var i :| 0 <= i < |s.value| && !IsRegexSpace(s.value[i]);
      assert HasVisibleChar(s.value);
    }
  }

  /**
   * `new UranusExporter(userID, bearerToken)`. The token is checked first, so
   * when both arguments are bad the token's exception is the one thrown.
   */
  function New(userId: Option<string>, bearerToken: Option<string>): (r: Result<Exporter, string>)
    ensures r.Ok? <==> bearerToken.Some? && HasVisibleChar(bearerToken.value)
                       && userId.Some? && HasVisibleChar(userId.value)
    ensures r.Ok? ==> r.value.bearerHeaderValue == BEARER_PREFIX + bearerToken.value
                      && r.value.userId == userId.value
    ensures !(bearerToken.Some? && HasVisibleChar(bearerToken.value)) ==>
              r == Err("The bearer token is not valid: " + Show(bearerToken))
    ensures bearerToken.Some? && HasVisibleChar(bearerToken.value) && !(userId.Some? && HasVisibleChar(userId.value)) ==>
              r == Err("The user id is not valid: " + Show(userId))
  {
    ValidArgumentIffVisible(bearerToken);
    ValidArgumentIffVisible(userId);
    if !IsValidArgument(bearerToken) then
      Err("The bearer token is not valid: " + Show(bearerToken))
    else if !IsValidArgument(userId) then
      Err("The user id is not valid: " + Show(userId))
    else
      Ok(Exporter(BEARER_PREFIX + bearerToken.value, userId.value))
  }

  /** The token can be read back from the header value the constructor builds. */
  lemma HeaderRoundTrip(userId: Option<string>, bearerToken: Option<string>)
    requires New(userId, bearerToken).Ok?
    ensures var h := New(userId, bearerToken).value.bearerHeaderValue;
            h[..|BEARER_PREFIX|] == BEARER_PREFIX && h[|BEARER_PREFIX|..] == bearerToken.value
  {
    var h := New(userId, bearerToken).value.bearerHeaderValue;
    assert h == BEARER_PREFIX + bearerToken.value;
  }
}
