/** `AuthGuard`: reading an `Authorization: Bearer <token>` header (section 2.1 of
    RFC 6750, with the scheme name matched exactly, not case-insensitively) and deciding
    whether a request may reach its handler. Verifying the JWT is a library call; the guard
    receives it as a function from a token to its decoded claims, `None` when the token is
    rejected. */
module AuthGuards {
  import opened Common
  import opened Text

  /** The claims of a decoded access token. */
  type Payload = map<string, string>

  const BearerScheme := "Bearer"
  const BearerPrefix := "Bearer "
  const InvalidToken := "Invalid Token!"
  /** The message of an `UnauthorizedException` built without arguments. */
  const DefaultUnauthorized := "Unauthorized"

  /** The first two parts of a split string sit at its start, separated by `c` and followed
      by the end of the string or by another `c`; a single part is the whole string. */
  lemma SplitLayout(s: string, c: char)
    ensures var parts := Split(s, c);
            && (|parts| == 1 ==> s == parts[0])
            && (|parts| >= 2 ==>
                  && StartsWith(s, parts[0] + [c] + parts[1])
                  && (|s| == |parts[0]| + 1 + |parts[1]| || s[|parts[0]| + 1 + |parts[1]|] == c))
  {
    var parts := Split(s, c);
    JoinSplit(s, c);
    if |parts| >= 2 {
      var tail := parts[1..];
      assert s == parts[0] + [c] + Join(tail, c);
      if |tail| == 1 {
        assert s == parts[0] + [c] + parts[1];
      } else {
        assert Join(tail, c) == parts[1] + [c] + Join(tail[1..], c);
        assert s == (parts[0] + [c] + parts[1]) + ([c] + Join(tail[1..], c));
      }
    }
  }

  /** The first part is exactly `Bearer` and a second part exists just when the string
      starts with `Bearer `. */
  lemma BearerSchemeFirst(s: string)
    ensures var parts := Split(s, ' ');
            parts[0] == BearerScheme && |parts| >= 2 <==> StartsWith(s, BearerPrefix)
  {
    var parts := Split(s, ' ');
    SplitLayout(s, ' ');
    if StartsWith(s, BearerPrefix) {
      assert s == BearerScheme + [' '] + s[|BearerPrefix|..];
      SplitAtFirst(BearerScheme, ' ', s[|BearerPrefix|..]);
    }
  }

  /** `extractTokenFromHeader`: split the header on spaces and return the second part when
      the first is exactly `Bearer`. A token is found exactly when the header starts with
      `Bearer ` and then it is the run of non-space characters that follows. */
  function ExtractToken(header: Option<string>): (token: Option<string>)
    ensures token.Some? <==> header.Some? && StartsWith(header.value, BearerPrefix)
    ensures token.Some? ==>
      && ' ' !in token.value
      && StartsWith(header.value, BearerPrefix + token.value)
      && (|header.value| == |BearerPrefix + token.value| || header.value[|BearerPrefix + token.value|] == ' ')
  {
    if header.None? then None
    else
      var parts := Split(header.value, ' ');
      SplitLayout(header.value, ' ');
      BearerSchemeFirst(header.value);
      if parts[0] == BearerScheme && |parts| >= 2 then Some(parts[1]) else None
  }

  /** Conversely, `Bearer `, a space-free token and then nothing or a space-led rest gives
      back exactly that token. */
  lemma BearerTokenRoundTrip(token: string, rest: string)
    requires ' ' !in token
    requires rest == "" || rest[0] == ' '
    ensures ExtractToken(Some(BearerPrefix + token + rest)) == Some(token)
  {
    var header := BearerPrefix + token + rest;
    assert header == BearerScheme + [' '] + (token + rest);
    SplitAtFirst(BearerScheme, ' ', token + rest);
    if rest == "" {
      assert token + rest == token;
      SplitWithoutSeparator(token, ' ');
    } else {
      assert token + rest == token + [' '] + rest[1..];
      SplitAtFirst(token, ' ', rest[1..]);
    }
    assert Split(header, ' ')[1] == token;
  }

  /** No header, a header that is only the scheme name, and any other spelling of the
      scheme all yield no token. */
  lemma NoTokenCases(token: string)
    ensures ExtractToken(None) == None
    ensures ExtractToken(Some(BearerScheme)) == None
    ensures ExtractToken(Some("bearer " + token)) == None
    ensures ExtractToken(Some("BEARER " + token)) == None
  {
    assert ("bearer " + token)[0] != BearerPrefix[0];
    assert ("BEARER " + token)[1] != BearerPrefix[1];
  }

  /** The incoming request, with the slot `canActivate` fills with the decoded token. */
  class Request {
    const authorization: Option<string>
    var decodedToken: Option<Payload>

    constructor (authorization: Option<string>)
      ensures this.authorization == authorization && decodedToken == None
    {
      this.authorization := authorization;
      decodedToken := None;
    }
  }

  class AuthGuard {
    const verify: string -> Option<Payload>

    constructor (verify: string -> Option<Payload>)
      ensures this.verify == verify
    {
      this.verify := verify;
    }

    /** `canActivate`: a route that is not public needs a token; a token that is present
        must verify, even on a public route; a verified token's claims are stored on the
        request, a rejected one clears the slot. */
    method CanActivate(isPublic: bool, request: Request) returns (r: Result<bool>)
      modifies request
      ensures var token := ExtractToken(request.authorization);
              r.Ok? <==> (if IsTruthy(token) then verify(token.value).Some? else isPublic)
      ensures r.Ok? ==> r.value
      ensures var token := ExtractToken(request.authorization);
              !IsTruthy(token) ==>
                && unchanged(request)
                && (!isPublic ==> r == Err(Unauthorized(DefaultUnauthorized)))
      ensures var token := ExtractToken(request.authorization);
              IsTruthy(token) ==>
                && request.decodedToken == verify(token.value)
                && (verify(token.value).None? ==> r == Err(Unauthorized(InvalidToken)))
    {
      var token := ExtractToken(request.authorization);
      if !IsTruthy(token) && !isPublic {
        return Err(Unauthorized(DefaultUnauthorized));
      }
      if IsTruthy(token) {
        var payload := verify(token.value);
        if payload.None? {
          request.decodedToken := None;
          return Err(Unauthorized(InvalidToken));
        }
        request.decodedToken := payload;
      }
      r := Ok(true);
    }
  }
}
