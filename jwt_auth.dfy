/**
 * The JSON Web Token helpers: the claims of access and refresh tokens, the
 * decode wrapper that turns every decoding failure into None, and the
 * `token_required` guard with its ordered chain of checks.  Signing and
 * signature checking are the `encode`/`decode` parameters.
 */
module JwtAuth {
  import opened Wrappers
  import opened Strings
  import opened Models

  datatype Claim = IntClaim(n: int) | StrClaim(s: string)

  type Payload = map<string, Claim>

  const AccessLifetime := 24 * 60 * 60
  const RefreshLifetime := 30 * 24 * 60 * 60

  /**
   * Access token claims.  `localClock` is `datetime.now()` as seconds of the
   * local wall clock; the encoder reads a naive datetime as UTC, so this is
   * the number stored in `iat`, and `exp` lies 24 hours after it.
   */
  function AccessPayload(userId: int, email: string, localClock: int): (p: Payload)
    ensures p.Keys == {"user_id", "email", "exp", "iat", "type"}
    ensures p["type"] == StrClaim("access") && p["iat"] == IntClaim(localClock)
    ensures p["exp"].IntClaim? && p["exp"].n - localClock == AccessLifetime
  {
    map["user_id" := IntClaim(userId), "email" := StrClaim(email),
        "exp" := IntClaim(localClock + AccessLifetime), "iat" := IntClaim(localClock),
        "type" := StrClaim("access")]
  }

  /** Refresh token claims, from `datetime.utcnow()`: `exp` lies 30 days after it. */
  function RefreshPayload(userId: int, email: string, utcClock: int): (p: Payload)
    ensures p.Keys == {"user_id", "email", "exp", "iat", "type"}
    ensures p["type"] == StrClaim("refresh") && p["iat"] == IntClaim(utcClock)
    ensures p["exp"].IntClaim? && p["exp"].n - utcClock == RefreshLifetime
  {
    map["user_id" := IntClaim(userId), "email" := StrClaim(email),
        "exp" := IntClaim(utcClock + RefreshLifetime), "iat" := IntClaim(utcClock),
        "type" := StrClaim("refresh")]
  }

  /** `generate_access_token`: the signed access claims. */
  function GenerateAccessToken(userId: int, email: string, localClock: int, secretKey: string,
                               encode: (Payload, string) -> string): string {
    encode(AccessPayload(userId, email, localClock), secretKey)
  }

  /** `generate_refresh_token`: the signed refresh claims. */
  function GenerateRefreshToken(userId: int, email: string, utcClock: int, secretKey: string,
                                encode: (Payload, string) -> string): string {
    encode(RefreshPayload(userId, email, utcClock), secretKey)
  }

  /**
   * Both kinds of token carry the given user and e-mail.  Measured against
   * UTC, a refresh token lives 30 days, but an access token lives 24 hours
   * plus the server's offset from UTC, because its clock is the local one.
   */
  lemma TokenLifetimes(userId: int, email: string, utcNow: int, utcOffset: int)
    ensures var a := AccessPayload(userId, email, utcNow + utcOffset);
      && a["user_id"] == IntClaim(userId) && a["email"] == StrClaim(email) && a["type"] == StrClaim("access")
      && a["exp"].n - utcNow == AccessLifetime + utcOffset
    ensures var r := RefreshPayload(userId, email, utcNow);
      && r["user_id"] == IntClaim(userId) && r["email"] == StrClaim(email) && r["type"] == StrClaim("refresh")
      && r["exp"].n - utcNow == RefreshLifetime
  {
  }

  /** What the library's decoder does with a token. */
  datatype DecodeResult = Decoded(payload: Payload) | ExpiredSignature | InvalidToken

  /** `decode_token`: the claims, or None for an expired or otherwise invalid token. */
  function DecodeToken(token: string, secretKey: string, decode: (string, string) -> DecodeResult): (r: Option<Payload>)
    ensures r.Some? <==> decode(token, secretKey).Decoded?
    ensures r.Some? ==> r.value == decode(token, secretKey).payload
  {
    match decode(token, secretKey)
    case Decoded(p) => Some(p)
    case ExpiredSignature => None
    case InvalidToken => None
  }

  // ---------------------------------------------------------------------
  // The guard
  // ---------------------------------------------------------------------

  /** `header.split(" ")[1]`, or None where the index is out of range. */
  function HeaderToken(header: string): (r: Option<string>)
    ensures r.None? <==> ' ' !in header
    ensures r.Some? ==> ' ' !in r.value
  {
    var parts := Split(header, ' ');
    CountPositive(header, ' ');
    if |parts| >= 2 then Some(parts[1]) else None
  }

  /** Where the guard's token comes from. */
  datatype TokenSource = BadFormat | NoToken | Token(token: string)

  /** The header first; the cookie when there was no header or its token was empty. */
  function ChooseToken(headers: map<string, string>, cookies: map<string, string>): (r: TokenSource)
    ensures r == BadFormat <==> "Authorization" in headers && ' ' !in headers["Authorization"]
    ensures r.Token? ==> (r.token != "" &&
      (("Authorization" in headers && HeaderToken(headers["Authorization"]) == Some(r.token)) ||
       ("access_token" in cookies && cookies["access_token"] == r.token)))
    ensures r == NoToken ==> "access_token" !in cookies || cookies["access_token"] == ""
  {
    if "Authorization" in headers && HeaderToken(headers["Authorization"]).None? then BadFormat
    else
      var fromHeader := if "Authorization" in headers then HeaderToken(headers["Authorization"]).value else "";
      var token := if fromHeader == "" && "access_token" in cookies then cookies["access_token"] else fromHeader;
      if token == "" then NoToken else Token(token)
  }

  datatype GuardOutcome =
    | FormatInvalid            // 401 "Token format invalid"
    | TokenMissing             // 401 "Token is missing"
    | TokenInvalidOrExpired    // 401
    | InvalidTokenType         // 401
    | MissingUserIdClaim       // `payload['user_id']` raises KeyError: a server error
    | UserNotFound             // 401
    | Granted(user: User)

  /** Users are looked up by an integer claim; a claim of another kind matches nobody. */
  function ClaimedUser(users: seq<User>, claim: Claim): (r: Option<User>)
    ensures r.Some? ==> r.value in users && claim == IntClaim(r.value.id)
    ensures r.None? <==> claim.StrClaim? || !HasUser(users, claim.n)
  {
    match claim
    case IntClaim(id) => FindUserById(users, id)
    case StrClaim(_) => None
  }

  /** The ordered chain of checks of `token_required`. */
  function TokenDecision(headers: map<string, string>, cookies: map<string, string>, secretKey: string,
                         decode: (string, string) -> DecodeResult, users: seq<User>): (r: GuardOutcome)
    ensures r == FormatInvalid <==> ChooseToken(headers, cookies) == BadFormat
    ensures r == TokenMissing <==> ChooseToken(headers, cookies) == NoToken
    ensures r == TokenInvalidOrExpired <==> (ChooseToken(headers, cookies).Token? &&
      (!decode(ChooseToken(headers, cookies).token, secretKey).Decoded? ||
       |decode(ChooseToken(headers, cookies).token, secretKey).payload| == 0))
    ensures r.Granted? ==> r.user in users
  {
    match ChooseToken(headers, cookies)
    case BadFormat => FormatInvalid
    case NoToken => TokenMissing
    case Token(t) =>
      match DecodeToken(t, secretKey, decode)
      case None => TokenInvalidOrExpired
      case Some(p) =>
        if |p| == 0 then TokenInvalidOrExpired
        else if !("type" in p && p["type"] == StrClaim("access")) then InvalidTokenType
        else if "user_id" !in p then MissingUserIdClaim
        else match ClaimedUser(users, p["user_id"])
          case None => UserNotFound
          case Some(u) => Granted(u)
  }

  /** The request as the guard leaves it. */
  class ApiRequest {
    var currentUser: Option<User>
    var handlerCalls: nat

    constructor ()
      ensures currentUser == None && handlerCalls == 0
    {
      currentUser := None;
      handlerCalls := 0;
    }

    /**
     * `token_required`: on success `current_user` is the claimed user and
     * the handler runs once; on every refusal neither happens.
     */
    method TokenRequired(headers: map<string, string>, cookies: map<string, string>, secretKey: string,
                         decode: (string, string) -> DecodeResult, users: seq<User>)
      returns (outcome: GuardOutcome)
      modifies this
      ensures outcome == TokenDecision(headers, cookies, secretKey, decode, users)
      ensures outcome.Granted? ==> currentUser == Some(outcome.user) && handlerCalls == old(handlerCalls) + 1
      ensures !outcome.Granted? ==> currentUser == old(currentUser) && handlerCalls == old(handlerCalls)
    {
      var token := "";
      if "Authorization" in headers {
        var h := HeaderToken(headers["Authorization"]);
        if h.None? {
          return FormatInvalid;
        }
        token := h.value;
      }
      if token == "" && "access_token" in cookies {
        token := cookies["access_token"];
      }
      if token == "" {
        return TokenMissing;
      }
      var payload := DecodeToken(token, secretKey, decode);
      if payload.None? || |payload.value| == 0 {
        return TokenInvalidOrExpired;
      }
      var p := payload.value;
      if !("type" in p && p["type"] == StrClaim("access")) {
        return InvalidTokenType;
      }
      if "user_id" !in p {
        return MissingUserIdClaim;
      }
      var user := ClaimedUser(users, p["user_id"]);
      if user.None? {
        return UserNotFound;
      }
      currentUser := user;
      handlerCalls := handlerCalls + 1;
      return Granted(user.value);
    }
  }

  // ---------------------------------------------------------------------
  // What the chain guarantees
  // ---------------------------------------------------------------------

  /** Access is granted only for a decodable access token naming an existing user. */
  lemma GrantedOnlyForAccessTokens(headers: map<string, string>, cookies: map<string, string>, secretKey: string,
                                   decode: (string, string) -> DecodeResult, users: seq<User>, u: User)
    requires TokenDecision(headers, cookies, secretKey, decode, users) == Granted(u)
    ensures ChooseToken(headers, cookies).Token?
    ensures var r := decode(ChooseToken(headers, cookies).token, secretKey);
      && r.Decoded? && "type" in r.payload && r.payload["type"] == StrClaim("access")
      && "user_id" in r.payload && r.payload["user_id"] == IntClaim(u.id)
    ensures u in users
  {
  }

  /** A refresh token never passes the guard, whatever else holds. */
  lemma RefreshTokenRefused(headers: map<string, string>, cookies: map<string, string>, secretKey: string,
                            decode: (string, string) -> DecodeResult, users: seq<User>,
                            userId: int, email: string, utcClock: int)
    requires ChooseToken(headers, cookies).Token?
    requires decode(ChooseToken(headers, cookies).token, secretKey) == Decoded(RefreshPayload(userId, email, utcClock))
    ensures TokenDecision(headers, cookies, secretKey, decode, users) == InvalidTokenType
  {
  }

  /** A current access token of a registered user grants access as that user. */
  lemma AccessTokenGranted(headers: map<string, string>, cookies: map<string, string>, secretKey: string,
                           decode: (string, string) -> DecodeResult, users: seq<User>,
                           i: int, localClock: int)
    requires UniqueUserIds(users) && 0 <= i < |users|
    requires ChooseToken(headers, cookies).Token?
    requires decode(ChooseToken(headers, cookies).token, secretKey) ==
      Decoded(AccessPayload(users[i].id, users[i].email, localClock))
    ensures TokenDecision(headers, cookies, secretKey, decode, users) == Granted(users[i])
  {
    FindUserByIdUnique(users, i);
    var p := AccessPayload(users[i].id, users[i].email, localClock);
    assert "type" in p && |p| > 0;
  }

  /**
   * A token from `generate_access_token` for a registered user, sent as
   * `Bearer <token>`, grants access as that user once the decoder gives
   * back the claims the encoder signed.
   */
  lemma GeneratedAccessTokenGranted(users: seq<User>, i: int, localClock: int, secretKey: string,
                                    encode: (Payload, string) -> string,
                                    decode: (string, string) -> DecodeResult,
                                    cookies: map<string, string>)
    requires UniqueUserIds(users) && 0 <= i < |users|
    requires var t := GenerateAccessToken(users[i].id, users[i].email, localClock, secretKey, encode);
      t != "" && ' ' !in t &&
      decode(t, secretKey) == Decoded(AccessPayload(users[i].id, users[i].email, localClock))
    ensures var t := GenerateAccessToken(users[i].id, users[i].email, localClock, secretKey, encode);
      TokenDecision(map["Authorization" := "Bearer " + t], cookies, secretKey, decode, users) == Granted(users[i])
  {
    var t := GenerateAccessToken(users[i].id, users[i].email, localClock, secretKey, encode);
    var headers := map["Authorization" := "Bearer " + t];
    HeaderTokenOf("Bearer", t, "");
    assert "Bearer" + " " + t + "" == "Bearer " + t;
    assert headers["Authorization"] == "Bearer " + t;
    assert HeaderToken(headers["Authorization"]) == Some(t);
    assert ChooseToken(headers, cookies) == Token(t);
    AccessTokenGranted(headers, cookies, secretKey, decode, users, i, localClock);
  }

  /** A token from `generate_refresh_token`, sent the same way, is refused as the wrong type. */
  lemma GeneratedRefreshTokenRefused(users: seq<User>, userId: int, email: string, utcClock: int,
                                     secretKey: string, encode: (Payload, string) -> string,
                                     decode: (string, string) -> DecodeResult,
                                     cookies: map<string, string>)
    requires var t := GenerateRefreshToken(userId, email, utcClock, secretKey, encode);
      t != "" && ' ' !in t && decode(t, secretKey) == Decoded(RefreshPayload(userId, email, utcClock))
    ensures var t := GenerateRefreshToken(userId, email, utcClock, secretKey, encode);
      TokenDecision(map["Authorization" := "Bearer " + t], cookies, secretKey, decode, users) == InvalidTokenType
  {
    var t := GenerateRefreshToken(userId, email, utcClock, secretKey, encode);
    var headers := map["Authorization" := "Bearer " + t];
    HeaderTokenOf("Bearer", t, "");
    assert "Bearer" + " " + t + "" == "Bearer " + t;
    assert headers["Authorization"] == "Bearer " + t;
    assert HeaderToken(headers["Authorization"]) == Some(t);
    assert ChooseToken(headers, cookies) == Token(t);
    RefreshTokenRefused(headers, cookies, secretKey, decode, users, userId, email, utcClock);
  }

  /** The token is the second space-separated word: the scheme word before it is not looked at. */
  lemma {:induction false} HeaderTokenOf(scheme: string, token: string, rest: string)
    requires ' ' !in scheme && ' ' !in token
    requires rest == "" || rest[0] == ' '
    ensures HeaderToken(scheme + " " + token + rest) == Some(token)
  {
    assert scheme + " " + token + rest == scheme + [' '] + (token + rest);
    SplitAfterField(scheme, token + rest, ' ');
    if rest == "" {
      assert token + rest == token;
      SplitNoSeparator(token, ' ');
    } else {
      assert token + rest == token + [' '] + rest[1..];
      SplitAfterField(token, rest[1..], ' ');
    }
  }

  /** A header without a space is refused as malformed even when a cookie holds a token. */
  lemma HeaderWithoutSpaceRefused(headers: map<string, string>, cookies: map<string, string>, secretKey: string,
                                  decode: (string, string) -> DecodeResult, users: seq<User>)
    requires "Authorization" in headers && ' ' !in headers["Authorization"]
    ensures TokenDecision(headers, cookies, secretKey, decode, users) == FormatInvalid
  {
  }

  /** The cookie is read when there is no header, or when the header's token is empty. */
  lemma CookieFallback(headers: map<string, string>, cookies: map<string, string>)
    requires "access_token" in cookies && cookies["access_token"] != ""
    requires "Authorization" !in headers || HeaderToken(headers["Authorization"]) == Some("")
    ensures ChooseToken(headers, cookies) == Token(cookies["access_token"])
  {
  }

  /** The header wins over the cookie when it carries a token. */
  lemma HeaderBeatsCookie(headers: map<string, string>, cookies: map<string, string>)
    requires "Authorization" in headers
    requires HeaderToken(headers["Authorization"]).Some? && HeaderToken(headers["Authorization"]).value != ""
    ensures ChooseToken(headers, cookies) == Token(HeaderToken(headers["Authorization"]).value)
  {
  }

  /** With neither header nor cookie token the answer is "missing". */
  lemma NoTokenMissing(headers: map<string, string>, cookies: map<string, string>, secretKey: string,
                       decode: (string, string) -> DecodeResult, users: seq<User>)
    requires "Authorization" !in headers
    requires "access_token" !in cookies || cookies["access_token"] == ""
    ensures TokenDecision(headers, cookies, secretKey, decode, users) == TokenMissing
  {
  }
}
