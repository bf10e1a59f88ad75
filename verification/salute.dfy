/** The SaluteSpeech client: its credential state, the OAuth token refresh and
    the classification of text-to-speech and speech-to-text replies.

    The package keeps its credentials in globals without a lock; the model
    threads them through as a `Credentials` value, one call after another. The
    clock and every HTTP exchange are parameters: `now` is Unix time in
    milliseconds, and a reply stands for what the server sent back. */
module Salute {

  import opened Basics
  import Utf8

  /** The package globals `bearerToken`, `voiceName`, `authKey`, `tokenExpiresAt`. */
  datatype Credentials = Credentials(
    bearerToken: string,
    voiceName: string,
    authKey: string,
    tokenExpiresAt: int)

  /** Go's zero values, before `InitTTS` runs. */
  const Unset := Credentials("", "", "", 0)

  const DefaultVoice := "Nec_24000"

  /** Keys shorter than this many bytes are authorization keys. */
  const AuthKeyLimit := 500

  /** A token is renewed once fewer than this many milliseconds remain. */
  const RefreshMargin := 60000

  // ---------------------------------------------------------------------------
  // Token refresh
  // ---------------------------------------------------------------------------

  /** The decoded body of a successful OAuth reply. */
  datatype TokenResponse = TokenResponse(accessToken: string, expiresAt: int)

  /** What the OAuth endpoint did: no response at all, or a status, a body and
      the outcome of decoding that body as a token (`None` when it is not one). */
  datatype OAuthReply =
    | OAuthUnreachable
    | OAuthResponse(status: int, body: string, token: Option<TokenResponse>)

  datatype RefreshError =
    | RefreshRequestFailed
    | RefreshStatus(status: int, body: string)
    | RefreshUndecodable

  /** `refreshToken`: the new token and its expiry are committed only when the
      endpoint answers 200 with a decodable body; every failure leaves the
      credentials as they were. */
  function RefreshToken(c: Credentials, reply: OAuthReply): (r: (Credentials, Option<RefreshError>))
    ensures r.1.None? <==> reply.OAuthResponse? && reply.status == 200 && reply.token.Some?
    ensures r.1.Some? ==> r.0 == c
    ensures r.1.None? ==> && r.0.bearerToken == reply.token.value.accessToken
                          && r.0.tokenExpiresAt == reply.token.value.expiresAt
    ensures r.0.voiceName == c.voiceName && r.0.authKey == c.authKey
    ensures reply.OAuthResponse? && reply.status != 200 ==> r.1 == Some(RefreshStatus(reply.status, reply.body))
  {
    match reply
    case OAuthUnreachable => (c, Some(RefreshRequestFailed))
    case OAuthResponse(status, body, token) =>
      if status != 200 then (c, Some(RefreshStatus(status, body)))
      else match token
        case None => (c, Some(RefreshUndecodable))
        case Some(t) => (c.(bearerToken := t.accessToken, tokenExpiresAt := t.expiresAt), None)
  }

  /** The token is missing or ends within the refresh margin. */
  predicate TokenStale(c: Credentials, now: int)
  {
    c.tokenExpiresAt <= 0 || now >= c.tokenExpiresAt - RefreshMargin
  }

  /** `ensureValidToken` at time `now`, with `reply` the OAuth reply a refresh
      would get. The third component tells whether a refresh was attempted. */
  function EnsureValidToken(c: Credentials, now: int, reply: OAuthReply)
    : (r: (Credentials, Option<RefreshError>, bool))
    ensures r.2 <==> c.authKey != [] && TokenStale(c, now)
    ensures !r.2 ==> r.0 == c && r.1.None?
    ensures r.2 ==> (r.0, r.1) == RefreshToken(c, reply)
  {
    if c.authKey == [] then (c, None, false)
    else if c.tokenExpiresAt > 0 && now < c.tokenExpiresAt - RefreshMargin then (c, None, false)
    else
      var (c', err) := RefreshToken(c, reply);
      (c', err, true)
  }

  /** A token just obtained that lives past the margin is not refreshed again
      before the margin is reached. */
  lemma FreshTokenIsKept(c: Credentials, reply: OAuthReply, now: int, later: OAuthReply)
    requires RefreshToken(c, reply).1.None?
    requires 0 < now < reply.token.value.expiresAt - RefreshMargin
    ensures var c' := RefreshToken(c, reply).0;
            EnsureValidToken(c', now, later) == (c', None, false)
  {
  }

  // ---------------------------------------------------------------------------
  // Initialisation
  // ---------------------------------------------------------------------------

  datatype InitError = MissingApiKey | FirstTokenFailed(cause: RefreshError)

  /** A key of fewer than 500 bytes is an authorization key. */
  predicate IsAuthKey(apiKey: string)
  {
    |Utf8.Encode(apiKey)| < AuthKeyLimit
  }

  /** `InitTTS` with `apiKey` and `voiceEnv` the values of `SALUTE_API_KEY` and
      `SALUTE_VOICE`, and `reply` the answer to the first refresh (asked for
      only when the key is an authorization key). */
  function InitTTS(c: Credentials, apiKey: string, voiceEnv: string, reply: OAuthReply)
    : (r: (Credentials, Option<InitError>))
    ensures apiKey == [] ==> r == (c, Some(MissingApiKey))
    ensures apiKey != [] && IsAuthKey(apiKey) ==>
              && r.0.authKey == apiKey
              && (r.1.None? <==> RefreshToken(c, reply).1.None?)
              && (r.1.Some? ==> r.1 == Some(FirstTokenFailed(RefreshToken(c, reply).1.value))
                                && r.0 == c.(authKey := apiKey))
              && (r.1.None? ==> r.0.bearerToken == reply.token.value.accessToken
                                && r.0.tokenExpiresAt == reply.token.value.expiresAt)
    ensures apiKey != [] && !IsAuthKey(apiKey) ==>
              && r.1.None?
              && r.0.bearerToken == apiKey
              && r.0.authKey == c.authKey
              && r.0.tokenExpiresAt == c.tokenExpiresAt
    ensures r.1.None? ==> r.0.voiceName == (if voiceEnv == [] then DefaultVoice else voiceEnv)
    ensures r.1.Some? ==> r.0.voiceName == c.voiceName
  {
    if apiKey == [] then (c, Some(MissingApiKey))
    else
      var (c1, failure) :=
        if IsAuthKey(apiKey) then
          var (c2, err) := RefreshToken(c.(authKey := apiKey), reply);
          (c2, if err.Some? then Some(FirstTokenFailed(err.value)) else None)
        else (c.(bearerToken := apiKey), None);
      if failure.Some? then (c1, failure)
      else (c1.(voiceName := if voiceEnv == [] then DefaultVoice else voiceEnv), None)
  }

  /** `IsInitialized`: the client holds a bearer token. */
  predicate IsInitialized(c: Credentials)
  {
    c.bearerToken != []
  }

  /** A pre-issued bearer token, set up from scratch, leaves no authorization
      key behind, so the token is never refreshed, whatever the time. */
  lemma BearerKeyNeverRefreshes(apiKey: string, voiceEnv: string, reply: OAuthReply, now: int, later: OAuthReply)
    requires apiKey != [] && !IsAuthKey(apiKey)
    ensures var c := InitTTS(Unset, apiKey, voiceEnv, reply).0;
            IsInitialized(c) && EnsureValidToken(c, now, later) == (c, None, false)
  {
  }

  /** An authorization key whose first refresh brings a token that lives past
      the margin: a speech call before the margin does not refresh again. */
  lemma InitThenFirstCallKeepsToken(apiKey: string, voiceEnv: string, reply: OAuthReply, now: int, later: OAuthReply)
    requires apiKey != [] && IsAuthKey(apiKey)
    requires InitTTS(Unset, apiKey, voiceEnv, reply).1.None?
    requires 0 < now < reply.token.value.expiresAt - RefreshMargin
    ensures var c := InitTTS(Unset, apiKey, voiceEnv, reply).0;
            !EnsureValidToken(c, now, later).2
  {
  }

  // ---------------------------------------------------------------------------
  // Speech calls
  // ---------------------------------------------------------------------------

  /** What a speech endpoint did: no response, or a status and the bytes read
      from the body, `readFailed` telling whether reading stopped on an error. */
  datatype SpeechReply =
    | SpeechUnreachable
    | SpeechResponse(status: int, body: seq<Utf8.byte>, readFailed: bool)

  datatype SpeechError =
    | NotInitialized
    | TokenRefreshFailed(cause: RefreshError)
    | RequestFailed
    | Unauthorized
    | Forbidden
    | ApiError(status: int, body: seq<Utf8.byte>)
    | ReadFailed
    | EmptyAudio
    | BadJson
    | NotRecognized

  /** The error for a non-200 status: 401 and 403 have their own, every other
      status carries the body. */
  function StatusError(status: int, body: seq<Utf8.byte>): (e: SpeechError)
    requires status != 200
    ensures e == Unauthorized <==> status == 401
    ensures e == Forbidden <==> status == 403
    ensures e.ApiError? <==> status != 401 && status != 403
    ensures e.ApiError? ==> e.status == status && e.body == body
  {
    if status == 401 then Unauthorized
    else if status == 403 then Forbidden
    else ApiError(status, body)
  }

  /** `TextToSpeech`: a synthesis request once the bearer is set and the token
      is valid; the result is the audio of a 200 reply. The credentials change
      only by the token refresh. */
  function TextToSpeech(c: Credentials, now: int, oauth: OAuthReply, reply: SpeechReply)
    : (r: (Credentials, Result<seq<Utf8.byte>, SpeechError>))
    ensures c.bearerToken == [] ==> r == (c, Err(NotInitialized))
    ensures c.bearerToken != [] ==> r.0 == EnsureValidToken(c, now, oauth).0
    ensures r.1.Ok? <==>
              && c.bearerToken != []
              && EnsureValidToken(c, now, oauth).1.None?
              && reply.SpeechResponse? && reply.status == 200
              && !reply.readFailed && reply.body != []
    ensures r.1.Ok? ==> r.1.value == reply.body
    ensures c.bearerToken != [] && EnsureValidToken(c, now, oauth).1.None?
            && reply.SpeechResponse? && reply.status != 200 ==>
              r.1 == Err(StatusError(reply.status, reply.body))
  {
    if c.bearerToken == [] then (c, Err(NotInitialized))
    else
      var (c', refreshErr, _) := EnsureValidToken(c, now, oauth);
      if refreshErr.Some? then (c', Err(TokenRefreshFailed(refreshErr.value)))
      else match reply
        case SpeechUnreachable => (c', Err(RequestFailed))
        case SpeechResponse(status, body, readFailed) =>
          if status != 200 then (c', Err(StatusError(status, body)))
          else if readFailed then (c', Err(ReadFailed))
          else if body == [] then (c', Err(EmptyAudio))
          else (c', Ok(body))
  }

  /** The result of decoding a recognition body: the `result` list, or `None`
      when the body is not JSON of that shape. */
  type Recognition = Option<seq<string>>

  /** `SpeechToText`: the body is read before the status is looked at, so a read
      error wins over an error status; a 200 reply yields the first recognised
      text and an empty list is an error. */
  function SpeechToText(c: Credentials, now: int, oauth: OAuthReply, reply: SpeechReply, parsed: Recognition)
    : (r: (Credentials, Result<string, SpeechError>))
    ensures c.bearerToken == [] ==> r == (c, Err(NotInitialized))
    ensures c.bearerToken != [] ==> r.0 == EnsureValidToken(c, now, oauth).0
    ensures r.1.Ok? <==>
              && c.bearerToken != []
              && EnsureValidToken(c, now, oauth).1.None?
              && reply.SpeechResponse? && !reply.readFailed && reply.status == 200
              && parsed.Some? && parsed.value != []
    ensures r.1.Ok? ==> r.1.value == parsed.value[0]
    ensures c.bearerToken != [] && EnsureValidToken(c, now, oauth).1.None?
            && reply.SpeechResponse? && !reply.readFailed && reply.status != 200 ==>
              r.1 == Err(StatusError(reply.status, reply.body))
    ensures reply.SpeechResponse? && reply.readFailed ==> r.1.Err?
  {
    if c.bearerToken == [] then (c, Err(NotInitialized))
    else
      var (c', refreshErr, _) := EnsureValidToken(c, now, oauth);
      if refreshErr.Some? then (c', Err(TokenRefreshFailed(refreshErr.value)))
      else match reply
        case SpeechUnreachable => (c', Err(RequestFailed))
        case SpeechResponse(status, body, readFailed) =>
          if readFailed then (c', Err(ReadFailed))
          else if status != 200 then (c', Err(StatusError(status, body)))
          else match parsed
            case None => (c', Err(BadJson))
            case Some(results) =>
              if results == [] then (c', Err(NotRecognized)) else (c', Ok(results[0]))
  }

  /** An empty bearer token is never repaired by a speech call: neither call
      refreshes it, even with an authorization key at hand, so once a refresh
      has committed an empty token the client stays uninitialised. */
  lemma EmptyBearerSticks(c: Credentials, now: int, oauth: OAuthReply, reply: SpeechReply, parsed: Recognition)
    requires !IsInitialized(c)
    ensures TextToSpeech(c, now, oauth, reply) == (c, Err(NotInitialized))
    ensures SpeechToText(c, now, oauth, reply, parsed) == (c, Err(NotInitialized))
  {
  }

  /** A 200 OAuth reply carrying an empty token is a successful refresh that
      leaves the client uninitialised. */
  lemma EmptyTokenUninitialises(c: Credentials, expiresAt: int, body: string)
    ensures var r := RefreshToken(c, OAuthResponse(200, body, Some(TokenResponse("", expiresAt))));
            r.1.None? && !IsInitialized(r.0)
  {
  }

  /** The two calls classify a non-200 status alike when the body is read in full. */
  lemma StatusClassifiedAlike(c: Credentials, now: int, oauth: OAuthReply, status: int, body: seq<Utf8.byte>, parsed: Recognition)
    requires IsInitialized(c) && EnsureValidToken(c, now, oauth).1.None?
    requires status != 200
    ensures var reply := SpeechResponse(status, body, false);
            TextToSpeech(c, now, oauth, reply).1.error == SpeechToText(c, now, oauth, reply, parsed).1.error
  {
  }

  /** They differ when reading the body fails: speech-to-text reports the read
      error, text-to-speech the status. */
  lemma ReadErrorPrecedence(c: Credentials, now: int, oauth: OAuthReply, body: seq<Utf8.byte>, parsed: Recognition)
    requires IsInitialized(c) && EnsureValidToken(c, now, oauth).1.None?
    ensures var reply := SpeechResponse(500, body, true);
            && TextToSpeech(c, now, oauth, reply).1 == Err(ApiError(500, body))
            && SpeechToText(c, now, oauth, reply, parsed).1 == Err(ReadFailed)
  {
  }
}
