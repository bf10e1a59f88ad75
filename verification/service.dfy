/** The HTTP service: the three API handlers, the CORS origin list and the
    listen address. A handler's result is the status it answers with and the
    body it writes; request decoding and the backends are parameters. */
module Service {

  import opened Basics
  import opened Strings
  import Utf8
  import GigaChat
  import Search
  import Salute

  const StatusOK := 200
  const StatusBadRequest := 400
  const StatusInternalServerError := 500
  const StatusServiceUnavailable := 503

  const BadChatJson := "Неверный формат запроса (ожидался JSON)"
  const BadTtsJson := "Неверный формат запроса"
  const EmptyText := "Текст не может быть пустым"
  const TtsUnavailable := "TTS сервис недоступен"
  const TtsFailedPrefix := "Ошибка генерации аудио: "
  const SttUnavailable := "STT сервис недоступен"
  const AudioReadFailed := "Ошибка чтения аудио данных"
  const EmptyAudio := "Пустые аудио данные"
  const SttFailedPrefix := "Ошибка распознавания речи: "

  const WavContentType := "audio/wav"

  /** What a handler writes: a JSON error object (`{"error": ...}`), with the
      backend error appended for the 500 answers; the chat answer
      (`{"response": ...}`); WAV audio; or the recognised text (`{"text": ...}`). */
  datatype Body =
    | ErrorMessage(message: string)
    | BackendError(prefix: string, cause: Salute.SpeechError)
    | ChatAnswer(response: string)
    | Audio(contentType: string, data: seq<Utf8.byte>)
    | Transcript(text: string)

  datatype Reply = Reply(status: int, body: Body)

  // ---------------------------------------------------------------------------
  // POST /api/chat
  // ---------------------------------------------------------------------------

  /** `handleChatRequest`: `request` is the decoded `req` field, `None` when the
      body is not JSON of that shape. The result pairs the reply with the
      messages sent to the model (none for a rejected request). */
  function HandleChat(client: GigaChat.Client, request: Option<string>, outcome: GigaChat.Outcome)
    : (r: (Reply, seq<GigaChat.Message>))
    requires Search.WellFormed(client.knowledgeBase.searchEngine)
    ensures r.0.status == StatusOK <==> request.Some?
    ensures request.None? ==> r == (Reply(StatusBadRequest, ErrorMessage(BadChatJson)), [])
    ensures request.Some? ==>
              && r.0.body == ChatAnswer(GigaChat.SelectAnswer(outcome))
              && |r.1| == 1
              && HasSuffix(r.1[0].content, request.value)
  {
    match request
    case None => (Reply(StatusBadRequest, ErrorMessage(BadChatJson)), [])
    case Some(query) =>
      var (messages, answer) := GigaChat.GetResponse(client, query, outcome);
      (Reply(StatusOK, ChatAnswer(answer)), messages)
  }

  /** Every well-formed chat request is answered with 200, even an empty
      question or a failed model call: the failure is in the answer text. */
  lemma ChatFailureIsStillOk(client: GigaChat.Client, query: string)
    requires Search.WellFormed(client.knowledgeBase.searchEngine)
    ensures HandleChat(client, Some(query), GigaChat.GenerationError).0
            == Reply(StatusOK, ChatAnswer(GigaChat.ApologyAnswer))
  {
  }

  // ---------------------------------------------------------------------------
  // POST /api/tts
  // ---------------------------------------------------------------------------

  /** `handleTTSRequest`: `request` is the decoded `text` field, `None` when
      the body does not decode. The credentials change only when the speech
      call is made. */
  function HandleTts(c: Salute.Credentials, now: int, request: Option<string>,
                     oauth: Salute.OAuthReply, reply: Salute.SpeechReply)
    : (r: (Salute.Credentials, Reply))
    ensures r.1.status in {StatusOK, StatusBadRequest, StatusInternalServerError, StatusServiceUnavailable}
    ensures r.1.status == StatusBadRequest <==> request.None? || request.value == []
    ensures r.1.status == StatusServiceUnavailable <==>
              request.Some? && request.value != [] && !Salute.IsInitialized(c)
    ensures r.1.status == StatusOK <==>
              && request.Some? && request.value != []
              && Salute.TextToSpeech(c, now, oauth, reply).1.Ok?
    ensures r.1.status == StatusOK ==>
              r.1.body == Audio(WavContentType, Salute.TextToSpeech(c, now, oauth, reply).1.value)
    ensures r.1.status == StatusInternalServerError ==>
              r.1.body == BackendError(TtsFailedPrefix, Salute.TextToSpeech(c, now, oauth, reply).1.error)
    ensures r.1.status in {StatusBadRequest, StatusServiceUnavailable} ==> r.0 == c
    ensures r.1.status in {StatusOK, StatusInternalServerError} ==>
              r.0 == Salute.TextToSpeech(c, now, oauth, reply).0
  {
    if request.None? then (c, Reply(StatusBadRequest, ErrorMessage(BadTtsJson)))
    else if request.value == [] then (c, Reply(StatusBadRequest, ErrorMessage(EmptyText)))
    else if !Salute.IsInitialized(c) then (c, Reply(StatusServiceUnavailable, ErrorMessage(TtsUnavailable)))
    else
      var (c', result) := Salute.TextToSpeech(c, now, oauth, reply);
      match result
      case Err(e) => (c', Reply(StatusInternalServerError, BackendError(TtsFailedPrefix, e)))
      case Ok(audio) => (c', Reply(StatusOK, Audio(WavContentType, audio)))
  }

  // ---------------------------------------------------------------------------
  // POST /api/stt
  // ---------------------------------------------------------------------------

  /** `handleSTTRequest`: `audio` is the raw request body, `None` when reading
      it failed. Unlike the TTS handler, availability is checked before the
      request is looked at. */
  function HandleStt(c: Salute.Credentials, now: int, audio: Option<seq<Utf8.byte>>,
                     oauth: Salute.OAuthReply, reply: Salute.SpeechReply, parsed: Salute.Recognition)
    : (r: (Salute.Credentials, Reply))
    ensures r.1.status in {StatusOK, StatusBadRequest, StatusInternalServerError, StatusServiceUnavailable}
    ensures r.1.status == StatusServiceUnavailable <==> !Salute.IsInitialized(c)
    ensures r.1.status == StatusBadRequest <==>
              Salute.IsInitialized(c) && (audio.None? || audio.value == [])
    ensures r.1.status == StatusOK <==>
              && Salute.IsInitialized(c) && audio.Some? && audio.value != []
              && Salute.SpeechToText(c, now, oauth, reply, parsed).1.Ok?
    ensures r.1.status == StatusOK ==>
              r.1.body == Transcript(Salute.SpeechToText(c, now, oauth, reply, parsed).1.value)
    ensures r.1.status == StatusInternalServerError ==>
              r.1.body == BackendError(SttFailedPrefix, Salute.SpeechToText(c, now, oauth, reply, parsed).1.error)
    ensures r.1.status in {StatusBadRequest, StatusServiceUnavailable} ==> r.0 == c
    ensures r.1.status in {StatusOK, StatusInternalServerError} ==>
              r.0 == Salute.SpeechToText(c, now, oauth, reply, parsed).0
  {
    if !Salute.IsInitialized(c) then (c, Reply(StatusServiceUnavailable, ErrorMessage(SttUnavailable)))
    else if audio.None? then (c, Reply(StatusBadRequest, ErrorMessage(AudioReadFailed)))
    else if audio.value == [] then (c, Reply(StatusBadRequest, ErrorMessage(EmptyAudio)))
    else
      var (c', result) := Salute.SpeechToText(c, now, oauth, reply, parsed);
      match result
      case Err(e) => (c', Reply(StatusInternalServerError, BackendError(SttFailedPrefix, e)))
      case Ok(text) => (c', Reply(StatusOK, Transcript(text)))
  }

  /** The handlers look at the client state before calling it, so a backend
      error reported as 500 is never the client's own "not initialised". */
  lemma BackendErrorIsNeverNotInitialized(
    c: Salute.Credentials, now: int, text: Option<string>, audio: Option<seq<Utf8.byte>>,
    oauth: Salute.OAuthReply, reply: Salute.SpeechReply, parsed: Salute.Recognition)
    ensures HandleTts(c, now, text, oauth, reply).1.status == StatusInternalServerError ==>
              HandleTts(c, now, text, oauth, reply).1.body.cause != Salute.NotInitialized
    ensures HandleStt(c, now, audio, oauth, reply, parsed).1.status == StatusInternalServerError ==>
              HandleStt(c, now, audio, oauth, reply, parsed).1.body.cause != Salute.NotInitialized
  {
  }

  /** When `InitTTS` fails at start-up the service still runs, and every
      speech request that gets past validation is answered 503. */
  lemma FailedInitMeansUnavailable(
    apiKey: string, voiceEnv: string, first: Salute.OAuthReply,
    now: int, text: string, audio: Option<seq<Utf8.byte>>,
    oauth: Salute.OAuthReply, reply: Salute.SpeechReply, parsed: Salute.Recognition)
    requires Salute.InitTTS(Salute.Unset, apiKey, voiceEnv, first).1.Some?
    requires text != []
    ensures var c := Salute.InitTTS(Salute.Unset, apiKey, voiceEnv, first).0;
            && HandleTts(c, now, Some(text), oauth, reply).1.status == StatusServiceUnavailable
            && HandleStt(c, now, audio, oauth, reply, parsed).1.status == StatusServiceUnavailable
  {
  }

  // ---------------------------------------------------------------------------
  // Start-up configuration
  // ---------------------------------------------------------------------------

  /** The CORS settings `main` builds. */
  datatype CorsConfig = CorsConfig(
    allowAllOrigins: bool,
    allowOrigins: seq<string>,
    allowMethods: seq<string>,
    allowHeaders: seq<string>)

  const AllowedMethods := ["GET", "POST", "OPTIONS"]
  const AllowedHeaders := ["Origin", "Content-Type", "Accept"]

  /** The pieces of `ALLOWED_ORIGINS` between commas, each trimmed. */
  function TrimmedPieces(env: string): (origins: seq<string>)
    ensures |origins| == |SplitWhere(env, IsComma)|
    ensures forall k :: 0 <= k < |origins| ==> origins[k] == TrimSpace(SplitWhere(env, IsComma)[k])
  {
    var pieces := SplitWhere(env, IsComma);
    seq(|pieces|, k requires 0 <= k < |pieces| => TrimSpace(pieces[k]))
  }

  /** CORS from `ALLOWED_ORIGINS`: all origins when it is empty, otherwise one
      origin per comma-separated piece, trimmed. */
  function Cors(env: string): (cfg: CorsConfig)
    ensures cfg.allowAllOrigins <==> env == []
    ensures cfg.allowAllOrigins ==> cfg.allowOrigins == []
    ensures !cfg.allowAllOrigins ==>
              && |cfg.allowOrigins| == |Filter(env, IsComma)| + 1
              && forall k :: 0 <= k < |cfg.allowOrigins| ==>
                   IsTrimmed(cfg.allowOrigins[k]) && NoneSatisfy(cfg.allowOrigins[k], IsComma)
    ensures !cfg.allowAllOrigins ==>
              forall k :: 0 <= k < |cfg.allowOrigins| ==>
                cfg.allowOrigins[k] == TrimSpace(SplitWhere(env, IsComma)[k])
    ensures cfg.allowMethods == AllowedMethods && cfg.allowHeaders == AllowedHeaders
  {
    if env == [] then CorsConfig(true, [], AllowedMethods, AllowedHeaders)
    else
      var origins := TrimmedPieces(env);
      forall k | 0 <= k < |origins| ensures NoneSatisfy(origins[k], IsComma) {
        TrimKeepsNone(SplitWhere(env, IsComma)[k], IsComma);
      }
      CorsConfig(false, origins, AllowedMethods, AllowedHeaders)
  }

  /** A list written without stray spaces is read back exactly: joining the
      origins with commas gives the variable's value. */
  lemma {:induction false} CorsOriginsRoundTrip(env: string)
    requires env != []
    requires forall k :: 0 <= k < |SplitWhere(env, IsComma)| ==> IsTrimmed(SplitWhere(env, IsComma)[k])
    ensures Join(Cors(env).allowOrigins, ",") == env
  {
    var pieces := SplitWhere(env, IsComma);
    var origins := Cors(env).allowOrigins;
    forall k | 0 <= k < |pieces| ensures origins[k] == pieces[k] {
      TrimSpaceOfTrimmed(pieces[k]);
    }
    assert origins == pieces;
    JoinSplitWhere(env, IsComma, ',');
  }

  /** The address `main` logs and the one it listens on. */
  datatype ServerAddress = ServerAddress(logged: string, listen: string)

  const DefaultPort := "8080"
  const DefaultHost := "localhost"

  /** `SERVER_PORT` and `SERVER_HOST`, with their defaults. */
  function Address(portEnv: string, hostEnv: string): (a: ServerAddress)
    ensures var port := if portEnv == [] then DefaultPort else portEnv;
            var host := if hostEnv == [] then DefaultHost else hostEnv;
            && a.listen == ":" + port
            && a.logged == host + ":" + port
  {
    var port := if portEnv == [] then DefaultPort else portEnv;
    var host := if hostEnv == [] then DefaultHost else hostEnv;
    ServerAddress(host + ":" + port, ":" + port)
  }

  /** The server binds every interface: the host only shows up in the log. */
  lemma ListenIgnoresHost(portEnv: string, hostA: string, hostB: string)
    ensures Address(portEnv, hostA).listen == Address(portEnv, hostB).listen
    ensures HasSuffix(Address(portEnv, hostA).logged, Address(portEnv, hostA).listen)
  {
    var a := Address(portEnv, hostA);
    var host := if hostA == [] then DefaultHost else hostA;
    assert a.logged == host + a.listen;
    assert a.logged[|a.logged| - |a.listen|..] == a.listen;
  }
}
