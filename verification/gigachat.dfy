/** The GigaChat side of the service: how the client is configured, how a user
    question is turned into the one message sent to the model, and which text
    comes back to the user. The model call itself is a parameter: its outcome
    is either an error or the list of choices it returned. */
module GigaChat {

  import opened Basics
  import opened Strings
  import Search

  const DefaultModel := "GigaChat"
  const DefaultKnowledgeFile := "data/chunks.json"
  const QuestionLabel := "\n\nВопрос пользователя: "
  const ApologyAnswer := "Извините, произошла ошибка при обращении к GigaChat API."
  const NoAnswer := "Не удалось получить ответ от GigaChat."

  /** Number of knowledge-base chunks put in front of a question. */
  const ContextChunks := 3

  // ---------------------------------------------------------------------------
  // Configuration
  // ---------------------------------------------------------------------------

  /** `strconv.ParseBool`. */
  function ParseBool(s: string): (r: Option<bool>)
    ensures r == Some(true) <==> s in {"1", "t", "T", "TRUE", "true", "True"}
    ensures r == Some(false) <==> s in {"0", "f", "F", "FALSE", "false", "False"}
  {
    if s in {"1", "t", "T", "TRUE", "true", "True"} then Some(true)
    else if s in {"0", "f", "F", "FALSE", "false", "False"} then Some(false)
    else None
  }

  /** `SSL_VERIFY`: verification stays on unless the variable parses as false. */
  function SslVerify(env: string): (verify: bool)
    ensures !verify <==> ParseBool(env) == Some(false)
  {
    if env == [] then true
    else match ParseBool(env)
      case Some(b) => b
      case None => true
  }

  /** The configured client: model name, TLS verification and knowledge base. */
  datatype Client = Client(
    modelName: string,
    sslVerify: bool,
    knowledgeFile: string,
    knowledgeBase: Search.KnowledgeBase,
    useKnowledge: bool)

  datatype InitFailure = MissingApiKey | ClientCreationFailed

  /** `InitClient`, with the environment variables as parameters, `clientCreated`
      the outcome of creating the API client, and `readChunks` the file system:
      what reading and decoding a chunk file of that name gives. A missing API
      key or a failed client creation is a `log.Fatal`, which ends the process in Go. */
  method InitClient(
    apiKey: string, modelEnv: string, sslEnv: string, knowledgeFileEnv: string,
    clientCreated: bool,
    readChunks: string -> Result<seq<Search.Document>, Search.LoadError>,
    log: real -> real)
    returns (r: Result<Client, InitFailure>)
    ensures apiKey == [] ==> r == Err(MissingApiKey)
    ensures apiKey != [] && !clientCreated ==> r == Err(ClientCreationFailed)
    ensures r.Ok? <==> apiKey != [] && clientCreated
    ensures r.Ok? ==>
              var c := r.value;
              && Search.WellFormed(c.knowledgeBase.searchEngine)
              && c.modelName == (if modelEnv == [] then DefaultModel else modelEnv)
              && c.sslVerify == SslVerify(sslEnv)
              && c.knowledgeFile == (if knowledgeFileEnv == [] then DefaultKnowledgeFile else knowledgeFileEnv)
              && (c.useKnowledge <==> readChunks(c.knowledgeFile).Ok?)
              && (c.useKnowledge ==> c.knowledgeBase.chunks == readChunks(c.knowledgeFile).value)
              && (!c.useKnowledge ==> c.knowledgeBase == Search.NewKnowledgeBase())
  {
    if apiKey == [] {
      return Err(MissingApiKey);
    }
    var modelName := if modelEnv == [] then DefaultModel else modelEnv;
    var sslVerify := SslVerify(sslEnv);
    if !clientCreated {
      return Err(ClientCreationFailed);
    }
    var knowledgeFile := if knowledgeFileEnv == [] then DefaultKnowledgeFile else knowledgeFileEnv;
    var kb, err := Search.LoadChunks(Search.NewKnowledgeBase(), readChunks(knowledgeFile), log);
    return Ok(Client(modelName, sslVerify, knowledgeFile, kb, err.None?));
  }

  // ---------------------------------------------------------------------------
  // Prompt and answer
  // ---------------------------------------------------------------------------

  datatype Role = User | Assistant | System

  datatype Message = Message(role: Role, content: string)

  /** What the model call gave back. */
  datatype Outcome = GenerationError | Choices(contents: seq<string>)

  /** The text sent as the user's message: the question, preceded by the
      knowledge-base context when the knowledge base is in use and finds
      something. */
  function ComposeQuery(c: Client, userQuery: string): (q: string)
    requires Search.WellFormed(c.knowledgeBase.searchEngine)
    ensures HasSuffix(q, userQuery)
    ensures q == userQuery <==>
              !c.useKnowledge || Search.KbSearch(c.knowledgeBase, userQuery, ContextChunks) == []
    ensures q != userQuery ==>
              q == Search.GetContextForQuery(c.knowledgeBase, userQuery, ContextChunks) + QuestionLabel + userQuery
  {
    if c.useKnowledge then
      var context := Search.GetContextForQuery(c.knowledgeBase, userQuery, ContextChunks);
      if context != [] then WithContext(context, userQuery) else userQuery
    else userQuery
  }

  /** The context, the label and the question, in this order. */
  function WithContext(context: string, userQuery: string): (q: string)
    ensures |q| > |userQuery| && HasSuffix(q, userQuery)
    ensures q == context + QuestionLabel + userQuery
  {
    var q := context + QuestionLabel + userQuery;
    assert q[|q| - |userQuery|..] == userQuery;
    q
  }

  /** The text returned to the user for a model outcome. */
  function SelectAnswer(outcome: Outcome): (answer: string)
    ensures outcome.GenerationError? ==> answer == ApologyAnswer
    ensures outcome.Choices? && outcome.contents == [] ==> answer == NoAnswer
    ensures outcome.Choices? && outcome.contents != [] ==> answer == outcome.contents[0]
  {
    match outcome
    case GenerationError => ApologyAnswer
    case Choices(contents) => if contents == [] then NoAnswer else contents[0]
  }

  /** `GetResponse`: the messages sent to the model, and the answer given back
      when the model's outcome is `outcome`. */
  function GetResponse(c: Client, userQuery: string, outcome: Outcome): (r: (seq<Message>, string))
    requires Search.WellFormed(c.knowledgeBase.searchEngine)
    ensures |r.0| == 1 && r.0[0].role == User
    ensures HasSuffix(r.0[0].content, userQuery)
    ensures r.1 == SelectAnswer(outcome)
  {
    ([Message(User, ComposeQuery(c, userQuery))], SelectAnswer(outcome))
  }

  /** The answer is one of the two fixed messages or a text the model produced. */
  lemma AnswerIsChoiceOrFixed(outcome: Outcome)
    ensures var a := SelectAnswer(outcome);
            a == ApologyAnswer || a == NoAnswer || (outcome.Choices? && a in outcome.contents)
  {
  }

  /** With no knowledge base in use, the question goes to the model unchanged. */
  lemma NoKnowledgeSendsQuestion(c: Client, userQuery: string, outcome: Outcome)
    requires Search.WellFormed(c.knowledgeBase.searchEngine) && !c.useKnowledge
    ensures GetResponse(c, userQuery, outcome).0 == [Message(User, userQuery)]
  {
  }

  /** A knowledge base that finds nothing leaves the question unchanged too. */
  lemma EmptyContextSendsQuestion(c: Client, userQuery: string)
    requires Search.WellFormed(c.knowledgeBase.searchEngine)
    requires Search.KbSearch(c.knowledgeBase, userQuery, ContextChunks) == []
    ensures ComposeQuery(c, userQuery) == userQuery
  {
  }

  /** The composed text is the context, the label and the question, and the
      question can be read back off its end. */
  lemma QuestionRecoverable(c: Client, userQuery: string)
    requires Search.WellFormed(c.knowledgeBase.searchEngine)
    ensures var q := ComposeQuery(c, userQuery);
            q[|q| - |userQuery|..] == userQuery
  {
  }
}
