# DriveHack core in Dafny

A Dafny model of the core of the DriveHack service: a chat assistant for a
corporate university. A scraper crawls the university sites,
cleans each page's text and cuts it into byte-sized chunks. A TF-IDF index over
those chunks finds context for a user's question. The question, with that
context in front of it, goes to the GigaChat model. The SaluteSpeech client
turns answers into speech and speech into questions. An HTTP service ties these
together behind `/api/chat`, `/api/tts` and `/api/stt`.

The model is a set of pure functions and a few loop methods over immutable
datatypes, one module per component:

- `Basics`: `Option`, `Result`, `Min`.
- `Strings`: the Go string functions the core relies on. These are
  `strings.ToLower` (on the runes the core observes), `TrimSpace`, `Split`,
  `Join`, `Index`, `HasPrefix` and `HasSuffix`, plus `unicode.IsSpace` and
  RE2's ASCII-only `\w`.
- `Utf8`: the UTF-8 encoding of a string. Go's `len` of a string counts these
  bytes. Decoding inverts encoding and succeeds on exactly the encodings of
  texts, rejecting overlong forms and surrogates.
- `Search` (`internal/search/tfidf.go`): the tokenizer, the index build, scoring,
  ranking, and the knowledge base with its prompt context.
- `Scraper` (`internal/scraper/scraper.go`):
  - the crawl domain;
  - the skipped file types;
  - text cleaning;
  - page records under the page limit;
  - the chunking loop.
- `Salute` (`internal/salute/tts.go`): the credential state, the OAuth token
  refresh, and the two speech calls.
- `GigaChat` (`internal/GigaChat/gigachat.go`): client configuration, prompt
  composition and answer selection.
- `Service` (`cmd/service/main.go`): the three handlers, the CORS origin list and
  the listen address.

Everything outside the process is a parameter: environment variables, the file
system, the clock, and every HTTP exchange. A reply from an external service is
a value that says what the service sent back. For example, `OAuthReply` is
either no response, or a status, a body and the token decoded from it.
Functions whose Go counterpart changes package globals take the old state and
return the new one.

## Model

| member | source | states |
|---|---|---|
| Strings.LowerRune | internal/search/tfidf.go:48 | `unicode.ToLower` of one rune: an ASCII capital moves up by 32, and no result is an ASCII capital. The result is ASCII exactly when the rune is ASCII, U+0130 or the Kelvin sign U+212A. Other ASCII runes are unchanged. |
| Strings.Lower | internal/search/tfidf.go:48 | `strings.ToLower` keeps the length and lower-cases each rune in place, on the runes the core observes. |
| Strings.LowerIdempotent | internal/scraper/scraper.go:89 | Lower-casing twice is the same as lower-casing once. |
| Strings.TrimSpace | internal/scraper/scraper.go:103 | `strings.TrimSpace`: the result neither starts nor ends with white space. It is empty exactly when the input is all white space. |
| Strings.TrimSpaceParts | internal/scraper/scraper.go:103 | The input is the trimmed string with a blank prefix and a blank suffix around it, so trimming removes white space only. |
| Strings.TrimKeepsNone | cmd/service/main.go:164 | Trimming adds no rune: a kind of rune absent from the input is absent from the result. |
| Strings.TrimSpaceOfTrimmed | cmd/service/main.go:164 | A string that is already trimmed is unchanged by trimming. |
| Strings.SplitWhere | internal/scraper/scraper.go:100 | `strings.Split` at single-rune separators: one piece more than there are separators, and no piece holds a separator. |
| Strings.RejoinSplitWhere | internal/scraper/scraper.go:100 | Splitting loses nothing: the pieces, with the separators put back between them, give the input. |
| Strings.JoinSplitWhere | cmd/service/main.go:162 | `strings.Join(strings.Split(s, d), d) == s` for a one-rune separator `d`. |
| Strings.SplitWhereAtFirst | internal/scraper/scraper.go:100 | Splitting at the first separator gives the text before it, then the pieces of the text after it. |
| Strings.JoinCons | internal/scraper/scraper.go:108 | `strings.Join` of one more leading element puts the separator after it, unless it is the only element. |
| Strings.IndexOf | internal/scraper/scraper.go:79 | `strings.Index` for one rune: absent exactly when the rune does not occur; otherwise the position of an occurrence with none before it. |
| Strings.IndexOfFirst | internal/scraper/scraper.go:79 | The first occurrence of a rune is the position `IndexOf` reports. |
| Strings.FilterJoin | internal/scraper/scraper.go:108 | Joining with a separator that holds no rune of a kind keeps that kind's runes exactly: those of the pieces, in order. |
| Strings.ParseNatToString | internal/search/tfidf.go:206 | The decimal rendering of a source number reads back as that number. |
| Utf8.EncodeRune | internal/scraper/scraper.go:139 | A rune's UTF-8 encoding: one byte exactly for ASCII, otherwise a lead byte and two to four bytes in all, the rest continuation bytes. |
| Utf8.Encode | internal/scraper/scraper.go:139 | The encoding whose length is Go's `len` of a string: at least one byte per rune, starting with the first rune's encoding. |
| Utf8.EncodeAppend | internal/scraper/scraper.go:221-231 | Encoding distributes over concatenation. |
| Utf8.DecodeEncode | internal/scraper/scraper.go:221-231 | Decoding the encoding of a text gives the text back, so the chunk bytes stand for the page text. |
| Utf8.EncodeDecode | internal/scraper/scraper.go:221-231 | A byte string that decodes is the encoding of what it decodes to. |
| Utf8.EncodeDecodeRune | internal/scraper/scraper.go:221-231 | The bytes a rune decodes from are exactly that rune's encoding. |
| Utf8.DecodeIffEncoding | internal/scraper/scraper.go:221-231 | A byte string decodes to a text exactly when it is that text's encoding. |
| Utf8.OverlongRejected | internal/scraper/scraper.go:221-231 | Overlong forms of U+0000 do not decode. |
| Utf8.EncodeAsciiLength | internal/salute/tts.go:32 | For ASCII text, the byte count equals the rune count. |
| Utf8.InvalidIsNoEncoding | internal/scraper/scraper.go:231 | A byte sequence that does not decode is the encoding of no text. |
| Search.Tokenize | internal/search/tfidf.go:46-55 | `tokenize` yields non-empty tokens of `[0-9a-z_]` runes only. Together the tokens are exactly the word runes of the lower-cased text, in order. |
| Search.TokenizeIsMaximalRuns | internal/search/tfidf.go:51-52 | The tokens are the non-empty pieces of the lower-cased text cut at every non-word rune, so each is a maximal run of `\w`. |
| Search.TokenizeNonLatin | internal/search/tfidf.go:51-52 | `\w` is ASCII-only, so a text in Cyrillic or any other non-Latin script yields no token. |
| Search.TokenizeDropsCyrillic | internal/search/tfidf.go:51-52 | The Russian word "Мир" yields no token. |
| Search.NewTFIDF | internal/search/tfidf.go:38-43 | A new index holds no documents and an empty IDF table, and it is consistent. |
| Search.TokenizeDocuments | internal/search/tfidf.go:66-72 | Each document is tokenized as title, title, text, and its length is its token count. |
| Search.TermFrequencies | internal/search/tfidf.go:76-81 | `freq[token]++` gives, for each token, the number of times it occurs in the document, and holds no other key. |
| Search.SumOfCounts | internal/search/tfidf.go:71-81 | A document's term frequencies add up to its token count. |
| Search.DocumentTermFrequencies | internal/search/tfidf.go:75-82 | One term map per document, each the token counts of that document. |
| Search.DocumentFrequencies | internal/search/tfidf.go:85-90 | For each term, the number of documents whose term map holds it. The table holds no term that no document has. |
| Search.UpdateIdf | internal/search/tfidf.go:92-95 | Every counted term gets `log(N / df)`. Terms the map already held and no document has keep their old value, and no other term appears. |
| Search.CountFacts | internal/search/tfidf.go:66-90 | Each document's term counts add up to its length. Each term of a document has a document frequency from 1 to the number of documents. |
| Search.BuildIndex | internal/search/tfidf.go:58-98 | The rebuilt index holds exactly the given documents, consistent per-document tables, and frequency sums equal to lengths. For every indexed term, IDF is `log(N / df)` with `1 <= df <= N`. Stale IDF entries for absent terms are kept, as Go keeps them. |
| Search.Score | internal/search/tfidf.go:101-123 | `score`: the sum over the query tokens, in order, of each token's `TermScore` in the document. `ScoreAppend`, `ScoreRepeatedToken`, `ScoreWithoutMatch` and `ScoreOfEmptyDocument` carry its properties. |
| Search.TermScore | internal/search/tfidf.go:107-119 | A query token the document does not hold adds 0, and so does any token in a document without tokens. |
| Search.ScoreAppend | internal/search/tfidf.go:106-120 | The score is additive over the query, one contribution per query token occurrence. |
| Search.ScoreRepeatedToken | internal/search/tfidf.go:106-120 | A token repeated in the query counts twice. |
| Search.ScoreWithoutMatch | internal/search/tfidf.go:107-110 | A document holding none of the query tokens scores 0. |
| Search.ScoreOfEmptyDocument | internal/search/tfidf.go:103-110 | A document without tokens scores 0. |
| Search.Candidates | internal/search/tfidf.go:131-139 | The scoring loop keeps a document exactly when its score is positive. Every result is some document with its own score. There is one result per positively scored document. Each result occurs exactly as many times as there are documents producing it, so equal documents give equal repeated results. |
| Search.PositiveResults | internal/search/tfidf.go:130-139 | The scoring loop over a given list of scores: the documents among the first `n` whose score is above 0, with that score, in index order. `PositiveResultsMembers`, `PositiveResultsCount` and `PositiveResultsMultiplicity` carry its properties. |
| Search.PositiveResultsMembers | internal/search/tfidf.go:131-139 | Over any list of scores, the loop's results are documents with their positive scores, and every positively scored document has its result. |
| Search.PositiveResultsCount | internal/search/tfidf.go:131-139 | Over any list of scores, the loop appends exactly one result per index scoring above 0. |
| Search.PositiveResultsMultiplicity | internal/search/tfidf.go:131-139 | Over any list of scores, each result occurs once per index whose document and positive score it is. |
| Search.ResultsOccurrences | internal/search/tfidf.go:131-139 | The loop's count of a result equals `ProducedCount`, an independent count of the indices producing it. |
| Search.MatchingIndicesCount | internal/search/tfidf.go:131-139 | The set of indices producing a result has `ProducedCount` elements. |
| Search.Insert | internal/search/tfidf.go:142-144 | Insertion into a list sorted by descending score keeps it sorted. It adds the element and nothing else. |
| Search.SortByScore | internal/search/tfidf.go:142-144 | `sort.Slice` by descending score: a permutation in non-increasing score order. |
| Search.SelectTop | internal/search/tfidf.go:142-150 | Sorting then truncating to `topK` gives `min(topK, n)` results in non-increasing order, drawn from the candidates. Every candidate left out scores no higher than every one kept. |
| Search.SearchIndex | internal/search/tfidf.go:126-151 | `Search` returns at most `topK` documents, each with a positive score that is its own, best first. They are the best of all positively scored documents. It returns exactly `topK` of them, or all when fewer documents score above 0. |
| Search.TopOfSorted | internal/search/tfidf.go:147-150 | A prefix of a sorted list beats everything cut off after it. |
| Search.SearchFreshIndex | internal/search/tfidf.go:38-43 | A fresh index finds nothing. |
| Search.NewKnowledgeBase | internal/search/tfidf.go:160-165 | A new knowledge base holds no chunks and an empty index. |
| Search.LoadChunks | internal/search/tfidf.go:168-187 | A read or parse failure is returned and leaves the knowledge base as it was. Success stores the chunks and indexes exactly them. |
| Search.SourceBlock | internal/search/tfidf.go:206-208 | One block: `--- Источник n: title ---` and a newline, the chunk text, then `(URL: url)` and a blank line. `ContextBlockAt` places block n+1 at result n. |
| Search.SourceBlocksSnoc | internal/search/tfidf.go:205-209 | Each further result appends its own block, numbered one past the blocks before it. |
| Search.SourceBlocksAppend | internal/search/tfidf.go:205-209 | The blocks of two runs of results are the first run's blocks followed by the second's, numbered on. |
| Search.SourceBlocksAround | internal/search/tfidf.go:205-209 | One result's block sits between the blocks of the results before it and those after it, numbered by its position. |
| Search.ContextFor | internal/search/tfidf.go:198-211 | The context is empty exactly when there are no results. Otherwise it starts with the header. |
| Search.ContextBlockAt | internal/search/tfidf.go:203-209 | The result of rank `k` is block `k + 1`: after the header and the blocks of better-ranked results, before the blocks of the rest. Each block holds `--- Источник n: title ---`, the text and `(URL: …)`. |
| Search.KbSearch | internal/search/tfidf.go:190-192 | `KnowledgeBase.Search` returns at most `topK` positively scored results, best first. |
| Search.GetContextForQuery | internal/search/tfidf.go:195-212 | The context is empty exactly when the search finds nothing. Otherwise it starts with the header. It is built from the at most `maxChunks` search results, so each lands in its block as `Search.ContextBlockAt` states. |
| Scraper.ExtractDomain | internal/scraper/scraper.go:72-84 | The domain holds no `/`. It is a prefix of the URL without its scheme, and it ends there or just before the first `/`. |
| Scraper.ExtractDomainOfUrl | internal/scraper/scraper.go:72-84 | For `http://` or `https://`, a host without `/`, and an empty path or one starting with `/`, the domain is the host. |
| Scraper.ExtractDomainIdempotent | internal/scraper/scraper.go:72-84 | The domain of a domain is itself. |
| Scraper.ShouldSkipURL | internal/scraper/scraper.go:87-96 | A link is skipped exactly when its lower-cased form ends with one of the twelve listed extensions. |
| Scraper.SkipIgnoresCase | internal/scraper/scraper.go:89-91 | A link and its lower-case form are skipped alike. |
| Scraper.SkipExamples | internal/scraper/scraper.go:88-95 | `…/Map.PDF` is skipped and `…/about` is not. |
| Scraper.CleanLines | internal/scraper/scraper.go:101-107 | The result is the trimmed input lines with blank ones dropped, in order. Every line kept is non-empty and trimmed. |
| Scraper.TrimEach | internal/scraper/scraper.go:102-103 | Each line is replaced by its `TrimSpace`, position by position. |
| Scraper.CleanText | internal/scraper/scraper.go:99-109 | `cleanText` leaves no newline and no white space at either end. It is empty exactly when the input is all white space. |
| Scraper.CleanTextOneLine | internal/scraper/scraper.go:99-109 | A text with no newline cleans to its `TrimSpace`. |
| Scraper.CleanTextFirstLine | internal/scraper/scraper.go:99-109 | Cleaning a first line and the rest: a blank first line is dropped; otherwise the trimmed line is kept, joined by one space to the cleaned rest unless the rest is blank. |
| Scraper.CleanTextKeepsVisible | internal/scraper/scraper.go:99-109 | Cleaning removes white space only: the visible runes of the result are those of the input, in order. |
| Scraper.CleanTextIdempotent | internal/scraper/scraper.go:99-109 | Cleaning a cleaned text changes nothing. |
| Scraper.OnPage | internal/scraper/scraper.go:113-142 | Below the page limit, a page with visible text appends one record; otherwise the list is unchanged. The record has the page URL, the cleaned text, its byte length, and the `<title>` or else the URL as title. |
| Scraper.RecordPages | internal/scraper/scraper.go:114-142 | The `html` callback applied to each fetched page in turn. `RecordPagesBounded` and `RecordPagesAtLimit` carry its properties. |
| Scraper.RecordPagesBounded | internal/scraper/scraper.go:113-142 | Over a run of fetched pages the crawl keeps its earlier records. It records one well-formed page per page with text, up to the page limit. |
| Scraper.OnPageKeepsPagesOk | internal/scraper/scraper.go:132-140 | Every record has non-empty, trimmed, single-line text and a length equal to its byte count. |
| Scraper.RecordPagesAtLimit | internal/scraper/scraper.go:115-117 | A crawl that has reached the page limit records nothing more. |
| Scraper.PageChunks | internal/scraper/scraper.go:221-238 | A page yields chunks exactly when bytes remain, and their ids run on consecutively. |
| Scraper.PageChunksShape | internal/scraper/scraper.go:221-238 | The chunks of a page tile its bytes: the first starts at the offset and the last ends at the end. Each is a non-empty byte range of at most `chunkSize` bytes with the page's URL and title. All but the last are exactly `chunkSize` long, each starting where the previous ended. |
| Scraper.AllChunks | internal/scraper/scraper.go:213-239 | Chunk ids run 0, 1, 2, … across all pages. |
| Scraper.SaveChunks | internal/scraper/scraper.go:213-239 | The `SaveChunks` loop produces exactly the chunks of every page, in order. |
| Scraper.ChunkPage | internal/scraper/scraper.go:221-238 | The inner loop appends exactly one page's chunks, numbered on from the chunks already made. |
| Scraper.ChunksCoverPages | internal/scraper/scraper.go:213-239 | Chunking loses and repeats nothing: the chunks glued together are the bytes of all page texts, in order. |
| Scraper.ChunksComeFromPages | internal/scraper/scraper.go:227-234 | Every chunk is a piece of one page: that page's URL and title, and a non-empty byte range of its text of at most `chunkSize` bytes. |
| Scraper.ChunkCanSplitRune | internal/scraper/scraper.go:221-231 | Chunk boundaries are byte offsets. With a size of one byte, the first chunk of "ж" is not valid UTF-8 on its own. |
| Salute.RefreshToken | internal/salute/tts.go:227-272 | The refresh succeeds exactly on status 200 with a decodable token. Only then are the bearer token and expiry replaced. Every failure leaves the credentials as they were, and a non-200 status carries the status and body. |
| Salute.EnsureValidToken | internal/salute/tts.go:212-224 | A refresh is attempted exactly when there is an authorization key and the token is unset or within 60 s of expiry. Otherwise nothing changes. |
| Salute.FreshTokenIsKept | internal/salute/tts.go:218-220 | A token just obtained is not refreshed again before the margin. |
| Salute.IsAuthKey | internal/salute/tts.go:32 | A key is an authorization key when its UTF-8 byte length, Go's `len`, is under 500; `InitTTS` branches on it. |
| Salute.InitTTS | internal/salute/tts.go:25-51 | An empty key is an error. A key under 500 bytes is an authorization key and triggers an immediate refresh. A longer key is the bearer token itself. On success the voice is `SALUTE_VOICE` or `Nec_24000`; on failure it is not set. |
| Salute.IsInitialized | internal/salute/tts.go:183-185 | The client is initialised exactly when the bearer token is non-empty. `EmptyBearerSticks`, `EmptyTokenUninitialises` and `BearerKeyNeverRefreshes` state what follows from it. |
| Salute.BearerKeyNeverRefreshes | internal/salute/tts.go:38-41 | A key of 500 bytes or more initialises the client and is never refreshed, whatever the time. |
| Salute.InitThenFirstCallKeepsToken | internal/salute/tts.go:32-37 | After an authorization key's first refresh, a call before the margin does not refresh again. |
| Salute.StatusError | internal/salute/tts.go:82-94 | A non-200 status gives its own error for 401 and for 403. Any other status gives an API error carrying the status and the body. |
| Salute.TextToSpeech | internal/salute/tts.go:54-110 | Synthesis fails without a bearer token and leaves the state alone. It succeeds exactly on a 200 reply with a non-empty, fully read body, and returns that body. The status is classified before the body is read. |
| Salute.SpeechToText | internal/salute/tts.go:113-180 | Recognition fails without a bearer token. It succeeds exactly on a fully read 200 reply whose JSON has a non-empty result, and returns the first result. A read error takes precedence over the status. |
| Salute.EmptyBearerSticks | internal/salute/tts.go:55-57 | Without a bearer token, neither call refreshes, even with an authorization key at hand. |
| Salute.EmptyTokenUninitialises | internal/salute/tts.go:263-264 | A 200 reply carrying an empty token is a successful refresh that leaves the client uninitialised. |
| Salute.StatusClassifiedAlike | internal/salute/tts.go:147-158 | Both calls report a non-200 status the same way when the body reads in full. |
| Salute.ReadErrorPrecedence | internal/salute/tts.go:141-144 | When reading a non-200 body fails, speech-to-text reports the read error and text-to-speech the status. |
| GigaChat.ParseBool | internal/GigaChat/gigachat.go:38 | `strconv.ParseBool`: `1 t T TRUE true True` are true and `0 f F FALSE false False` are false. Anything else is an error. |
| GigaChat.SslVerify | internal/GigaChat/gigachat.go:35-43 | Verification is off exactly when `SSL_VERIFY` parses as false. Empty and unparsable values keep it on. |
| GigaChat.InitClient | internal/GigaChat/gigachat.go:20-99 | A missing API key or a failed client creation is fatal. The model is `GIGACHAT_MODEL` or `GigaChat`, and the knowledge file is `KNOWLEDGE_BASE_FILE` or `data/chunks.json`. The knowledge base is used exactly when that file loads; otherwise it stays empty. |
| GigaChat.ComposeQuery | internal/GigaChat/gigachat.go:110-118 | The question always ends the text sent. It goes alone exactly when the knowledge base is off or finds nothing. Otherwise it is the context, `\n\nВопрос пользователя: `, then the question. |
| GigaChat.SelectAnswer | internal/GigaChat/gigachat.go:126-136 | A model error gives the apology and zero choices give the no-answer text. Otherwise the answer is the first choice. |
| GigaChat.GetResponse | internal/GigaChat/gigachat.go:108-137 | Exactly one user message is sent and it ends with the question. The answer follows `SelectAnswer`. |
| GigaChat.AnswerIsChoiceOrFixed | internal/GigaChat/gigachat.go:126-136 | The answer is one of the two fixed texts or a text the model produced. |
| GigaChat.NoKnowledgeSendsQuestion | internal/GigaChat/gigachat.go:110-124 | Without a knowledge base, the message is the question alone. |
| GigaChat.EmptyContextSendsQuestion | internal/GigaChat/gigachat.go:112-118 | When the search finds nothing, the question goes unchanged. |
| GigaChat.QuestionRecoverable | internal/GigaChat/gigachat.go:116 | The question can be read back off the end of the composed text. |
| Service.HandleChat | cmd/service/main.go:38-53 | Only an undecodable body gets 400, and then nothing is sent to the model. Every decoded request, even an empty one, gets 200 with the model's answer after one message. |
| Service.ChatFailureIsStillOk | cmd/service/main.go:49-52 | A failed model call still answers 200, with the apology as the response. |
| Service.HandleTts | cmd/service/main.go:56-92 | 400 exactly for an undecodable body or empty text. 503 exactly for valid text while the client is uninitialised. 200 with `audio/wav` exactly when synthesis succeeds; any other synthesis error is 500 with that error. Credentials change only when synthesis is attempted. |
| Service.HandleStt | cmd/service/main.go:95-128 | 503 exactly when the client is uninitialised, checked before the body. Then 400 for an unreadable or empty body. 200 with the recognised text exactly when recognition succeeds; any other failure is 500 with its error. |
| Service.BackendErrorIsNeverNotInitialized | cmd/service/main.go:70-82 | Both handlers check the client first, so a 500 never carries the client's own "not initialised" error. |
| Service.FailedInitMeansUnavailable | cmd/service/main.go:141-146 | If `InitTTS` fails at start-up the service still runs, and every speech request that passes validation gets 503. |
| Service.Cors | cmd/service/main.go:155-176 | An empty `ALLOWED_ORIGINS` allows every origin. Otherwise origin k is the `TrimSpace` of the k-th comma-separated piece: one origin per piece, one more than there are commas, each trimmed and free of commas. Methods and headers are the fixed lists. |
| Service.TrimmedPieces | cmd/service/main.go:161-165 | The split loop: one entry per comma-separated piece, entry k being the `TrimSpace` of piece k. |
| Service.CorsOriginsRoundTrip | cmd/service/main.go:159-166 | A list written without stray spaces reads back exactly: the origins joined by commas give the variable's value. |
| Service.Address | cmd/service/main.go:186-200 | The port is `SERVER_PORT` or `8080` and the host is `SERVER_HOST` or `localhost`. The server listens on `":" + port` and logs `host:port`. |
| Service.ListenIgnoresHost | cmd/service/main.go:186-200 | The server listens on `":" + port`, with port defaulting to `8080`, whatever `SERVER_HOST` says. The host (default `localhost`) appears only in the logged address. |

## Behaviour of note

These are places where the code does something a reader might not expect.
The model does what the code does.

- `tokenize` uses RE2's `\w`, which is ASCII-only. Cyrillic words give no
  tokens, so a Russian query only matches Latin words and digits in the chunks
  (`Search.TokenizeNonLatin`).
- Search ties are not broken by document id. `sort.Slice` is not stable, so the
  order of equal scores is unspecified. The contracts promise only the order of
  scores.
- The chat handler does not reject an empty question. It passes the question to
  the model and answers 200.
- `InitTTS` treats a key of fewer than 500 bytes as an authorization key. A key
  of exactly 500 bytes is used as a bearer token.
- An authorization key is refreshed once in `InitTTS`. The first speech call
  within the token's lifetime therefore makes no second refresh
  (`Salute.InitThenFirstCallKeepsToken`).
- `SpeechToText` reads the body before it looks at the status, and
  `TextToSpeech` does the opposite (`Salute.ReadErrorPrecedence`).
- Chunk boundaries are byte offsets and can fall inside a rune
  (`Scraper.ChunkCanSplitRune`). When the chunks are written as JSON, the broken
  bytes become U+FFFD; that encoding step is not modelled.

## Left out

- Strings.LowerRune: lowers ASCII capitals, U+0130 (to 'i'), the Kelvin sign
  U+212A (to 'k') and the Cyrillic capitals U+0400–U+042F. Every other rune is
  kept. Go's `unicode.ToLower` would also lower runes such as 'À' or 'Σ'. The
  core only looks at the lowered text through ASCII: `\w` in the tokenizer and
  the ASCII suffixes and fragments of the URL filter. Which runes come out
  ASCII is exact, so nothing the core computes depends on the difference.
- Strings.Lower: inherits the rune coverage of `Strings.LowerRune`.
- I/O: environment variables, files, the clock and HTTP are parameters. JSON
  encoding and decoding are outcomes passed in (`Recognition`, `read`, the
  decoded request fields). Logging is dropped.
- Floating point: `math.Log` is a parameter and float64 arithmetic is exact
  `real` arithmetic. Rounding, NaN and infinities are not modelled.
- Search.SortByScore: fixes one of the orders `sort.Slice` may produce (an
  insertion sort). Its contract, and those of its callers, state only what
  every order shares.
- Colly crawl plumbing: the collector, the allowed-domain setup, the visited-URL
  map, the request abort on the page limit, link following and
  `SaveToJSON`/`cmd/scraper`. Only the callbacks' decisions are modelled.
- HTML: removing `script, style, nav, footer, header` and taking the DOM text
  happen outside the model. A page enters as its URL, its `<title>` text and
  its remaining DOM text. The title is what Colly's `e.ChildText("title")`
  returns, which is already passed through `strings.TrimSpace`. So a blank
  title arrives as "" and falls back to the URL.
- The chunk loop requires `chunkSize > 0`. With 0 the Go loop never ends, and a
  negative size panics on the slice.
- Search and context building require `topK >= 0`. Go panics when slicing with
  a negative `topK`.
- Failures of `http.NewRequest` are not modelled. The OAuth and recognition URLs
  are constants. The synthesis URL embeds the voice name.
- `createHTTPClient` and the TLS setting are not modelled. Its `SSL_VERIFY`
  rule is the one `GigaChat.SslVerify` states.
- `tokenExpiresAt` is an int64 in Go. The subtraction of the 60 s margin is
  taken without overflow.
- The GigaChat system instruction, `CloseClient` and the model call itself are
  left out. The call's outcome is a parameter.
- Gin routing, the CORS middleware's behaviour on requests, the static
  `GET /` page, `godotenv` and the release-mode switch are left out.
- A JSON decode that fails midway may leave Go's `kb.Chunks` partly
  overwritten. The model keeps the previous chunks on any load failure.
- Package globals are not locked in Go. The model threads the state through
  one call after another and does not model concurrent handlers.
