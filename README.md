# EduSmart Store Assistant backend, modelled in Dafny

This project models the request pipeline of the EduSmart Store Assistant's backend (`backend/main.py`). A shopper sends a chat message in English or in Khmer. The server then:

- reads the last turns of that conversation from a SQLite transcript;
- looks up matching educational products in a vector store;
- writes the products into a prompt for a Gemini language model;
- stores the model's reply as a new turn;
- can voice the reply (gTTS), after cleaning the markup out of the text.

The outside services are inputs of the operations, not part of the model:

- the vector store's answer;
- the language model;
- the speech engine;
- the clock;
- the UUID source;
- whether the database can be reached.

What is modelled is everything the backend itself decides around them.

The modules follow the source's classes:

- `Common` holds `Option`, "occurs inside" (`IsInfix`) and a few generic sequence lemmas.
- `SpeechText` covers `TextToSpeechService`. `clean_text_for_speech` runs six regular-expression substitutions, and each is written out as a recursive string function:
  - the pattern `[**]`, then `[*]` (both delete `*`);
  - `#+`;
  - the lazy, backtracking link pattern `\[.*?\]\(.*?\)`, whose `.` does not cross a line break;
  - `\n+` → `". "`;
  - `\s+` → `" "`;
  - `strip()`.

  The stages compose in the source's order in `SpeechStops` and `CleanTextForSpeech`. Link removal runs after the `*`/`#` deletion and before line breaks become stops. `IsSpace` is Python's `str.isspace()`.
- `Transcript` covers `ConversationMemory`. It is a class whose `rows` field is the `conversation_history` table in insertion order:
  - `StoreConversation` appends a row;
  - `GetConversationHistory` scans the table backwards, keeping the session's rows;
  - `GetConversationHistory` is proved equal to the specification function `Recent` (filter, newest first, SQLite `LIMIT`), and `StoredTurnComesFirst` and `OtherSessionUnaffected` relate an append to it;
  - the memory starts from whatever rows the table already holds.
- `Catalog` covers `ChromaProductSearch`: how a vector-store answer becomes product records, and the fixed two-product demo list as the fallback.
- `Context` covers `get_context`: product records rendered as numbered English or Khmer blocks. The rendering loop is `FormatContext`, proved against `ContextText`.
- `Assistant` covers `EducationStoreRAG.generate_response` and the `/chat` endpoint:
  - start-up client selection;
  - the prompt;
  - the branch structure as a pure function `Respond`;
  - the `StoreAssistant` class, whose `GenerateResponse` updates the transcript;
  - the `UserMessage` request body, whose missing session id `ChatEndpoint` fills in place.

  The fixed replies and prompt texts of both languages are named constants, gathered in `StorePhrasebook`.

Two behaviours of the code worth noting:

- Failures while reading the history do not lead to the apology reply. `get_conversation_history` catches them itself and returns an empty history (`backend/main.py:150-152`), so generation goes on with no history.
- A negative `limit` means "no limit" in SQLite, and `Take` models it that way.

## Model

| member | source | states |
|---|---|---|
| SpeechText.Delete | backend/main.py:100-101 | deleting a character removes every occurrence, keeps exactly the other characters, never lengthens, and leaves text without that character unchanged |
| SpeechText.DeleteCounts | backend/main.py:100-101 | every other character survives as often as it occurs in the input, the deleted one not at all |
| SpeechText.DeleteConcat | backend/main.py:100-101 | deleting from a concatenation deletes from each part, so the surviving characters keep their order |
| SpeechText.DeleteIdempotent | backend/main.py:100-101 | a second deletion pass changes nothing, so the `[*]` substitution after `[**]` is a no-op |
| SpeechText.DeleteRuns | backend/main.py:102 | no `#` remains, and exactly the other characters are kept |
| SpeechText.DeleteRunsIsDelete | backend/main.py:102 | deleting maximal runs of `#` equals deleting every `#` |
| SpeechText.LinkLengthIffTail | backend/main.py:103 | the backtracking matcher finds a match at a `[` exactly when a `](` followed by a `)` exists later on the same line |
| SpeechText.RemoveLinks | backend/main.py:103 | only characters of the input remain, and text without `[` is left unchanged; with `LinkMatchIsShortest` and `RemoveLinksKeepsLinkless`, exactly the lazy matches are deleted |
| SpeechText.LinkMatchIsShortest | backend/main.py:103 | where the pattern matches at a `[`, the match is a link and no shorter prefix is one, so the lazy `.*?` parts stop at the first possible `](` and `)` |
| SpeechText.RemoveLinksKeepsLinkless | backend/main.py:103 | text in which no `[` opens a link, such as a lone `[x]`, passes unchanged |
| SpeechText.RemoveLinksKeepsPlainPrefix | backend/main.py:103 | text before the first `[` is kept as it stands, followed by the link-free form of the rest |
| SpeechText.RemoveLinksLinkFree | backend/main.py:103 | after the link substitution no newline-free `[..](..)` link remains anywhere in the text |
| SpeechText.NewlineRunsToStops | backend/main.py:104 | the result contains no line break; with `StopsKeepLinePrefix` and `StopsRun`, each run of line breaks becomes `". "` and the text around it is kept |
| SpeechText.StopsKeepLinePrefix | backend/main.py:104 | text before the first line break is kept as it stands, followed by the converted rest |
| SpeechText.StopsRun | backend/main.py:104 | a run of line breaks, followed by a non-break or nothing, becomes one `". "` |
| SpeechText.StopsAddNothing | backend/main.py:104 | the newline stage introduces no character other than `.` and space |
| SpeechText.StopsKeepSingleLine | backend/main.py:104 | text without line breaks passes the newline stage unchanged |
| SpeechText.CollapseSpaces | backend/main.py:105 | no two whitespace characters are adjacent, empty exactly when the input is, starts with whitespace exactly when the input does |
| SpeechText.CollapseRun | backend/main.py:105 | a whitespace run, with a non-space after it or nothing, becomes one plain space |
| SpeechText.CollapseConcat | backend/main.py:105 | collapsing works piece by piece at a boundary that is not inside a whitespace run, so the non-whitespace text survives in order |
| SpeechText.CollapseKeepsPlain | backend/main.py:105 | single-spaced text whose only whitespace is the plain space is left unchanged |
| SpeechText.CollapseAddsOnlySpace | backend/main.py:105 | a character absent from the input, or any whitespace other than the plain space, is absent from the output |
| SpeechText.TrimStart | backend/main.py:106 | the result is a suffix of the input, does not start with whitespace, and everything removed is whitespace |
| SpeechText.TrimEnd | backend/main.py:106 | the result is a prefix of the input, does not end with whitespace, and everything removed is whitespace |
| SpeechText.Strip | backend/main.py:106 | the result has no whitespace at either end |
| SpeechText.StripIsSlice | backend/main.py:106 | `strip()` keeps one contiguous slice of its input |
| SpeechText.StripRemovesOnlySpace | backend/main.py:106 | everything `strip()` removes, on either side, is whitespace |
| SpeechText.StripKeepsTrimmed | backend/main.py:106 | text with no whitespace at either end passes `strip()` unchanged |
| SpeechText.SpeechStops | backend/main.py:100-104 | after the first five substitutions no `*`, `#` or line break remains |
| SpeechText.CleanTextForSpeech | backend/main.py:98-106 | the cleaned text has no two adjacent whitespace characters and no whitespace at either end |
| SpeechText.SpokenFormClean | backend/main.py:98-106 | the cleaned text has no `*`, `#` or line break, no two adjacent whitespace characters, only plain spaces as whitespace, and no whitespace at either end |
| SpeechText.CleanKeepsPlainText | backend/main.py:98-106 | text with no `*`, `#`, `[` or line break, single plain spaces and nothing to strip is spoken exactly as written |
| SpeechText.TtsLanguage | backend/main.py:87 | the engine language is `km` exactly for the request language `km`, and `en` otherwise |
| SpeechText.TextToSpeech | backend/main.py:84-96 | the engine receives the cleaned text with `km` for a Khmer request and `en` for any other, and its answer (audio or `None`) is the result |
| Transcript.Matching | backend/main.py:142 | the selected rows are exactly the table's rows of that user and session |
| Transcript.Take | backend/main.py:144 | a non-negative limit keeps that many leading rows (or all), a negative one keeps all, and the result is a prefix |
| Transcript.Recent | backend/main.py:139-146 | the number of rows read is the session's row count, capped by a non-negative limit |
| Transcript.TakeReverse | backend/main.py:143-144 | the first n rows of the reversed list are the last n rows, back to front |
| Transcript.RecentKeepsNewest | backend/main.py:139-146 | under a strictly increasing clock the rows read are the session's last ones, newest first, and every session row left out is older than every row read |
| Transcript.RecentBelongs | backend/main.py:142 | every row read back is a stored row of the requested user and session |
| Transcript.RecentNewestFirst | backend/main.py:143 | under a strictly increasing clock the rows come strictly newest first |
| Transcript.StoredTurnComesFirst | backend/main.py:120-124 | a row just stored is the first one read back for its session, for any non-zero limit |
| Transcript.OtherSessionUnaffected | backend/main.py:142 | storing a row of another user or session leaves a session's history unchanged |
| Transcript.ConversationMemory.constructor | backend/main.py:108-110 | the memory starts with the rows the table already holds, which are in chronological order |
| Transcript.ConversationMemory.StoreConversation | backend/main.py:112-129 | with the database reachable one row with the current time is appended; otherwise nothing changes; the table stays chronological |
| Transcript.ConversationMemory.GetConversationHistory | backend/main.py:131-152 | the backwards scan returns the pairs of `Recent`, or `[]` when the database cannot be reached |
| Catalog.IndexedMetadataRoundTrip | backend/init_database.py:618-632 | reading back the metadata the indexer stores for a product gives that product again |
| Catalog.ToProduct | backend/main.py:179-188 | definition of one hit's record, the eight `metadata.get` calls; its field-by-field meaning is `ToProductFields` |
| Catalog.ToProductFields | backend/main.py:180-187 | every field is the stored value when its key is present, and `''` (price and stock: `0`) when it is missing |
| Catalog.ToProductIgnoresOtherKeys | backend/main.py:179-188 | keys other than the eight product fields make no difference to the record |
| Catalog.Hits | backend/main.py:177-178 | definition: the hits of the one query text, none when the list is empty; used by `SearchResults` |
| Catalog.DemoProducts | backend/main.py:196-219 | the demo list has exactly two products |
| Catalog.SearchResults | backend/main.py:164-194 | never empty; an unavailable store or a failed query gives the demo list; otherwise one record per hit in hit order, unless there are no hits or a hit lacks metadata, which gives the demo list |
| Catalog.SearchProducts | backend/main.py:176-190 | the loop over the hits returns `SearchResults`, never empty |
| Context.LanguageOf | backend/main.py:233-241 | Khmer exactly for the code `km`, English for every other code |
| Context.Numeral | backend/main.py:243 | block numbers are non-empty decimal digit strings without a leading zero |
| Context.NumeralRoundTrip | backend/main.py:243 | the digits of a block number read back as that number |
| Context.Block | backend/main.py:254-268 | definition of one product's block; its contents are stated by `BlockCarriesFields` and `BlockEndsWithBreak` |
| Context.BlockCarriesFields | backend/main.py:244-268 | a block contains the product's name, brand, description, features, category, age range, price and stock |
| Context.BlockEndsWithBreak | backend/main.py:254-268 | a block ends with a line break |
| Context.BlockAt | backend/main.py:238-268 | the listing is the header, then the blocks in input order, the k-th product as block k+1 |
| Context.ContextText | backend/main.py:232-269 | definition of `get_context`'s result; stated by `BlockAt` and `NoMatchIffEmpty` |
| Context.NoMatchIffEmpty | backend/main.py:232-241 | the no-match sentence comes back exactly when the product list is empty |
| Context.FormatContext | backend/main.py:232-269 | the rendering loop returns `ContextText` |
| Context.GetContext | backend/main.py:229-269 | the rendered search results start with the language's header and are never the no-match sentence |
| Assistant.StartupAsWritten | backend/main.py:20-29 | as written the module loads exactly when the LangChain import succeeds |
| Assistant.DirectClientUnreachable | backend/main.py:25-60 | as written the direct Gemini client is never in use: the only configuration that selects it fails at import |
| Assistant.Startup | backend/main.py:46-64 | no key gives demo mode, a key with LangChain gives LangChain, a key without it gives the direct client |
| Assistant.StartupAgrees | backend/main.py:20-64 | wherever the written start-up loads, it picks the intended client |
| Assistant.Prompt | backend/main.py:332-335 | definition of the filled-in template; stated by `PromptCarriesContext` |
| Assistant.PromptCarriesContext | backend/main.py:333-336 | the product context and the conversation both occur verbatim in the prompt |
| Assistant.ModelInput | backend/main.py:341-354 | definition of the text each client receives; stated by `ModelInputCarries` |
| Assistant.ModelInputCarries | backend/main.py:341-354 | a configured client receives both the question and the whole prompt; with no client nothing is sent |
| Assistant.ConversationText | backend/main.py:294-296 | definition of the conversation text, one `User: ..\nAssistant: ..\n` line pair per exchange of the reversed history; stated by `ConversationInOrder` |
| Assistant.RenderConversation | backend/main.py:294-296 | the loop over the reversed history returns `ConversationText` |
| Assistant.ConversationInOrder | backend/main.py:288-296 | the history read back is chronological once reversed, and the prompt shows its lines oldest first |
| Assistant.StoredExchangeClosesNextConversation | backend/main.py:288-296 | once an exchange is stored, the next prompt of that session ends its conversation with `User: ..\nAssistant: ..\n` of that exchange |
| Assistant.Respond | backend/main.py:274-385 | definition of `generate_response`'s branches; stated by the five lemmas below |
| Assistant.DemoWithoutModel | backend/main.py:274-285 | with no model the language's demo sentence is returned, nothing is stored, and history, products and model do not matter |
| Assistant.ModelTextPassedOn | backend/main.py:341-368 | a model reply is returned unchanged and exactly that text is stored |
| Assistant.ApologyWhenModelRaises | backend/main.py:370-385 | when the model raises, the language's apology is returned and nothing is stored |
| Assistant.StoredIffAnswered | backend/main.py:357-385 | a turn is stored exactly when a configured model answered |
| Assistant.AudioAsRequested | backend/main.py:360-379 | on every path the response type is echoed and audio is the voiced reply text exactly for `voice` and `both` |
| Assistant.Generation | backend/main.py:271-385 | definition of `generate_response` against the stored rows: the default-limit history (or none when unreadable) and the rendered search results fed to `Respond` |
| Assistant.RowsAfter | backend/main.py:357-358 | rows are only appended, one exactly when a reply was stored and the database could be written |
| Assistant.TextOnlyReplyHasNoAudio | backend/main.py:360-362 | a request that asks for neither voice nor both gets no audio, sent as `""` |
| Assistant.NextHistoryStartsWithExchange | backend/main.py:120-146 | after a stored reply, the same session's next history read starts with that exchange |
| Assistant.AskModel | backend/main.py:294-368 | with a client, the prompt, model call, voicing and storing give `Respond`'s outcome; with none, the apology and nothing stored |
| Assistant.StoreAssistant.constructor | backend/main.py:222-227 | a new assistant has the given client, the store's wording and a fresh transcript holding the rows the table already has |
| Assistant.StoreAssistant.GenerateResponse | backend/main.py:271-385 | the reply is `Generation`'s, and the table gains exactly the stored turn when it is writable; the table stays chronological |
| Assistant.SessionOf | backend/main.py:403-404 | a given non-empty session id is kept, otherwise the fresh one is used, so it is never empty |
| Assistant.UserMessage.constructor | backend/main.py:66-71 | the request body keeps the given fields, with `response_type` defaulting to `both` and `language` to `en` |
| Assistant.ChatEndpoint | backend/main.py:400-437 | the request's session id is filled in place and echoed with the response type and clock reading; the text and audio are the generated ones, or the language's apology with `""` audio when building the response fails |

## Left out

- Speech synthesis: gTTS and the base64 encoding (`backend/main.py:88-93`) are the `engine` parameter of `TextToSpeech`. The engine returns audio or `None`, and its failure is `None`.
- The vector query and the embeddings (`backend/main.py:157-158,171-174`) are the `SearchOutcome` input of the search. The store's own ranking and the `n_results = 5` bound belong to the store and are not modelled.
- `Catalog.SearchResults`: `results['metadatas']` of `None` is treated like an empty list, since both give the demo products.
- The Gemini and LangChain calls (`backend/main.py:346,351`) are the `llm` parameter, which returns a reply text or `Raised`.
- The prompt wording is kept as named constants, and only the facts that the question, context and conversation reach the model verbatim are proved.
- SQLite connection handling (`backend/main.py:387-395`) becomes the per-call flags `reachable`, `historyReadable` and `storeWritable`. The auto-increment id and the `created_at` column are not modelled.
- `Transcript.Recent`: `ORDER BY timestamp DESC` is modelled as reverse insertion order. That requires a strictly increasing clock (`ClockAfter`), so rows with equal timestamps, whose order SQLite leaves open, are not modelled.
- Prices and stock are the text Python renders for them. Float formatting (`${price}`, `backend/main.py:258,266`) is not modelled, and the demo prices are written as `149.99` and `129.99`.
- The UUID (`backend/main.py:404`) and the clock (`backend/main.py:124,422`) are the parameters `freshId`, `now` and `nowIso`.
- `Assistant.ChatEndpoint`: the catch-all (`backend/main.py:425-437`) is modelled as the flag `assemblyFails`, for a failure after `generate_response` has returned. `generate_response` catches its own failures. The line-434 fallback `session_id or uuid4()` cannot matter, because the session id is filled in before anything can fail.
- FastAPI routing, CORS, static files, `/health` and `/test-db` (`backend/main.py:37-44,439-479`) are HTTP plumbing. `async` involves no concurrency logic.
- `ConversationMemory.max_history` (`backend/main.py:110`) is never read, so it is not modelled.
- Logging is not modelled.
- `backend/init_database.py` is used only for the shape of the metadata it stores (`IndexedMetadataRoundTrip`). Its table creation and data are not modelled.
- Strings are sequences of Unicode code points, with no normalisation. Those are the units `re` and `str.isspace()` work on.

## Findings

| source | as written | input that shows it | evidently intended | confidence | as-written member | corrected member |
|---|---|---|---|---|---|---|
| backend/main.py:25-29 | the `except ImportError` handler logs through `logger`, which is only bound at line 35, so a failed LangChain import raises `NameError` and the module does not load | `GEMINI_API_KEY` set and `langchain_google_genai` not installed | log the warning and fall back to the direct Gemini client of lines 57-60 | not executed | Assistant.StartupAsWritten, Assistant.DirectClientUnreachable | Assistant.Startup, Assistant.StartupAgrees |
