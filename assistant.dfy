/** The request pipeline: EducationStoreRAG.generate_response and the /chat
    endpoint. The language model, the speech engine, the vector store's
    answer, the clock and the UUID source are inputs of the operations. */
module Assistant {
  import opened Common
  import opened SpeechText
  import opened Transcript
  import opened Catalog
  import opened Context

  // --- start-up configuration ------------------------------------------

  /** The Gemini client the server talks to, if any. */
  datatype ModelClient = NoModel | LangChain | Direct

  /** Start-up as written: `None` when the module does not load. A failed
      LangChain import is handled by logging through `logger`, which is only
      bound further down the file, so the handler itself raises NameError. */
  function StartupAsWritten(apiKeySet: bool, langchainImported: bool): (c: Option<ModelClient>)
    ensures c.Some? <==> langchainImported
  {
    if !langchainImported then None
    else if apiKeySet then Some(LangChain)
    else Some(NoModel)
  }

  /** As written, the direct Gemini client is never the one in use: the only
      configuration that selects it is the one in which the module fails. */
  lemma DirectClientUnreachable(apiKeySet: bool, langchainImported: bool)
    ensures StartupAsWritten(apiKeySet, langchainImported) != Some(Direct)
    ensures StartupAsWritten(true, false) == None
  {
  }

  /** The intended start-up: no key means no model (demo replies); a key with
      LangChain available means LangChain; a key without it means the direct
      client. */
  function Startup(apiKeySet: bool, langchainImported: bool): (c: ModelClient)
    ensures c == NoModel <==> !apiKeySet
    ensures c == Direct <==> apiKeySet && !langchainImported
    ensures c == LangChain <==> apiKeySet && langchainImported
  {
    if !apiKeySet then NoModel
    else if langchainImported then LangChain
    else Direct
  }

  /** Wherever the written start-up succeeds, it agrees with the intended one. */
  lemma StartupAgrees(apiKeySet: bool, langchainImported: bool)
    requires StartupAsWritten(apiKeySet, langchainImported).Some?
    ensures StartupAsWritten(apiKeySet, langchainImported) == Some(Startup(apiKeySet, langchainImported))
  {
  }

  // --- fixed wording ---------------------------------------------------

  const DemoEnglish: string := "I'm here to help with education store products! Currently running in demo mode. Please configure GEMINI_API_KEY for AI responses."
  const DemoKhmer: string := "ខ្ញុំនៅទីនេះដើម្បីជួយអ្នកជាមួយផលិតផលហាងអប់រំ! បច្ចុប្បន្នដំណើរការក្នុងរបៀបសាកល្បង។ សូមកំណត់ GEMINI_API_KEY សម្រាប់ការឆ្លើយតប AI។"
  const ApologyEnglish: string := "I apologize, but I'm having trouble processing your request right now. Please try again in a moment."
  const ApologyKhmer: string := "សូមអភ័យទោស ខ្ញុំមានបញ្ហាក្នុងការដំណើរការសំណើរបស់អ្នកឥឡូវនេះ។ សូមព្យាយាមម្តងទៀត។"
  const PromptHeadEnglish: string := "You are a friendly and knowledgeable assistant for \"EduSmart Store\", an education supplies retailer. \nHelp customers with product inquiries, recommendations, and educational advice.\n\nSTORE INFORMATION:\n- We specialize in educational materials for all ages\n- Products include STEM kits, books, art supplies, classroom equipment\n- We offer products for teachers, parents, and students\n- Price range: $5 - $500\n\n"
  const PromptTailEnglish: string := "\n\nPlease respond in English and use the product information above to provide helpful responses.\nMaintain natural conversation flow and be positive about learning and education."
  const PromptHeadKhmer: string := "អ្នកគឺជាជំនួយការដែលមានចំណេះដឹង និងរួសរាយសម្រាប់ \"ហាង EduSmart\" ដែលជាហាងលក់ផលិតផលអប់រំ។ \nជួយអតិថិជនជាមួយនឹងការស្វែងរកផលិតផល ការណែនាំ និងដំបូន្មានអប់រំ។\n\nព័ត៌មានហាង៖\n- យើងឯកទេសក្នុងការផ្គត់ផ្គង់សម្ភារៈអប់រំសម្រាប់អាយុគ្រប់ប្រភេទ\n- ផលិតផលរួមមានឧបករណ៍ STEM សៀវភៅ គ្រឿងសិល្បៈ ឧបករណ៍បន្ទប់រៀន\n- យើងផ្តល់ផលិតផលសម្រាប់គ្រូ ឪពុកម្តាយ និងសិស្ស\n- ជួរតម្លៃ៖ ៥$ - ៥០០$\n\n"
  const PromptTailKhmer: string := "\n\nសូមឆ្លើយតបជាភាសាខ្មែរ និងប្រើប្រាស់ព័ត៌មានផលិតផលខាងលើដើម្បីផ្តល់ចម្លើយដែលមានប្រយោជន៍។\nរក្សាការសន្ទនាធម្មជាតិ និងលើកទឹកចិត្តអំពីការរៀនសូត្រ។"

  /** The fixed texts of one language: the reply when no model is configured,
      the reply when producing a reply fails, and the store instructions
      before the product context and after the conversation. */
  datatype Wording = Wording(demo: string, apology: string, promptHead: string, promptTail: string)

  /** The wording of both languages. */
  datatype Phrasebook = Phrasebook(english: Wording, khmer: Wording)
  {
    function For(l: Language): Wording
    {
      match l
      case English => english
      case Khmer => khmer
    }
  }

  /** The texts `generate_response` uses. */
  const StorePhrasebook: Phrasebook :=
    Phrasebook(Wording(DemoEnglish, ApologyEnglish, PromptHeadEnglish, PromptTailEnglish),
               Wording(DemoKhmer, ApologyKhmer, PromptHeadKhmer, PromptTailKhmer))

  /** `system_prompt.format(...)`: the template, whose only fields are the
      product context and the conversation, filled in. */
  function Prompt(w: Wording, productContext: string, conversation: string): string
  {
    w.promptHead + productContext + ("\n\n" + conversation + w.promptTail)
  }

  /** Both filled-in parts reach the prompt verbatim. */
  lemma PromptCarriesContext(w: Wording, productContext: string, conversation: string)
    ensures IsInfix(productContext, Prompt(w, productContext, conversation))
    ensures IsInfix(conversation, Prompt(w, productContext, conversation))
  {
    var head := w.promptHead + productContext + "\n\n";
    InfixOfConcat(w.promptHead, productContext, "\n\n" + conversation + w.promptTail);
    InfixOfConcat(head, conversation, w.promptTail);
    assert head + conversation + w.promptTail == Prompt(w, productContext, conversation);
  }

  /** The text sent to the model: LangChain gets the question followed by the
      prompt as context, the direct client the prompt followed by the
      question; with no client there is nothing to send ("No AI model
      available" is raised). */
  function ModelInput(client: ModelClient, prompt: string, message: string): Option<string>
  {
    match client
    case NoModel => None
    case LangChain => Some("User question: " + message + "\n\nContext: " + prompt)
    case Direct => Some(prompt + "\n\nCurrent user question: " + message + "\n\nResponse:")
  }

  /** Every configured client receives both the user's question and the whole
      prompt verbatim. */
  lemma ModelInputCarries(client: ModelClient, prompt: string, message: string)
    ensures ModelInput(client, prompt, message).Some? <==> client != NoModel
    ensures client != NoModel ==>
              IsInfix(message, ModelInput(client, prompt, message).value)
              && IsInfix(prompt, ModelInput(client, prompt, message).value)
  {
    match client
    case NoModel =>
    case LangChain =>
      InfixesAfterText("User question: ", message, "\n\nContext: ", prompt);
    case Direct =>
      InfixesBeforeText(prompt, "\n\nCurrent user question: ", message, "\n\nResponse:");
  }

  // --- the conversation in the prompt ----------------------------------

  /** One exchange as the prompt shows it. */
  function HistoryLine(e: Exchange): string
  {
    "User: " + e.0 + "\nAssistant: " + e.1 + "\n"
  }

  /** The exchanges' lines in the given order. */
  function Lines(es: seq<Exchange>): string
  {
    if es == [] then "" else HistoryLine(es[0]) + Lines(es[1..])
  }

  /** The conversation as the prompt shows it: the history arrives newest
      first and is written out reversed. */
  function ConversationText(history: seq<Exchange>): string
  {
    Lines(Reverse(history))
  }

  lemma {:induction false} LinesSnoc(es: seq<Exchange>, e: Exchange)
    ensures Lines(es + [e]) == Lines(es) + HistoryLine(e)
  {
    if es == [] {
      assert [] + [e] == [e];
    } else {
      assert (es + [e])[0] == es[0] && (es + [e])[1..] == es[1..] + [e];
      LinesSnoc(es[1..], e);
      ConcatAssoc(HistoryLine(es[0]), Lines(es[1..]), HistoryLine(e));
    }
  }

  /** The loop over `reversed(history)`. */
  method RenderConversation(history: seq<Exchange>) returns (conversation: string)
    ensures conversation == ConversationText(history)
  {
    conversation := "";
    var i := |history|;
    assert history[i..] == [];
    while i > 0
      invariant 0 <= i <= |history|
      invariant conversation == ConversationText(history[i..])
    {
      assert history[i - 1..] == [history[i - 1]] + history[i..];
      ReverseConsSnoc(history[i - 1], history[i..]);
      LinesSnoc(Reverse(history[i..]), history[i - 1]);
      conversation := conversation + HistoryLine(history[i - 1]);
      i := i - 1;
    }
    assert history[0..] == history;
  }

  lemma ReverseExchanges(ts: seq<Turn>)
    ensures Reverse(Exchanges(ts)) == Exchanges(Reverse(ts))
  {
    var a := Reverse(Exchanges(ts));
    var b := Exchanges(Reverse(ts));
    assert |a| == |b|;
    forall i | 0 <= i < |a| ensures a[i] == b[i] {
      assert a[i] == Exchanges(ts)[|ts| - 1 - i];
    }
  }

  /** Under a strictly increasing clock, the conversation in the prompt is
      the session's recent turns in the order they happened. */
  lemma ConversationInOrder(rows: seq<Turn>, userId: string, sessionId: string, limit: int)
    requires Chronological(rows)
    ensures var recent := Recent(rows, userId, sessionId, limit);
            Chronological(Reverse(recent))
            && ConversationText(Exchanges(recent)) == Lines(Exchanges(Reverse(recent)))
  {
    var recent := Recent(rows, userId, sessionId, limit);
    RecentNewestFirst(rows, userId, sessionId, limit);
    ReverseNewestFirst(recent);
    ReverseExchanges(recent);
  }

  /** Once an exchange is stored, the next prompt of that session ends its
      conversation with that exchange. */
  lemma StoredExchangeClosesNextConversation(rows: seq<Turn>, t: Turn)
    ensures var c := ConversationText(Exchanges(Recent(rows + [t], t.userId, t.sessionId, DefaultHistoryLimit)));
            var line := HistoryLine((t.userMessage, t.assistantResponse));
            |line| <= |c| && c[|c| - |line|..] == line
  {
    var recent := Recent(rows + [t], t.userId, t.sessionId, DefaultHistoryLimit);
    StoredTurnComesFirst(rows, t, DefaultHistoryLimit);
    var h := Exchanges(recent);
    assert h == [h[0]] + h[1..];
    ReverseConsSnoc(h[0], h[1..]);
    LinesSnoc(Reverse(h[1..]), h[0]);
  }

  // --- one reply ---------------------------------------------------------

  /** What the model call gives: its text, or an exception. */
  datatype ModelReply = Replied(text: string) | Raised

  /** The dictionary `generate_response` returns. */
  datatype Reply = Reply(text: string, audio: Option<string>, responseType: string)

  /** A reply and the assistant text that was handed to the transcript, if any. */
  datatype Outcome = Outcome(reply: Reply, stored: Option<string>)

  /** Speech is produced for the response types "voice" and "both". */
  predicate WantsAudio(responseType: string)
  {
    responseType == "voice" || responseType == "both"
  }

  /** The audio for `text`, when the response type asks for it. */
  function Voiced(text: string, responseType: string, language: string,
                  tts: (string, string) -> Option<string>): Option<string>
  {
    if WantsAudio(responseType) then TextToSpeech(text, language, tts) else None
  }

  /** The model's answer to the input of this request. */
  function Answer(phrases: Phrasebook, client: ModelClient, message: string, history: seq<Exchange>,
                  productContext: string, language: string, llm: string -> ModelReply): ModelReply
  {
    var w := phrases.For(LanguageOf(language));
    var input := ModelInput(client, Prompt(w, productContext, ConversationText(history)), message);
    if input.Some? then llm(input.value) else Raised
  }

  /** `generate_response`, given the history read, the product context and
      the model's answer to each possible input. */
  function Respond(phrases: Phrasebook, client: ModelClient, message: string, history: seq<Exchange>,
                   productContext: string, responseType: string, language: string,
                   llm: string -> ModelReply, tts: (string, string) -> Option<string>): Outcome
  {
    var w := phrases.For(LanguageOf(language));
    if client == NoModel then
      Outcome(Reply(w.demo, Voiced(w.demo, responseType, language, tts), responseType), None)
    else
      match Answer(phrases, client, message, history, productContext, language, llm)
      case Raised =>
        Outcome(Reply(w.apology, Voiced(w.apology, responseType, language, tts), responseType), None)
      case Replied(text) =>
        Outcome(Reply(text, Voiced(text, responseType, language, tts), responseType), Some(text))
  }

  /** Without a model the demo sentence of the language comes back, nothing is
      stored, and neither the history, the products nor any model matter. */
  lemma DemoWithoutModel(phrases: Phrasebook, message: string, history: seq<Exchange>, productContext: string,
                         history': seq<Exchange>, productContext': string,
                         responseType: string, language: string,
                         llm: string -> ModelReply, llm': string -> ModelReply, tts: (string, string) -> Option<string>)
    ensures var o := Respond(phrases, NoModel, message, history, productContext, responseType, language, llm, tts);
            o.reply.text == phrases.For(LanguageOf(language)).demo && o.stored == None
            && o == Respond(phrases, NoModel, message, history', productContext', responseType, language, llm', tts)
  {
  }

  /** A model reply is passed on unchanged and is exactly what is stored. */
  lemma ModelTextPassedOn(phrases: Phrasebook, client: ModelClient, message: string, history: seq<Exchange>, productContext: string,
                          responseType: string, language: string,
                          llm: string -> ModelReply, tts: (string, string) -> Option<string>)
    requires Answer(phrases, client, message, history, productContext, language, llm).Replied?
    ensures var o := Respond(phrases, client, message, history, productContext, responseType, language, llm, tts);
            client != NoModel
            && o.reply.text == Answer(phrases, client, message, history, productContext, language, llm).text
            && o.stored == Some(o.reply.text)
  {
  }

  /** When the model raises, the apology of the language comes back and
      nothing is stored. */
  lemma ApologyWhenModelRaises(phrases: Phrasebook, client: ModelClient, message: string, history: seq<Exchange>, productContext: string,
                               responseType: string, language: string,
                               llm: string -> ModelReply, tts: (string, string) -> Option<string>)
    requires client != NoModel
    requires Answer(phrases, client, message, history, productContext, language, llm) == Raised
    ensures var o := Respond(phrases, client, message, history, productContext, responseType, language, llm, tts);
            o.reply.text == phrases.For(LanguageOf(language)).apology && o.stored == None
  {
  }

  /** Something is stored exactly when a configured model answered. */
  lemma StoredIffAnswered(phrases: Phrasebook, client: ModelClient, message: string, history: seq<Exchange>, productContext: string,
                          responseType: string, language: string,
                          llm: string -> ModelReply, tts: (string, string) -> Option<string>)
    ensures var o := Respond(phrases, client, message, history, productContext, responseType, language, llm, tts);
            o.stored.Some?
            <==> client != NoModel && Answer(phrases, client, message, history, productContext, language, llm).Replied?
  {
  }

  /** Whatever the path, the response type is echoed and the audio is the
      spoken form of the reply text exactly when "voice" or "both" was asked
      for. */
  lemma AudioAsRequested(phrases: Phrasebook, client: ModelClient, message: string, history: seq<Exchange>, productContext: string,
                         responseType: string, language: string,
                         llm: string -> ModelReply, tts: (string, string) -> Option<string>)
    ensures var o := Respond(phrases, client, message, history, productContext, responseType, language, llm, tts);
            o.reply.responseType == responseType
            && o.reply.audio == if WantsAudio(responseType) then TextToSpeech(o.reply.text, language, tts) else None
  {
  }

  /** The outcome of `generate_response` against the stored rows: the
      history read with the default limit (or nothing when the database cannot
      be read) and the context rendered from the search outcome. */
  function Generation(phrases: Phrasebook, rows: seq<Turn>, client: ModelClient, message: string, userId: string, sessionId: string,
                      responseType: string, language: string, search: SearchOutcome, historyReadable: bool,
                      llm: string -> ModelReply, tts: (string, string) -> Option<string>): Outcome
  {
    var history := if historyReadable then Exchanges(Recent(rows, userId, sessionId, DefaultHistoryLimit)) else [];
    Respond(phrases, client, message, history, ContextText(SearchResults(search), LanguageOf(language)),
            responseType, language, llm, tts)
  }

  /** The rows after the outcome `o`: the stored text appended as a new turn
      when the database can be written. Rows are only ever appended, and
      exactly one is added when a reply was stored and the write succeeded. */
  function RowsAfter(rows: seq<Turn>, o: Outcome, userId: string, sessionId: string, message: string,
                     now: int, storeWritable: bool): (r: seq<Turn>)
    ensures rows <= r && |r| <= |rows| + 1
    ensures |r| == |rows| + 1 <==> o.stored.Some? && storeWritable
  {
    if o.stored.Some? && storeWritable then rows + [Turn(userId, sessionId, message, o.stored.value, now)]
    else rows
  }

  /** A "text" request gets no audio, which the endpoint sends as `""`. */
  lemma TextOnlyReplyHasNoAudio(phrases: Phrasebook, rows: seq<Turn>, client: ModelClient, message: string,
                                userId: string, sessionId: string, responseType: string, language: string,
                                search: SearchOutcome, historyReadable: bool,
                                llm: string -> ModelReply, tts: (string, string) -> Option<string>)
    requires !WantsAudio(responseType)
    ensures var o := Generation(phrases, rows, client, message, userId, sessionId, responseType, language,
                                search, historyReadable, llm, tts);
            o.reply.audio == None && AudioField(o.reply.audio) == ""
  {
  }

  /** After a stored reply, the next request of the same session reads that
      exchange back first. */
  lemma NextHistoryStartsWithExchange(rows: seq<Turn>, o: Outcome, userId: string, sessionId: string,
                                      message: string, now: int)
    requires o.stored.Some?
    ensures var h := Exchanges(Recent(RowsAfter(rows, o, userId, sessionId, message, now, true),
                                      userId, sessionId, DefaultHistoryLimit));
            |h| > 0 && h[0] == (message, o.stored.value)
  {
    StoredTurnComesFirst(rows, Turn(userId, sessionId, message, o.stored.value, now), DefaultHistoryLimit);
  }

  /** The part of `generate_response` after the history and the products
      are fetched: the conversation and prompt are built, the configured
      client is called, the reply is voiced if asked for, and the model's
      text is handed back for storing. With no client the source raises "No
      AI model available", which ends in the apology. */
  method AskModel(phrases: Phrasebook, client: ModelClient, message: string, history: seq<Exchange>,
                  productContext: string, responseType: string, language: string,
                  llm: string -> ModelReply, tts: (string, string) -> Option<string>)
    returns (reply: Reply, stored: Option<string>)
    ensures client != NoModel ==>
              Outcome(reply, stored) == Respond(phrases, client, message, history, productContext, responseType,
                                                language, llm, tts)
    ensures client == NoModel ==>
              reply.text == phrases.For(LanguageOf(language)).apology && stored == None
  {
    var w := phrases.For(LanguageOf(language));
    var conversation := RenderConversation(history);
    var prompt := Prompt(w, productContext, conversation);
    var input := ModelInput(client, prompt, message);
    var answer := if input.Some? then llm(input.value) else Raised;
    assert answer == Answer(phrases, client, message, history, productContext, language, llm);
    match answer {
      case Raised =>
        reply := Reply(w.apology, Voiced(w.apology, responseType, language, tts), responseType);
        stored := None;
      case Replied(text) =>
        reply := Reply(text, Voiced(text, responseType, language, tts), responseType);
        stored := Some(text);
    }
  }

  // --- the assistant object --------------------------------------------

  /** EducationStoreRAG: the transcript it owns, the client chosen at
      start-up and the fixed wording of its replies and prompts. */
  class StoreAssistant {
    const memory: ConversationMemory
    const client: ModelClient
    const phrases: Phrasebook

    /** The client chosen at start-up; the transcript is the table as it
        already stands in the database. */
    constructor (client: ModelClient, existing: seq<Turn>)
      requires Chronological(existing)
      ensures this.client == client && phrases == StorePhrasebook
      ensures fresh(memory) && memory.Valid() && memory.rows == existing
    {
      this.client := client;
      phrases := StorePhrasebook;
      memory := new ConversationMemory(existing);
    }

    /** `generate_response`. */
    method GenerateResponse(message: string, userId: string, sessionId: string, responseType: string,
                            language: string, search: SearchOutcome, llm: string -> ModelReply,
                            tts: (string, string) -> Option<string>, now: int,
                            historyReadable: bool, storeWritable: bool)
      returns (reply: Reply)
      requires memory.Valid() && ClockAfter(memory.rows, now)
      modifies memory
      ensures memory.Valid()
      ensures var o := Generation(phrases, old(memory.rows), client, message, userId, sessionId, responseType, language,
                                  search, historyReadable, llm, tts);
              reply == o.reply
              && memory.rows == RowsAfter(old(memory.rows), o, userId, sessionId, message, now, storeWritable)
    {
      var w := phrases.For(LanguageOf(language));
      if client == NoModel {
        reply := Reply(w.demo, Voiced(w.demo, responseType, language, tts), responseType);
        return;
      }
      var history := memory.GetConversationHistory(userId, sessionId, DefaultHistoryLimit, historyReadable);
      var productContext := GetContext(search, language);
      var stored;
      reply, stored := AskModel(phrases, client, message, history, productContext, responseType, language, llm, tts);
      if stored.Some? {
        memory.StoreConversation(userId, sessionId, message, stored.value, now, storeWritable);
      }
    }
  }

  // --- the /chat endpoint ----------------------------------------------

  /** The UserMessage request body; `response_type` defaults to "both" and
      `language` to "en". The endpoint fills in a missing session id in
      place. */
  class UserMessage {
    const message: string
    const userId: string
    var sessionId: Option<string>
    const responseType: string
    const language: string

    constructor (message: string, userId: string, sessionId: Option<string> := None,
                 responseType: string := "both", language: string := "en")
      ensures this.message == message && this.userId == userId && this.sessionId == sessionId
      ensures this.responseType == responseType && this.language == language
    {
      this.message := message;
      this.userId := userId;
      this.sessionId := sessionId;
      this.responseType := responseType;
      this.language := language;
    }
  }

  /** The AssistantResponse body. */
  datatype ChatResponse = ChatResponse(text: string, audioData: string, sessionId: string,
                                       responseType: string, timestamp: string)

  /** The session a request belongs to: its own id when it brings a non-empty
      one, otherwise the freshly drawn id. */
  function SessionOf(given: Option<string>, freshId: string): (s: string)
    ensures freshId != "" ==> s != ""
    ensures given.Some? && given.value != "" ==> s == given.value
    ensures !(given.Some? && given.value != "") ==> s == freshId
  {
    if given.Some? && given.value != "" then given.value else freshId
  }

  /** `audio_data or ""`. */
  function AudioField(audio: Option<string>): (field: string)
    ensures audio == None ==> field == ""
    ensures audio.Some? ==> field == audio.value
  {
    if audio.Some? then audio.value else ""
  }

  /** `chat_endpoint`. `freshId` is the UUID drawn for a request without a
      session, `nowIso` the UTC clock reading, and `assemblyFails` says that
      building the response body raises, which sends the endpoint into its own
      apology (after the turn may already have been stored). */
  method ChatEndpoint(assistant: StoreAssistant, request: UserMessage, search: SearchOutcome,
                      llm: string -> ModelReply, tts: (string, string) -> Option<string>, now: int,
                      historyReadable: bool, storeWritable: bool, freshId: string, nowIso: string,
                      assemblyFails: bool)
    returns (response: ChatResponse)
    requires assistant.memory.Valid() && ClockAfter(assistant.memory.rows, now)
    requires freshId != ""
    modifies assistant.memory, request
    ensures assistant.memory.Valid()
    ensures request.sessionId == Some(SessionOf(old(request.sessionId), freshId))
    ensures response.sessionId == SessionOf(old(request.sessionId), freshId) && response.sessionId != ""
    ensures response.responseType == request.responseType && response.timestamp == nowIso
    ensures var o := Generation(assistant.phrases, old(assistant.memory.rows), assistant.client, request.message,
                                request.userId, SessionOf(old(request.sessionId), freshId), request.responseType,
                                request.language, search, historyReadable, llm, tts);
            assistant.memory.rows
              == RowsAfter(old(assistant.memory.rows), o, request.userId, SessionOf(old(request.sessionId), freshId),
                           request.message, now, storeWritable)
            && if assemblyFails
               then response.text == assistant.phrases.For(LanguageOf(request.language)).apology
                    && response.audioData == ""
               else response.text == o.reply.text && response.audioData == AudioField(o.reply.audio)
  {
    if !(request.sessionId.Some? && request.sessionId.value != "") {
      request.sessionId := Some(freshId);
    }
    var sessionId := request.sessionId.value;
    var reply := assistant.GenerateResponse(request.message, request.userId, sessionId, request.responseType,
                                            request.language, search, llm, tts, now,
                                            historyReadable, storeWritable);
    if assemblyFails {
      response := ChatResponse(assistant.phrases.For(LanguageOf(request.language)).apology, "", sessionId,
                               request.responseType, nowIso);
    } else {
      response := ChatResponse(reply.text, AudioField(reply.audio), sessionId, request.responseType, nowIso);
    }
  }
}
