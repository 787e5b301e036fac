/** The document-scoped AI routes (`routes/ai.js`). Each handler runs its input
    guard first, then the ownership lookup, then the extracted-text check, and only
    then the inference service; a thrown service error becomes a 500 carrying its
    message. Chat and explain are mounted behind the sanitising middleware. */
module AiRoutes {
  import opened Common
  import opened Json
  import Llama
  import Sanitize
  import opened Documents

  type Docs = map<Id, Document>

  const QuestionRequired := Failure(400, "Question is required")
  const ConceptRequired := Failure(400, "Concept is required")
  const DocumentNotFound := Failure(404, "Document not found or access denied")
  const TextUnavailable := Failure(400, "Document text not available. " + "The PDF might not have extractable text.")
  const FlashcardCountOutOfRange := Failure(400, "Flashcard count must be between 1 and 20")
  const QuestionCountOutOfRange := Failure(400, "Question count must be between 1 and 15")

  const DefaultFlashcardCount := 10
  const MaxFlashcardCount := 20
  const DefaultQuestionCount := 5
  const MaxQuestionCount := 15

  /** `!field || field.trim().length === 0` */
  predicate Missing(field: Option<string>) {
    field.None? || IsBlank(field.value)
  }

  /** A service error as the 500 reply carries it. */
  function ServiceFailure(e: Llama.InferenceError): (f: Failure)
    ensures f.status == 500 && f.message != []
  {
    var m := Llama.ErrorMessage(e);
    assert m[0] in "OMA";
    Failure(500, m)
  }

  /** The two checks every generation route makes after its input guard: the
      document belongs to the user (404), and it has extracted text (400). */
  function DocumentText(docs: Docs, user: Id, id: Id): (r: Result<string, Failure>)
    ensures r == Err(DocumentNotFound) <==> !(id in docs && docs[id].userId == user)
    ensures r == Err(TextUnavailable) <==> id in docs && docs[id].userId == user && !HasText(docs[id])
    ensures r.Ok? <==> id in docs && docs[id].userId == user && HasText(docs[id])
    ensures r.Ok? ==> r.value == docs[id].extractedText.value && r.value != []
  {
    match FindOwned(docs, id, user)
    case None => Err(DocumentNotFound)
    case Some(d) => if HasText(d) then Ok(d.extractedText.value) else Err(TextUnavailable)
  }

  // ---------------------------------------------------------------------------
  // Chat and explain

  datatype ChatReply = ChatReply(answer: string, question: string)

  /** `POST /chat/:documentId` on an already sanitised body. */
  function Chat(docs: Docs, user: Id, id: Id, question: Option<string>,
                endpoint: Llama.Request -> Llama.Outcome, model: string): (r: Result<ChatReply, Failure>)
    ensures r == Err(QuestionRequired) <==> Missing(question)
    ensures !Missing(question) && DocumentText(docs, user, id).Err? ==> r == Err(DocumentText(docs, user, id).error)
    ensures r.Ok? <==> !Missing(question) && DocumentText(docs, user, id).Ok?
                       && Llama.Chat(DocumentText(docs, user, id).value, question.value, endpoint, model).Ok?
    ensures r.Ok? ==> r.value == ChatReply(Llama.Chat(DocumentText(docs, user, id).value, question.value, endpoint, model).value,
                                           question.value)
    ensures r.Err? && r.error.status == 500 ==>
              !Missing(question) && DocumentText(docs, user, id).Ok?
              && r.error == ServiceFailure(Llama.Chat(DocumentText(docs, user, id).value, question.value, endpoint, model).error)
    ensures && !Missing(question) && DocumentText(docs, user, id).Ok?
            && Llama.Chat(DocumentText(docs, user, id).value, question.value, endpoint, model).Err?
            ==> r == Err(ServiceFailure(Llama.Chat(DocumentText(docs, user, id).value, question.value, endpoint, model).error))
  {
    if Missing(question) then Err(QuestionRequired)
    else match DocumentText(docs, user, id)
      case Err(f) => Err(f)
      case Ok(text) =>
        match Llama.Chat(text, question.value, endpoint, model)
        case Err(e) => Err(ServiceFailure(e))
        case Ok(answer) => Ok(ChatReply(answer, question.value))
  }

  /** The chat route as mounted: the middleware cleans the body, then the handler runs. */
  function ChatRoute<Rest>(docs: Docs, user: Id, id: Id, body: Sanitize.Body<Rest>,
                           endpoint: Llama.Request -> Llama.Outcome, model: string): (r: Result<ChatReply, Failure>)
    ensures r.Ok? ==> |r.value.question| <= Sanitize.QuestionLimit && Sanitize.NoTag(r.value.question)
  {
    Chat(docs, user, id, Sanitize.SanitizeBody(body).question, endpoint, model)
  }

  datatype ExplainReply = ExplainReply(explanation: string, concept: string)

  /** `POST /explain/:documentId` on an already sanitised body. */
  function Explain(docs: Docs, user: Id, id: Id, concept: Option<string>,
                   endpoint: Llama.Request -> Llama.Outcome, model: string): (r: Result<ExplainReply, Failure>)
    ensures r == Err(ConceptRequired) <==> Missing(concept)
    ensures !Missing(concept) && DocumentText(docs, user, id).Err? ==> r == Err(DocumentText(docs, user, id).error)
    ensures r.Ok? <==> !Missing(concept) && DocumentText(docs, user, id).Ok?
                       && Llama.Explain(DocumentText(docs, user, id).value, concept.value, endpoint, model).Ok?
    ensures r.Ok? ==> r.value == ExplainReply(Llama.Explain(DocumentText(docs, user, id).value, concept.value, endpoint, model).value,
                                              concept.value)
    ensures && !Missing(concept) && DocumentText(docs, user, id).Ok?
            && Llama.Explain(DocumentText(docs, user, id).value, concept.value, endpoint, model).Err?
            ==> r == Err(ServiceFailure(Llama.Explain(DocumentText(docs, user, id).value, concept.value, endpoint, model).error))
  {
    if Missing(concept) then Err(ConceptRequired)
    else match DocumentText(docs, user, id)
      case Err(f) => Err(f)
      case Ok(text) =>
        match Llama.Explain(text, concept.value, endpoint, model)
        case Err(e) => Err(ServiceFailure(e))
        case Ok(explanation) => Ok(ExplainReply(explanation, concept.value))
  }

  /** The explain route as mounted behind the middleware. */
  function ExplainRoute<Rest>(docs: Docs, user: Id, id: Id, body: Sanitize.Body<Rest>,
                              endpoint: Llama.Request -> Llama.Outcome, model: string): (r: Result<ExplainReply, Failure>)
    ensures r.Ok? ==> |r.value.concept| <= Sanitize.ConceptLimit && Sanitize.NoTag(r.value.concept)
  {
    Explain(docs, user, id, Sanitize.SanitizeBody(body).concept, endpoint, model)
  }

  /** A blank question is refused whatever the store holds and whatever the service would say. */
  lemma BlankQuestionNeedsNoLookup(docs: Docs, docs': Docs, user: Id, id: Id, q: string,
                                   endpoint: Llama.Request -> Llama.Outcome, endpoint': Llama.Request -> Llama.Outcome, model: string)
    requires IsBlank(q)
    ensures Chat(docs, user, id, Some(q), endpoint, model) == Chat(docs', user, id, Some(q), endpoint', model) == Err(QuestionRequired)
  {
  }

  // ---------------------------------------------------------------------------
  // Summary with its cache

  datatype SummaryReply = SummaryReply(summary: string, cached: bool)

  /** `POST /summary/:documentId`: the reply and the document store afterwards. */
  function Summary(docs: Docs, user: Id, id: Id, endpoint: Llama.Request -> Llama.Outcome, model: string)
    : (out: (Result<SummaryReply, Failure>, Docs))
    ensures DocumentText(docs, user, id).Err? ==> out == (Err(DocumentText(docs, user, id).error), docs)
    ensures DocumentText(docs, user, id).Ok? && HasSummary(docs[id]) ==>
              out == (Ok(SummaryReply(docs[id].summary.value, true)), docs)
    ensures out.0.Ok? && !out.0.value.cached ==>
              && DocumentText(docs, user, id).Ok? && !HasSummary(docs[id])
              && Llama.Summarize(docs[id].extractedText.value, endpoint, model) == Ok(out.0.value.summary)
              && out.1 == docs[id := docs[id].(summary := Some(out.0.value.summary))]
    ensures DocumentText(docs, user, id).Ok? && !HasSummary(docs[id]) ==>
              (out.0.Ok? <==> Llama.Summarize(docs[id].extractedText.value, endpoint, model).Ok?)
    ensures DocumentText(docs, user, id).Ok? && !HasSummary(docs[id])
            && Llama.Summarize(docs[id].extractedText.value, endpoint, model).Err? ==>
              out.0 == Err(ServiceFailure(Llama.Summarize(docs[id].extractedText.value, endpoint, model).error))
    ensures out.0.Err? ==> out.1 == docs
    ensures out.1.Keys == docs.Keys
    ensures forall k :: k in docs && k != id ==> out.1[k] == docs[k]
  {
    match DocumentText(docs, user, id)
    case Err(f) => (Err(f), docs)
    case Ok(text) =>
      var d := docs[id];
      if HasSummary(d) then (Ok(SummaryReply(d.summary.value, true)), docs)
      else match Llama.Summarize(text, endpoint, model)
        case Err(e) => (Err(ServiceFailure(e)), docs)
        case Ok(s) => (Ok(SummaryReply(s, false)), docs[id := d.(summary := Some(s))])
  }

  /** Once a non-empty summary has been generated and stored, the next request is
      answered from the cache with the same text, without consulting the service. */
  lemma {:induction false} SummaryCachedAfterGeneration(docs: Docs, user: Id, id: Id,
                                                         endpoint: Llama.Request -> Llama.Outcome,
                                                         later: Llama.Request -> Llama.Outcome, model: string)
    requires Summary(docs, user, id, endpoint, model).0.Ok?
    ensures var (first, docs') := Summary(docs, user, id, endpoint, model);
            first.value.summary != [] ==>
              Summary(docs', user, id, later, model) == (Ok(SummaryReply(first.value.summary, true)), docs')
  {
    var (first, docs') := Summary(docs, user, id, endpoint, model);
    if first.value.summary != [] && !first.value.cached {
      assert docs'[id] == docs[id].(summary := Some(first.value.summary));
      assert HasText(docs'[id]);
    }
  }

  /** A freshly uploaded document has no text yet, so every generation route refuses it. */
  lemma FreshDocumentRefused(docs: Docs, user: Id, id: Id, filename: string, originalName: string,
                             fileSize: int, filePath: string, now: int)
    ensures var docs' := docs[id := NewDocument(user, filename, originalName, fileSize, filePath, now)];
            DocumentText(docs', user, id) == Err(TextUnavailable)
  {
  }

  // ---------------------------------------------------------------------------
  // Flashcard and quiz generation

  datatype FlashcardsReply = FlashcardsReply(flashcards: seq<Llama.Flashcard>, count: int)

  /** A count field of the request body: absent, JSON `null`, or a number. */
  datatype CountField = Absent | Null | Number(value: int)

  /** A destructuring default applies only to an absent field; `None` stands for a
      `null` that passes through. */
  function WithDefault(count: CountField, default: int): (n: Option<int>)
    ensures count.Absent? ==> n == Some(default)
    ensures count.Null? <==> n.None?
    ensures count.Number? ==> n == Some(count.value)
  {
    match count
    case Absent => Some(default)
    case Null => None
    case Number(v) => Some(v)
  }

  /** `!(n < 1 || n > max)`: JavaScript compares `null` as 0, so `null < 1` holds and a
      `null` count is out of range. */
  predicate InRange(n: Option<int>, max: int) {
    n.Some? && 1 <= n.value <= max
  }

  /** `const { count = 10 } = req.body` */
  function FlashcardCount(count: CountField): (n: Option<int>)
    ensures count.Absent? ==> n == Some(DefaultFlashcardCount)
    ensures count.Null? ==> !InRange(n, MaxFlashcardCount)
    ensures count.Number? ==> n == Some(count.value)
  {
    WithDefault(count, DefaultFlashcardCount)
  }

  /** `POST /flashcards/:documentId` */
  function Flashcards(docs: Docs, user: Id, id: Id, count: CountField,
                      endpoint: Llama.Request -> Llama.Outcome, parse: string -> Option<JsonValue>,
                      model: string): (r: Result<FlashcardsReply, Failure>)
    ensures r == Err(FlashcardCountOutOfRange) <==> !InRange(FlashcardCount(count), MaxFlashcardCount)
    ensures InRange(FlashcardCount(count), MaxFlashcardCount) && DocumentText(docs, user, id).Err?
            ==> r == Err(DocumentText(docs, user, id).error)
    ensures var n := FlashcardCount(count);
            InRange(n, MaxFlashcardCount) && DocumentText(docs, user, id).Ok? ==>
              (r.Ok? <==> Llama.GenerateFlashcards(DocumentText(docs, user, id).value, n.value, endpoint, parse, model).Ok?)
    ensures var n := FlashcardCount(count);
            && InRange(n, MaxFlashcardCount) && DocumentText(docs, user, id).Ok?
            && Llama.GenerateFlashcards(DocumentText(docs, user, id).value, n.value, endpoint, parse, model).Err?
            ==> r == Err(Failure(500, Llama.GenerateFlashcards(DocumentText(docs, user, id).value, n.value, endpoint, parse, model).error))
    ensures r.Ok? ==> && InRange(FlashcardCount(count), MaxFlashcardCount) && DocumentText(docs, user, id).Ok?
                      && Llama.GenerateFlashcards(DocumentText(docs, user, id).value, FlashcardCount(count).value, endpoint, parse, model)
                         == Ok(r.value.flashcards)
    ensures r.Ok? ==> r.value.count == |r.value.flashcards| && 0 <= r.value.count <= FlashcardCount(count).value <= MaxFlashcardCount
    ensures r.Err? && r.error.status == 500 ==> r.error == Failure(500, Llama.FlashcardFailure)
  {
    var n := FlashcardCount(count);
    if !InRange(n, MaxFlashcardCount) then Err(FlashcardCountOutOfRange)
    else match DocumentText(docs, user, id)
      case Err(f) => Err(f)
      case Ok(text) =>
        match Llama.GenerateFlashcards(text, n.value, endpoint, parse, model)
        case Err(m) => Err(Failure(500, m))
        case Ok(cards) => Ok(FlashcardsReply(cards, |cards|))
  }

  datatype QuizReply = QuizReply(questions: seq<Llama.QuizItem>, count: int)

  /** `const { questionCount = 5 } = req.body` */
  function QuestionCount(questionCount: CountField): (n: Option<int>)
    ensures questionCount.Absent? ==> n == Some(DefaultQuestionCount)
    ensures questionCount.Null? ==> !InRange(n, MaxQuestionCount)
    ensures questionCount.Number? ==> n == Some(questionCount.value)
  {
    WithDefault(questionCount, DefaultQuestionCount)
  }

  /** `POST /quiz/:documentId` */
  function QuizQuestions(docs: Docs, user: Id, id: Id, questionCount: CountField,
                         endpoint: Llama.Request -> Llama.Outcome, parse: string -> Option<JsonValue>,
                         model: string): (r: Result<QuizReply, Failure>)
    ensures r == Err(QuestionCountOutOfRange) <==> !InRange(QuestionCount(questionCount), MaxQuestionCount)
    ensures InRange(QuestionCount(questionCount), MaxQuestionCount) && DocumentText(docs, user, id).Err?
            ==> r == Err(DocumentText(docs, user, id).error)
    ensures var n := QuestionCount(questionCount);
            InRange(n, MaxQuestionCount) && DocumentText(docs, user, id).Ok? ==>
              (r.Ok? <==> Llama.GenerateQuiz(DocumentText(docs, user, id).value, n.value, endpoint, parse, model).Ok?)
    ensures var n := QuestionCount(questionCount);
            && InRange(n, MaxQuestionCount) && DocumentText(docs, user, id).Ok?
            && Llama.GenerateQuiz(DocumentText(docs, user, id).value, n.value, endpoint, parse, model).Err?
            ==> r == Err(Failure(500, Llama.GenerateQuiz(DocumentText(docs, user, id).value, n.value, endpoint, parse, model).error))
    ensures r.Ok? ==> && InRange(QuestionCount(questionCount), MaxQuestionCount) && DocumentText(docs, user, id).Ok?
                      && Llama.GenerateQuiz(DocumentText(docs, user, id).value, QuestionCount(questionCount).value, endpoint, parse, model)
                         == Ok(r.value.questions)
    ensures r.Ok? ==> r.value.count == |r.value.questions| && 0 <= r.value.count <= QuestionCount(questionCount).value <= MaxQuestionCount
    ensures r.Ok? ==> forall i :: 0 <= i < |r.value.questions| ==>
                        |r.value.questions[i].options| == 4 && 0.0 <= r.value.questions[i].correctAnswer <= 3.0
    ensures r.Err? && r.error.status == 500 ==> r.error == Failure(500, Llama.QuizFailure)
  {
    var n := QuestionCount(questionCount);
    if !InRange(n, MaxQuestionCount) then Err(QuestionCountOutOfRange)
    else match DocumentText(docs, user, id)
      case Err(f) => Err(f)
      case Ok(text) =>
        match Llama.GenerateQuiz(text, n.value, endpoint, parse, model)
        case Err(m) => Err(Failure(500, m))
        case Ok(qs) => Ok(QuizReply(qs, |qs|))
  }
}
