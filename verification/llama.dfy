/** The generation service (`LlamaService`): prompt truncation, the request
    sent to the Ollama endpoint, transport-error classification, extraction of
    a JSON array from free model text, the lenient flashcard mapping, the
    strict quiz validation and the health probe.

    The endpoint is a parameter `Request -> Outcome` (one round trip per
    request, no retries) and `JSON.parse` a parameter `string -> Option<JsonValue>`. */
module Llama {
  import opened Common
  import opened Json

  /** `LLAMA_MODEL`'s fallback. */
  const DefaultModelName: string := "llama3.2"
  /** `MAX_CONTEXT_LENGTH`, the default truncation budget. */
  const MaxContextLength: nat := 10000
  /** `num_predict` when a task passes no `max_tokens`. */
  const DefaultNumPredict: int := 2000
  const Ellipsis: string := "..."

  const FlashcardFailure: string := "Failed to generate flashcards. Please try again."
  const QuizFailure: string := "Failed to generate quiz. Please try again."
  const NoExplanation: string := "No explanation provided."

  // ---------------------------------------------------------------------------
  // Prompt building

  datatype Task = ChatTask | SummaryTask | ExplainTask | FlashcardTask | QuizTask

  /** Characters of document text each task passes to `truncateText`. */
  function Budget(t: Task): nat {
    match t
    case SummaryTask => 15000
    case FlashcardTask => 8000
    case QuizTask => 8000
    case _ => MaxContextLength
  }

  /** The `max_tokens` option each task passes to `generateResponse`. */
  function MaxTokens(t: Task): Option<int> {
    match t
    case SummaryTask => Some(500)
    case FlashcardTask => Some(3000)
    case QuizTask => Some(4000)
    case _ => None
  }

  /** `options.max_tokens || 2000`: an absent or zero option falls back to the default. */
  function NumPredict(maxTokens: Option<int>): (n: int)
    ensures maxTokens.None? ==> n == DefaultNumPredict
    ensures maxTokens.Some? && maxTokens.value != 0 ==> n == maxTokens.value
    ensures n != 0
  {
    if maxTokens.Some? && maxTokens.value != 0 then maxTokens.value else DefaultNumPredict
  }

  /** `truncateText`: empty text stays empty, text within the budget is kept,
      longer text is cut to `max` characters followed by "...". */
  function Truncate(text: string, max: nat): (r: string)
    ensures |text| <= max ==> r == text
    ensures |text| > max ==> |r| == max + 3 && r[..max] == text[..max] && r[max..] == Ellipsis
    ensures |r| <= max + 3
  {
    if text == [] then []
    else if |text| <= max then text
    else text[..max] + Ellipsis
  }

  /** The parameter a prompt template embeds besides the document. */
  datatype PromptParam = NoParam | QuestionParam(question: string) | ConceptParam(concept: string) | CountParam(count: int)

  /** A prompt, by its ingredients: the template wording is not modelled. */
  datatype Prompt = Prompt(task: Task, document: string, param: PromptParam)

  /** The body of `POST /api/generate`, without the sampling parameters. */
  datatype Request = Request(model: string, prompt: Prompt, numPredict: int)

  function BuildRequest(task: Task, text: string, param: PromptParam, model: string): (req: Request)
    ensures req.model == model && req.prompt.task == task && req.prompt.param == param
    ensures req.prompt.document == Truncate(text, Budget(task))
    ensures req.numPredict == NumPredict(MaxTokens(task))
  {
    Request(model, Prompt(task, Truncate(text, Budget(task)), param), NumPredict(MaxTokens(task)))
  }

  /** A document longer than its task's budget never reaches the endpoint in full:
      the prompt carries exactly the budget's worth of it plus the marker. */
  lemma LongDocumentIsTruncated(task: Task, text: string, param: PromptParam, model: string)
    requires |text| > Budget(task)
    ensures var doc := BuildRequest(task, text, param, model).prompt.document;
            |doc| == Budget(task) + 3 && doc == text[..Budget(task)] + Ellipsis
  {
    var doc := BuildRequest(task, text, param, model).prompt.document;
    assert doc == text[..Budget(task)] + Ellipsis;
  }

  /** Truncating twice with the same budget is truncating once. */
  lemma TruncateIdempotent(text: string, max: nat)
    ensures Truncate(Truncate(text, max), max) == Truncate(text, max)
  {
    if |text| > max {
      var r := Truncate(text, max);
      assert r[..max] + Ellipsis == r;
    }
  }

  /** The per-task budgets and output-token options. */
  lemma TaskParameters()
    ensures Budget(ChatTask) == 10000 && Budget(ExplainTask) == 10000
    ensures Budget(SummaryTask) == 15000
    ensures Budget(FlashcardTask) == 8000 && Budget(QuizTask) == 8000
    ensures NumPredict(MaxTokens(ChatTask)) == 2000 && NumPredict(MaxTokens(ExplainTask)) == 2000
    ensures NumPredict(MaxTokens(SummaryTask)) == 500
    ensures NumPredict(MaxTokens(FlashcardTask)) == 3000
    ensures NumPredict(MaxTokens(QuizTask)) == 4000
  {
  }

  // ---------------------------------------------------------------------------
  // Inference client

  /** What the axios call yields: the `response` text, or a failure with its
      error `code`, the HTTP status of the error response if any, and its message. */
  datatype Outcome = Completed(text: string) | Failed(code: string, status: Option<int>, message: string)

  datatype InferenceError = NotRunning | ModelMissing(model: string) | Unavailable(detail: string)

  function ErrorMessage(e: InferenceError): string {
    match e
    case NotRunning => NotRunningMessage
    case ModelMissing(m) => "Model \"" + m + "\" not found. Pull it with: ollama pull " + m
    case Unavailable(d) => "AI service unavailable: " + d
  }

  /** The catch block of `generateResponse`: a refused connection wins over a
      404 response, which wins over everything else. */
  function Classify(o: Outcome, model: string): (e: InferenceError)
    requires o.Failed?
    ensures e.NotRunning? <==> o.code == "ECONNREFUSED"
    ensures e.ModelMissing? <==> o.code != "ECONNREFUSED" && o.status == Some(404)
    ensures e.ModelMissing? ==> e.model == model
    ensures e.Unavailable? ==> e.detail == o.message
  {
    if o.code == "ECONNREFUSED" then NotRunning
    else if o.status == Some(404) then ModelMissing(model)
    else Unavailable(o.message)
  }

  /** The three failure kinds surface as three different messages. */
  lemma ErrorMessagesDistinct(m: string, d: string)
    ensures ErrorMessage(NotRunning) != ErrorMessage(ModelMissing(m))
    ensures ErrorMessage(NotRunning) != ErrorMessage(Unavailable(d))
    ensures ErrorMessage(ModelMissing(m)) != ErrorMessage(Unavailable(d))
  {
    var a, b, c := ErrorMessage(NotRunning), ErrorMessage(ModelMissing(m)), ErrorMessage(Unavailable(d));
    assert a[0] == 'O';
    assert b[0] == 'M';
    assert c[0] == 'A';
  }

  /** `generateResponse` */
  function GenerateResponse(req: Request, endpoint: Request -> Outcome): (r: Result<string, InferenceError>)
    ensures r.Ok? <==> endpoint(req).Completed?
    ensures r.Ok? ==> r.value == endpoint(req).text
    ensures r.Err? ==> r.error == Classify(endpoint(req), req.model)
  {
    match endpoint(req)
    case Completed(text) => Ok(text)
    case Failed(_, _, _) => Err(Classify(endpoint(req), req.model))
  }

  // ---------------------------------------------------------------------------
  // Plain-text tasks: the original error is rethrown

  function Chat(text: string, question: string, endpoint: Request -> Outcome, model: string): (r: Result<string, InferenceError>)
    ensures var req := BuildRequest(ChatTask, text, QuestionParam(question), model);
            && (r.Ok? <==> endpoint(req).Completed?)
            && (r.Ok? ==> r.value == endpoint(req).text)
            && (r.Err? ==> r.error == Classify(endpoint(req), model))
  {
    GenerateResponse(BuildRequest(ChatTask, text, QuestionParam(question), model), endpoint)
  }

  function Summarize(text: string, endpoint: Request -> Outcome, model: string): (r: Result<string, InferenceError>)
    ensures var req := BuildRequest(SummaryTask, text, NoParam, model);
            && (r.Ok? <==> endpoint(req).Completed?)
            && (r.Ok? ==> r.value == endpoint(req).text)
            && (r.Err? ==> r.error == Classify(endpoint(req), model))
  {
    GenerateResponse(BuildRequest(SummaryTask, text, NoParam, model), endpoint)
  }

  function Explain(text: string, concept: string, endpoint: Request -> Outcome, model: string): (r: Result<string, InferenceError>)
    ensures var req := BuildRequest(ExplainTask, text, ConceptParam(concept), model);
            && (r.Ok? <==> endpoint(req).Completed?)
            && (r.Ok? ==> r.value == endpoint(req).text)
            && (r.Err? ==> r.error == Classify(endpoint(req), model))
  {
    GenerateResponse(BuildRequest(ExplainTask, text, ConceptParam(concept), model), endpoint)
  }

  // ---------------------------------------------------------------------------
  // Extraction of the JSON array: `response.match(/\[[\s\S]*\]/)`

  /** `s[i..j]` runs from the first `[` of `s` to its last `]`. */
  predicate SpanAt(s: string, i: int, j: int) {
    && 0 <= i < j < |s|
    && s[i] == '[' && s[j] == ']'
    && '[' !in s[..i] && ']' !in s[j + 1..]
  }

  /** The greedy bracket match: it exists iff some `[` precedes some `]`, and it
      is then the text from the first `[` to the last `]`, both included. */
  function Span(s: string): (r: Option<string>)
    ensures r.Some? <==> exists i, j :: 0 <= i < j < |s| && s[i] == '[' && s[j] == ']'
    ensures r.Some? ==> exists i, j :: SpanAt(s, i, j) && r.value == s[i..j + 1]
  {
    match (IndexOf(s, '['), LastIndexOf(s, ']'))
    case (Some(i), Some(j)) =>
      if i < j then
        assert SpanAt(s, i, j);
        Some(s[i..j + 1])
      else
        None
    case _ => None
  }

  /** The first `[` and the last `]` are unique, so there is one bracket span. */
  lemma SpanAtUnique(s: string, i: int, j: int, i': int, j': int)
    requires SpanAt(s, i, j) && SpanAt(s, i', j')
    ensures i == i' && j == j'
  {
  }

  /** Prose before the array that holds no `[`, and prose after it that holds no `]`
      (a markdown fence, say), are cut away. */
  lemma SpanIgnoresSurroundings(before: string, body: string, after: string)
    requires '[' !in before && ']' !in after
    requires |body| >= 2 && body[0] == '[' && body[|body| - 1] == ']'
    ensures Span(before + body + after) == Some(body)
  {
    var s := before + body + after;
    var i, j := |before|, |before| + |body| - 1;
    assert s[..i] == before;
    assert s[j + 1..] == after;
    assert SpanAt(s, i, j);
    var r := Span(s);
    var i', j' :| SpanAt(s, i', j') && r.value == s[i'..j' + 1];
    SpanAtUnique(s, i, j, i', j');
    assert s[i..j + 1] == body;
  }

  // ---------------------------------------------------------------------------
  // Parsing the span

  /** Why a structured generation failed; the index is the array element that failed. */
  datatype Fault =
    | NoArrayFound
    | Malformed
    | NotAnArray
    | BadElement(index: nat, kind: ElementFault)

  /** `null` elements throw on their first field read; the other two are the quiz validator's messages. */
  datatype ElementFault = NullElement | InvalidFormat | InvalidAnswer

  /** The span, parsed, required to be an array. */
  function ParseArray(raw: string, parse: string -> Option<JsonValue>): (r: Result<seq<JsonValue>, Fault>)
    ensures r == Err(NoArrayFound) <==> Span(raw).None?
    ensures r == Err(Malformed) <==> Span(raw).Some? && parse(Span(raw).value).None?
    ensures r == Err(NotAnArray) <==> Span(raw).Some? && parse(Span(raw).value).Some? && !parse(Span(raw).value).value.JArr?
    ensures r.Ok? ==> Span(raw).Some? && parse(Span(raw).value) == Some(JArr(r.value))
  {
    match Span(raw)
    case None => Err(NoArrayFound)
    case Some(span) =>
      match parse(span)
      case None => Err(Malformed)
      case Some(v) => if v.JArr? then Ok(v.items) else Err(NotAnArray)
  }

  /** `xs.slice(0, n)` for an integer `n`: a negative end counts from the back. */
  function SliceTo<T>(xs: seq<T>, n: int): (r: seq<T>)
    ensures r <= xs
    ensures 0 <= n ==> |r| == Min(n, |xs|)
    ensures n < 0 ==> |r| == if |xs| + n < 0 then 0 else |xs| + n
  {
    if n < 0 then (if |xs| + n < 0 then [] else xs[..|xs| + n])
    else if n <= |xs| then xs[..n] else xs
  }

  // ---------------------------------------------------------------------------
  // Flashcards: lenient mapping

  datatype Flashcard = Flashcard(question: JsonValue, answer: JsonValue)

  /** `card.question || ''` and `card.answer || ''` for a non-null element. */
  function CardOf(v: JsonValue): (c: Flashcard)
    requires !v.JNull?
    ensures AccessTruthy(Get(v, "question")) ==> c.question == Get(v, "question").value
    ensures !AccessTruthy(Get(v, "question")) ==> c.question == JStr("")
    ensures AccessTruthy(Get(v, "answer")) ==> c.answer == Get(v, "answer").value
    ensures !AccessTruthy(Get(v, "answer")) ==> c.answer == JStr("")
  {
    Flashcard(OrElse(Get(v, "question"), JStr("")), OrElse(Get(v, "answer"), JStr("")))
  }

  /** `items.map(card => ...)`: reading a field of a `null` element throws. */
  function MapCards(items: seq<JsonValue>): (r: Result<seq<Flashcard>, Fault>)
    ensures r.Ok? <==> forall i :: 0 <= i < |items| ==> !items[i].JNull?
    ensures r.Ok? ==> |r.value| == |items|
    ensures r.Ok? ==> forall i :: 0 <= i < |items| ==> !items[i].JNull? && r.value[i] == CardOf(items[i])
    ensures r.Err? ==> r.error.BadElement? && r.error.kind == NullElement && r.error.index < |items| && items[r.error.index].JNull?
                       && forall i :: 0 <= i < r.error.index ==> !items[i].JNull?
  {
    if items == [] then Ok([])
    else
      var n := |items| - 1;
      match MapCards(items[..n])
      case Err(f) => Err(f)
      case Ok(prefix) =>
        if items[n].JNull? then Err(BadElement(n, NullElement))
        else Ok(prefix + [CardOf(items[n])])
  }

  /** The text-to-records stage of `generateFlashcards`. */
  function ExtractFlashcards(raw: string, count: int, parse: string -> Option<JsonValue>): (r: Result<seq<Flashcard>, Fault>)
    ensures ParseArray(raw, parse).Err? ==> r == Err(ParseArray(raw, parse).error)
    ensures r.Ok? <==> && ParseArray(raw, parse).Ok?
                       && forall i :: 0 <= i < |SliceTo(ParseArray(raw, parse).value, count)| ==>
                            !SliceTo(ParseArray(raw, parse).value, count)[i].JNull?
    ensures r.Err? && ParseArray(raw, parse).Ok? ==> r.error.BadElement? && r.error.kind == NullElement
    ensures r.Ok? ==> |r.value| <= |ParseArray(raw, parse).value|
    ensures r.Ok? && 0 <= count ==> |r.value| == Min(count, |ParseArray(raw, parse).value|)
    ensures r.Ok? ==> forall i :: 0 <= i < |r.value| ==>
                        !ParseArray(raw, parse).value[i].JNull? && r.value[i] == CardOf(ParseArray(raw, parse).value[i])
  {
    match ParseArray(raw, parse)
    case Err(f) => Err(f)
    case Ok(items) => MapCards(SliceTo(items, count))
  }

  /** `generateFlashcards`: every failure, whatever its cause, becomes one fixed message. */
  function GenerateFlashcards(text: string, count: int, endpoint: Request -> Outcome,
                              parse: string -> Option<JsonValue>, model: string): (r: Result<seq<Flashcard>, string>)
    ensures var out := endpoint(BuildRequest(FlashcardTask, text, CountParam(count), model));
            && (r.Ok? <==> out.Completed? && ExtractFlashcards(out.text, count, parse).Ok?)
            && (r.Ok? ==> r.value == ExtractFlashcards(out.text, count, parse).value)
    ensures r.Err? ==> r.error == FlashcardFailure
    ensures r.Ok? && 0 <= count ==> |r.value| <= count
  {
    match endpoint(BuildRequest(FlashcardTask, text, CountParam(count), model))
    case Failed(_, _, _) => Err(FlashcardFailure)
    case Completed(raw) =>
      match ExtractFlashcards(raw, count, parse)
      case Err(_) => Err(FlashcardFailure)
      case Ok(cards) => Ok(cards)
  }

  /** An element without an `answer` yields an empty answer instead of a failure. */
  lemma MissingAnswerBecomesEmpty(fields: map<string, JsonValue>)
    requires "answer" !in fields
    ensures CardOf(JObj(fields)).answer == JStr("")
    ensures MapCards([JObj(fields)]).Ok?
  {
  }

  // ---------------------------------------------------------------------------
  // Quiz: strict, all-or-nothing validation

  datatype QuizItem = QuizItem(question: JsonValue, options: seq<JsonValue>, correctAnswer: real, explanation: JsonValue)

  /** The two checks of the `map` callback, in order. */
  predicate HasFormat(v: JsonValue) {
    && !v.JNull?
    && AccessTruthy(Get(v, "question"))
    && Get(v, "options").Defined? && Get(v, "options").value.JArr?
    && |Get(v, "options").value.items| == 4
  }

  predicate HasAnswer(v: JsonValue) {
    && Get(v, "correctAnswer").Defined? && Get(v, "correctAnswer").value.JNum?
    && 0.0 <= Get(v, "correctAnswer").value.n <= 3.0
  }

  predicate WellFormed(v: JsonValue) {
    HasFormat(v) && HasAnswer(v)
  }

  /** The `map` callback for element `idx`. */
  function CheckItem(v: JsonValue, idx: nat): (r: Result<QuizItem, Fault>)
    ensures r.Ok? <==> WellFormed(v)
    ensures r.Err? ==> r.error.BadElement? && r.error.index == idx
    ensures r == Err(BadElement(idx, NullElement)) <==> v.JNull?
    ensures r == Err(BadElement(idx, InvalidFormat)) <==> !v.JNull? && !HasFormat(v)
    ensures r.Ok? ==> && r.value.question == Get(v, "question").value
                      && r.value.options == Get(v, "options").value.items
                      && r.value.correctAnswer == Get(v, "correctAnswer").value.n
                      && r.value.explanation == OrElse(Get(v, "explanation"), JStr(NoExplanation))
  {
    if v.JNull? then Err(BadElement(idx, NullElement))
    else if !HasFormat(v) then Err(BadElement(idx, InvalidFormat))
    else if !HasAnswer(v) then Err(BadElement(idx, InvalidAnswer))
    else Ok(QuizItem(Get(v, "question").value, Get(v, "options").value.items,
                     Get(v, "correctAnswer").value.n, OrElse(Get(v, "explanation"), JStr(NoExplanation))))
  }

  /** `items.map(...)` with the callback above: the first bad element aborts the whole list. */
  function ValidateQuestions(items: seq<JsonValue>): (r: Result<seq<QuizItem>, Fault>)
    ensures r.Ok? <==> forall i :: 0 <= i < |items| ==> WellFormed(items[i])
    ensures r.Ok? ==> |r.value| == |items|
    ensures r.Ok? ==> forall i :: 0 <= i < |items| ==> CheckItem(items[i], i) == Ok(r.value[i])
    ensures r.Err? ==> r.error.BadElement?
    ensures r.Err? ==> var k := r.error.index;
                       && k < |items| && CheckItem(items[k], k) == Err(r.error)
                       && forall i :: 0 <= i < k ==> WellFormed(items[i])
  {
    if items == [] then Ok([])
    else
      var n := |items| - 1;
      match ValidateQuestions(items[..n])
      case Err(f) => Err(f)
      case Ok(prefix) =>
        match CheckItem(items[n], n)
        case Err(f) => Err(f)
        case Ok(q) => Ok(prefix + [q])
  }

  /** The text-to-records stage of `generateQuiz`: it slices before it validates. */
  function ExtractQuiz(raw: string, questionCount: int, parse: string -> Option<JsonValue>): (r: Result<seq<QuizItem>, Fault>)
    ensures ParseArray(raw, parse).Err? ==> r == Err(ParseArray(raw, parse).error)
    ensures ParseArray(raw, parse).Ok? ==> r == ValidateQuestions(SliceTo(ParseArray(raw, parse).value, questionCount))
  {
    match ParseArray(raw, parse)
    case Err(f) => Err(f)
    case Ok(items) => ValidateQuestions(SliceTo(items, questionCount))
  }

  /** Only the first `questionCount` elements decide: anything after them is never inspected. */
  lemma {:induction false} QuizChecksOnlyPrefix(items: seq<JsonValue>, questionCount: nat)
    requires questionCount <= |items|
    ensures ValidateQuestions(SliceTo(items, questionCount)).Ok?
            <==> forall i :: 0 <= i < questionCount ==> WellFormed(items[i])
  {
    var s := SliceTo(items, questionCount);
    assert forall i :: 0 <= i < questionCount ==> s[i] == items[i];
  }

  /** `generateQuiz`: every failure, whatever its cause, becomes one fixed message. */
  function GenerateQuiz(text: string, questionCount: int, endpoint: Request -> Outcome,
                        parse: string -> Option<JsonValue>, model: string): (r: Result<seq<QuizItem>, string>)
    ensures var out := endpoint(BuildRequest(QuizTask, text, CountParam(questionCount), model));
            && (r.Ok? <==> out.Completed? && ExtractQuiz(out.text, questionCount, parse).Ok?)
            && (r.Ok? ==> r.value == ExtractQuiz(out.text, questionCount, parse).value)
    ensures r.Err? ==> r.error == QuizFailure
    ensures r.Ok? && 0 <= questionCount ==> |r.value| <= questionCount
    ensures r.Ok? ==> forall i :: 0 <= i < |r.value| ==>
                        |r.value[i].options| == 4 && 0.0 <= r.value[i].correctAnswer <= 3.0
                        && Truthy(r.value[i].question) && Truthy(r.value[i].explanation)
  {
    match endpoint(BuildRequest(QuizTask, text, CountParam(questionCount), model))
    case Failed(_, _, _) => Err(QuizFailure)
    case Completed(raw) =>
      match ExtractQuiz(raw, questionCount, parse)
      case Err(_) => Err(QuizFailure)
      case Ok(qs) =>
        ValidatedShape(SliceTo(ParseArray(raw, parse).value, questionCount), qs);
        Ok(qs)
  }

  /** Every validated question has four options, an answer in [0, 3], and truthy
      question and explanation texts. */
  lemma ValidatedShape(items: seq<JsonValue>, qs: seq<QuizItem>)
    requires ValidateQuestions(items) == Ok(qs)
    ensures forall i :: 0 <= i < |qs| ==>
              |qs[i].options| == 4 && 0.0 <= qs[i].correctAnswer <= 3.0
              && Truthy(qs[i].question) && Truthy(qs[i].explanation)
  {
    forall i | 0 <= i < |qs|
      ensures |qs[i].options| == 4 && 0.0 <= qs[i].correctAnswer <= 3.0
              && Truthy(qs[i].question) && Truthy(qs[i].explanation)
    {
      assert CheckItem(items[i], i) == Ok(qs[i]);
      assert Truthy(JStr(NoExplanation));
    }
  }

  /** The range check does not demand a whole number: 1.5 is accepted as a correct answer. */
  lemma FractionalAnswerAccepted()
    ensures var q := JObj(map["question" := JStr("Q"),
                              "options" := JArr([JStr("a"), JStr("b"), JStr("c"), JStr("d")]),
                              "correctAnswer" := JNum(1.5)]);
            ValidateQuestions([q]).Ok? && ValidateQuestions([q]).value[0].correctAnswer == 1.5
  {
    var q := JObj(map["question" := JStr("Q"),
                      "options" := JArr([JStr("a"), JStr("b"), JStr("c"), JStr("d")]),
                      "correctAnswer" := JNum(1.5)]);
    assert WellFormed(q);
    assert CheckItem(q, 0).Ok?;
  }

  // ---------------------------------------------------------------------------
  // Health probe

  /** An entry of `/api/tags`'s `models`; a missing or non-string name is `None`. */
  datatype ModelEntry = ModelEntry(name: Option<string>)

  /** The listing call: its `models` field (absent = `None`), or a failure. */
  datatype Listing = Listed(models: Option<seq<ModelEntry>>) | ListFailed

  datatype Status = StatusOk | StatusWarning | StatusError

  datatype Health = Health(status: Status, message: string, model: Option<string>)

  const NotRunningMessage: string := "Ollama is not running. " + "Start it with: ollama serve"

  /** Entry `k` is the first entry the `some` callback answers `true` for. */
  predicate MatchesAt(models: seq<ModelEntry>, base: string, k: int) {
    && 0 <= k < |models|
    && (forall j :: 0 <= j <= k ==> models[j].name.Some?)
    && (forall j :: 0 <= j < k ==> !Contains(models[j].name.value, base))
    && Contains(models[k].name.value, base)
  }

  /** Entry `k` is the first nameless one, and no entry before it matched. */
  predicate ThrowsAt(models: seq<ModelEntry>, base: string, k: int) {
    && 0 <= k < |models|
    && models[k].name.None?
    && (forall j :: 0 <= j < k ==> models[j].name.Some? && !Contains(models[j].name.value, base))
  }

  predicate NoneMatch(models: seq<ModelEntry>, base: string) {
    forall j :: 0 <= j < |models| ==> models[j].name.Some? && !Contains(models[j].name.value, base)
  }

  /** `models.some(m => m.name.includes(base))`; `None` when the callback throws. */
  function AnyNameContains(models: seq<ModelEntry>, base: string): (r: Option<bool>)
    ensures r == Some(true) <==> exists k :: MatchesAt(models, base, k)
    ensures r == Some(false) <==> NoneMatch(models, base)
    ensures r.None? <==> exists k :: ThrowsAt(models, base, k)
  {
    if models == [] then Some(false)
    else if models[0].name.None? then
      assert ThrowsAt(models, base, 0);
      assert !NoneMatch(models, base);
      None
    else if Contains(models[0].name.value, base) then
      assert MatchesAt(models, base, 0);
      Some(true)
    else
      var rest := models[1..];
      var r := AnyNameContains(rest, base);
      ShiftScan(models, base);
      r
  }

  lemma ShiftScan(models: seq<ModelEntry>, base: string)
    requires models != [] && models[0].name.Some? && !Contains(models[0].name.value, base)
    ensures (exists k :: MatchesAt(models, base, k)) <==> (exists k :: MatchesAt(models[1..], base, k))
    ensures NoneMatch(models, base) <==> NoneMatch(models[1..], base)
    ensures (exists k :: ThrowsAt(models, base, k)) <==> (exists k :: ThrowsAt(models[1..], base, k))
  {
    var rest := models[1..];
    forall k | MatchesAt(models, base, k) ensures MatchesAt(rest, base, k - 1) {}
    forall k | MatchesAt(rest, base, k) ensures MatchesAt(models, base, k + 1) {}
    forall k | ThrowsAt(models, base, k) ensures ThrowsAt(rest, base, k - 1) {}
    forall k | ThrowsAt(rest, base, k) ensures ThrowsAt(models, base, k + 1) {}
    if NoneMatch(rest, base) {
      forall j | 0 <= j < |models| ensures models[j].name.Some? && !Contains(models[j].name.value, base) {
        if j > 0 { assert models[j] == rest[j - 1]; }
      }
    }
  }

  /** `response.data.models || []` */
  function ListedModels(listing: Listing): (models: seq<ModelEntry>)
    requires listing.Listed?
    ensures listing.models.None? ==> models == []
    ensures listing.models.Some? ==> models == listing.models.value
  {
    if listing.models.Some? then listing.models.value else []
  }

  /** `healthCheck`: `error` iff the listing fails or the scan throws, `warning`
      iff no listed name contains the part of the model name before its first `:`,
      `ok` otherwise; only `ok` and `warning` report the model. */
  function HealthCheck(listing: Listing, model: string): (h: Health)
    ensures var base := BeforeFirst(model, ':');
            && (h.status == StatusError <==> listing.ListFailed? || exists k :: ThrowsAt(ListedModels(listing), base, k))
            && (h.status == StatusWarning <==> listing.Listed? && NoneMatch(ListedModels(listing), base))
            && (h.status == StatusOk <==> listing.Listed? && exists k :: MatchesAt(ListedModels(listing), base, k))
    ensures h.model.Some? <==> h.status != StatusError
    ensures h.model.Some? ==> h.model.value == model
    ensures h.status == StatusError ==> h.message == NotRunningMessage
  {
    match listing
    case ListFailed => Health(StatusError, NotRunningMessage, None)
    case Listed(_) =>
      var found := AnyNameContains(ListedModels(listing), BeforeFirst(model, ':'));
      if found.None? then
        assert exists k :: ThrowsAt(ListedModels(listing), BeforeFirst(model, ':'), k);
        Health(StatusError, NotRunningMessage, None)
      else if !found.value then
        Health(StatusWarning, "Model \"" + model + "\" not found. Pull it with: ollama pull " + model, Some(model))
      else Health(StatusOk, "Ollama is running", Some(model))
  }

  /** A text lacking one of `sub`'s characters does not contain `sub`. */
  lemma MissingCharNotContained(s: string, sub: string, k: nat)
    requires k < |sub| && sub[k] !in s
    ensures !Contains(s, sub)
  {
    forall i | 0 <= i <= |s| - |sub| ensures !OccursAt(s, sub, i) {
      assert s[i + k] == s[i..i + |sub|][k];
    }
  }

  /** The configured base name matches a tagged listing entry. */
  lemma HealthOkExample()
    ensures HealthCheck(Listed(Some([ModelEntry(Some("llama3.2:latest"))])), "llama3.2").status == StatusOk
  {
    var base := BeforeFirst("llama3.2", ':');
    assert ':' !in "llama3.2";
    assert base == "llama3.2";
    assert OccursAt("llama3.2:latest", base, 0);
    assert MatchesAt([ModelEntry(Some("llama3.2:latest"))], base, 0);
  }

  /** A listing without the configured model warns. */
  lemma HealthWarningExample()
    ensures HealthCheck(Listed(Some([ModelEntry(Some("mistral:latest"))])), "llama3.2").status == StatusWarning
  {
    var base := BeforeFirst("llama3.2", ':');
    assert ':' !in "llama3.2";
    assert base == "llama3.2";
    var m := "mistral:latest";
    assert base[5] == '3' && '3' !in m;
    MissingCharNotContained(m, base, 5);
    assert NoneMatch([ModelEntry(Some(m))], base);
  }
}
