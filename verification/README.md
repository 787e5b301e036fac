# Learning Partner — a Dafny model of the study core

Learning Partner is a study assistant. A user uploads a PDF. Its extracted text then feeds a locally
hosted Llama model (served by Ollama), which answers questions, summarises, explains
concepts, and generates flashcards and multiple-choice quizzes. The user can keep, edit and
study the flashcards and take, score and review the quizzes.

This project models that core as pure Dafny functions over immutable data:

- the generation service (`LlamaService`):
  - prompt truncation;
  - the request it sends and how transport errors are classified;
  - how a JSON array is pulled out of free model text;
  - the lenient flashcard mapping and the strict quiz validation;
  - the health probe.
- the AI routes, including the summary cache and the count limits;
- the input-sanitising middleware;
- the quiz and flashcard routes, including submission and scoring;
- the document, quiz and flashcard records;
- the client logic of the quiz taker, the quiz results page, the quiz list, flashcard study,
  the flashcard list and the dashboard.

Several stand-ins replace what the model cannot see:

- **Persistence.** Collections are maps from an `Id` to a record. A new record's id is
  a parameter. Timestamps are integers passed in as `now`.
- **The Ollama endpoint.** It is a function parameter `Llama.Request -> Llama.Outcome`, one
  round trip per request.
- **`JSON.parse`.** It is a parameter `string -> Option<JsonValue>`.
- **JavaScript numbers.** They are `real`s. A stored score is a whole percentage or NaN.
- **The client's view of a score.** A NaN score reaches the client as `null`, because JSON has
  no NaN.

Modules, one per file:

| file | module |
|---|---|
| `common.dfy` | `Common`: Option/Result, failures, trimming, prefixes, counting |
| `json.dfy` | `Json`: JSON values and JavaScript property access |
| `llama.dfy` | `Llama`: `backend/services/llamaService.js` |
| `sanitize.dfy` | `Sanitize`: `backend/middleware/sanitize.js` |
| `documents.dfy` | `Documents`: `backend/models/Document.js` |
| `quiz_model.dfy` | `QuizModel`: `backend/models/Quiz.js` |
| `flashcard_model.dfy` | `FlashcardModel`: `backend/models/Flashcard.js` |
| `ai_routes.dfy` | `AiRoutes`: `backend/routes/ai.js` |
| `quiz_routes.dfy` | `QuizRoutes`: `backend/routes/quizzes.js` |
| `flashcard_routes.dfy` | `FlashcardRoutes`: `backend/routes/flashcards.js` |
| `quiz_taker.dfy`, `quiz_results.dfy`, `quiz_list.dfy` | the three quiz screens |
| `flashcard_study.dfy`, `flashcard_list.dfy` | the two flashcard screens |
| `dashboard.dfy` | `Dashboard` |

## Model

| member | source | states |
|---|---|---|
| Common.Trim | backend/routes/flashcards.js:74-75 | The result is a contiguous slice of the input, and neither of its ends is whitespace. It is empty exactly when the input is blank. |
| Common.ToLower | backend/middleware/sanitize.js:28 | Same length as the input. No upper-case letter remains: each ASCII capital becomes its small letter, 32 code points on. Every other character is unchanged. |
| Common.IndexOf | backend/services/llamaService.js:132 | Absent exactly when the character does not occur. Otherwise it is a position holding the character with no earlier occurrence. |
| Common.LastIndexOf | backend/services/llamaService.js:132 | Absent exactly when the character does not occur. Otherwise it is a position holding the character with no later occurrence. |
| Common.CountWhereAll | frontend/src/components/Quiz/QuizTaker.jsx:137 | A filter keeps every element exactly when all elements satisfy the predicate. |
| Common.CountWhere | frontend/src/components/Quiz/QuizTaker.jsx:137 | The count of kept elements never exceeds the length, and is zero exactly when no element satisfies the predicate. |
| Common.BeforeFirst | backend/services/llamaService.js:227 | The result is a prefix of the input without the separator, and it stops either at the end or at the first separator. |
| Common.Prefix | backend/middleware/sanitize.js:7 | A prefix of the input of at most `n` characters: the whole input when it fits, exactly `n` characters otherwise. |
| Common.IndexOfFirst | backend/services/llamaService.js:132 | A position holding the character with none before it is the one the search reports. |
| Json.Get | backend/services/llamaService.js:145-146 | Reading a property of `null` throws. It is defined exactly when the value is an object with that key, and then it yields that key's value. |
| Json.OrElse | backend/services/llamaService.js:145-146 | `x \|\| fallback` yields the value when it is truthy and the fallback otherwise. |
| Llama.NumPredict | backend/services/llamaService.js:19 | An absent or zero `max_tokens` falls back to 2000. Any other value is sent as given. The result is never zero. |
| Llama.Truncate | backend/services/llamaService.js:42-46 | Text within the budget is unchanged. Longer text becomes exactly its first `max` characters followed by "...". |
| Llama.BuildRequest | backend/services/llamaService.js:12-20 | The request carries the configured model, the given prompt parameter, the document truncated to its task's budget, and that task's token limit. |
| Llama.LongDocumentIsTruncated | backend/services/llamaService.js:42-46 | A document over its task's budget reaches the endpoint as budget + 3 characters: the budget's worth of it plus the marker. |
| Llama.TruncateIdempotent | backend/services/llamaService.js:42-46 | Truncating an already truncated text with the same budget changes nothing. |
| Llama.TaskParameters | backend/services/llamaService.js:50 | Budgets are 10000 for chat and explain, 15000 for summary and 8000 for flashcards and quiz. Token limits are 2000, 500, 3000 and 4000. |
| Llama.Classify | backend/services/llamaService.js:30-38 | A refused connection is "not running". Otherwise an HTTP 404 is "model missing", naming the model. Anything else is "unavailable" and keeps the transport message. |
| Llama.ErrorMessagesDistinct | backend/services/llamaService.js:30-38 | The three error messages are pairwise different, so a client can tell the causes apart. |
| Llama.GenerateResponse | backend/services/llamaService.js:8-40 | Succeeds exactly when the endpoint completes, returning its text. Otherwise it fails with the classified error. |
| Llama.Chat | backend/services/llamaService.js:48-66 | One chat-task request whose document is truncated to 10000 characters. Errors pass through unchanged. |
| Llama.Summarize | backend/services/llamaService.js:68-87 | One summary-task request with a 15000-character budget and 500 tokens. Errors pass through unchanged. |
| Llama.Explain | backend/services/llamaService.js:89-105 | One explain-task request carrying the concept. Errors pass through unchanged. |
| Llama.Span | backend/services/llamaService.js:132 | A match exists exactly when some '[' precedes some ']'. The match runs from the first '[' to the last ']'. |
| Llama.SpanAtUnique | backend/services/llamaService.js:132 | The match's bounds are uniquely determined. |
| Llama.SpanIgnoresSurroundings | backend/services/llamaService.js:132 | Prose before and after a bracketed array is dropped, as long as it has no '[' before and no ']' after. |
| Llama.ParseArray | backend/services/llamaService.js:132-142 | Exactly one of four outcomes holds: no bracketed span; a span that does not parse; a parse that is not an array; or the parsed array's elements. |
| Llama.SliceTo | backend/services/llamaService.js:144 | `slice(0, n)` yields a prefix of length min(n, length). A negative n drops that many from the end. |
| Llama.CardOf | backend/services/llamaService.js:145-146 | Each field is the element's property when truthy, and "" otherwise. |
| Llama.MapCards | backend/services/llamaService.js:144-147 | Succeeds exactly when no element is null, card for card. Otherwise it names a null element. |
| Llama.ExtractFlashcards | backend/services/llamaService.js:132-147 | A parse failure is propagated. Otherwise it succeeds exactly when none of the first `count` elements is `null`; a `null` element is reported as such. Success keeps min(count, length) cards, each mapped from the matching array element. |
| Llama.GenerateFlashcards | backend/services/llamaService.js:107-152 | Every failure becomes the one fixed flashcard message. A success has at most `count` cards. |
| Llama.MissingAnswerBecomesEmpty | backend/services/llamaService.js:146 | An object without an answer is accepted with an empty answer. |
| Llama.CheckItem | backend/services/llamaService.js:199-211 | An element passes exactly when it has a truthy question, an array of four options and a number in [0, 3] as answer. A missing explanation gets the default text. Each failure names its index and kind. |
| Llama.ValidateQuestions | backend/services/llamaService.js:199-212 | Passes exactly when every element is well formed, keeping them item for item. Otherwise it reports the first bad index. |
| Llama.ExtractQuiz | backend/services/llamaService.js:187-212 | A parse failure is propagated. Otherwise only the first `questionCount` elements are validated. |
| Llama.QuizChecksOnlyPrefix | backend/services/llamaService.js:199 | Malformed elements beyond `questionCount` never cause a rejection. |
| Llama.GenerateQuiz | backend/services/llamaService.js:154-219 | Every failure becomes the one fixed quiz message. A success has at most `questionCount` questions, each with four options and an answer in [0, 3]. |
| Llama.ValidatedShape | backend/services/llamaService.js:200-205 | Every validated question has four options and an answer in [0, 3]. |
| Llama.FractionalAnswerAccepted | backend/services/llamaService.js:203 | A fractional answer such as 1.5 passes validation. The check only bounds the number. |
| Llama.AnyNameContains | backend/services/llamaService.js:227 | `some` is true exactly when a name before the first throwing entry contains the base name. It throws exactly when a nameless entry is reached first. |
| Llama.HealthCheck | backend/services/llamaService.js:221-248 | The status is `error` when the listing fails or the scan throws. It is `warning` when no listed name contains the model name before its first ':', and `ok` otherwise. Only `ok` and `warning` report the model. |
| Llama.HealthOkExample | backend/services/llamaService.js:227 | "llama3.2:latest" satisfies the model "llama3.2". |
| Llama.HealthWarningExample | backend/services/llamaService.js:229-235 | A listing with only "mistral:latest" yields a warning for "llama3.2". |
| Sanitize.TagEnd | backend/middleware/sanitize.js:5 | A tag matches at the head exactly when '<' is followed by a character other than '>' and a later '>' exists. The match ends at the first '>'. |
| Sanitize.StripTags | backend/middleware/sanitize.js:5 | Never longer than the input. Uses only its characters. Keeps a first character that is not '<'. Leaves no tag. |
| Sanitize.StripTagsKeepsTagFree | backend/middleware/sanitize.js:5 | Tag-free text passes through unchanged. |
| Sanitize.StripTagsIdempotent | backend/middleware/sanitize.js:5 | Stripping tags twice is stripping them once. |
| Sanitize.StripTagsPlain | backend/middleware/sanitize.js:5 | Text before the first '<' is copied unchanged by the tag pass. |
| Sanitize.StripTagsRemovesTag | backend/middleware/sanitize.js:5 | A tag is removed whole and the scan resumes right after its '>'. |
| Sanitize.StripTagsKeepsStrayBracket | backend/middleware/sanitize.js:5 | A '<' that opens no tag is kept and the scan goes on from the next character. |
| Sanitize.CloseFrom | backend/middleware/sanitize.js:4 | A match ends right after a closing script tag, in any letter case, at least nine characters on. |
| Sanitize.CloseFromFirst | backend/middleware/sanitize.js:4 | The lazy match stops at the first closing tag, and no line terminator lies before it. |
| Sanitize.CloseFromFails | backend/middleware/sanitize.js:4 | The scan fails exactly when every closing tag after the start has a line terminator before it. |
| Sanitize.ScriptEnd | backend/middleware/sanitize.js:4 | A script match starts with an opening tag in any case and spans at least 17 characters. |
| Sanitize.ScriptEndOpens | backend/middleware/sanitize.js:4 | A match ends where the lazy scan from the opening tag's first '>' ends. There is none exactly when that scan fails. |
| Sanitize.LoweredEquals | backend/middleware/sanitize.js:4 | The lower-cased text equals a pattern exactly when each character lowers to the pattern's character. |
| Sanitize.OpensScriptLowered | backend/middleware/sanitize.js:4 | The opening-tag test is "<script" compared after lower-casing, as the `i` flag does. |
| Sanitize.ClosesScriptLowered | backend/middleware/sanitize.js:4 | The closing-tag test is "</script>" compared after lower-casing, as the `i` flag does. |
| Sanitize.StripScripts | backend/middleware/sanitize.js:4 | Never longer than the input. Text without '<' is unchanged. |
| Sanitize.CloseFromExtends | backend/middleware/sanitize.js:4 | A closing tag found in a text is found at the same place in any longer text that starts with it. |
| Sanitize.ScriptEndExtends | backend/middleware/sanitize.js:4 | A script block found at the head of a text is found the same whatever follows it. |
| Sanitize.ScriptNeedsClosing | backend/middleware/sanitize.js:4 | A script block contains a second '<', its closing tag. |
| Sanitize.ScriptOpenEnd | backend/middleware/sanitize.js:4 | The opening tag's '>' lies before the closing tag. |
| Sanitize.ScriptBlockWitness | backend/middleware/sanitize.js:4 | A script block has a '<' somewhere after a '>'. |
| Sanitize.ScriptBlockShape | backend/middleware/sanitize.js:4 | Text with no '<' after any '>' has no script block at its head. |
| Sanitize.StripScriptsPlain | backend/middleware/sanitize.js:4 | Text before the first '<' is copied unchanged by the script pass. |
| Sanitize.StripScriptsRemovesBlock | backend/middleware/sanitize.js:4 | A whole script block is removed, with its contents, and the scan resumes after its closing tag. |
| Sanitize.StripScriptsKeepsScriptFree | backend/middleware/sanitize.js:4 | Text in which no script block starts anywhere passes the script pass unchanged. |
| Sanitize.StripScriptsKeepsNoLtAfterGt | backend/middleware/sanitize.js:4 | Text with no '<' after any '>' passes the script pass unchanged. |
| Sanitize.TagThenPlainIsScriptFree | backend/middleware/sanitize.js:4 | A tag followed by text without '<' passes the script pass unchanged. |
| Sanitize.CleanText | backend/middleware/sanitize.js:2-16 | At most `limit` characters. No tag. Does not start with whitespace. For text without '<' it is the trimmed text cut to the limit. |
| Sanitize.CleanName | backend/middleware/sanitize.js:18-23 | At most 100 characters. No tag. Does not start with whitespace. For text without '<' it is the trimmed name cut to 100. |
| Sanitize.CleanTextDropsTag | backend/middleware/sanitize.js:2-16 | A tag inside plain question or concept text is removed and the rest is trimmed and cut. |
| Sanitize.CleanTextDropsScript | backend/middleware/sanitize.js:2-16 | A script block inside plain question or concept text is removed with its contents and the rest is trimmed and cut. |
| Sanitize.CleanNameDropsTag | backend/middleware/sanitize.js:18-23 | A tag inside a plain name is removed and the rest is trimmed and cut to 100. |
| Sanitize.CleanEmail | backend/middleware/sanitize.js:25-30 | The trimmed address, lower-cased character by character and cut to 100: the length is min(100, trimmed length) and each kept character is the lowered trimmed one. No upper-case letter remains. Does not start with whitespace. |
| Sanitize.LoweredPrefix | backend/middleware/sanitize.js:28-29 | Cutting the lower-cased text keeps min(n, length) characters, each the lowered original. |
| Sanitize.CleanEmailKeepsClean | backend/middleware/sanitize.js:25-30 | An already trimmed, lower-case, short address is unchanged. |
| Sanitize.CleanIfTruthy | backend/middleware/sanitize.js:2 | An absent or empty field is left alone. Any other field is cleaned. |
| Sanitize.SanitizeBody | backend/middleware/sanitize.js:1-33 | Each of question, concept, name and email, when present and non-empty, becomes the output of its own cleaner with its own limits. Absent or empty fields and the rest of the body are unchanged. |
| Documents.NewDocument | backend/models/Document.js:4-37 | A new document has the given required fields, the upload time, and neither summary nor extracted text. |
| Documents.FindOwned | backend/routes/ai.js:49-52 | The lookup finds a document exactly when it exists and belongs to the caller. |
| QuizModel.NewQuiz | backend/models/Quiz.js:42-57 | A new quiz has no answers, a null score and no completion time. Its count is the number of questions. It is consistent when its questions satisfy the schema. |
| FlashcardModel.NewCard | backend/models/Flashcard.js:4-31 | A new card has the given owner, document and texts, is not a favourite, and is stamped now. |
| AiRoutes.ServiceFailure | backend/routes/ai.js:67-72 | A service error becomes a 500 with a non-empty message. |
| AiRoutes.DocumentText | backend/routes/ai.js:49-62 | 404 exactly when the caller owns no such document. 400 exactly when it has no extracted text. Otherwise the non-empty text. |
| AiRoutes.Chat | backend/routes/ai.js:39-73 | 400 exactly when the question is missing or empty. The document's errors come next. Success carries the service's answer. A service failure becomes a 500 with the service's message. |
| AiRoutes.ChatRoute | backend/routes/ai.js:39 | After sanitising, an answered question has at most 1000 characters and contains no tag. |
| AiRoutes.Explain | backend/routes/ai.js:120-156 | 400 exactly when the concept is missing or empty. The document's errors come next. Success carries the service's explanation. A service failure becomes a 500 with the service's message. |
| AiRoutes.ExplainRoute | backend/routes/ai.js:120 | After sanitising, an explained concept has at most 500 characters and contains no tag. |
| AiRoutes.BlankQuestionNeedsNoLookup | backend/middleware/sanitize.js:2-8 | A blank question is refused with 400 whatever the documents and the endpoint are. Sanitising trims it to empty before the route checks it. |
| AiRoutes.Summary | backend/routes/ai.js:78-115 | A cached summary is returned without calling the service. Without one, on a document that has text, the request succeeds exactly when the service does, and a service error is passed on as a 500. A generated summary is stored on that document only. Errors leave the documents unchanged. |
| AiRoutes.SummaryCachedAfterGeneration | backend/routes/ai.js:97-108 | A second request after a successful one is served from the cache with the same text. |
| AiRoutes.FreshDocumentRefused | backend/routes/ai.js:58-62 | A just-uploaded document, which has no text yet, is refused with 400. |
| AiRoutes.FlashcardCount | backend/routes/ai.js:164-166 | An absent count defaults to 10. A number passes through. A `null` count passes through too, and is out of range. |
| AiRoutes.Flashcards | backend/routes/ai.js:161-199 | A count outside 1..20, or a `null` count, is refused before any lookup. For a valid count and a document with text, the request succeeds exactly when card generation does, and a generation failure is a 500 with its message. The reply's count is the number of cards and at most the requested count. A 500 carries the fixed flashcard message. |
| AiRoutes.QuestionCount | backend/routes/ai.js:207-209 | An absent count defaults to 5. A number passes through. A `null` count passes through too, and is out of range. |
| AiRoutes.QuizQuestions | backend/routes/ai.js:204-242 | A count outside 1..15, or a `null` count, is refused before any lookup. For a valid count and a document with text, the request succeeds exactly when quiz generation does, and a generation failure is a 500 with its message. The reply's count is the number of questions, each of which is well formed. A 500 carries the fixed quiz message. |
| QuizRoutes.CorrectCount | backend/routes/quizzes.js:127-132 | The number of correct answers never exceeds the number of questions. |
| QuizRoutes.CorrectCountIsMatchingIndices | backend/routes/quizzes.js:127-132 | The count is exactly the number of indices whose answer is strictly equal to the stored correct answer. |
| QuizRoutes.ScoreOf | backend/routes/quizzes.js:134 | A quiz without questions scores NaN. Otherwise the score is the whole percentage within half a point of the exact ratio, in 0..100. |
| QuizRoutes.RoundHalfUp | backend/routes/quizzes.js:134 | The integer round-half-up of 100c/t lies in 0..100 and within half a point of the real ratio. |
| QuizRoutes.ScoringExample | backend/routes/quizzes.js:127-134 | Answers 0, 1, 1 to questions whose answers are 0, 1, 2 count two correct and score 67. |
| QuizRoutes.Create | backend/routes/quizzes.js:10-46 | A missing field is a 400. A document the caller does not own is a 404. Questions that break the schema on an owned document are a 500. Otherwise a fresh, unanswered quiz is stored under the new id, keeping the store consistent. |
| QuizRoutes.ForUser | backend/routes/quizzes.js:51-62 | Lists exactly the caller's quizzes, unchanged. |
| QuizRoutes.Get | backend/routes/quizzes.js:67-83 | Found exactly when the quiz exists and belongs to the caller. Otherwise a 404. |
| QuizRoutes.ForDocument | backend/routes/quizzes.js:88-100 | Lists exactly the caller's quizzes of that document. |
| QuizRoutes.Delete | backend/routes/quizzes.js:158-176 | Only the owner can delete, and only that quiz goes. Others get a 404. |
| QuizRoutes.DeleteForDocument | backend/routes/quizzes.js:181-193 | Removes exactly the caller's quizzes of that document. |
| QuizRoutes.DeleteForDocumentClears | backend/routes/quizzes.js:181-193 | Afterwards the caller has no quiz for that document, and every other user keeps all of theirs. |
| QuizRoutes.Completion | backend/routes/quizzes.js:134-140 | The answers are recorded, the quiz is marked completed now, and its score is that of its correct count. Nothing else changes, and consistency is preserved. |
| QuizRoutes.Submit | backend/routes/quizzes.js:105-153 | Non-array answers are a 400. A quiz the caller does not own is a 404. A completed quiz is a 400. Otherwise only that quiz is completed and the reply carries its score and count. |
| QuizRoutes.SecondSubmitRefused | backend/routes/quizzes.js:122-124 | Submitting the same quiz again is refused as already completed. |
| QuizRoutes.SubmitScoreInRange | backend/routes/quizzes.js:134 | A submitted quiz with questions scores a percentage in 0..100. |
| FlashcardRoutes.TextFields | backend/routes/flashcards.js:29-35 | An element yields texts exactly when it is an object with string question and answer. |
| FlashcardRoutes.BuildCards | backend/routes/flashcards.js:29-35 | All cards are built or none are. Each is a fresh non-favourite card of the caller and document with that element's texts. |
| FlashcardRoutes.InsertFrom | backend/routes/flashcards.js:37 | The cards take consecutive new ids, and existing cards are untouched. |
| FlashcardRoutes.SaveAll | backend/routes/flashcards.js:10-47 | A missing document id or a non-array list is a 400. The 404 happens exactly for a well-formed request on a document the caller does not own. On an owned document the save succeeds exactly when every element carries string texts. Otherwise it is a 500. On success every card is stored for the caller. |
| FlashcardRoutes.Create | backend/routes/flashcards.js:52-92 | 400 exactly when a field is missing or empty. With all fields given, a document the caller does not own is a 404. Otherwise one non-favourite card is stored whose question and answer are the trimmed inputs. |
| FlashcardRoutes.Update | backend/routes/flashcards.js:149-178 | Only the owner's card changes. Given fields are replaced by their trimmed text. Everything else stays. |
| FlashcardRoutes.UpdateIdempotent | backend/routes/flashcards.js:162-168 | Applying the same edit twice is applying it once. |
| FlashcardRoutes.TrimTwice | backend/routes/flashcards.js:164 | Trimming is idempotent. |
| FlashcardRoutes.ToggleFavorite | backend/routes/flashcards.js:183-202 | Only the owner's card flips its favourite flag. Nothing else changes. |
| FlashcardRoutes.ToggleTwice | backend/routes/flashcards.js:194 | Toggling twice restores the store. |
| FlashcardRoutes.Favorites | backend/routes/flashcards.js:130-144 | Lists exactly the caller's favourite cards. |
| FlashcardRoutes.ToggleMovesFavorite | backend/routes/flashcards.js:130-135 | A toggled card enters or leaves the favourites list accordingly. |
| FlashcardRoutes.ForUser | backend/routes/flashcards.js:97-108 | Lists exactly the caller's cards. |
| FlashcardRoutes.ForDocument | backend/routes/flashcards.js:113-125 | Lists exactly the caller's cards of that document. |
| FlashcardRoutes.Delete | backend/routes/flashcards.js:207-225 | Only the owner can delete, and only that card goes. |
| FlashcardRoutes.DeleteForDocument | backend/routes/flashcards.js:230-242 | Removes exactly the caller's cards of that document. |
| FlashcardRoutes.DeleteForDocumentClears | backend/routes/flashcards.js:230-242 | Afterwards the caller has no card for that document, and every other user keeps all of theirs. |
| QuizTaker.Load | frontend/src/components/Quiz/QuizTaker.jsx:30-36 | A completed quiz redirects to its results. Otherwise taking starts at the first question with every answer unset. |
| QuizTaker.Answer | frontend/src/components/Quiz/QuizTaker.jsx:45-49 | Only the current question's answer changes. |
| QuizTaker.Next | frontend/src/components/Quiz/QuizTaker.jsx:51-55 | Moves one question forward, but not past the last one. |
| QuizTaker.Previous | frontend/src/components/Quiz/QuizTaker.jsx:57-61 | Moves one question back, but not before the first one. |
| QuizTaker.AnsweredCount | frontend/src/components/Quiz/QuizTaker.jsx:137 | The answered count never exceeds the number of questions. |
| QuizTaker.ConfirmationIffUnanswered | frontend/src/components/Quiz/QuizTaker.jsx:65-69 | Submission asks for confirmation exactly when fewer than all questions are answered. |
| QuizTaker.Payload | frontend/src/components/Quiz/QuizTaker.jsx:74 | Posted answers are `null` exactly where unanswered. Elsewhere they are the chosen index. |
| QuizTaker.CorrectAtMostAnswered | frontend/src/components/Quiz/QuizTaker.jsx:74 | The server never counts more correct answers than the client shows as answered. |
| QuizTaker.PrefixCount | backend/routes/quizzes.js:127-132 | Extra answers beyond the questions do not change the count. |
| QuizResults.Load | frontend/src/components/Quiz/QuizResults.jsx:28-33 | An uncompleted quiz redirects to the taker. Otherwise it is shown as fetched. |
| QuizResults.ClientScore | frontend/src/components/Quiz/QuizResults.jsx:83 | A whole-percentage score arrives as that number. NaN and a missing score arrive as `null`. |
| QuizResults.FilterCountsIndices | frontend/src/components/Quiz/QuizResults.jsx:69-71 | The filtered list is as long as the set of indices it keeps. |
| QuizResults.CorrectCount | frontend/src/components/Quiz/QuizResults.jsx:69-71 | The page's correct count never exceeds the number of questions. |
| QuizResults.PageCountIsServerCount | frontend/src/components/Quiz/QuizResults.jsx:114-115 | The page's count equals the server's count of the same answers and the number of questions marked correct. |
| QuizResults.IncorrectCount | frontend/src/components/Quiz/QuizResults.jsx:102-103 | For a consistent quiz the correct and incorrect counts add up to the number of questions. |
| QuizResults.BandOf | frontend/src/components/Quiz/QuizResults.jsx:41-45 | Green exactly from 80 and yellow exactly from 60 below 80. Red otherwise, including a null score. |
| QuizResults.ColoursShareBands | frontend/src/components/Quiz/QuizResults.jsx:41-51 | The text and background colours follow the same three bands. |
| QuizResults.MessageRank | frontend/src/components/Quiz/QuizResults.jsx:53-59 | Each message has its band: at least 90, 80 to below 90, 70 to below 80, 60 to below 70, and below 60 or no score. |
| QuizResults.MessagesMonotone | frontend/src/components/Quiz/QuizResults.jsx:53-59 | A higher score never gets a lower message. The two best messages are the green band and the last one is the red band. |
| QuizResults.EmptyQuizShownRed | frontend/src/components/Quiz/QuizResults.jsx:77-83 | A quiz without questions shows a null score in red with the last message. |
| QuizList.CompletedCount | frontend/src/components/Quiz/QuizList.jsx:87 | The completed count never exceeds the number of quizzes, and is zero exactly when no quiz is completed. |
| QuizList.ScoredCount | frontend/src/components/Quiz/QuizList.jsx:101 | The scored count never exceeds the number of quizzes, and is zero exactly when no quiz has a score. |
| QuizList.SumBounds | frontend/src/components/Quiz/QuizList.jsx:103-105 | With scores in 0..100, the sum lies between 0 and 100 times the number of scored quizzes. |
| QuizList.AverageScore | frontend/src/components/Quiz/QuizList.jsx:101-108 | 0 with no scored quiz. Otherwise the whole number within half a point of the mean score, in 0..100 when the scores are. |
| QuizList.RoundQuotient | frontend/src/components/Quiz/QuizList.jsx:102-107 | Integer round-half-up lies within half a point of the real quotient. |
| QuizList.ScoreColor | frontend/src/components/Quiz/QuizList.jsx:46-50 | The badge classes follow the results page's band: green from 80, yellow from 60, red below or without a score. |
| QuizList.ListBandsMatchResults | frontend/src/components/Quiz/QuizList.jsx:46-50 | The list badge uses the same three bands as the results page. |
| QuizList.ActionFor | frontend/src/components/Quiz/QuizList.jsx:201-217 | Completed quizzes offer their results. Others offer to start. |
| QuizList.ActionAgreesWithPages | frontend/src/components/Quiz/QuizList.jsx:201-217 | The offered action never leads to a page that redirects away. |
| FlashcardStudy.Start | frontend/src/components/Flashcards/FlashcardStudy.jsx:17-29 | Study starts at the first card, face up. |
| FlashcardStudy.ViewOf | frontend/src/components/Flashcards/FlashcardStudy.jsx:74-90 | The empty screen shows exactly when there are no cards. Otherwise it shows the current card. |
| FlashcardStudy.Next | frontend/src/components/Flashcards/FlashcardStudy.jsx:48-53 | Advances and unflips, but not past the last card. At the end nothing changes. |
| FlashcardStudy.Previous | frontend/src/components/Flashcards/FlashcardStudy.jsx:55-60 | Steps back and unflips, but not before the first card. At the start nothing changes. |
| FlashcardStudy.Flip | frontend/src/components/Flashcards/FlashcardStudy.jsx:62-64 | Flips only the face. |
| FlashcardStudy.FlipTwice | frontend/src/components/Flashcards/FlashcardStudy.jsx:62-64 | Flipping twice restores the state. |
| FlashcardStudy.NextThenPrevious | frontend/src/components/Flashcards/FlashcardStudy.jsx:48-60 | Next then previous returns to the same card, face up. |
| FlashcardStudy.ToggleFavorite | frontend/src/components/Flashcards/FlashcardStudy.jsx:37-46 | After a successful request the current card's flag is negated, every other part of that card is unchanged, and every other card is unchanged. A failed request changes nothing. |
| FlashcardStudy.ToggleKeepsMirror | frontend/src/components/Flashcards/FlashcardStudy.jsx:37-46 | When the screen mirrored the server's cards, it still does after a toggle on both sides. |
| FlashcardList.KeyOf | frontend/src/components/Flashcards/FlashcardList.jsx:49 | A card is keyed by its document's id, and falls in the unknown group exactly when its document is gone. |
| FlashcardList.NameOf | frontend/src/components/Flashcards/FlashcardList.jsx:50 | A populated document with a non-empty `originalName` is named by it. A missing document or an empty name becomes "Unknown Document". So a name is never empty. |
| FlashcardList.WithKey | frontend/src/components/Flashcards/FlashcardList.jsx:48-60 | A group's cards all carry its key. |
| FlashcardList.GroupByDocument | frontend/src/components/Flashcards/FlashcardList.jsx:48-60 | There is one group per distinct key. The groups are ordered by the position of each key's first card. Each holds exactly that key's cards in order and is named after its first card. |
| FlashcardList.AddExisting | frontend/src/components/Flashcards/FlashcardList.jsx:52-58 | Appending a card to its existing group keeps the grouping exact. |
| FlashcardList.AddNew | frontend/src/components/Flashcards/FlashcardList.jsx:52-58 | Opening a group for a new key keeps the grouping exact. |
| FlashcardList.GroupSizesSum | frontend/src/components/Flashcards/FlashcardList.jsx:48-60 | The group sizes add up to the number of cards: none is lost or duplicated. |
| FlashcardList.Endpoint | frontend/src/components/Flashcards/FlashcardList.jsx:43 | The favourites endpoint is used exactly for the favourites filter. |
| FlashcardList.Served | frontend/src/components/Flashcards/FlashcardList.jsx:43-45 | The list holds only the caller's cards. With the favourites filter it holds exactly the caller's favourites. Otherwise it holds all of the caller's cards. |
| FlashcardList.Edit | frontend/src/components/Flashcards/FlashcardList.jsx:75-79 | Editing succeeds exactly for the owner's card and never moves it to another document. |
| Dashboard.StatsOf | frontend/src/components/Dashboard/Dashboard.jsx:50-57 | The counts are the list lengths. The completed count never exceeds the quiz count. |
| Dashboard.DocumentEntries | frontend/src/components/Dashboard/Dashboard.jsx:62-69 | One upload entry per document, dated at its upload. |
| Dashboard.CompletedQuizzes | frontend/src/components/Dashboard/Dashboard.jsx:71-80 | Exactly the completed quizzes, as many as the completed count. Each completed quiz appears as often as in the input, and no other quiz appears. |
| Dashboard.QuizEntries | frontend/src/components/Dashboard/Dashboard.jsx:71-80 | Entry i is the completion entry of the i-th completed quiz, in order, and there are as many entries as completed quizzes. |
| Dashboard.QuizEntriesCover | frontend/src/components/Dashboard/Dashboard.jsx:71-80 | The entries are exactly those produced by the completed quizzes. |
| Dashboard.CompletedEntriesStep | frontend/src/components/Dashboard/Dashboard.jsx:71-80 | One more quiz adds its completion entry exactly when it is completed. |
| Dashboard.Recent | frontend/src/components/Dashboard/Dashboard.jsx:62 | The first min(3, n) entries of a list, in order. |
| Dashboard.Collect | frontend/src/components/Dashboard/Dashboard.jsx:60-80 | First the uploads of the first three documents, in order. Then exactly the completion entries of the completed quizzes among the first three quizzes. At most six entries. |
| Dashboard.Insert | frontend/src/components/Dashboard/Dashboard.jsx:83 | Insertion adds exactly the one entry. |
| Dashboard.InsertNewestFirst | frontend/src/components/Dashboard/Dashboard.jsx:83 | Insertion keeps the newest-first order. |
| Dashboard.SortNewestFirst | frontend/src/components/Dashboard/Dashboard.jsx:83 | The result is newest first and a permutation of the input. |
| Dashboard.RecentActivity | frontend/src/components/Dashboard/Dashboard.jsx:59-84 | min(5, candidates) entries, newest first, drawn from the candidates. No omitted candidate is newer than one shown. |
| Dashboard.TakeOfSorted | frontend/src/components/Dashboard/Dashboard.jsx:84 | The first k of a sorted list include everything newer than what they leave out. |
| Dashboard.AiStatus | frontend/src/components/Dashboard/Dashboard.jsx:30-40 | The server's report is shown as is. A failed request shows the not-running error. |
| Dashboard.FallbackMatchesServer | frontend/src/components/Dashboard/Dashboard.jsx:35-38 | The client's fallback message is the server's own not-running message. |

## Left out

- Identifiers are modelled as natural numbers (`Common.Id`), so a malformed id cannot be written. In the server every path or body id goes to a Mongoose query (`_id: req.params.id`, `_id: documentId`, `documentId: req.params.documentId`), and an id that is not a valid ObjectId makes the query throw a cast error. The route's `catch` then answers 500, not the 404 the model gives for an id it does not find. Examples are backend/routes/quizzes.js:67-83, 105-153, 158-176 and 181-193, the matching handlers in backend/routes/flashcards.js, and backend/routes/ai.js:49-52, where the reply carries the cast error's message.
- Network, timeouts and logging are not modelled. The Ollama endpoint is a parameter answering each request once. `axios` timeouts, console logging and the `OLLAMA_URL` setting are not represented.
- The sampling options (`temperature`, `top_p`) and the prompt wording are not modelled. A prompt is represented by its task, its truncated document and its parameter. The template text is not.
- `listModels` and `GET /api/ai/models` are not modelled. They only relay the endpoint's listing.
- The 500 branch of `GET /api/ai/health` is not modelled. `healthCheck` catches every error itself, so that branch cannot be reached.
- `JSON.parse` is a parameter. The JSON grammar is not modelled.
- Lengths count Unicode code points, not UTF-16 code units. Whitespace, case folding and `\s` follow the ASCII set: space, tab, newline, carriage return, form feed and vertical tab. Unicode spaces and non-ASCII letters are not handled.
- A `null` body field other than a count is modelled as an absent one. Almost everywhere `null` is falsy and behaves exactly like a missing field: the chat, explain and create routes answer 400, and the sanitiser skips it. The exception is `PUT /api/flashcards/:id` (backend/routes/flashcards.js:163-168), which tests `!== undefined` and then calls `.trim()` on `null`; that request ends in a 500, which the model does not represent. A `null` count or questionCount is modelled (`AiRoutes.CountField`): the default does not replace it and it is refused with a 400.
- Body fields are modelled as strings. A truthy non-string `question`, `concept`, `name` or `email` makes the sanitiser throw (backend/middleware/sanitize.js:2-30), and a non-string `question` or `answer` makes `.trim()` throw in create and update (backend/routes/flashcards.js:74-75, 164-167). Each of these requests ends in a 500, which the model does not represent.
- Non-string texts in the bulk flashcard save are not modelled. Mongoose would cast them. The model accepts only string fields and otherwise rejects the whole batch.
- Schema validation of empty strings is not modelled. A whitespace-only text trimmed to "" would fail Mongoose's `required` check on save.
- Counts are modelled as integers. A non-numeric or fractional `count` / `questionCount` in the request body is not modelled.
- QuizRoutes.ScoreOf: rounds the exact ratio 100·correct/total. JavaScript computes `(correct / total) * 100` in binary floating point, which can land just beside a .5 boundary and round the other way. That effect is not modelled.
- QuizList.AverageScore: the same applies to the floating-point division of the score sum.
- Casting of `userAnswers` to numbers is not modelled. The schema declares them as `[Number]`, so a posted string "1" would be stored as 1. The server scores that answer wrong, but the results page would then count it as right. The model stores the answers as posted, and QuizResults.PageCountIsServerCount holds only under that assumption.
- Storing a NaN score is modelled as succeeding. Whether Mongoose's `Number` cast accepts NaN on save is library behaviour outside this model.
- Sorting and population are not modelled. The routes' `sort({ createdAt: -1 })` order is not modelled: listings are maps. `populate` is represented only by the optional document reference of a listed flashcard.
- Concurrency is not modelled. Two simultaneous submissions of one quiz could both pass the completion check. The model applies requests one at a time.
- Dashboard.SortNewestFirst: it is an insertion sort. The model does not state stability for equal dates, on which JavaScript's `Array.prototype.sort` comparator order depends.
- The activity titles, icons and page rendering are not modelled. Loading spinners and the browser's `confirm` dialog are not modelled either; the dialog's outcome is left to the caller.
- Sanitize.CleanText: trimming happens before the cut, so the result can end in whitespace. Sanitising is therefore not idempotent, and the model does not claim it.
- QuizRoutes.Submit: the model assumes every stored quiz is consistent, with a `totalQuestions` equal to its number of questions and schema-valid questions. This is the invariant that QuizRoutes.Create establishes and QuizRoutes.Submit preserves. A quiz edited outside the routes could break it, making JavaScript divide by an unrelated `totalQuestions`; that case is not modelled.
