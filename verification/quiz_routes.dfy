/** `routes/quizzes.js` over a store `map<Id, Quiz>`: creation, owner-filtered
    lookup and deletion, and the one-shot submission that scores a quiz. */
module QuizRoutes {
  import opened Common
  import opened Json
  import opened QuizModel
  import Documents

  type Store = map<Id, Quiz>

  const InvalidRequest: Failure := Failure(400, "Invalid request data")
  const DocumentNotFound: Failure := Failure(404, "Document not found or access denied")
  const ServerError: Failure := Failure(500, "Server error")
  const QuizNotFound: Failure := Failure(404, "Quiz not found")
  const InvalidAnswers: Failure := Failure(400, "Invalid answers format")
  const AlreadyCompleted: Failure := Failure(400, "Quiz already completed")

  predicate StoreConsistent(store: Store) {
    forall id :: id in store ==> Consistent(store[id])
  }

  /** `Quiz.findOne({ _id: id, userId })` */
  predicate Owns(store: Store, id: Id, user: Id) {
    id in store && store[id].userId == user
  }

  // ---------------------------------------------------------------------------
  // Scoring

  /** `answers[i] === question.correctAnswer`: only a number equal to the answer matches. */
  predicate Matches(answer: JsonValue, q: Question) {
    answer == JNum(q.correctAnswer)
  }

  /** Index `i` is answered correctly; an index past the end of `answers` reads `undefined`. */
  predicate CorrectAt(questions: seq<Question>, answers: seq<JsonValue>, i: int) {
    0 <= i < |questions| && i < |answers| && Matches(answers[i], questions[i])
  }

  /** The `forEach` loop counting correct answers. */
  function CorrectCount(questions: seq<Question>, answers: seq<JsonValue>): (c: nat)
    ensures c <= |questions|
  {
    if questions == [] then 0
    else
      var n := |questions| - 1;
      CorrectCount(questions[..n], answers) + (if n < |answers| && Matches(answers[n], questions[n]) then 1 else 0)
  }

  /** The indices the loop counts. */
  function CorrectIndices(questions: seq<Question>, answers: seq<JsonValue>): set<nat> {
    set i: nat | i < |questions| && CorrectAt(questions, answers, i)
  }

  /** The count is the number of indices with a strict match; missing, extra or
      non-matching entries never count. */
  lemma {:induction false} CorrectCountIsMatchingIndices(questions: seq<Question>, answers: seq<JsonValue>)
    ensures CorrectCount(questions, answers) == |CorrectIndices(questions, answers)|
  {
    if questions != [] {
      var n := |questions| - 1;
      var prefix := questions[..n];
      CorrectCountIsMatchingIndices(prefix, answers);
      var before := CorrectIndices(prefix, answers);
      var all := CorrectIndices(questions, answers);
      assert forall i: nat :: i < n ==> (CorrectAt(prefix, answers, i) <==> CorrectAt(questions, answers, i));
      if CorrectAt(questions, answers, n) {
        assert all == before + {n};
      } else {
        assert all == before;
      }
    }
  }

  /** `Math.round(correctCount / totalQuestions * 100)`, computed exactly: half-way
      cases round up, and no questions gives NaN. */
  function ScoreOf(correct: nat, total: nat): (s: Score)
    requires correct <= total
    ensures total == 0 <==> s.NaN?
    ensures total > 0 ==> 0 <= s.value <= 100
    ensures total > 0 ==> (s.value as real) - 0.5 <= 100.0 * (correct as real) / (total as real) < (s.value as real) + 0.5
  {
    if total == 0 then NaN
    else
      var p := (200 * correct + total) / (2 * total);
      RoundHalfUp(correct, total, p);
      Percent(p)
  }

  lemma RoundHalfUp(c: nat, t: nat, p: int)
    requires 0 < t && c <= t && p == (200 * c + t) / (2 * t)
    ensures 0 <= p <= 100
    ensures (p as real) - 0.5 <= 100.0 * (c as real) / (t as real) < (p as real) + 0.5
  {
    DivisionBounds(200 * c + t, 2 * t);
    var lo := 2 * t * p;
    assert lo <= 200 * c + t < lo + 2 * t;
    PercentRange(c, t, p);
    RealRounding(c, t, p);
  }

  lemma DivisionBounds(a: int, d: int)
    requires d > 0
    ensures d * (a / d) <= a < d * (a / d) + d
  {
  }

  lemma PercentRange(c: nat, t: nat, p: int)
    requires 0 < t && c <= t && 2 * t * p <= 200 * c + t < 2 * t * p + 2 * t
    ensures 0 <= p <= 100
  {
    assert 200 * c <= 200 * t;
    assert t * (2 * p - 201) == 2 * t * p - 201 * t;
    SignOfProduct(t, 2 * p - 201);
    assert t * (2 * p + 2) == 2 * t * p + 2 * t;
    SignOfProductPos(t, 2 * p + 2);
  }

  lemma RealRounding(c: nat, t: nat, p: int)
    requires 0 < t && 2 * t * p <= 200 * c + t < 2 * t * p + 2 * t
    ensures (p as real) - 0.5 <= 100.0 * (c as real) / (t as real) < (p as real) + 0.5
  {
    var tr, pr, cr := t as real, p as real, c as real;
    assert 2.0 * tr * pr <= 200.0 * cr + tr < 2.0 * tr * pr + 2.0 * tr;
    var x := 100.0 * cr / tr;
    assert x * tr == 100.0 * cr;
    assert tr * (2.0 * pr - 2.0 * x - 1.0) == 2.0 * tr * pr - 2.0 * (x * tr) - tr;
    RealSign(tr, 2.0 * pr - 2.0 * x - 1.0);
    assert tr * (2.0 * x + 1.0 - 2.0 * pr - 2.0) == 2.0 * (x * tr) + tr - 2.0 * tr * pr - 2.0 * tr;
    RealSignStrict(tr, 2.0 * x + 1.0 - 2.0 * pr - 2.0);
  }

  lemma SignOfProduct(a: int, b: int)
    requires a > 0 && a * b <= 0
    ensures b <= 0
  {
  }

  lemma SignOfProductPos(a: int, b: int)
    requires a > 0 && a * b > 0
    ensures b > 0
  {
  }

  lemma RealSign(a: real, b: real)
    requires a > 0.0 && a * b <= 0.0
    ensures b <= 0.0
  {
  }

  lemma RealSignStrict(a: real, b: real)
    requires a > 0.0 && a * b < 0.0
    ensures b < 0.0
  {
  }

  /** Three questions answered 0, 1, 1 against answers 0, 1, 2 score 67 with two correct. */
  lemma ScoringExample()
    ensures var qs := [Question("a", ["w", "x", "y", "z"], 0.0, "e"),
                       Question("b", ["w", "x", "y", "z"], 1.0, "e"),
                       Question("c", ["w", "x", "y", "z"], 2.0, "e")];
            var answers := [JNum(0.0), JNum(1.0), JNum(1.0)];
            CorrectCount(qs, answers) == 2 && ScoreOf(2, 3) == Percent(67)
  {
    var qs := [Question("a", ["w", "x", "y", "z"], 0.0, "e"),
               Question("b", ["w", "x", "y", "z"], 1.0, "e"),
               Question("c", ["w", "x", "y", "z"], 2.0, "e")];
    var answers := [JNum(0.0), JNum(1.0), JNum(1.0)];
    assert qs[..2][..1] == qs[..1];
    assert qs[..1][..0] == [];
  }

  // ---------------------------------------------------------------------------
  // Routes

  /** `POST /`: both fields required, the document must be the caller's, and the
      schema validators run on save. */
  function Create(store: Store, docs: map<Id, Documents.Document>, user: Id, documentId: Option<Id>,
                  questions: Option<seq<Question>>, newId: Id, now: int): (r: Result<(Store, Quiz), Failure>)
    requires newId !in store
    ensures (documentId.None? || questions.None?) ==> r == Err(InvalidRequest)
    ensures documentId.Some? && questions.Some? && Documents.FindOwned(docs, documentId.value, user).None?
            ==> r == Err(DocumentNotFound)
    ensures && documentId.Some? && questions.Some? && Documents.FindOwned(docs, documentId.value, user).Some?
            && !ValidQuestions(questions.value)
            ==> r == Err(ServerError)
    ensures r.Ok? <==> && documentId.Some? && questions.Some?
                       && Documents.FindOwned(docs, documentId.value, user).Some?
                       && ValidQuestions(questions.value)
    ensures r.Ok? ==> var (store', q) := r.value;
                      && store' == store[newId := q]
                      && q == NewQuiz(user, documentId.value, questions.value, now)
                      && q.totalQuestions == |questions.value| && q.score.None? && !Completed(q)
    ensures r.Ok? && StoreConsistent(store) ==> StoreConsistent(r.value.0)
  {
    if documentId.None? || questions.None? then Err(InvalidRequest)
    else if Documents.FindOwned(docs, documentId.value, user).None? then Err(DocumentNotFound)
    else if !ValidQuestions(questions.value) then Err(ServerError)
    else
      var q := NewQuiz(user, documentId.value, questions.value, now);
      Ok((store[newId := q], q))
  }

  /** `GET /:id` */
  function Get(store: Store, id: Id, user: Id): (r: Result<Quiz, Failure>)
    ensures r.Ok? <==> Owns(store, id, user)
    ensures r.Ok? ==> r.value == store[id]
    ensures r.Err? ==> r.error == QuizNotFound
  {
    if Owns(store, id, user) then Ok(store[id]) else Err(QuizNotFound)
  }

  /** `GET /`: the caller's quizzes. The flashcard routes have the same filter over
      cards; each route file keeps its own, as the server does. */
  function ForUser(store: Store, user: Id): (r: Store)
    ensures forall k :: k in r <==> Owns(store, k, user)
    ensures forall k :: k in r ==> k in store && r[k] == store[k]
  {
    map k | k in store && store[k].userId == user :: store[k]
  }

  /** `GET /document/:documentId`: the caller's quizzes of one document, the same
      filter as the flashcard routes' over quizzes. */
  function ForDocument(store: Store, user: Id, documentId: Id): (r: Store)
    ensures forall k :: k in r <==> Owns(store, k, user) && store[k].documentId == documentId
    ensures forall k :: k in r ==> k in store && r[k] == store[k]
  {
    map k | k in store && store[k].userId == user && store[k].documentId == documentId :: store[k]
  }

  /** `DELETE /:id`: removes exactly that quiz, and only the owner may. */
  function Delete(store: Store, id: Id, user: Id): (r: Result<Store, Failure>)
    ensures r.Ok? <==> Owns(store, id, user)
    ensures r.Err? ==> r.error == QuizNotFound
    ensures r.Ok? ==> r.value.Keys == store.Keys - {id}
    ensures r.Ok? ==> forall k :: k in r.value ==> r.value[k] == store[k]
  {
    if Owns(store, id, user) then Ok(store - {id}) else Err(QuizNotFound)
  }

  /** `DELETE /document/:documentId`: removes exactly the caller's quizzes of that document. */
  function DeleteForDocument(store: Store, user: Id, documentId: Id): (r: Store)
    ensures forall k :: k in r <==> k in store && !(store[k].userId == user && store[k].documentId == documentId)
    ensures forall k :: k in r ==> r[k] == store[k]
  {
    map k | k in store && !(store[k].userId == user && store[k].documentId == documentId) :: store[k]
  }

  /** After deleting a document's quizzes the caller has none left for it, and every
      other user keeps all of theirs. */
  lemma DeleteForDocumentClears(store: Store, user: Id, documentId: Id, other: Id)
    requires other != user
    ensures ForDocument(DeleteForDocument(store, user, documentId), user, documentId) == map[]
    ensures ForUser(DeleteForDocument(store, user, documentId), other) == ForUser(store, other)
  {
    var r := DeleteForDocument(store, user, documentId);
    assert ForDocument(r, user, documentId).Keys == {};
  }

  datatype SubmitReply = SubmitReply(score: Score, correctCount: nat, totalQuestions: int)

  /** The quiz as a successful submission leaves it. */
  function Completion(q: Quiz, answers: seq<JsonValue>, now: int): (q': Quiz)
    requires Consistent(q)
    ensures q'.userAnswers == answers && Completed(q') && q'.completedAt == Some(now)
    ensures q'.score == Some(ScoreOf(CorrectCount(q.questions, answers), |q.questions|))
    ensures q'.questions == q.questions && q'.userId == q.userId && q'.documentId == q.documentId
    ensures q'.totalQuestions == q.totalQuestions && q'.createdAt == q.createdAt
    ensures Consistent(q')
  {
    q.(userAnswers := answers,
       score := Some(ScoreOf(CorrectCount(q.questions, answers), q.totalQuestions)),
       completedAt := Some(now))
  }

  /** `POST /:id/submit`: a non-array body is refused before any lookup, a completed
      quiz is refused unchanged, otherwise the answers, score and completion time are
      stored together. */
  function Submit(store: Store, id: Id, user: Id, answers: Option<seq<JsonValue>>, now: int)
    : (r: Result<(Store, SubmitReply), Failure>)
    requires StoreConsistent(store)
    ensures answers.None? ==> r == Err(InvalidAnswers)
    ensures answers.Some? && !Owns(store, id, user) ==> r == Err(QuizNotFound)
    ensures answers.Some? && Owns(store, id, user) && Completed(store[id]) ==> r == Err(AlreadyCompleted)
    ensures r.Ok? <==> answers.Some? && Owns(store, id, user) && !Completed(store[id])
    ensures r.Ok? ==> var (store', reply) := r.value;
                      && store' == store[id := Completion(store[id], answers.value, now)]
                      && reply.correctCount == CorrectCount(store[id].questions, answers.value)
                      && reply.totalQuestions == |store[id].questions|
                      && reply.score == ScoreOf(reply.correctCount, |store[id].questions|)
                      && StoreConsistent(store')
  {
    if answers.None? then Err(InvalidAnswers)
    else if !Owns(store, id, user) then Err(QuizNotFound)
    else
      var q := store[id];
      if Completed(q) then Err(AlreadyCompleted)
      else
        var correct := CorrectCount(q.questions, answers.value);
        var q' := Completion(q, answers.value, now);
        Ok((store[id := q'], SubmitReply(ScoreOf(correct, q.totalQuestions), correct, q.totalQuestions)))
  }

  /** Submission is one-shot: once a submission succeeds, every later one is refused
      whatever answers it carries, and changes nothing. */
  lemma SecondSubmitRefused(store: Store, id: Id, user: Id, answers: seq<JsonValue>, now: int,
                            answers': seq<JsonValue>, later: int)
    requires StoreConsistent(store)
    requires Submit(store, id, user, Some(answers), now).Ok?
    ensures var store' := Submit(store, id, user, Some(answers), now).value.0;
            Submit(store', id, user, Some(answers'), later) == Err(AlreadyCompleted)
  {
  }

  /** With at least one question, the submitted score is a percentage in [0, 100]. */
  lemma SubmitScoreInRange(store: Store, id: Id, user: Id, answers: seq<JsonValue>, now: int)
    requires StoreConsistent(store)
    requires Submit(store, id, user, Some(answers), now).Ok?
    requires |store[id].questions| > 0
    ensures var s := Submit(store, id, user, Some(answers), now).value.1.score;
            s.Percent? && 0 <= s.value <= 100
  {
  }
}
