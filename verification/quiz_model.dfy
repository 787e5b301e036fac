/** The quiz record (`models/Quiz.js`): four-option questions with an answer
    index in [0, 3], and the null/empty state a quiz is created in. */
module QuizModel {
  import opened Common
  import opened Json

  /** `correctAnswer` is a JavaScript number, hence a real: the schema bounds it but
      does not demand a whole number. */
  datatype Question = Question(question: string, options: seq<string>, correctAnswer: real, explanation: string)

  /** A score as stored: a whole percentage, or NaN (a quiz with no questions). */
  datatype Score = Percent(value: int) | NaN

  /** `completedAt` is a millisecond timestamp or `null`; `score` is `null` until submission. */
  datatype Quiz = Quiz(
    userId: Id,
    documentId: Id,
    questions: seq<Question>,
    userAnswers: seq<JsonValue>,
    score: Option<Score>,
    totalQuestions: int,
    completedAt: Option<int>,
    createdAt: int)

  /** The schema's per-question validators: exactly four options, `min: 0`, `max: 3`. */
  predicate ValidQuestion(q: Question) {
    |q.options| == 4 && 0.0 <= q.correctAnswer <= 3.0
  }

  predicate ValidQuestions(qs: seq<Question>) {
    forall i :: 0 <= i < |qs| ==> ValidQuestion(qs[i])
  }

  /** `!!quiz.completedAt` */
  predicate Completed(q: Quiz) {
    q.completedAt.Some?
  }

  /** What every stored quiz satisfies: its questions pass the schema, its count is
      the number of questions, and a score exists exactly when it is completed. */
  predicate Consistent(q: Quiz) {
    && ValidQuestions(q.questions)
    && q.totalQuestions == |q.questions|
    && (q.score.Some? <==> Completed(q))
  }

  /** `new Quiz({ userId, documentId, questions, totalQuestions: questions.length })`
      with the schema defaults: no answers, `score` and `completedAt` null. */
  function NewQuiz(userId: Id, documentId: Id, questions: seq<Question>, now: int): (q: Quiz)
    ensures q.userId == userId && q.documentId == documentId && q.questions == questions
    ensures q.userAnswers == [] && q.score.None? && !Completed(q) && q.createdAt == now
    ensures q.totalQuestions == |questions|
    ensures ValidQuestions(questions) ==> Consistent(q)
  {
    Quiz(userId, documentId, questions, [], None, |questions|, None, now)
  }
}
