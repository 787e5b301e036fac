/** The results page (`QuizResults.jsx`): the correct count recomputed on the
    client, and the colour and message bands chosen by score. */
module QuizResults {
  import opened Common
  import opened Json
  import opened QuizModel
  import QuizRoutes

  datatype Page = RedirectToTake | Showing(quiz: Quiz)

  /** `fetchQuiz`: an unfinished quiz sends the user back to take it. */
  function Load(q: Quiz): (p: Page)
    ensures p.RedirectToTake? <==> !Completed(q)
    ensures p.Showing? ==> p.quiz == q
  {
    if Completed(q) then Showing(q) else RedirectToTake
  }

  /** The score as the page receives it: JSON has no NaN, so a NaN score arrives as `null`. */
  function ClientScore(s: Option<Score>): (r: Option<int>)
    ensures r.Some? <==> s.Some? && s.value.Percent?
    ensures r.Some? ==> r.value == s.value.value
  {
    if s.Some? && s.value.Percent? then Some(s.value.value) else None
  }

  /** `score >= k` in JavaScript, where `null` compares as 0. */
  predicate AtLeast(score: Option<int>, k: int) {
    (if score.None? then 0 else score.value) >= k
  }

  // ---------------------------------------------------------------------------
  // The per-question marks and the count

  /** `quiz.userAnswers[index] === question.correctAnswer` */
  predicate MarkedCorrect(q: Quiz, index: int) {
    QuizRoutes.CorrectAt(q.questions, q.userAnswers, index)
  }

  /** `quiz.questions.filter((q, idx) => ...)` from index `i` on. */
  function FilterCorrect(questions: seq<Question>, answers: seq<JsonValue>, i: nat): (r: seq<Question>)
    requires i <= |questions|
    ensures |r| <= |questions| - i
    decreases |questions| - i
  {
    if i == |questions| then []
    else (if QuizRoutes.CorrectAt(questions, answers, i) then [questions[i]] else [])
         + FilterCorrect(questions, answers, i + 1)
  }

  function CorrectFrom(questions: seq<Question>, answers: seq<JsonValue>, i: nat): set<nat> {
    set j: nat | i <= j < |questions| && QuizRoutes.CorrectAt(questions, answers, j)
  }

  lemma {:induction false} FilterCountsIndices(questions: seq<Question>, answers: seq<JsonValue>, i: nat)
    requires i <= |questions|
    ensures |FilterCorrect(questions, answers, i)| == |CorrectFrom(questions, answers, i)|
    decreases |questions| - i
  {
    if i < |questions| {
      FilterCountsIndices(questions, answers, i + 1);
      var rest := CorrectFrom(questions, answers, i + 1);
      if QuizRoutes.CorrectAt(questions, answers, i) {
        assert CorrectFrom(questions, answers, i) == rest + {i};
      } else {
        assert CorrectFrom(questions, answers, i) == rest;
      }
    } else {
      assert CorrectFrom(questions, answers, i) == {};
    }
  }

  /** `correctCount` as the page computes it. */
  function CorrectCount(q: Quiz): (n: nat)
    ensures n <= |q.questions|
  {
    |FilterCorrect(q.questions, q.userAnswers, 0)|
  }

  /** The page's count is the server's: both count the same strict per-index matches. */
  lemma PageCountIsServerCount(q: Quiz)
    ensures CorrectCount(q) == QuizRoutes.CorrectCount(q.questions, q.userAnswers)
    ensures CorrectCount(q) == |set i: nat | i < |q.questions| && MarkedCorrect(q, i)|
  {
    FilterCountsIndices(q.questions, q.userAnswers, 0);
    QuizRoutes.CorrectCountIsMatchingIndices(q.questions, q.userAnswers);
    assert CorrectFrom(q.questions, q.userAnswers, 0) == QuizRoutes.CorrectIndices(q.questions, q.userAnswers);
    assert (set i: nat | i < |q.questions| && MarkedCorrect(q, i)) == CorrectFrom(q.questions, q.userAnswers, 0);
  }

  /** `quiz.totalQuestions - correctCount` */
  function IncorrectCount(q: Quiz): (n: int)
    ensures Consistent(q) ==> 0 <= n && n + CorrectCount(q) == |q.questions|
  {
    q.totalQuestions - CorrectCount(q)
  }

  // ---------------------------------------------------------------------------
  // Bands

  datatype Band = Green | Yellow | Red

  /** Green at 80 and above, yellow at 60 and above, red below (and for `null`). */
  function BandOf(score: Option<int>): (b: Band)
    ensures b == Green <==> AtLeast(score, 80)
    ensures b == Yellow <==> AtLeast(score, 60) && !AtLeast(score, 80)
    ensures b == Red <==> !AtLeast(score, 60)
  {
    if AtLeast(score, 80) then Green else if AtLeast(score, 60) then Yellow else Red
  }

  /** `getScoreColor` */
  function ScoreColor(score: Option<int>): string {
    if AtLeast(score, 80) then "text-green-600"
    else if AtLeast(score, 60) then "text-yellow-600"
    else "text-red-600"
  }

  /** `getScoreBgColor` */
  function ScoreBgColor(score: Option<int>): string {
    if AtLeast(score, 80) then "from-green-50 to-green-100"
    else if AtLeast(score, 60) then "from-yellow-50 to-yellow-100"
    else "from-red-50 to-red-100"
  }

  /** Text and background follow the same three bands. */
  lemma ColoursShareBands(score: Option<int>)
    ensures ScoreColor(score) == "text-green-600" <==> BandOf(score) == Green
    ensures ScoreColor(score) == "text-yellow-600" <==> BandOf(score) == Yellow
    ensures ScoreColor(score) == "text-red-600" <==> BandOf(score) == Red
    ensures ScoreBgColor(score) == "from-green-50 to-green-100" <==> BandOf(score) == Green
    ensures ScoreBgColor(score) == "from-yellow-50 to-yellow-100" <==> BandOf(score) == Yellow
    ensures ScoreBgColor(score) == "from-red-50 to-red-100" <==> BandOf(score) == Red
  {
    var g, y, r := "text-green-600", "text-yellow-600", "text-red-600";
    assert g[5] == 'g' && y[5] == 'y' && r[5] == 'r';
    var bgGreen, bgYellow, bgRed := "from-green-50 to-green-100", "from-yellow-50 to-yellow-100", "from-red-50 to-red-100";
    assert bgGreen[5] == 'g' && bgYellow[5] == 'y' && bgRed[5] == 'r';
  }

  /** The five messages of `getMessage`, best first. */
  const Messages: seq<string> := [
    "Outstanding! \U{1F389}",
    "Great job! \U{1F44F}",
    "Good work! \U{1F44D}",
    "Not bad! \U{1F4AA}",
    "Keep practicing! \U{1F4DA}"]

  /** The rank of the message `getMessage` picks: 0 at 90 and above, then 80, 70, 60, below. */
  function MessageRank(score: Option<int>): (k: nat)
    ensures k < |Messages|
    ensures k == 0 <==> AtLeast(score, 90)
    ensures k == 1 <==> AtLeast(score, 80) && !AtLeast(score, 90)
    ensures k == 2 <==> AtLeast(score, 70) && !AtLeast(score, 80)
    ensures k == 3 <==> AtLeast(score, 60) && !AtLeast(score, 70)
    ensures k == 4 <==> !AtLeast(score, 60)
  {
    if AtLeast(score, 90) then 0
    else if AtLeast(score, 80) then 1
    else if AtLeast(score, 70) then 2
    else if AtLeast(score, 60) then 3
    else 4
  }

  /** `getMessage` */
  function Message(score: Option<int>): string {
    Messages[MessageRank(score)]
  }

  /** A higher score never gets a worse message, and the two message bands above 80
      are exactly the green band. */
  lemma MessagesMonotone(a: int, b: int)
    requires a <= b
    ensures MessageRank(Some(b)) <= MessageRank(Some(a))
    ensures MessageRank(Some(a)) <= 1 <==> BandOf(Some(a)) == Green
    ensures MessageRank(Some(a)) == 4 <==> BandOf(Some(a)) == Red
  {
  }

  /** A quiz with no questions is shown as `null` per cent, in red, with the lowest message. */
  lemma EmptyQuizShownRed(q: Quiz)
    requires q.score == Some(NaN)
    ensures ClientScore(q.score).None?
    ensures BandOf(ClientScore(q.score)) == Red && MessageRank(ClientScore(q.score)) == 4
  {
  }
}
