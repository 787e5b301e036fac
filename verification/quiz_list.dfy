/** The quiz overview (`QuizList.jsx`): how many quizzes are completed, the average
    score over the scored ones, the colour of each score, and the action offered. */
module QuizList {
  import opened Common
  import opened QuizModel
  import QuizRoutes
  import QuizResults
  import QuizTaker

  /** `!!quiz.completedAt` as a filter callback. */
  predicate IsCompleted(q: Quiz) { Completed(q) }

  /** `quizzes.filter(q => q.completedAt).length` */
  function CompletedCount(quizzes: seq<Quiz>): (n: nat)
    ensures n <= |quizzes|
    ensures n == 0 <==> forall i :: 0 <= i < |quizzes| ==> !Completed(quizzes[i])
  {
    CountWhere(quizzes, IsCompleted)
  }

  /** `q.score !== null` on the score the page receives. */
  predicate IsScored(q: Quiz) { QuizResults.ClientScore(q.score).Some? }

  function ScoredCount(quizzes: seq<Quiz>): (n: nat)
    ensures n <= |quizzes|
    ensures n == 0 <==> forall i :: 0 <= i < |quizzes| ==> !IsScored(quizzes[i])
  {
    CountWhere(quizzes, IsScored)
  }

  /** `.reduce((acc, q) => acc + q.score, 0)` over the scored quizzes. */
  function ScoredSum(quizzes: seq<Quiz>): int {
    if quizzes == [] then 0
    else
      var n := |quizzes| - 1;
      var q := quizzes[n];
      ScoredSum(quizzes[..n]) + (if IsScored(q) then QuizResults.ClientScore(q.score).value else 0)
  }

  /** Every score the page receives is a percentage. */
  predicate ScoresInRange(quizzes: seq<Quiz>) {
    forall i :: 0 <= i < |quizzes| && IsScored(quizzes[i]) ==>
      0 <= QuizResults.ClientScore(quizzes[i].score).value <= 100
  }

  lemma {:induction false} SumBounds(quizzes: seq<Quiz>)
    requires ScoresInRange(quizzes)
    ensures 0 <= ScoredSum(quizzes) <= 100 * ScoredCount(quizzes)
  {
    if quizzes != [] {
      var n := |quizzes| - 1;
      assert ScoresInRange(quizzes[..n]) by {
        forall i | 0 <= i < n ensures quizzes[..n][i] == quizzes[i] { }
      }
      SumBounds(quizzes[..n]);
    }
  }

  /** The "Avg Score" figure: `Math.round(sum / count)` over the scored quizzes, and 0
      when none is scored. */
  function AverageScore(quizzes: seq<Quiz>): (avg: int)
    ensures ScoredCount(quizzes) == 0 ==> avg == 0
    ensures ScoredCount(quizzes) > 0 ==>
              var mean := (ScoredSum(quizzes) as real) / (ScoredCount(quizzes) as real);
              (avg as real) - 0.5 <= mean < (avg as real) + 0.5
    ensures ScoresInRange(quizzes) ==> 0 <= avg <= 100
  {
    var count := ScoredCount(quizzes);
    if count == 0 then 0
    else
      var sum := ScoredSum(quizzes);
      var avg := (2 * sum + count) / (2 * count);
      RoundQuotient(sum, count, avg);
      if ScoresInRange(quizzes) then
        SumBounds(quizzes);
        MeanBounds(sum, count);
        avg
      else avg
  }

  /** `Math.round` of `s / c` as exact integer arithmetic: half-way cases round up. */
  lemma RoundQuotient(s: int, c: int, r: int)
    requires c > 0 && r == (2 * s + c) / (2 * c)
    ensures (r as real) - 0.5 <= (s as real) / (c as real) < (r as real) + 0.5
  {
    QuizRoutes.DivisionBounds(2 * s + c, 2 * c);
    assert 2 * c * r <= 2 * s + c < 2 * c * r + 2 * c;
    var cr, rr, sr := c as real, r as real, s as real;
    assert 2.0 * cr * rr <= 2.0 * sr + cr < 2.0 * cr * rr + 2.0 * cr;
    var x := sr / cr;
    assert x * cr == sr;
    assert cr * (2.0 * rr - 2.0 * x - 1.0) == 2.0 * cr * rr - 2.0 * (x * cr) - cr;
    QuizRoutes.RealSign(cr, 2.0 * rr - 2.0 * x - 1.0);
    assert cr * (2.0 * x + 1.0 - 2.0 * rr - 2.0) == 2.0 * (x * cr) + cr - 2.0 * cr * rr - 2.0 * cr;
    QuizRoutes.RealSignStrict(cr, 2.0 * x + 1.0 - 2.0 * rr - 2.0);
  }

  lemma MeanBounds(s: int, c: int)
    requires c > 0 && 0 <= s <= 100 * c
    ensures 0.0 <= (s as real) / (c as real) <= 100.0
  {
    var cr, sr := c as real, s as real;
    var x := sr / cr;
    assert x * cr == sr;
    assert cr * (x - 100.0) == sr - 100.0 * cr;
    QuizRoutes.RealSign(cr, x - 100.0);
    assert cr * (0.0 - x) == 0.0 - sr;
    QuizRoutes.RealSign(cr, 0.0 - x);
  }

  /** `getScoreColor` of the list: text and background classes in one string. */
  function ScoreColor(score: Option<int>): (c: string)
    ensures QuizResults.BandOf(score) == QuizResults.Green ==> c == "text-green-600 bg-green-100"
    ensures QuizResults.BandOf(score) == QuizResults.Yellow ==> c == "text-yellow-600 bg-yellow-100"
    ensures QuizResults.BandOf(score) == QuizResults.Red ==> c == "text-red-600 bg-red-100"
  {
    if QuizResults.AtLeast(score, 80) then "text-green-600 bg-green-100"
    else if QuizResults.AtLeast(score, 60) then "text-yellow-600 bg-yellow-100"
    else "text-red-600 bg-red-100"
  }

  /** The list colours a score with the same band the results page does. */
  lemma ListBandsMatchResults(score: Option<int>)
    ensures ScoreColor(score) == "text-green-600 bg-green-100" <==> QuizResults.BandOf(score) == QuizResults.Green
    ensures ScoreColor(score) == "text-yellow-600 bg-yellow-100" <==> QuizResults.BandOf(score) == QuizResults.Yellow
    ensures ScoreColor(score) == "text-red-600 bg-red-100" <==> QuizResults.BandOf(score) == QuizResults.Red
  {
    var g, y, r := "text-green-600 bg-green-100", "text-yellow-600 bg-yellow-100", "text-red-600 bg-red-100";
    assert g[5] == 'g' && y[5] == 'y' && r[5] == 'r';
  }

  datatype Action = ViewResults | StartQuiz

  /** The button under each quiz. */
  function ActionFor(q: Quiz): (a: Action)
    ensures a == ViewResults <==> Completed(q)
  {
    if Completed(q) then ViewResults else StartQuiz
  }

  /** The button never leads to a redirect: results are offered exactly for the
      quizzes the results page shows, and taking exactly for those the taking page opens. */
  lemma ActionAgreesWithPages(q: Quiz)
    ensures ActionFor(q) == ViewResults <==> QuizResults.Load(q).Showing?
    ensures ActionFor(q) == StartQuiz <==> QuizTaker.Load(q).Taking?
  {
  }
}
