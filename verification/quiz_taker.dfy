/** The quiz-taking page (`QuizTaker.jsx`): an answer sheet with one slot per
    question, a current question that stays in range, and the payload it submits. */
module QuizTaker {
  import opened Common
  import opened Json
  import opened QuizModel
  import QuizRoutes

  /** `answers` holds `null` (`None`) or the chosen option index; `current` is `currentQuestion`. */
  datatype Sheet = Sheet(answers: seq<Option<int>>, current: nat)

  /** The sheet belongs to a quiz of `n` questions and points at one of them (or at 0 when there are none). */
  predicate Valid(s: Sheet, n: nat) {
    |s.answers| == n && (if n == 0 then s.current == 0 else s.current < n)
  }

  datatype Page = RedirectToResults | Taking(sheet: Sheet)

  /** `fetchQuiz`: a completed quiz sends the user to its results; otherwise the
      sheet starts with every answer `null` at the first question. */
  function Load(q: Quiz): (p: Page)
    ensures p.RedirectToResults? <==> Completed(q)
    ensures p.Taking? ==> Valid(p.sheet, |q.questions|) && p.sheet.current == 0
    ensures p.Taking? ==> forall i :: 0 <= i < |p.sheet.answers| ==> p.sheet.answers[i].None?
  {
    if Completed(q) then RedirectToResults
    else Taking(Sheet(seq(|q.questions|, _ => None), 0))
  }

  /** `handleAnswer`: only the current slot changes. */
  function Answer(s: Sheet, choice: int): (s': Sheet)
    requires s.current < |s.answers|
    ensures |s'.answers| == |s.answers| && s'.current == s.current
    ensures s'.answers[s.current] == Some(choice)
    ensures forall i :: 0 <= i < |s.answers| && i != s.current ==> s'.answers[i] == s.answers[i]
  {
    s.(answers := s.answers[s.current := Some(choice)])
  }

  /** `handleNext`: one step forward unless already at the last question. */
  function Next(s: Sheet, n: nat): (s': Sheet)
    requires Valid(s, n)
    ensures Valid(s', n) && s'.answers == s.answers
    ensures s.current + 1 < n ==> s'.current == s.current + 1
    ensures s.current + 1 >= n ==> s' == s
  {
    if s.current < n - 1 then s.(current := s.current + 1) else s
  }

  /** `handlePrevious`: one step back unless already at the first question. */
  function Previous(s: Sheet, n: nat): (s': Sheet)
    requires Valid(s, n)
    ensures Valid(s', n) && s'.answers == s.answers
    ensures s.current > 0 ==> s'.current == s.current - 1
    ensures s.current == 0 ==> s' == s
  {
    if s.current > 0 then s.(current := s.current - 1) else s
  }

  predicate IsAnswered(a: Option<int>) { a.Some? }

  /** `answers.filter(a => a !== null).length` */
  function AnsweredCount(s: Sheet): (n: nat)
    ensures n <= |s.answers|
  {
    CountWhere(s.answers, IsAnswered)
  }

  /** `answers.includes(null)`: submitting asks for confirmation. */
  predicate NeedsConfirmation(s: Sheet) {
    None in s.answers
  }

  /** Confirmation is asked for exactly when fewer answers are given than there are slots. */
  lemma ConfirmationIffUnanswered(s: Sheet)
    ensures NeedsConfirmation(s) <==> AnsweredCount(s) < |s.answers|
  {
    CountWhereAll(s.answers, IsAnswered);
    if NeedsConfirmation(s) {
      var i :| 0 <= i < |s.answers| && s.answers[i] == None;
      assert !IsAnswered(s.answers[i]);
    }
  }

  /** The `answers` array as JSON: `null` for an unanswered slot, the index otherwise. */
  function Payload(s: Sheet): (p: seq<JsonValue>)
    ensures |p| == |s.answers|
    ensures forall i :: 0 <= i < |p| ==> (p[i] == JNull <==> s.answers[i].None?)
    ensures forall i :: 0 <= i < |p| && s.answers[i].Some? ==> p[i] == JNum(s.answers[i].value as real)
  {
    seq(|s.answers|, i requires 0 <= i < |s.answers| =>
      if s.answers[i].None? then JNull else JNum(s.answers[i].value as real))
  }

  /** Scored by the server, the submitted sheet never earns more points than it has answers:
      an unanswered slot is `null`, which never equals a correct answer. */
  lemma {:induction false} CorrectAtMostAnswered(questions: seq<Question>, s: Sheet)
    requires |s.answers| == |questions|
    ensures QuizRoutes.CorrectCount(questions, Payload(s)) <= AnsweredCount(s)
    decreases |questions|
  {
    if questions != [] {
      var n := |questions| - 1;
      var prefix := Sheet(s.answers[..n], s.current);
      CorrectAtMostAnswered(questions[..n], prefix);
      assert Payload(prefix) == Payload(s)[..n];
      PrefixCount(questions[..n], Payload(s)[..n], Payload(s));
      assert prefix.answers == s.answers[..|s.answers| - 1];
    }
  }

  /** Answers beyond the questions scored do not matter to the count. */
  lemma {:induction false} PrefixCount(questions: seq<Question>, short: seq<JsonValue>, long: seq<JsonValue>)
    requires |short| >= |questions| && short <= long
    ensures QuizRoutes.CorrectCount(questions, short) == QuizRoutes.CorrectCount(questions, long)
  {
    if questions != [] {
      PrefixCount(questions[..|questions| - 1], short, long);
    }
  }
}
