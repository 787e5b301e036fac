/** The dashboard (`Dashboard.jsx`): the four counters, the recent-activity feed
    and the AI status badge. */
module Dashboard {
  import opened Common
  import opened QuizModel
  import Documents
  import QuizList
  import Llama

  datatype Stats = Stats(documents: nat, flashcards: nat, quizzes: nat, completedQuizzes: nat)

  /** `setStats({...})` from the three list responses. */
  function StatsOf(docs: seq<Documents.Document>, cardCount: nat, quizzes: seq<Quiz>): (s: Stats)
    ensures s.documents == |docs| && s.flashcards == cardCount && s.quizzes == |quizzes|
    ensures s.completedQuizzes == QuizList.CompletedCount(quizzes) <= s.quizzes
  {
    Stats(|docs|, cardCount, |quizzes|, QuizList.CompletedCount(quizzes))
  }

  // ---------------------------------------------------------------------------
  // Recent activity

  /** What an entry reports; the title text is rendered from it. */
  datatype Kind = Uploaded(originalName: string) | QuizCompleted(score: Option<Score>)

  /** `date` is the entry's timestamp in milliseconds. */
  datatype Activity = Activity(kind: Kind, date: int)

  const FeedSources: nat := 3
  const FeedLength: nat := 5

  /** `docsRes.data.slice(0, 3).forEach(...)`: one entry per document, in order. */
  function DocumentEntries(docs: seq<Documents.Document>): (r: seq<Activity>)
    ensures |r| == |docs|
    ensures forall i :: 0 <= i < |r| ==> r[i] == Activity(Uploaded(docs[i].originalName), docs[i].uploadDate)
  {
    seq(|docs|, i requires 0 <= i < |docs| => Activity(Uploaded(docs[i].originalName), docs[i].uploadDate))
  }

  /** `quizzes.filter(q => q.completedAt)`: the completed quizzes, in order. */
  function CompletedQuizzes(quizzes: seq<Quiz>): (r: seq<Quiz>)
    ensures |r| == QuizList.CompletedCount(quizzes)
    ensures forall i :: 0 <= i < |r| ==> Completed(r[i])
    ensures forall q :: q in r <==> q in quizzes && Completed(q)
    ensures forall q :: multiset(r)[q] == if Completed(q) then multiset(quizzes)[q] else 0
  {
    if quizzes == [] then []
    else
      var n := |quizzes| - 1;
      assert quizzes == quizzes[..n] + [quizzes[n]];
      CompletedQuizzes(quizzes[..n]) + (if Completed(quizzes[n]) then [quizzes[n]] else [])
  }

  /** `quizzesRes.data.slice(0, 3).forEach(...)`: one entry per completed quiz, in order. */
  function QuizEntries(quizzes: seq<Quiz>): (r: seq<Activity>)
    ensures |r| == |CompletedQuizzes(quizzes)| == QuizList.CompletedCount(quizzes)
    ensures forall i :: 0 <= i < |r| ==> r[i] == QuizEntry(CompletedQuizzes(quizzes)[i])
  {
    if quizzes == [] then []
    else
      var n := |quizzes| - 1;
      var rest := QuizEntries(quizzes[..n]);
      if Completed(quizzes[n]) then rest + [QuizEntry(quizzes[n])] else rest
  }

  /** The feed holds an entry exactly when some completed quiz produces it. */
  lemma {:induction false} QuizEntriesCover(quizzes: seq<Quiz>)
    ensures forall a :: a in QuizEntries(quizzes) <==> a in CompletedEntries(quizzes)
  {
    if quizzes != [] {
      var n := |quizzes| - 1;
      QuizEntriesCover(quizzes[..n]);
      CompletedEntriesStep(quizzes);
      var rest := QuizEntries(quizzes[..n]);
      assert QuizEntries(quizzes) == if Completed(quizzes[n]) then rest + [QuizEntry(quizzes[n])] else rest;
    }
  }

  lemma CompletedEntriesStep(quizzes: seq<Quiz>)
    requires quizzes != []
    ensures var n := |quizzes| - 1;
            CompletedEntries(quizzes)
            == CompletedEntries(quizzes[..n]) + (if Completed(quizzes[n]) then {QuizEntry(quizzes[n])} else {})
  {
    var n := |quizzes| - 1;
    var step := if Completed(quizzes[n]) then {QuizEntry(quizzes[n])} else {};
    forall a | a in CompletedEntries(quizzes[..n]) ensures a in CompletedEntries(quizzes) {
      var j :| 0 <= j < n && Completed(quizzes[..n][j]) && a == QuizEntry(quizzes[..n][j]);
      assert quizzes[..n][j] == quizzes[j];
    }
    forall a | a in CompletedEntries(quizzes) ensures a in CompletedEntries(quizzes[..n]) + step {
      var j :| 0 <= j < |quizzes| && Completed(quizzes[j]) && a == QuizEntry(quizzes[j]);
      if j < n {
        assert quizzes[..n][j] == quizzes[j];
      }
    }
  }

  /** The entries of the completed quizzes. */
  function CompletedEntries(quizzes: seq<Quiz>): set<Activity> {
    set j | 0 <= j < |quizzes| && Completed(quizzes[j]) :: QuizEntry(quizzes[j])
  }

  function QuizEntry(q: Quiz): Activity
    requires Completed(q)
  {
    Activity(QuizCompleted(q.score), q.completedAt.value)
  }

  /** `.slice(0, 3)` of each list the feed draws from. */
  function Recent<T>(s: seq<T>): (r: seq<T>)
    ensures |r| == Min(FeedSources, |s|) && r <= s
  {
    s[..Min(FeedSources, |s|)]
  }

  /** The `activity` array before sorting: the uploads of the first three documents,
      then the completions among the first three quizzes. */
  function Collect(docs: seq<Documents.Document>, quizzes: seq<Quiz>): (r: seq<Activity>)
    ensures |r| == |Recent(docs)| + QuizList.CompletedCount(Recent(quizzes)) <= 2 * FeedSources
    ensures forall i :: 0 <= i < |Recent(docs)| ==>
              r[i] == Activity(Uploaded(docs[i].originalName), docs[i].uploadDate)
    ensures r[|Recent(docs)|..] == QuizEntries(Recent(quizzes))
  {
    var uploads := DocumentEntries(Recent(docs));
    var completions := QuizEntries(Recent(quizzes));
    assert (uploads + completions)[|uploads|..] == completions;
    uploads + completions
  }

  /** Newest first. */
  predicate NewestFirst(s: seq<Activity>) {
    forall i, j :: 0 <= i < j < |s| ==> s[i].date >= s[j].date
  }

  /** Places `x` after the strictly newer entries and before the rest. */
  function Insert(x: Activity, s: seq<Activity>): (r: seq<Activity>)
    ensures multiset(r) == multiset(s) + multiset{x}
  {
    if s == [] then [x]
    else if s[0].date > x.date then
      assert s == [s[0]] + s[1..];
      [s[0]] + Insert(x, s[1..])
    else [x] + s
  }

  lemma {:induction false} InsertNewestFirst(x: Activity, s: seq<Activity>)
    requires NewestFirst(s)
    ensures NewestFirst(Insert(x, s))
  {
    if s != [] && s[0].date > x.date {
      var tail := Insert(x, s[1..]);
      InsertNewestFirst(x, s[1..]);
      forall j | 0 <= j < |tail| ensures tail[j].date <= s[0].date {
        assert tail[j] in multiset(tail);
        if tail[j] != x {
          assert tail[j] in multiset(s[1..]);
          var k :| 0 <= k < |s[1..]| && s[1..][k] == tail[j];
          assert s[k + 1] == tail[j];
        }
      }
      var r := [s[0]] + tail;
      forall a, b | 0 <= a < b < |r| ensures r[a].date >= r[b].date {
        if a > 0 { assert r[a] == tail[a - 1]; }
        assert r[b] == tail[b - 1];
      }
    }
  }

  /** `activity.sort((a, b) => b.date - a.date)`: a stable sort, newest first. */
  function SortNewestFirst(s: seq<Activity>): (r: seq<Activity>)
    ensures NewestFirst(r)
    ensures multiset(r) == multiset(s)
  {
    if s == [] then []
    else
      assert s == [s[0]] + s[1..];
      var rest := SortNewestFirst(s[1..]);
      InsertNewestFirst(s[0], rest);
      Insert(s[0], rest)
  }

  /** No entry left out of the feed is newer than an entry shown. */
  predicate NoNewerOmitted(all: seq<Activity>, shown: seq<Activity>) {
    forall x, i :: x in multiset(all) - multiset(shown) && 0 <= i < |shown| ==> x.date <= shown[i].date
  }

  /** `activity.slice(0, 5)` of the sorted entries. */
  function RecentActivity(docs: seq<Documents.Document>, quizzes: seq<Quiz>): (r: seq<Activity>)
    ensures |r| == Min(FeedLength, |Collect(docs, quizzes)|)
    ensures NewestFirst(r)
    ensures multiset(r) <= multiset(Collect(docs, quizzes))
    ensures NoNewerOmitted(Collect(docs, quizzes), r)
  {
    var sorted := SortNewestFirst(Collect(docs, quizzes));
    var k := Min(FeedLength, |sorted|);
    TakeOfSorted(sorted, k);
    sorted[..k]
  }

  /** Cutting a sorted sequence keeps its newest entries. */
  lemma TakeOfSorted(s: seq<Activity>, k: nat)
    requires NewestFirst(s) && k <= |s|
    ensures multiset(s[..k]) <= multiset(s)
    ensures NoNewerOmitted(s, s[..k])
  {
    assert s == s[..k] + s[k..];
    assert multiset(s) == multiset(s[..k]) + multiset(s[k..]);
    forall x, i | x in multiset(s) - multiset(s[..k]) && 0 <= i < k
      ensures x.date <= s[..k][i].date
    {
      assert x in multiset(s[k..]);
      var j :| 0 <= j < |s[k..]| && s[k..][j] == x;
      assert s[k + j] == x;
    }
  }

  // ---------------------------------------------------------------------------
  // AI status

  /** `checkAIStatus`: the server's report, or an error naming the stopped service
      when the request fails. */
  function AiStatus(response: Option<Llama.Health>): (h: Llama.Health)
    ensures response.Some? ==> h == response.value
    ensures response.None? ==> h.status == Llama.StatusError && h.message == Llama.NotRunningMessage
  {
    if response.Some? then response.value else Llama.Health(Llama.StatusError, Llama.NotRunningMessage, None)
  }

  /** A failed request and a server that cannot reach the model produce the same badge text. */
  lemma FallbackMatchesServer(model: string)
    ensures AiStatus(None).message == AiStatus(Some(Llama.HealthCheck(Llama.ListFailed, model))).message
    ensures AiStatus(None).message == Llama.ErrorMessage(Llama.NotRunning)
  {
  }
}
