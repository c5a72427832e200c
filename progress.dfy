/**
 * The progress store: an append-only log of attempt results (`QuizProgress` rows) and
 * the metrics the main menu, progress and profile pages derive from it.
 */
module Progress {
  import opened Wrappers
  import opened Sequences
  import opened Catalog
  import opened Access

  /** One attempt result; never changed once written. */
  datatype ProgressRecord = ProgressRecord(userId: int, quizId: int, score: int, totalQuestions: int, completedAt: int)

  datatype SubmitStatus = Saved | InvalidData

  /** `not quiz_id or score is None or total is None`: a missing or zero quiz id, or a missing number. */
  predicate InvalidSubmission(quizId: Option<int>, score: Option<int>, total: Option<int>) {
    quizId.None? || quizId.value == 0 || score.None? || total.None?
  }

  /** The `QuizProgress` table, as the sequence of its rows in insertion order. */
  class ProgressLog {
    var records: seq<ProgressRecord>

    constructor ()
      ensures records == []
    {
      records := [];
    }

    /**
     * `submit_quiz`: rejects invalid data and leaves the log as it was; otherwise appends
     * exactly one record with the given values, stamped `now`, after the untouched old ones.
     */
    method Submit(userId: int, quizId: Option<int>, score: Option<int>, total: Option<int>, now: int)
      returns (status: SubmitStatus)
      modifies this
      ensures status == InvalidData <==> InvalidSubmission(quizId, score, total)
      ensures status == InvalidData ==> records == old(records)
      ensures status == Saved ==>
        records == old(records) + [ProgressRecord(userId, quizId.value, score.value, total.value, now)]
    {
      if quizId.None? || quizId.value == 0 || score.None? || total.None? {
        return InvalidData;
      }
      records := records + [ProgressRecord(userId, quizId.value, score.value, total.value, now)];
      status := Saved;
    }
  }

  /** The records of one user. */
  function UserRecords(records: seq<ProgressRecord>, userId: int): seq<ProgressRecord> {
    Filter(records, (r: ProgressRecord) => r.userId == userId)
  }

  /** The records of one (user, quiz) pair. */
  function PairRecords(records: seq<ProgressRecord>, userId: int, quizId: int): seq<ProgressRecord> {
    Filter(records, (r: ProgressRecord) => r.userId == userId && r.quizId == quizId)
  }

  lemma PairRecordsSnoc(records: seq<ProgressRecord>, r: ProgressRecord, userId: int, quizId: int)
    ensures PairRecords(records + [r], userId, quizId)
      == PairRecords(records, userId, quizId) + (if r.userId == userId && r.quizId == quizId then [r] else [])
  {
    FilterSnoc(records, r, (r: ProgressRecord) => r.userId == userId && r.quizId == quizId);
  }

  /** `max([p.score for p in completed_progress])`. */
  function MaxScore(rs: seq<ProgressRecord>): (m: int)
    requires rs != []
    ensures forall k :: 0 <= k < |rs| ==> rs[k].score <= m
    ensures exists k :: 0 <= k < |rs| && rs[k].score == m
  {
    if |rs| == 1 then rs[0].score
    else
      var init := MaxScore(rs[..|rs| - 1]);
      var last := rs[|rs| - 1].score;
      if init < last then last else init
  }

  /** Python's `int(x)` of the quotient `a / b` for `b > 0`: division truncated toward zero. */
  function TruncDiv(a: int, b: int): (q: int)
    requires b > 0
    ensures a >= 0 ==> 0 <= q && q * b <= a < (q + 1) * b
    ensures a < 0 ==> q <= 0 && (q - 1) * b < a <= q * b
  {
    if a >= 0 then
      FloorDivBounds(a, b);
      a / b
    else
      FloorDivBounds(-a, b);
      var d := (-a) / b;
      assert (-d - 1) * b == -((d + 1) * b) && -d * b == -(d * b);
      -d
  }

  lemma FloorDivBounds(a: nat, b: int)
    requires b > 0
    ensures 0 <= a / b && (a / b) * b <= a < (a / b + 1) * b
  {
    var d, m := a / b, a % b;
    assert a == d * b + m && 0 <= m < b;
    assert (d + 1) * b == d * b + b;
  }

  /**
   * The percentage `main_menu` shows for a quiz: the best recorded score over the quiz's
   * current question count (not the count stored with the attempt), truncated; 0 without
   * records or without questions.
   */
  function BestPercentage(records: seq<ProgressRecord>, userId: int, quizId: int, questionCount: nat): int {
    var rs := PairRecords(records, userId, quizId);
    if rs == [] then 0
    else if questionCount > 0 then TruncDiv(MaxScore(rs) * 100, questionCount)
    else 0
  }

  /** No attempt, or no questions, shows 0. */
  lemma BestPercentageZeroCases(records: seq<ProgressRecord>, userId: int, quizId: int, questionCount: nat)
    ensures PairRecords(records, userId, quizId) == [] ==> BestPercentage(records, userId, quizId, questionCount) == 0
    ensures questionCount == 0 ==> BestPercentage(records, userId, quizId, questionCount) == 0
  {
  }

  /** A quotient of at most 100 times the divisor is at most 100. */
  lemma TruncDivAtMostHundred(a: int, n: int)
    requires n > 0 && 0 <= a <= 100 * n
    ensures 0 <= TruncDiv(a, n) <= 100
  {
    var q := TruncDiv(a, n);
    if q > 100 {
      MulMonotone(101, q, n);
    }
  }

  lemma MulMonotone(x: int, y: int, n: int)
    requires n > 0 && x <= y
    ensures x * n <= y * n
  {
  }

  /** With every score of the pair between 0 and the question count, the percentage lies in 0..100. */
  lemma BestPercentageBounded(records: seq<ProgressRecord>, userId: int, quizId: int, questionCount: nat)
    requires forall k :: 0 <= k < |PairRecords(records, userId, quizId)| ==>
      0 <= PairRecords(records, userId, quizId)[k].score <= questionCount
    ensures 0 <= BestPercentage(records, userId, quizId, questionCount) <= 100
  {
    var rs := PairRecords(records, userId, quizId);
    if rs != [] && questionCount > 0 {
      var m := MaxScore(rs);
      var k :| 0 <= k < |rs| && rs[k].score == m;
      MulMonotone(m, questionCount, 100);
      TruncDivAtMostHundred(m * 100, questionCount);
    }
  }

  lemma TruncDivMonotone(a: int, b: int, n: int)
    requires n > 0 && a <= b
    ensures TruncDiv(a, n) <= TruncDiv(b, n)
  {
    var qa := TruncDiv(a, n);
    var qb := TruncDiv(b, n);
    if qa > qb {
      if a >= 0 {
        MulMonotone(qb + 1, qa, n);
      } else if b < 0 {
        MulMonotone(qb, qa - 1, n);
      }
    }
  }

  /**
   * One more attempt for the same (user, quiz) never lowers the shown percentage, given the
   * same question count; a first attempt needs a non-negative score (the source admits any).
   */
  lemma BestPercentageMonotone(records: seq<ProgressRecord>, r: ProgressRecord, questionCount: nat)
    requires r.score >= 0 || PairRecords(records, r.userId, r.quizId) != []
    ensures BestPercentage(records, r.userId, r.quizId, questionCount)
      <= BestPercentage(records + [r], r.userId, r.quizId, questionCount)
  {
    var before := PairRecords(records, r.userId, r.quizId);
    var after := PairRecords(records + [r], r.userId, r.quizId);
    PairRecordsSnoc(records, r, r.userId, r.quizId);
    assert after == before + [r];
    if questionCount > 0 {
      var ma := MaxScore(after);
      assert r.score <= ma by {
        assert after[|after| - 1] == r;
      }
      if before != [] {
        var mb := MaxScore(before);
        var k :| 0 <= k < |before| && before[k].score == mb;
        assert after[k] == before[k];
        TruncDivMonotone(mb * 100, ma * 100, questionCount);
      } else {
        TruncDivMonotone(0, ma * 100, questionCount);
      }
    }
  }

  /** Attempts of other (user, quiz) pairs do not move the percentage. */
  lemma BestPercentageOtherPair(records: seq<ProgressRecord>, r: ProgressRecord, userId: int, quizId: int, questionCount: nat)
    requires r.userId != userId || r.quizId != quizId
    ensures BestPercentage(records + [r], userId, quizId, questionCount)
      == BestPercentage(records, userId, quizId, questionCount)
  {
    PairRecordsSnoc(records, r, userId, quizId);
  }

  /** Newest first: `order_by(QuizProgress.completed_at.desc())`. */
  predicate NewerFirst(a: ProgressRecord, b: ProgressRecord) {
    a.completedAt >= b.completedAt
  }

  /** `main_menu`'s last attempt: the first record of the pair, newest first. */
  function LastAttempt(records: seq<ProgressRecord>, userId: int, quizId: int): Option<ProgressRecord> {
    var sorted := SortBy(PairRecords(records, userId, quizId), NewerFirst);
    if sorted == [] then None else Some(sorted[0])
  }

  /** The last attempt exists exactly when the pair has records, and no record of the pair is newer. */
  lemma LastAttemptSpec(records: seq<ProgressRecord>, userId: int, quizId: int)
    ensures LastAttempt(records, userId, quizId).None? <==> PairRecords(records, userId, quizId) == []
    ensures LastAttempt(records, userId, quizId).Some? ==>
      var last := LastAttempt(records, userId, quizId).value;
      && last in PairRecords(records, userId, quizId)
      && forall k :: 0 <= k < |PairRecords(records, userId, quizId)| ==>
           PairRecords(records, userId, quizId)[k].completedAt <= last.completedAt
  {
    var rs := PairRecords(records, userId, quizId);
    var sorted := SortBy(rs, NewerFirst);
    assert TotalPreorder(NewerFirst);
    SortBySorted(rs, NewerFirst);
    if sorted != [] {
      assert sorted[0] in multiset(rs);
      forall k | 0 <= k < |rs| ensures rs[k].completedAt <= sorted[0].completedAt {
        assert rs[k] in multiset(sorted);
        var j :| 0 <= j < |sorted| && sorted[j] == rs[k];
        if j > 0 {
          assert NewerFirst(sorted[0], sorted[j]);
        }
      }
    }
  }

  /** A user's attempt history, newest first. */
  function History(records: seq<ProgressRecord>, userId: int): seq<ProgressRecord> {
    SortBy(UserRecords(records, userId), NewerFirst)
  }

  /** The history is exactly the user's records, reordered newest first. */
  lemma HistorySpec(records: seq<ProgressRecord>, userId: int)
    ensures SortedBy(History(records, userId), NewerFirst)
    ensures multiset(History(records, userId)) == multiset(UserRecords(records, userId))
    ensures forall k :: 0 <= k < |History(records, userId)| ==> History(records, userId)[k].userId == userId
  {
    assert TotalPreorder(NewerFirst);
    SortBySorted(UserRecords(records, userId), NewerFirst);
    var h := History(records, userId);
    forall k | 0 <= k < |h| ensures h[k].userId == userId {
      assert h[k] in multiset(UserRecords(records, userId));
    }
  }

  /** `profile`: the ten newest attempts (`.limit(10)`). */
  function ProfileHistory(records: seq<ProgressRecord>, userId: int): (h: seq<ProgressRecord>)
    ensures |h| <= 10
    ensures |h| == |UserRecords(records, userId)| || |h| == 10
    ensures h <= History(records, userId)
  {
    var all := History(records, userId);
    if |all| <= 10 then all else all[..10]
  }

  /** One row of the main menu. */
  datatype QuizSummary = QuizSummary(
    id: int,
    title: string,
    description: Option<string>,
    category: Option<string>,
    difficulty: Option<string>,
    questionCount: nat,
    progressPercentage: int,
    lastScore: Option<int>,
    lastTotal: Option<int>)

  function Summary(quiz: Quiz, records: seq<ProgressRecord>, userId: int): QuizSummary {
    var last := LastAttempt(records, userId, quiz.id);
    QuizSummary(
      quiz.id, quiz.title, quiz.description, quiz.category, quiz.difficulty,
      |quiz.questions|,
      BestPercentage(records, userId, quiz.id, |quiz.questions|),
      if last.Some? then Some(last.value.score) else None,
      if last.Some? then Some(last.value.totalQuestions) else None)
  }

  /** The summaries of `quizzes`, one per quiz in listing order. */
  function SummariesOf(quizzes: seq<Quiz>, records: seq<ProgressRecord>, userId: int): (rows: seq<QuizSummary>)
    ensures |rows| == |quizzes|
  {
    if quizzes == [] then []
    else SummariesOf(quizzes[..|quizzes| - 1], records, userId) + [Summary(quizzes[|quizzes| - 1], records, userId)]
  }

  lemma {:induction false} SummariesOfAt(quizzes: seq<Quiz>, records: seq<ProgressRecord>, userId: int, k: nat)
    requires k < |quizzes|
    ensures SummariesOf(quizzes, records, userId)[k] == Summary(quizzes[k], records, userId)
  {
    var init := quizzes[..|quizzes| - 1];
    if k < |init| {
      SummariesOfAt(init, records, userId, k);
    }
  }

  /** The loop of `main_menu`: one summary per listed quiz, in listing order. */
  method Summaries(active: seq<Quiz>, records: seq<ProgressRecord>, userId: int) returns (rows: seq<QuizSummary>)
    ensures rows == SummariesOf(active, records, userId)
  {
    rows := [];
    for k := 0 to |active|
      invariant rows == SummariesOf(active[..k], records, userId)
    {
      assert active[..k + 1][..k] == active[..k];
      rows := rows + [Summary(active[k], records, userId)];
    }
    assert active[..|active|] == active;
  }

  datatype MainMenuView = MainMenuView(quizzes: seq<QuizSummary>, trialDaysLeft: nat, isPaid: bool)

  /** What a page handler renders, or the redirect to the payment page for users without access. */
  datatype Page<T> = Show(view: T) | RedirectToPayment

  /** `main_menu`: users without access are sent to payment; others see every non-beta quiz. */
  method MainMenu(user: User, now: int, quizzes: seq<Quiz>, records: seq<ProgressRecord>) returns (page: Page<MainMenuView>)
    ensures !HasAccess(user, now) <==> page == RedirectToPayment
    ensures page.Show? ==>
      && |page.view.quizzes| == |ListActive(quizzes)|
      && (forall k :: 0 <= k < |ListActive(quizzes)| ==>
            page.view.quizzes[k] == Summary(ListActive(quizzes)[k], records, user.id))
      && page.view.trialDaysLeft == TrialDaysLeft(user, now)
      && page.view.isPaid == user.isPaid
  {
    if !HasAccess(user, now) {
      return RedirectToPayment;
    }
    var active := ListActive(quizzes);
    var rows := Summaries(active, records, user.id);
    forall k | 0 <= k < |active| ensures rows[k] == Summary(active[k], records, user.id) {
      SummariesOfAt(active, records, user.id, k);
    }
    page := Show(MainMenuView(rows, TrialDaysLeft(user, now), user.isPaid));
  }

  datatype ProgressView = ProgressView(
    currentQuiz: Option<Quiz>,
    completedQuizzes: nat,
    totalQuizzes: nat,
    progressPercentage: real,
    recentProgress: seq<ProgressRecord>,
    allQuizzes: seq<Quiz>)

  function CurrentQuiz(user: User, quizzes: seq<Quiz>): Option<Quiz> {
    if user.currentQuizId.Some? && user.currentQuizId.value != 0 then QuizById(quizzes, user.currentQuizId.value)
    else None
  }

  function Percent(part: nat, whole: nat): real {
    if whole > 0 then part as real / whole as real * 100.0 else 0.0
  }

  /**
   * `progress` as written: "completed" counts the user's progress RECORDS, so repeated
   * attempts of one quiz count repeatedly.
   */
  function ProgressPage(user: User, quizzes: seq<Quiz>, records: seq<ProgressRecord>): ProgressView {
    var all := ListActive(quizzes);
    var completed := |UserRecords(records, user.id)|;
    ProgressView(CurrentQuiz(user, quizzes), completed, |all|, Percent(completed, |all|),
                 History(records, user.id), all)
  }

  /** Two attempts of the only quiz show 200 percent. */
  lemma ProgressCanExceedHundred(user: User, quiz: Quiz)
    requires !quiz.isBeta
    ensures var records := [ProgressRecord(user.id, quiz.id, 1, 1, 0), ProgressRecord(user.id, quiz.id, 1, 1, 1)];
      ProgressPage(user, [quiz], records).progressPercentage == 200.0
  {
    var records := [ProgressRecord(user.id, quiz.id, 1, 1, 0), ProgressRecord(user.id, quiz.id, 1, 1, 1)];
    assert records[..1] == [records[0]];
    assert [quiz][..0] == [];
    assert |UserRecords(records, user.id)| == 2;
    assert |ListActive([quiz])| == 1;
  }

  predicate Attempted(records: seq<ProgressRecord>, userId: int, quiz: Quiz) {
    PairRecords(records, userId, quiz.id) != []
  }

  /** The listed quizzes the user has at least one attempt for. */
  function AttemptedQuizzes(records: seq<ProgressRecord>, userId: int, all: seq<Quiz>): seq<Quiz> {
    Filter(all, (q: Quiz) => Attempted(records, userId, q))
  }

  /** `progress` as intended: the share of listed quizzes the user has attempted. */
  function ProgressPageIntended(user: User, quizzes: seq<Quiz>, records: seq<ProgressRecord>): ProgressView {
    var all := ListActive(quizzes);
    var completed := |AttemptedQuizzes(records, user.id, all)|;
    ProgressView(CurrentQuiz(user, quizzes), completed, |all|, Percent(completed, |all|),
                 History(records, user.id), all)
  }

  lemma PercentBounded(part: nat, whole: nat)
    requires part <= whole
    ensures 0.0 <= Percent(part, whole) <= 100.0
  {
    if whole > 0 {
      var x := part as real / whole as real;
      assert x * whole as real == part as real;
      if x > 1.0 {
        assert x * whole as real > 1.0 * whole as real;
      }
    }
  }

  /** The intended overall percentage never exceeds 100 and is never negative. */
  lemma ProgressIntendedBounded(user: User, quizzes: seq<Quiz>, records: seq<ProgressRecord>)
    ensures 0.0 <= ProgressPageIntended(user, quizzes, records).progressPercentage <= 100.0
    ensures ProgressPageIntended(user, quizzes, records).completedQuizzes
      <= ProgressPageIntended(user, quizzes, records).totalQuizzes
  {
    var all := ListActive(quizzes);
    PercentBounded(|AttemptedQuizzes(records, user.id, all)|, |all|);
  }

  /** The two scenario steps: 8 of 10 shows 80, and a later 6 of 10 leaves it at 80. */
  lemma BestPercentageScenario(userId: int, quizId: int)
    ensures var first := [ProgressRecord(userId, quizId, 8, 10, 0)];
      && BestPercentage(first, userId, quizId, 10) == 80
      && BestPercentage(first + [ProgressRecord(userId, quizId, 6, 10, 1)], userId, quizId, 10) == 80
  {
    var first := [ProgressRecord(userId, quizId, 8, 10, 0)];
    var r := ProgressRecord(userId, quizId, 6, 10, 1);
    PairRecordsSnoc([], first[0], userId, quizId);
    assert [] + first == first;
    PairRecordsSnoc(first, r, userId, quizId);
    assert PairRecords(first, userId, quizId) == first;
    assert PairRecords(first + [r], userId, quizId) == first + [r];
  }
}
