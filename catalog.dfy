/**
 * The stored entities of the quiz catalog (the `Quiz` and `Question` tables) and the
 * classification of a question as single- or multiple-answer.
 */
module Catalog {
  import opened Wrappers
  import opened Text
  import opened Sequences

  /**
   * One stored question. Options A and B are required columns; C, D and E are nullable.
   * `correctAnswers` holds comma-joined option letters, e.g. "A" or "A,C".
   */
  datatype Question = Question(
    text: string,
    optionA: string,
    optionB: string,
    optionC: Option<string>,
    optionD: Option<string>,
    optionE: Option<string>,
    correctAnswers: string,
    orderNum: int)

  /** One stored quiz; it owns its questions (deleting it deletes them). */
  datatype Quiz = Quiz(
    id: int,
    title: string,
    description: Option<string>,
    category: Option<string>,
    difficulty: Option<string>,
    isBeta: bool,
    createdAt: int,
    questions: seq<Question>)

  /** A question is multiple-answer when its stripped answer string holds a comma. */
  predicate IsMultiple(q: Question) {
    ',' in Strip(q.correctAnswers)
  }

  /** The classification does not depend on the stripping, so it is stable under re-trimming. */
  lemma ClassificationIgnoresStrip(q: Question)
    ensures IsMultiple(q) <==> ',' in q.correctAnswers
    ensures IsMultiple(q) <==> IsMultiple(q.(correctAnswers := Strip(q.correctAnswers)))
  {
    StripKeepsNonSpace(q.correctAnswers, ',');
    StripIdempotent(q.correctAnswers);
  }

  predicate IsActive(q: Quiz) {
    !q.isBeta
  }

  /** `Quiz.query.filter_by(is_beta=False).all()`: the main listing, in stored order. */
  function ListActive(quizzes: seq<Quiz>): (r: seq<Quiz>) {
    Filter(quizzes, IsActive)
  }

  /** The listing holds exactly the non-beta quizzes, in stored order. */
  lemma ListActiveSpec(quizzes: seq<Quiz>)
    ensures forall k :: 0 <= k < |ListActive(quizzes)| ==> !ListActive(quizzes)[k].isBeta
    ensures forall k :: 0 <= k < |quizzes| && !quizzes[k].isBeta ==> quizzes[k] in ListActive(quizzes)
    ensures IsSubsequence(ListActive(quizzes), quizzes)
  {
    FilterIsSubsequence(quizzes, IsActive);
  }

  /** `Quiz.query.get(id)`: the first stored quiz with that id. */
  function QuizById(quizzes: seq<Quiz>, id: int): (r: Option<Quiz>)
    ensures r.None? ==> forall k :: 0 <= k < |quizzes| ==> quizzes[k].id != id
    ensures r.Some? ==> r.value in quizzes && r.value.id == id
  {
    if quizzes == [] then None
    else if quizzes[0].id == id then Some(quizzes[0])
    else QuizById(quizzes[1..], id)
  }
}
