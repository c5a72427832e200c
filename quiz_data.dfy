/**
 * What a quiz-taking session and the quiz settings dialog read from the catalog: the
 * filtered, projected and shuffled question list (`get_quiz_data`) and the question-type
 * counts (`quiz_details`).
 */
module QuizData {
  import opened Wrappers
  import opened Text
  import opened Sequences
  import opened Catalog
  import opened Access

  datatype Error = AccessDenied | NotFound
  datatype Result<T> = Ok(value: T) | Err(error: Error)

  /** One offered option, tagged with its letter. */
  datatype OptionEntry = OptionEntry(letter: char, text: string)

  /** The per-question record handed to the quiz-taking session. */
  datatype Projection = Projection(question: string, options: seq<OptionEntry>, correctAnswers: seq<string>)

  const Letters: seq<char> := ['A', 'B', 'C', 'D', 'E']

  /** Position of an option letter: 'A' is 0, ..., 'E' is 4. */
  function LetterIndex(c: char): int {
    c as int - 'A' as int
  }

  /** The option column for letter `Letters[i]`. */
  function Slot(q: Question, i: nat): Option<string>
    requires i < 5
  {
    if i == 0 then Some(q.optionA)
    else if i == 1 then Some(q.optionB)
    else if i == 2 then q.optionC
    else if i == 3 then q.optionD
    else q.optionE
  }

  /** Python truthiness of an option column: present and not the empty string. */
  predicate Filled(o: Option<string>) {
    o.Some? && o.value != ""
  }

  /** The options list after looking at the first `n` letters. */
  function OptionsUpTo(q: Question, n: nat): seq<OptionEntry>
    requires n <= 5
  {
    if n == 0 then []
    else
      OptionsUpTo(q, n - 1)
      + (if Filled(Slot(q, n - 1)) then [OptionEntry(Letters[n - 1], Slot(q, n - 1).value)] else [])
  }

  function Options(q: Question): seq<OptionEntry> {
    OptionsUpTo(q, 5)
  }

  /** Every offered entry is a filled slot among the first `n`, with that slot's letter and text. */
  lemma {:induction false} OptionsSound(q: Question, n: nat)
    requires n <= 5
    ensures forall k :: 0 <= k < |OptionsUpTo(q, n)| ==>
      var i := LetterIndex(OptionsUpTo(q, n)[k].letter);
      0 <= i < n && Filled(Slot(q, i)) && OptionsUpTo(q, n)[k].text == Slot(q, i).value
  {
    if n > 0 {
      OptionsSound(q, n - 1);
      assert LetterIndex(Letters[n - 1]) == n - 1;
    }
  }

  /** Every filled slot among the first `n` is offered. */
  lemma {:induction false} OptionsComplete(q: Question, n: nat)
    requires n <= 5
    ensures forall i :: 0 <= i < n && Filled(Slot(q, i)) ==>
      OptionEntry(Letters[i], Slot(q, i).value) in OptionsUpTo(q, n)
  {
    if n > 0 {
      OptionsComplete(q, n - 1);
    }
  }

  /** The entries come in strictly increasing letter order. */
  lemma {:induction false} OptionsOrdered(q: Question, n: nat)
    requires n <= 5
    ensures forall k1, k2 :: 0 <= k1 < k2 < |OptionsUpTo(q, n)| ==>
      OptionsUpTo(q, n)[k1].letter < OptionsUpTo(q, n)[k2].letter
  {
    if n > 0 {
      OptionsOrdered(q, n - 1);
      OptionsSound(q, n - 1);
    }
  }

  /**
   * The options list holds exactly the filled slots among the first `n` letters, each with
   * its own letter and text, in letter order.
   */
  lemma OptionsUpToSpec(q: Question, n: nat)
    requires n <= 5
    ensures forall k :: 0 <= k < |OptionsUpTo(q, n)| ==>
      var i := LetterIndex(OptionsUpTo(q, n)[k].letter);
      0 <= i < n && Filled(Slot(q, i)) && OptionsUpTo(q, n)[k].text == Slot(q, i).value
    ensures forall i :: 0 <= i < n && Filled(Slot(q, i)) ==>
      OptionEntry(Letters[i], Slot(q, i).value) in OptionsUpTo(q, n)
    ensures forall k1, k2 :: 0 <= k1 < k2 < |OptionsUpTo(q, n)| ==>
      OptionsUpTo(q, n)[k1].letter < OptionsUpTo(q, n)[k2].letter
  {
    OptionsSound(q, n);
    OptionsComplete(q, n);
    OptionsOrdered(q, n);
  }

  /** `q.correct_answers.split(',') if ',' in q.correct_answers else [q.correct_answers]`. */
  function AnswerList(s: string): seq<string> {
    if ',' in s then Split(s, ',') else [s]
  }

  /**
   * The answer list is the comma split of the stored string (one element when there is no
   * comma), its pieces hold no comma, and joining them gives the stored string back.
   */
  lemma AnswerListSpec(s: string)
    ensures AnswerList(s) == Split(s, ',')
    ensures |AnswerList(s)| == 1 <==> ',' !in s
    ensures forall k :: 0 <= k < |AnswerList(s)| ==> ',' !in AnswerList(s)[k]
    ensures Join(AnswerList(s), ',') == s
  {
    SplitSingleton(s, ',');
    JoinSplit(s, ',');
    if ',' !in s {
      NoSepIndex(s, ',');
    }
  }

  function Project(q: Question): Projection {
    Projection(q.text, Options(q), AnswerList(q.correctAnswers))
  }

  function ProjectAll(qs: seq<Question>): (r: seq<Projection>) {
    seq(|qs|, k requires 0 <= k < |qs| => Project(qs[k]))
  }

  /** A projection offers no empty or missing option, and its answers are the comma split. */
  lemma ProjectSpec(q: Question)
    ensures forall k :: 0 <= k < |Project(q).options| ==>
      var i := LetterIndex(Project(q).options[k].letter);
      0 <= i < 5 && Filled(Slot(q, i)) && Project(q).options[k].text == Slot(q, i).value
    ensures forall i :: 0 <= i < 5 && Filled(Slot(q, i)) ==>
      OptionEntry(Letters[i], Slot(q, i).value) in Project(q).options
    ensures forall k1, k2 :: 0 <= k1 < k2 < |Project(q).options| ==>
      Project(q).options[k1].letter < Project(q).options[k2].letter
    ensures Project(q).correctAnswers == Split(q.correctAnswers, ',')
  {
    OptionsUpToSpec(q, 5);
    AnswerListSpec(q.correctAnswers);
  }

  /** The projection does not check its answer letters against the offered options. */
  lemma AnswerNeedNotBeOffered()
    ensures var q := Question("Q", "a", "b", None, None, None, "C", 0);
      Project(q).correctAnswers == ["C"] && forall k :: 0 <= k < |Project(q).options| ==> Project(q).options[k].letter != 'C'
  {
    var q := Question("Q", "a", "b", None, None, None, "C", 0);
    OptionsUpToSpec(q, 5);
  }

  predicate OrderLe(a: Question, b: Question) {
    a.orderNum <= b.orderNum
  }

  predicate IsSingle(q: Question) {
    !IsMultiple(q)
  }

  /** `Question.query.filter_by(quiz_id=...).order_by(Question.order_num)`. */
  function Ordered(qs: seq<Question>): seq<Question> {
    SortBy(qs, OrderLe)
  }

  /** The question filter of `get_quiz_data`: "single", "multiple", or anything else for all. */
  function Select(qs: seq<Question>, filter: string): seq<Question> {
    if filter == "single" then Filter(Ordered(qs), IsSingle)
    else if filter == "multiple" then Filter(Ordered(qs), IsMultiple)
    else Ordered(qs)
  }

  /** The ordered list is sorted by `order_num` and is a permutation of the quiz's questions. */
  lemma OrderedSpec(qs: seq<Question>)
    ensures SortedBy(Ordered(qs), OrderLe)
    ensures multiset(Ordered(qs)) == multiset(qs)
  {
    assert TotalPreorder(OrderLe);
    SortBySorted(qs, OrderLe);
  }

  /** "single" and "multiple" select order-preserving subsequences of the ordered list. */
  lemma SelectSubsequences(qs: seq<Question>)
    ensures IsSubsequence(Select(qs, "single"), Ordered(qs))
    ensures IsSubsequence(Select(qs, "multiple"), Ordered(qs))
  {
    FilterIsSubsequence(Ordered(qs), IsSingle);
    FilterIsSubsequence(Ordered(qs), IsMultiple);
  }

  /** Every question "single" hands out is single-answer and every one "multiple" hands out is not. */
  lemma SelectKinds(qs: seq<Question>)
    ensures forall k :: 0 <= k < |Select(qs, "single")| ==> !IsMultiple(Select(qs, "single")[k])
    ensures forall k :: 0 <= k < |Select(qs, "multiple")| ==> IsMultiple(Select(qs, "multiple")[k])
  {
    var s := Filter(Ordered(qs), IsSingle);
    assert forall k :: 0 <= k < |s| ==> IsSingle(s[k]);
  }

  /** Together the "single" and "multiple" selections hold every question of the quiz, once. */
  lemma SelectPartition(qs: seq<Question>)
    ensures multiset(Select(qs, "single")) + multiset(Select(qs, "multiple")) == multiset(qs)
  {
    var o := Ordered(qs);
    assert forall x :: IsMultiple(x) == !IsSingle(x);
    FilterPartition(o, IsSingle, IsMultiple);
  }

  /** Any filter value other than "single" and "multiple" keeps every question. */
  lemma SelectAll(qs: seq<Question>, filter: string)
    requires filter != "single" && filter != "multiple"
    ensures Select(qs, filter) == Ordered(qs)
  {
  }

  /** The inner loop of `get_quiz_data`: the options list of one question. */
  method BuildOptions(q: Question) returns (opts: seq<OptionEntry>)
    ensures opts == Options(q)
  {
    opts := [];
    for i := 0 to 5
      invariant opts == OptionsUpTo(q, i)
    {
      var text := Slot(q, i);
      if text.Some? && text.value != "" {
        opts := opts + [OptionEntry(Letters[i], text.value)];
      }
    }
  }

  /** The outer loop of `get_quiz_data`: one projection per selected question, in order. */
  method ProjectQuestions(selected: seq<Question>) returns (data: seq<Projection>)
    ensures data == ProjectAll(selected)
  {
    data := [];
    for k := 0 to |selected|
      invariant |data| == k
      invariant forall m :: 0 <= m < k ==> data[m] == Project(selected[m])
    {
      var q := selected[k];
      var opts := BuildOptions(q);
      var answers := AnswerList(q.correctAnswers);
      data := data + [Projection(q.text, opts, answers)];
    }
  }

  /**
   * `random.shuffle` (Fisher-Yates from the back); `pick(i) % (i + 1)` stands for the
   * random index `randbelow(i + 1)` drawn at position `i`.
   */
  method Shuffle<T>(a: array<T>, pick: nat -> nat)
    modifies a
    ensures multiset(a[..]) == multiset(old(a[..]))
  {
    var i := a.Length - 1;
    while i > 0
      invariant i < a.Length
      invariant multiset(a[..]) == multiset(old(a[..]))
    {
      var j := pick(i) % (i + 1);
      a[i], a[j] := a[j], a[i];
      i := i - 1;
    }
  }

  /**
   * `get_quiz_data`: access check, quiz lookup, filter, projection, shuffle. The result is
   * some permutation of the projections of the selected questions.
   */
  method GetQuizData(user: User, now: int, quizzes: seq<Quiz>, quizId: int, filter: string, pick: nat -> nat)
    returns (r: Result<seq<Projection>>)
    ensures !HasAccess(user, now) ==> r == Err(AccessDenied)
    ensures HasAccess(user, now) && QuizById(quizzes, quizId).None? ==> r == Err(NotFound)
    ensures HasAccess(user, now) && QuizById(quizzes, quizId).Some? ==>
      r.Ok? && multiset(r.value) == multiset(ProjectAll(Select(QuizById(quizzes, quizId).value.questions, filter)))
  {
    if !HasAccess(user, now) {
      return Err(AccessDenied);
    }
    var quiz := QuizById(quizzes, quizId);
    if quiz.None? {
      return Err(NotFound);
    }
    var selected := Select(quiz.value.questions, filter);
    var data := ProjectQuestions(selected);
    var a := new Projection[|data|](m requires 0 <= m < |data| => data[m]);
    assert a[..] == data;
    Shuffle(a, pick);
    r := Ok(a[..]);
  }

  /** The JSON body of `quiz_details`. */
  datatype Details = Details(
    id: int,
    title: string,
    description: Option<string>,
    totalQuestions: nat,
    singleAnswerCount: nat,
    multipleAnswerCount: nat)

  /**
   * The counting loop of `quiz_details` as written: the `else` belongs to the `for` loop,
   * so it runs once after the loop and the single-answer count is always 1.
   */
  method CountKindsAsWritten(qs: seq<Question>) returns (single: nat, multiple: nat)
    ensures single == 1
    ensures multiple == |Filter(qs, IsMultiple)|
  {
    single, multiple := 0, 0;
    for k := 0 to |qs|
      invariant multiple == |Filter(qs[..k], IsMultiple)|
    {
      PrefixSnoc(qs, k);
      FilterSnoc(qs[..k], qs[k], IsMultiple);
      if IsMultiple(qs[k]) {
        multiple := multiple + 1;
      }
    }
    single := single + 1;
    assert qs[..|qs|] == qs;
  }

  /** With two single-answer questions the intended single-answer count is 2, not the 1 reported. */
  lemma ForElseMiscount()
    ensures var qs := [Question("Q1", "a", "b", None, None, None, "A", 0),
                       Question("Q2", "a", "b", None, None, None, "B", 1)];
      |Filter(qs, IsSingle)| == 2 != 1
  {
    var qs := [Question("Q1", "a", "b", None, None, None, "A", 0),
               Question("Q2", "a", "b", None, None, None, "B", 1)];
    assert Strip("A") == "A" && Strip("B") == "B";
    assert !IsMultiple(qs[0]) && !IsMultiple(qs[1]);
    assert qs[..1] == [qs[0]];
  }

  /** The counting loop with the `else` under the `if`, as intended: the counts split the quiz. */
  method CountKinds(qs: seq<Question>) returns (single: nat, multiple: nat)
    ensures single == |Filter(qs, IsSingle)|
    ensures multiple == |Filter(qs, IsMultiple)|
    ensures single + multiple == |qs|
  {
    single, multiple := 0, 0;
    for k := 0 to |qs|
      invariant single == |Filter(qs[..k], IsSingle)|
      invariant multiple == |Filter(qs[..k], IsMultiple)|
      invariant single + multiple == k
    {
      PrefixSnoc(qs, k);
      FilterSnoc(qs[..k], qs[k], IsSingle);
      FilterSnoc(qs[..k], qs[k], IsMultiple);
      if IsMultiple(qs[k]) {
        multiple := multiple + 1;
      } else {
        single := single + 1;
      }
    }
    assert qs[..|qs|] == qs;
  }

  /**
   * The intended counts equal the sizes of the lists that the "single" and "multiple"
   * filters of `get_quiz_data` hand out for the same quiz.
   */
  lemma CountsMatchSelect(qs: seq<Question>)
    ensures |Filter(qs, IsSingle)| == |Select(qs, "single")|
    ensures |Filter(qs, IsMultiple)| == |Select(qs, "multiple")|
  {
    FilterPermutation(qs, Ordered(qs), IsSingle);
    FilterPermutation(qs, Ordered(qs), IsMultiple);
  }

  /** `quiz_details` as written: lookup, then the question-type counts (single is always 1). */
  method QuizDetails(quizzes: seq<Quiz>, quizId: int) returns (r: Result<Details>)
    ensures QuizById(quizzes, quizId).None? <==> r == Err(NotFound)
    ensures QuizById(quizzes, quizId).Some? ==> r.Ok?
    ensures r.Ok? ==>
      var quiz := QuizById(quizzes, quizId).value;
      var qs := quiz.questions;
      && r.value.id == quiz.id && r.value.title == quiz.title && r.value.description == quiz.description
      && r.value.totalQuestions == |qs|
      && r.value.singleAnswerCount == 1
      && r.value.multipleAnswerCount == |Filter(qs, IsMultiple)|
  {
    var quiz := QuizById(quizzes, quizId);
    if quiz.None? {
      return Err(NotFound);
    }
    var qs := quiz.value.questions;
    var single, multiple := CountKindsAsWritten(qs);
    r := Ok(Details(quiz.value.id, quiz.value.title, quiz.value.description, |qs|, single, multiple));
  }

  /** `quiz_details` with the intended counting loop. */
  method QuizDetailsIntended(quizzes: seq<Quiz>, quizId: int) returns (r: Result<Details>)
    ensures QuizById(quizzes, quizId).None? <==> r == Err(NotFound)
    ensures QuizById(quizzes, quizId).Some? ==> r.Ok?
    ensures r.Ok? ==>
      var quiz := QuizById(quizzes, quizId).value;
      var qs := quiz.questions;
      && r.value.id == quiz.id && r.value.title == quiz.title && r.value.description == quiz.description
      && r.value.totalQuestions == |qs|
      && r.value.singleAnswerCount + r.value.multipleAnswerCount == |qs|
      && r.value.singleAnswerCount == |Filter(qs, IsSingle)|
      && r.value.multipleAnswerCount == |Filter(qs, IsMultiple)|
  {
    var quiz := QuizById(quizzes, quizId);
    if quiz.None? {
      return Err(NotFound);
    }
    var qs := quiz.value.questions;
    var single, multiple := CountKinds(qs);
    r := Ok(Details(quiz.value.id, quiz.value.title, quiz.value.description, |qs|, single, multiple));
  }
}
