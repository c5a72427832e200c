/**
 * `import_all_quizzes` as it runs: a catalog object whose quiz table the import changes in
 * place, one file at a time, with a snapshot taken before each file and restored when a
 * row raises. Each method is proved to follow `ImportRules`.
 */
module Importer {
  import opened Wrappers
  import opened Text
  import opened Sequences
  import opened Catalog
  import opened ImportRules
  import opened QuizData

  /** The quiz table (keyed by title) and the next id the database would assign. */
  class QuizCatalog {
    var quizzes: map<string, Quiz>
    var nextId: int

    function State(): CatalogState
      reads this
    {
      CatalogState(quizzes, nextId)
    }

    predicate Valid()
      reads this
    {
      Consistent(State())
    }

    constructor (initial: CatalogState)
      requires Consistent(initial)
      ensures State() == initial && Valid()
    {
      quizzes := initial.quizzes;
      nextId := initial.nextId;
    }

    /**
     * The body of the loop over files: skip, fail, or find-or-create the quiz, delete its
     * questions, add one question per row, and commit; a row that raises rolls back to the
     * snapshot taken before the file.
     */
    method ImportFile(mapping: map<string, QuizInfo>, file: SourceFile, now: int) returns (outcome: FileOutcome)
      requires Valid()
      modifies this
      ensures Valid()
      ensures Step(State(), outcome) == ImportStep(old(State()), mapping, file, now)
    {
      var stem := Stem(file.path);
      if stem in ExcludedStems {
        return Excluded;
      }
      if stem !in mapping {
        return NoMapping;
      }
      var info := mapping[stem];
      var savedQuizzes, savedNextId := quizzes, nextId;
      var quiz: Quiz;
      if info.title in quizzes {
        quiz := quizzes[info.title];
      } else {
        quiz := NewQuiz(info, nextId, now);
        nextId := nextId + 1;
      }
      var bad, questions := ConvertRows(file.rows);
      if bad.Some? {
        quizzes, nextId := savedQuizzes, savedNextId;
        return RowError(bad.value);
      }
      quizzes := quizzes[info.title := quiz.(questions := questions)];
      outcome := Imported(Detail(info.title, |file.rows|, info.category));
      assert Step(State(), outcome) == ImportStep(old(State()), mapping, file, now);
      ImportStepConsistent(old(State()), mapping, file, now);
    }

    /** `import_all_quizzes`: every file in sorted path order, with the module's mapping table. */
    method ImportAllFiles(files: seq<SourceFile>, now: int) returns (stats: ImportStats)
      requires Valid()
      modifies this
      ensures Valid()
      ensures RunResult(State(), stats) == ImportAll(old(State()), files, now)
    {
      stats := ImportFiles(QuizMapping, SortBy(files, PathLe), now);
    }

    /** The loop over files, counting each outcome into the statistics as it goes. */
    method ImportFiles(mapping: map<string, QuizInfo>, files: seq<SourceFile>, now: int) returns (stats: ImportStats)
      requires Valid()
      modifies this
      ensures Valid()
      ensures RunResult(State(), stats) == Run(old(State()), mapping, files, now)
    {
      stats := ImportStats(0, 0, 0, []);
      for k := 0 to |files|
        invariant Valid()
        invariant RunResult(State(), stats) == Run(old(State()), mapping, files[..k], now)
      {
        assert files[..k + 1][..k] == files[..k];
        var outcome := ImportFile(mapping, files[k], now);
        match outcome {
          case Excluded =>
          case NoMapping =>
            stats := stats.(failed := stats.failed + 1);
          case RowError(_) =>
            stats := stats.(failed := stats.failed + 1);
          case Imported(d) =>
            stats := stats.(success := stats.success + 1,
                            totalQuestions := stats.totalQuestions + d.questions,
                            details := stats.details + [d]);
        }
      }
      assert files[..|files|] == files;
    }
  }

  /**
   * The row loop: one new question per row, in row order, stopping at the first row that
   * raises; the questions reach the quiz only when the file's transaction commits.
   */
  method ConvertRows(rows: seq<Row>) returns (bad: Option<nat>, questions: seq<Question>)
    ensures bad == FirstBadRow(rows)
    ensures bad.None? ==> AllValid(rows) && questions == MakeQuestions(rows)
  {
    questions := [];
    var i := 0;
    while i < |rows|
      invariant 0 <= i <= |rows|
      invariant AllValid(rows[..i])
      invariant questions == MakeQuestions(rows[..i])
    {
      if !RowValid(rows[i]) {
        FirstBadRowAt(rows, i);
        return Some(i), questions;
      }
      MakeQuestionsSnoc(rows, i);
      questions := questions + [MakeQuestion(rows[i], i)];
      i := i + 1;
    }
    assert rows[..i] == rows;
    return None, questions;
  }

  /** The distinct categories of `details`, in order of first appearance. */
  function Categories(details: seq<Detail>): (cats: seq<string>) {
    if details == [] then []
    else
      var init := Categories(details[..|details| - 1]);
      var c := details[|details| - 1].category;
      if c in init then init else init + [c]
  }

  /** The details of one category, in their original order. */
  function OfCategory(details: seq<Detail>, c: string): seq<Detail> {
    Filter(details, (d: Detail) => d.category == c)
  }

  lemma OfCategorySnoc(details: seq<Detail>, d: Detail, c: string)
    ensures OfCategory(details + [d], c) == OfCategory(details, c) + (if d.category == c then [d] else [])
  {
    FilterSnoc(details, d, (d: Detail) => d.category == c);
  }

  lemma OfCategoryEmpty(details: seq<Detail>, c: string)
    requires c !in Categories(details)
    ensures OfCategory(details, c) == []
  {
    CategoriesMembers(details);
  }

  lemma {:induction false} CategoriesDistinct(details: seq<Detail>)
    ensures forall i, j :: 0 <= i < j < |Categories(details)| ==> Categories(details)[i] != Categories(details)[j]
  {
    if details != [] {
      CategoriesDistinct(details[..|details| - 1]);
    }
  }

  lemma {:induction false} CategoriesMembers(details: seq<Detail>)
    ensures forall k :: 0 <= k < |details| ==> details[k].category in Categories(details)
    ensures forall c :: c in Categories(details) ==> exists k :: 0 <= k < |details| && details[k].category == c
  {
    if details != [] {
      var init := details[..|details| - 1];
      assert forall k :: 0 <= k < |init| ==> init[k] == details[k];
      CategoriesMembers(init);
    }
  }

  lemma {:induction false} CategoriesPrefix(details: seq<Detail>, n: nat)
    requires n <= |details|
    ensures Categories(details[..n]) <= Categories(details)
    decreases |details|
  {
    if n < |details| {
      var init := details[..|details| - 1];
      assert details[..n] == init[..n];
      CategoriesPrefix(init, n);
    } else {
      assert details[..n] == details;
    }
  }

  /**
   * Each category appears once, exactly the categories of the details appear, and growing
   * the details only appends categories: the order is that of first appearance.
   */
  lemma CategoriesSpec(details: seq<Detail>, n: nat)
    requires n <= |details|
    ensures forall i, j :: 0 <= i < j < |Categories(details)| ==> Categories(details)[i] != Categories(details)[j]
    ensures forall k :: 0 <= k < |details| ==> details[k].category in Categories(details)
    ensures forall c :: c in Categories(details) ==> exists k :: 0 <= k < |details| && details[k].category == c
    ensures Categories(details[..n]) <= Categories(details)
  {
    CategoriesDistinct(details);
    CategoriesMembers(details);
    CategoriesPrefix(details, n);
  }

  /**
   * The `by_category` grouping: a dictionary whose keys, in insertion order, are the
   * categories by first appearance, each holding its details in order.
   */
  method GroupByCategory(details: seq<Detail>) returns (order: seq<string>, groups: map<string, seq<Detail>>)
    ensures order == Categories(details)
    ensures forall c :: c in groups <==> c in order
    ensures forall c :: c in groups ==> groups[c] == OfCategory(details, c)
  {
    order := [];
    groups := map[];
    for k := 0 to |details|
      invariant order == Categories(details[..k])
      invariant forall c :: c in groups <==> c in order
      invariant forall c :: c in groups ==> groups[c] == OfCategory(details[..k], c)
    {
      PrefixSnoc(details, k);
      assert details[..k + 1][..k] == details[..k];
      var d := details[k];
      if d.category !in groups {
        OfCategoryEmpty(details[..k], d.category);
        order := order + [d.category];
        groups := groups[d.category := []];
      }
      groups := groups[d.category := groups[d.category] + [d]];
      forall c | c in groups ensures groups[c] == OfCategory(details[..k + 1], c) {
        OfCategorySnoc(details[..k], d, c);
      }
    }
    assert details[..|details|] == details;
  }

  /** The scenario's second row: answers "A,C", a blank D cell and a white-space E cell. */
  function ScenarioRow(): Row {
    map[QuestionText := Some("Which?"), OptionA := Some("one"), OptionB := Some("two"),
        OptionC := Some("three"), OptionD := Some(""), OptionE := Some(" "),
        CorrectAnswers := Some("A,C")]
  }

  /** A row without C, D and E columns. */
  function PlainRow(): Row {
    map[QuestionText := Some("Pick"), OptionA := Some("yes"), OptionB := Some("no"), CorrectAnswers := Some("B")]
  }

  lemma PlainRowConverts()
    ensures RowValid(PlainRow())
  {
    var row := PlainRow();
    assert QuestionText in row && OptionA in row && OptionB in row && CorrectAnswers in row;
  }

  lemma ScenarioRowsValid()
    ensures AllValid([PlainRow(), ScenarioRow(), PlainRow()])
  {
    var p, r := PlainRow(), ScenarioRow();
    PlainRowConverts();
    ScenarioRowConverts();
    AllValidSnoc([], p);
    assert [] + [p] == [p];
    AllValidSnoc([p], r);
    assert [p] + [r] == [p, r];
    AllValidSnoc([p, r], p);
    assert [p, r] + [p] == [p, r, p];
  }

  /** The "A,C" row keeps C, has neither D nor E, and its answers split into "A" and "C". */
  lemma ScenarioRowConverts()
    ensures RowValid(ScenarioRow())
    ensures var q := MakeQuestion(ScenarioRow(), 1);
      && q.optionC == Some("three")
      && q.optionD.None?
      && q.optionE.None?
      && AnswerList(q.correctAnswers) == ["A", "C"]
  {
    ScenarioCells();
    SplitAC();
  }

  lemma ScenarioCells()
    ensures Strip("three") == "three" && Strip("") == "" && Strip(" ") == "" && Strip("A,C") == "A,C"
  {
    assert Strip("three") == "three";
    assert Strip(" ") == "";
    assert Strip("A,C") == "A,C";
  }

  lemma SplitAC()
    ensures AnswerList("A,C") == ["A", "C"]
  {
    var s := "A,C";
    assert IndexOf(s, ',') == 1;
    assert s[..1] == "A" && s[2..] == "C";
    assert IndexOf("C", ',') == 1;
    assert Split("C", ',') == ["C"];
    assert Split(s, ',') == ["A"] + ["C"];
  }

  /**
   * Importing a three-row file for a mapped stem succeeds with three questions, the
   * second of them made from the "A,C" row.
   */
  lemma ThreeRowScenario(st: CatalogState, mapping: map<string, QuizInfo>, stem: string, now: int)
    requires stem in mapping && stem !in ExcludedStems
    requires stem != [] && '/' !in stem && '.' !in stem
    ensures var file := SourceFile("csv_files/" + stem + ".csv", [PlainRow(), ScenarioRow(), PlainRow()]);
      var step := ImportStep(st, mapping, file, now);
      var title := mapping[stem].title;
      && step.outcome == Imported(Detail(title, 3, mapping[stem].category))
      && |step.state.quizzes[title].questions| == 3
      && step.state.quizzes[title].questions[1] == MakeQuestion(ScenarioRow(), 1)
  {
    var rows := [PlainRow(), ScenarioRow(), PlainRow()];
    var path := "csv_files/" + stem + ".csv";
    StemOfCsvPath("csv_files", stem);
    assert "csv_files" + "/" + stem + ".csv" == path;
    ScenarioRowsValid();
    MakeQuestionsAt(rows, 1);
    ImportStepSucceeds(st, mapping, SourceFile(path, rows), now);
  }
}
