/**
 * The rules of `import_all_quizzes` as values: the file-stem-to-quiz mapping table, how
 * one parsed CSV row becomes a question, what importing one file does to the catalog,
 * and the statistics a whole run accumulates. The `Importer` module's class follows them.
 */
module ImportRules {
  import opened Wrappers
  import opened Text
  import opened Sequences
  import opened Catalog

  /** One entry of the mapping table. */
  datatype QuizInfo = QuizInfo(title: string, description: string, category: string)

  const FinalExam: string := "Final Exam - English"
  const Pediatrics: string := "Pediatrics"

  /** File stem (base name without extension) to the quiz it fills. */
  const QuizMapping: map<string, QuizInfo> := map[
    "Nephrology" := QuizInfo("Nephrology", "Medical nephrology exam questions", FinalExam),
    "Cardiologie" := QuizInfo("Cardiology", "Medical cardiology exam questions", FinalExam),
    "Gastrologie" := QuizInfo("Gastroenterology", "Medical gastroenterology exam questions", FinalExam),
    "Obstetrics" := QuizInfo("Obstetrics", "Medical obstetrics exam questions", FinalExam),
    "Pneumologie Alergologie" := QuizInfo("Pneumology & Allergology", "Medical pneumology and allergology exam questions", FinalExam),
    "Reumatologie" := QuizInfo("Rheumatology", "Medical rheumatology exam questions", FinalExam),
    "Surgery 1" := QuizInfo("Surgery I", "Medical surgery exam questions - Part 1", FinalExam),
    "Surgery 2" := QuizInfo("Surgery II", "Medical surgery exam questions - Part 2", FinalExam),
    "Acute pneumonia" := QuizInfo("Acute Pneumonia", "Pediatric acute pneumonia questions", Pediatrics),
    "Acute repiratory infections" := QuizInfo("Acute Respiratory Infections", "Pediatric acute respiratory infections questions", Pediatrics),
    "Acute rheumatic fever" := QuizInfo("Acute Rheumatic Fever", "Pediatric acute rheumatic fever questions", Pediatrics),
    "Bronchial asthma" := QuizInfo("Bronchial Asthma", "Pediatric bronchial asthma questions", Pediatrics),
    "Bronchitis" := QuizInfo("Bronchitis", "Pediatric bronchitis questions", Pediatrics),
    "Cardiomyopathies" := QuizInfo("Cardiomyopathies", "Pediatric cardiomyopathies questions", Pediatrics),
    "Child growth and development" := QuizInfo("Child Growth and Development", "Child growth and development questions", Pediatrics),
    "Chronic lung disease" := QuizInfo("Chronic Lung Disease", "Pediatric chronic lung disease questions", Pediatrics),
    "Coagulation disorders" := QuizInfo("Coagulation Disorders", "Pediatric coagulation disorders questions", Pediatrics),
    "Colagenosis in child" := QuizInfo("Collagenosis in Children", "Pediatric collagenosis questions", Pediatrics),
    "Congenetal heart diseases" := QuizInfo("Congenital Heart Diseases", "Pediatric congenital heart diseases questions", Pediatrics),
    "Iron deficiency anemia" := QuizInfo("Iron Deficiency Anemia", "Pediatric iron deficiency anemia questions", Pediatrics),
    "Malabsorbtion" := QuizInfo("Malabsorption", "Pediatric malabsorption questions", Pediatrics),
    "Malnutriia" := QuizInfo("Malnutrition", "Pediatric malnutrition questions", Pediatrics),
    "Neonatology" := QuizInfo("Neonatology", "Neonatology questions", Pediatrics),
    "Rickets" := QuizInfo("Rickets", "Pediatric rickets questions", Pediatrics)
  ]

  /** Stems that are not quizzes; they are skipped without being counted. */
  const ExcludedStems: seq<string> := ["PROCESSING_COMPLETE", "Nephrology_ENG_Examen_de_Stat"]

  /** The difficulty label a newly created quiz gets. */
  const NewQuizDifficulty: string := "Advanced"

  /** The columns of the import format that the importer reads. */
  datatype Column = QuestionText | OptionA | OptionB | OptionC | OptionD | OptionE | CorrectAnswers

  /**
   * One parsed CSV row: column to cell. A column missing from the header has no key; a
   * short row gives `None` for its missing cells (`csv.DictReader`'s rest value).
   */
  type Row = map<Column, Option<string>>

  /** One CSV file found under the import directory, already parsed into rows. */
  datatype SourceFile = SourceFile(path: string, rows: seq<Row>)

  /** `s.rfind(c)`: the last index of `c`, or -1. */
  function LastIndex(s: string, c: char): (i: int)
    ensures -1 <= i < |s|
    ensures i >= 0 ==> s[i] == c
    ensures forall k :: i < k < |s| ==> s[k] != c
  {
    if s == [] then -1
    else if s[|s| - 1] == c then |s| - 1
    else LastIndex(s[..|s| - 1], c)
  }

  /** `os.path.basename`. */
  function BaseName(path: string): string {
    path[LastIndex(path, '/') + 1..]
  }

  /**
   * `os.path.splitext(name)[0]`: drops the part from the last dot on, unless every
   * character before that dot is a dot (".csv" has no extension).
   */
  function DropExtension(name: string): string {
    var dot := LastIndex(name, '.');
    if dot < 0 || forall k :: 0 <= k < dot ==> name[k] == '.' then name else name[..dot]
  }

  /** The file stem the mapping table is keyed by. */
  function Stem(path: string): string {
    DropExtension(BaseName(path))
  }

  lemma BaseNameOfPath(dir: string, base: string)
    requires '/' !in base
    ensures BaseName(dir + "/" + base) == base
  {
    var path := dir + "/" + base;
    assert path[|dir|] == '/';
    assert forall k :: |dir| < k < |path| ==> path[k] == base[k - |dir| - 1];
    assert LastIndex(path, '/') == |dir|;
    assert path[|dir| + 1..] == base;
  }

  lemma DropCsvExtension(name: string)
    requires name != [] && '.' !in name
    ensures DropExtension(name + ".csv") == name
  {
    var base := name + ".csv";
    assert base[|name|] == '.';
    assert forall k :: |name| < k < |base| ==> base[k] != '.';
    assert LastIndex(base, '.') == |name|;
    assert base[0] == name[0];
    assert base[..|name|] == name;
  }

  /** The stem of `dir/name.csv` is `name`, for a name without slashes or dots. */
  lemma StemOfCsvPath(dir: string, name: string)
    requires name != [] && '/' !in name && '.' !in name
    ensures Stem(dir + "/" + name + ".csv") == name
  {
    assert '/' !in name + ".csv";
    assert dir + "/" + name + ".csv" == dir + "/" + (name + ".csv");
    BaseNameOfPath(dir, name + ".csv");
    DropCsvExtension(name);
  }

  /** `".csv"` alone keeps its dot: `splitext` sees no extension. */
  lemma StemOfDotFile()
    ensures Stem("csv_files/.csv") == ".csv"
  {
    var path := "csv_files/.csv";
    assert path[9] == '/';
    assert LastIndex(path, '/') == 9;
    assert BaseName(path) == ".csv";
    assert ".csv"[0] == '.';
    assert LastIndex(".csv", '.') == 0;
  }

  /** The cell holds a string: `row[f]` neither raises KeyError nor gives None. */
  predicate HasField(row: Row, f: Column) {
    f in row && row[f].Some?
  }

  /** The required columns; a row lacking one of them raises while being converted. */
  predicate RowValid(row: Row) {
    HasField(row, QuestionText) && HasField(row, OptionA) && HasField(row, OptionB)
    && HasField(row, CorrectAnswers)
  }

  /** `row[f].strip()` for a required column. */
  function Required(row: Row, f: Column): string
    requires HasField(row, f)
  {
    Strip(row[f].value)
  }

  /**
   * `row[f].strip() if row.get(f) and row[f].strip() else None`: the stripped cell when it
   * is present and not blank, otherwise None.
   */
  function Optional(row: Row, f: Column): (r: Option<string>)
    ensures r.Some? <==> HasField(row, f) && Strip(row[f].value) != ""
    ensures r.Some? ==> r.value == Strip(row[f].value)
  {
    if f in row && row[f].Some? && row[f].value != "" && Strip(row[f].value) != "" then Some(Strip(row[f].value))
    else None
  }

  /** The question stored for row number `i` of a file. */
  function MakeQuestion(row: Row, i: nat): Question
    requires RowValid(row)
  {
    Question(
      Required(row, QuestionText), Required(row, OptionA), Required(row, OptionB),
      Optional(row, OptionC), Optional(row, OptionD), Optional(row, OptionE),
      Required(row, CorrectAnswers), i)
  }

  /** The stored question carries the row's stripped cells, blank optional cells as None, and its row index. */
  predicate StoredFromRow(q: Question, row: Row, i: nat)
    requires RowValid(row)
  {
    && q.orderNum == i
    && q.text == Strip(row[QuestionText].value)
    && q.optionA == Strip(row[OptionA].value)
    && q.optionB == Strip(row[OptionB].value)
    && q.correctAnswers == Strip(row[CorrectAnswers].value)
    && (q.optionC.Some? <==> HasField(row, OptionC) && Strip(row[OptionC].value) != "")
    && (q.optionC.Some? ==> q.optionC.value == Strip(row[OptionC].value))
    && (q.optionD.Some? <==> HasField(row, OptionD) && Strip(row[OptionD].value) != "")
    && (q.optionD.Some? ==> q.optionD.value == Strip(row[OptionD].value))
    && (q.optionE.Some? <==> HasField(row, OptionE) && Strip(row[OptionE].value) != "")
    && (q.optionE.Some? ==> q.optionE.value == Strip(row[OptionE].value))
  }

  predicate AllValid(rows: seq<Row>) {
    forall k :: 0 <= k < |rows| ==> RowValid(rows[k])
  }

  lemma AllValidSnoc(rows: seq<Row>, row: Row)
    requires AllValid(rows) && RowValid(row)
    ensures AllValid(rows + [row])
  {
    assert forall k :: 0 <= k < |rows| ==> (rows + [row])[k] == rows[k];
  }

  /** The questions of a file whose rows all convert, one per row in row order. */
  function MakeQuestions(rows: seq<Row>): (qs: seq<Question>)
    requires AllValid(rows)
    ensures |qs| == |rows|
  {
    if rows == [] then []
    else
      var init := rows[..|rows| - 1];
      assert forall k :: 0 <= k < |init| ==> init[k] == rows[k];
      MakeQuestions(init) + [MakeQuestion(rows[|rows| - 1], |rows| - 1)]
  }

  /** Question `k` is made from row `k`, numbered `k`. */
  lemma {:induction false} MakeQuestionsAt(rows: seq<Row>, k: nat)
    requires AllValid(rows) && k < |rows|
    ensures MakeQuestions(rows)[k] == MakeQuestion(rows[k], k)
  {
    var init := rows[..|rows| - 1];
    assert forall j :: 0 <= j < |init| ==> init[j] == rows[j];
    if k < |init| {
      MakeQuestionsAt(init, k);
    }
  }

  lemma MakeQuestionsSnoc(rows: seq<Row>, i: nat)
    requires i < |rows| && AllValid(rows[..i]) && RowValid(rows[i])
    ensures AllValid(rows[..i + 1])
    ensures MakeQuestions(rows[..i + 1]) == MakeQuestions(rows[..i]) + [MakeQuestion(rows[i], i)]
  {
    PrefixSnoc(rows, i);
    var next := rows[..i + 1];
    assert forall k :: 0 <= k < i ==> next[k] == rows[..i][k];
    assert next[..i] == rows[..i];
  }

  /** The index of the first row that raises, if any. */
  function FirstBadRow(rows: seq<Row>): (r: Option<nat>)
    ensures r.None? <==> AllValid(rows)
    ensures r.Some? ==> r.value < |rows| && !RowValid(rows[r.value]) && AllValid(rows[..r.value])
  {
    if rows == [] then None
    else
      var init := rows[..|rows| - 1];
      assert forall k :: 0 <= k < |init| ==> init[k] == rows[k];
      match FirstBadRow(init)
      case Some(i) =>
        assert rows[..i] == init[..i];
        Some(i)
      case None => if RowValid(rows[|rows| - 1]) then None else Some(|rows| - 1)
  }

  /** The row loop stops at the first row that raises. */
  lemma FirstBadRowAt(rows: seq<Row>, i: nat)
    requires i < |rows| && AllValid(rows[..i]) && !RowValid(rows[i])
    ensures FirstBadRow(rows) == Some(i)
  {
    assert forall j :: 0 <= j < i ==> rows[..i][j] == rows[j];
  }

  /** The quiz table keyed by title (the importer's natural key), with the next free quiz id. */
  datatype CatalogState = CatalogState(quizzes: map<string, Quiz>, nextId: int)

  /** Each quiz is filed under its own title, and ids are distinct and below `nextId`. */
  predicate Consistent(st: CatalogState) {
    && (forall t :: t in st.quizzes ==> st.quizzes[t].title == t && st.quizzes[t].id < st.nextId)
    && (forall t, u :: t in st.quizzes && u in st.quizzes && t != u ==> st.quizzes[t].id != st.quizzes[u].id)
  }

  /** One entry of `import_stats['details']`. */
  datatype Detail = Detail(title: string, questions: nat, category: string)

  /** What happened to one file. */
  datatype FileOutcome = Excluded | NoMapping | RowError(row: nat) | Imported(detail: Detail)

  datatype Step = Step(state: CatalogState, outcome: FileOutcome)

  /** The quiz created for a mapping entry that has no quiz yet. */
  function NewQuiz(info: QuizInfo, id: int, now: int): Quiz {
    Quiz(id, info.title, Some(info.description), Some(info.category), Some(NewQuizDifficulty), false, now, [])
  }

  /**
   * One file: skipped when excluded, failed without a mapping entry, rolled back to the
   * state before the file when a row raises, and otherwise the mapped quiz (found by title
   * or created) gets exactly the file's questions.
   */
  function ImportStep(st: CatalogState, mapping: map<string, QuizInfo>, file: SourceFile, now: int): Step {
    var stem := Stem(file.path);
    if stem in ExcludedStems then Step(st, Excluded)
    else if stem !in mapping then Step(st, NoMapping)
    else
      var info := mapping[stem];
      var bad := FirstBadRow(file.rows);
      if bad.Some? then Step(st, RowError(bad.value))
      else
        var existing := info.title in st.quizzes;
        var base := if existing then st.quizzes[info.title] else NewQuiz(info, st.nextId, now);
        var next := if existing then st.nextId else st.nextId + 1;
        Step(CatalogState(st.quizzes[info.title := base.(questions := MakeQuestions(file.rows))], next),
             Imported(Detail(info.title, |file.rows|, info.category)))
  }

  /** Which outcome a file gets, in terms of its stem and rows. */
  lemma ImportStepOutcome(st: CatalogState, mapping: map<string, QuizInfo>, file: SourceFile, now: int)
    ensures var out := ImportStep(st, mapping, file, now).outcome;
      var stem := Stem(file.path);
      && (out == Excluded <==> stem in ExcludedStems)
      && (out == NoMapping <==> stem !in ExcludedStems && stem !in mapping)
      && (out.RowError? <==>
            stem !in ExcludedStems && stem in mapping && !AllValid(file.rows))
      && (out.RowError? ==> !RowValid(file.rows[out.row]) && AllValid(file.rows[..out.row]))
      && (out.Imported? <==>
            stem !in ExcludedStems && stem in mapping && AllValid(file.rows))
      && (out.Imported? ==>
            out.detail == Detail(mapping[stem].title, |file.rows|, mapping[stem].category))
  {
  }

  /** A mapped, non-excluded file whose rows all convert is imported with exactly those rows' questions. */
  lemma ImportStepSucceeds(st: CatalogState, mapping: map<string, QuizInfo>, file: SourceFile, now: int)
    requires Stem(file.path) !in ExcludedStems && Stem(file.path) in mapping && AllValid(file.rows)
    ensures var step := ImportStep(st, mapping, file, now);
      var info := mapping[Stem(file.path)];
      && step.outcome == Imported(Detail(info.title, |file.rows|, info.category))
      && info.title in step.state.quizzes
      && step.state.quizzes[info.title].questions == MakeQuestions(file.rows)
  {
  }

  /** A file that is not imported leaves the whole catalog as it was, a just-created quiz included. */
  lemma FailedFileLeavesCatalog(st: CatalogState, mapping: map<string, QuizInfo>, file: SourceFile, now: int)
    requires !ImportStep(st, mapping, file, now).outcome.Imported?
    ensures ImportStep(st, mapping, file, now).state == st
  {
  }

  /**
   * After a successful import the mapped quiz holds exactly the file's rows, converted in
   * row order; every other quiz is unchanged and no other title appears.
   */
  lemma ImportedQuizHoldsRows(st: CatalogState, mapping: map<string, QuizInfo>, file: SourceFile, now: int)
    requires ImportStep(st, mapping, file, now).outcome.Imported?
    ensures var s := ImportStep(st, mapping, file, now).state;
      var title := mapping[Stem(file.path)].title;
      && AllValid(file.rows)
      && title in s.quizzes
      && s.quizzes.Keys == st.quizzes.Keys + {title}
      && |s.quizzes[title].questions| == |file.rows|
      && (forall k :: 0 <= k < |file.rows| ==> StoredFromRow(s.quizzes[title].questions[k], file.rows[k], k))
      && (forall t :: t in st.quizzes && t != title ==> s.quizzes[t] == st.quizzes[t])
  {
    var s := ImportStep(st, mapping, file, now).state;
    var title := mapping[Stem(file.path)].title;
    forall k | 0 <= k < |file.rows|
      ensures StoredFromRow(s.quizzes[title].questions[k], file.rows[k], k)
    {
      MakeQuestionsAt(file.rows, k);
    }
  }

  /** An existing quiz keeps its id, labels, beta flag and creation time; only its questions change. */
  lemma ImportKeepsExistingQuiz(st: CatalogState, mapping: map<string, QuizInfo>, file: SourceFile, now: int)
    requires ImportStep(st, mapping, file, now).outcome.Imported?
    requires mapping[Stem(file.path)].title in st.quizzes
    ensures var s := ImportStep(st, mapping, file, now).state;
      var title := mapping[Stem(file.path)].title;
      && s.quizzes[title] == st.quizzes[title].(questions := s.quizzes[title].questions)
      && s.nextId == st.nextId
  {
  }

  /** A quiz created by the import takes the next id and the mapping entry's labels, at difficulty "Advanced". */
  lemma ImportCreatesQuiz(st: CatalogState, mapping: map<string, QuizInfo>, file: SourceFile, now: int)
    requires ImportStep(st, mapping, file, now).outcome.Imported?
    requires mapping[Stem(file.path)].title !in st.quizzes
    ensures var s := ImportStep(st, mapping, file, now).state;
      var info := mapping[Stem(file.path)];
      var q := s.quizzes[info.title];
      && q.id == st.nextId
      && q.description == Some(info.description)
      && q.category == Some(info.category)
      && q.difficulty == Some("Advanced")
      && !q.isBeta
      && q.createdAt == now
      && s.nextId == st.nextId + 1
  {
  }

  /** Importing a file keeps the catalog consistent. */
  lemma ImportStepConsistent(st: CatalogState, mapping: map<string, QuizInfo>, file: SourceFile, now: int)
    requires Consistent(st)
    ensures Consistent(ImportStep(st, mapping, file, now).state)
  {
    var s := ImportStep(st, mapping, file, now).state;
    if ImportStep(st, mapping, file, now).outcome.Imported? {
      var title := mapping[Stem(file.path)].title;
      forall t | t in s.quizzes ensures s.quizzes[t].title == t && s.quizzes[t].id < s.nextId {
        if t != title {
          assert s.quizzes[t] == st.quizzes[t];
        }
      }
    }
  }

  /**
   * Importing the same file again changes nothing: the second run finds the quiz the first
   * one filled and replaces its questions with the same ones.
   */
  lemma ImportIdempotent(st: CatalogState, mapping: map<string, QuizInfo>, file: SourceFile, now: int, later: int)
    ensures var first := ImportStep(st, mapping, file, now);
      ImportStep(first.state, mapping, file, later) == first
  {
    var first := ImportStep(st, mapping, file, now);
    if first.outcome.Imported? {
      var title := mapping[Stem(file.path)].title;
      var q := first.state.quizzes[title];
      assert q.(questions := MakeQuestions(file.rows)) == q;
      assert first.state.quizzes[title := q] == first.state.quizzes;
    }
  }

  /** `import_stats`. */
  datatype ImportStats = ImportStats(success: nat, failed: nat, totalQuestions: nat, details: seq<Detail>)

  const NoStats: ImportStats := ImportStats(0, 0, 0, [])

  /** How one file's outcome updates the statistics. */
  function Tally(stats: ImportStats, outcome: FileOutcome): ImportStats {
    match outcome
    case Excluded => stats
    case NoMapping => stats.(failed := stats.failed + 1)
    case RowError(_) => stats.(failed := stats.failed + 1)
    case Imported(d) =>
      stats.(success := stats.success + 1, totalQuestions := stats.totalQuestions + d.questions,
             details := stats.details + [d])
  }

  datatype RunResult = RunResult(state: CatalogState, stats: ImportStats)

  /** The files imported one after another, in the given order, with the given mapping table. */
  function Run(st: CatalogState, mapping: map<string, QuizInfo>, files: seq<SourceFile>, now: int): RunResult {
    if files == [] then RunResult(st, NoStats)
    else
      var before := Run(st, mapping, files[..|files| - 1], now);
      var step := ImportStep(before.state, mapping, files[|files| - 1], now);
      RunResult(step.state, Tally(before.stats, step.outcome))
  }

  /** `sorted(csv_files)`: by path, in code-point order. */
  predicate PathLe(a: SourceFile, b: SourceFile) {
    LexLe(a.path, b.path)
  }

  /** `import_all_quizzes`: every file, in sorted path order, from the given catalog. */
  function ImportAll(st: CatalogState, files: seq<SourceFile>, now: int): RunResult {
    Run(st, QuizMapping, SortBy(files, PathLe), now)
  }

  /** The files are imported in path order, and every file found is imported once. */
  lemma ImportOrderSorted(files: seq<SourceFile>)
    ensures SortedBy(SortBy(files, PathLe), PathLe)
    ensures multiset(SortBy(files, PathLe)) == multiset(files)
  {
    LexLeIsTotalPreorder();
    assert TotalPreorder(PathLe);
    SortBySorted(files, PathLe);
  }

  predicate IsExcluded(file: SourceFile) {
    Stem(file.path) in ExcludedStems
  }

  function SumQuestions(details: seq<Detail>): nat {
    if details == [] then 0 else SumQuestions(details[..|details| - 1]) + details[|details| - 1].questions
  }

  lemma SumQuestionsSnoc(details: seq<Detail>, d: Detail)
    ensures SumQuestions(details + [d]) == SumQuestions(details) + d.questions
  {
    assert (details + [d])[..|details|] == details;
  }

  /** The statistics' invariants after one more file, whichever its outcome. */
  predicate Balanced(stats: ImportStats, files: nat, excluded: nat) {
    && stats.success + stats.failed + excluded == files
    && |stats.details| == stats.success
    && stats.totalQuestions == SumQuestions(stats.details)
  }

  lemma TallyBalanced(stats: ImportStats, outcome: FileOutcome, files: nat, excluded: nat)
    requires Balanced(stats, files, excluded)
    ensures Balanced(Tally(stats, outcome), files + 1, if outcome == Excluded then excluded + 1 else excluded)
  {
    if outcome.Imported? {
      SumQuestionsSnoc(stats.details, outcome.detail);
    }
  }

  /**
   * Accounting over a run: every file is a success, a failure or an excluded stem; each
   * success has one detail; the question total is the sum over the details; and the
   * catalog stays consistent.
   */
  lemma {:induction false} RunAccounting(st: CatalogState, mapping: map<string, QuizInfo>, files: seq<SourceFile>, now: int)
    requires Consistent(st)
    ensures var r := Run(st, mapping, files, now);
      Balanced(r.stats, |files|, |Filter(files, IsExcluded)|) && Consistent(r.state)
  {
    if files != [] {
      var init := files[..|files| - 1];
      var last := files[|files| - 1];
      assert files == init + [last];
      RunAccounting(st, mapping, init, now);
      var before := Run(st, mapping, init, now);
      ImportStepConsistent(before.state, mapping, last, now);
      ImportStepOutcome(before.state, mapping, last, now);
      FilterSnoc(init, last, IsExcluded);
      var step := ImportStep(before.state, mapping, last, now);
      TallyBalanced(before.stats, step.outcome, |init|, |Filter(init, IsExcluded)|);
    }
  }

  /** The same accounting for a whole import, whose sorting reorders but keeps every file. */
  lemma ImportAllAccounting(st: CatalogState, files: seq<SourceFile>, now: int)
    requires Consistent(st)
    ensures var r := ImportAll(st, files, now);
      && r.stats.success + r.stats.failed + |Filter(files, IsExcluded)| == |files|
      && |r.stats.details| == r.stats.success
      && r.stats.totalQuestions == SumQuestions(r.stats.details)
      && Consistent(r.state)
  {
    var sorted := SortBy(files, PathLe);
    RunAccounting(st, QuizMapping, sorted, now);
    FilterPermutation(sorted, files, IsExcluded);
  }

  /** A file without a mapping entry adds one failure, touches no quiz, and the run goes on. */
  lemma UnmappedFileCountsAsFailure(st: CatalogState, mapping: map<string, QuizInfo>, files: seq<SourceFile>, file: SourceFile, now: int)
    requires !IsExcluded(file) && Stem(file.path) !in mapping
    ensures var before := Run(st, mapping, files, now);
      var after := Run(st, mapping, files + [file], now);
      && after.state == before.state
      && after.stats == before.stats.(failed := before.stats.failed + 1)
  {
    var all := files + [file];
    assert all[..|all| - 1] == files;
    var before := Run(st, mapping, files, now);
    var step := ImportStep(before.state, mapping, file, now);
    assert step == Step(before.state, NoMapping);
  }
}
