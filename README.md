# Quiz application core, modelled in Dafny

A model of the logic inside the quiz web application's `app.py`: medical-exam quizzes
with single- and multiple-answer questions, users on a trial or paid plan, and a store
of their attempt results. It covers five parts of the program:

- **Access policy** (`Access`). Who may take quizzes: a paid account, or a trial that
  has not ended. It also computes the trial days shown on the pages.
- **Catalog** (`Catalog`). The stored `Quiz` and `Question` records and the rule that
  makes a question multiple-answer: a comma in its stripped answer string.
- **Quiz data** (`QuizData`). What a quiz session receives (`get_quiz_data`):
  - the questions ordered by `order_num` and filtered by kind;
  - each question projected to its filled options A–E and its answer letters;
  - the list shuffled.

  It also holds the question-type counts of the settings dialog (`quiz_details`).
- **Progress** (`Progress`). The progress store and what the pages derive from it:
  - the append-only log written by `submit_quiz`;
  - `main_menu`'s per-quiz best percentage and last attempt;
  - the overall completion figure of `progress`;
  - the newest-first histories of `progress` and `profile`.
- **Import** (`ImportRules`, `Importer`). The CSV import `import_all_quizzes`:
  - the 24-entry table from file stem to quiz;
  - row-to-question conversion with stripping and `None` for blank cells;
  - find-or-create by title, replacement of a quiz's questions, and rollback of a file
    whose rows raise;
  - the import statistics and their grouping by category.

`ImportRules` states the import as functions on values. `Importer.QuizCatalog` is a
class whose methods change its quiz table in place. Each of its methods is proved to
produce the state and the outcome that `ImportRules` prescribes.

The remaining modules are helpers:

- `Text` models Python's `str.strip()`, `str.split(',')` and `','.join`.
- `Sequences` holds list comprehensions with `if` (`Filter`) and a stable insertion sort.
  The sort stands for SQL `ORDER BY` and for `sorted`.
- `Wrappers` defines `Option`.

The current instant `now` is an integer number of seconds passed as a parameter. The
random choices of `random.shuffle` are a parameter too. The database tables are Dafny
values: a sequence of quizzes, a sequence of progress records, and a title-keyed map for
the importer.

The model follows what the code does. Points a reader might not expect:

- `submit_quiz` accepts a negative score, or one above the total (app.py:625).
- The overall completion on the progress page counts progress records. The name
  `completed_quizzes` suggests distinct quizzes (see Findings).
- Answer letters are stored without checking that they name a filled option
  (app.py:838-848).
- `import_stats` keeps a failure count but no per-file list. The reasons for failures
  are only printed (app.py:809, 864).

## Model

| member | source | states |
|---|---|---|
| Access.HasAccess | app.py:62-68 | access for a paid account, or for an unpaid one strictly before its trial end; how it relates to the day count and to the passing of time is proved in DaysLeftImpliesAccess, LastPartialDay and AccessMonotoneInTime |
| Access.TrialDaysLeft | app.py:70-75 | 0 without a trial end date; otherwise the largest whole number of days that fits in the remaining time, and 0 once it has passed |
| Access.DaysLeftImpliesAccess | app.py:62-75 | a positive day count is shown only to a user with access; a user without access sees 0 |
| Access.LastPartialDay | app.py:62-75 | during the last hour of a trial the user still has access but 0 days are shown |
| Access.TrialDaysLeftNonIncreasing | app.py:70-75 | as time passes the day count never increases |
| Access.AccessMonotoneInTime | app.py:62-68 | access that holds at an instant held at every earlier instant |
| Access.TwoDayTrial | app.py:62-75 | a trial ending 48 hours from now gives access and 2 days |
| Catalog.IsMultiple | app.py:540-541 | a question is multiple-answer when its stripped answer string holds a comma; ClassificationIgnoresStrip proves that the strip does not change the verdict |
| Catalog.ListActive | app.py:311 | the non-beta quizzes, in stored order (the listing of `main_menu` and of the progress page at app.py:413); ListActiveSpec proves exactly that |
| Catalog.ClassificationIgnoresStrip | app.py:540-541 | the stripped answer string holds a comma exactly when the raw one does; re-stripping does not change the kind |
| Catalog.ListActiveSpec | app.py:311 | the listing holds every non-beta quiz and no beta quiz, in stored order |
| Catalog.QuizById | app.py:409-410 | None only when no quiz has the id; otherwise a stored quiz with that id |
| QuizData.Ordered | app.py:582 | the quiz's questions ordered by `order_num`; OrderedSpec proves it sorted and a permutation |
| QuizData.Select | app.py:584-589 | the question filter; SelectSubsequences, SelectKinds, SelectPartition and SelectAll prove what each filter value selects |
| QuizData.AnswerList | app.py:602 | the answer letters of a question; AnswerListSpec proves it is the comma split and joins back to the stored string |
| QuizData.Project | app.py:592-610 | the record handed out for one question: its text, options and answers; ProjectSpec proves their contents |
| QuizData.ProjectAll | app.py:592-610 | one projection per question, in order; ProjectQuestions is proved equal to it |
| QuizData.OptionsUpToSpec | app.py:593-600 | the options list holds exactly the filled slots (present, non-empty), each with its letter and text, in strictly increasing letter order |
| QuizData.AnswerListSpec | app.py:602 | the answer list is the comma split of the stored string; it has one element exactly when there is no comma; no piece holds a comma; joining the pieces gives the string back |
| QuizData.ProjectSpec | app.py:592-610 | a projected question offers exactly its filled options in letter order, and its answers are the comma split |
| QuizData.AnswerNeedNotBeOffered | app.py:592-610 | an answer letter "C" is handed out even when option C is not offered |
| QuizData.OrderedSpec | app.py:582 | the question list is sorted by `order_num` and is a permutation of the quiz's questions |
| QuizData.SelectSubsequences | app.py:585-588 | "single" and "multiple" select order-preserving subsequences of the ordered list |
| QuizData.SelectKinds | app.py:585-588 | "single" hands out only single-answer questions, "multiple" only multiple-answer ones |
| QuizData.SelectPartition | app.py:582-589 | the two selections together hold every question of the quiz exactly once |
| QuizData.SelectAll | app.py:589 | any other filter value returns the whole ordered list |
| QuizData.BuildOptions | app.py:593-600 | the options loop builds the options list of the question |
| QuizData.ProjectQuestions | app.py:591-610 | the question loop produces one projection per selected question, in order |
| QuizData.Shuffle | app.py:612 | the array ends as a permutation of its old contents, whatever the random draws |
| QuizData.GetQuizData | app.py:573-614 | no access gives "access denied"; an unknown quiz gives "not found"; otherwise the result is a permutation of the projections of the selected questions |
| QuizData.CountKindsAsWritten | app.py:537-544 | the counting loop as written: the single count is always 1, the multiple count is the number of multiple-answer questions |
| QuizData.ForElseMiscount | app.py:537-544 | a quiz of two single-answer questions has single count 2, not the 1 reported |
| QuizData.CountKinds | app.py:537-544 | the intended loop: the counts are the numbers of single- and multiple-answer questions and add up to the question total |
| QuizData.CountsMatchSelect | app.py:537-544 | the intended counts equal the sizes of the "single" and "multiple" selections of `get_quiz_data` |
| QuizData.QuizDetails | app.py:530-553 | "not found" exactly for an unknown quiz; a stored quiz always gets its details: its id, title and description, the question total, a single count of 1 and the number of multiple-answer questions |
| QuizData.QuizDetailsIntended | app.py:530-553 | "not found" exactly for an unknown quiz; a stored quiz always gets its id, title, description and question total, with counts that split the questions into single- and multiple-answer ones |
| Progress.ProgressLog.Submit | app.py:620-636 | missing quiz id, quiz id 0, missing score or total is "invalid data" and leaves the log as it was; otherwise exactly one record with the given values and time is appended after the untouched old records |
| Progress.BestPercentage | app.py:317-329 | the main-menu percentage of a (user, quiz) pair; BestPercentageZeroCases, BestPercentageBounded, BestPercentageMonotone and BestPercentageOtherPair prove its zero cases, bound and monotonicity |
| Progress.LastAttempt | app.py:331-334 | the newest attempt of the pair; LastAttemptSpec proves it exists exactly when the pair has records and that none is newer |
| Progress.History | app.py:423 | a user's attempts, newest first; HistorySpec proves it sorted, a permutation of the user's records and holding only them |
| Progress.Summary | app.py:336-346 | one main-menu row: the quiz's fields, its question count, BestPercentage and the last attempt's score and total |
| Progress.ProgressPage | app.py:405-431 | the progress page as written; ProgressCanExceedHundred shows its percentage passing 100 |
| Progress.ProgressPageIntended | app.py:405-431 | the progress page counting attempted quizzes; ProgressIntendedBounded proves its bounds |
| Progress.MaxScore | app.py:326 | the result is at least every recorded score and equals one of them |
| Progress.TruncDiv | app.py:327 | division truncated toward zero: the quotient bounds the dividend from both sides (Python's `int` of a quotient) |
| Progress.BestPercentageZeroCases | app.py:317-329 | the percentage is 0 without records for the (user, quiz) pair or without questions |
| Progress.BestPercentageBounded | app.py:317-329 | with the pair's scores between 0 and the question count the percentage lies in 0..100; other users' and quizzes' scores are unconstrained |
| Progress.TruncDivMonotone | app.py:327 | truncated division is monotone in the dividend |
| Progress.BestPercentageMonotone | app.py:317-329 | another attempt for the same pair never lowers the percentage, given the same question count, provided the pair already has a record or the new score is non-negative (the source accepts negative scores, and a first score of -5 of 10 shows -50) |
| Progress.BestPercentageOtherPair | app.py:314-329 | attempts of other users or other quizzes do not move the percentage |
| Progress.BestPercentageScenario | app.py:317-329 | 8 of 10 shows 80; a later 6 of 10 leaves it at 80 |
| Progress.LastAttemptSpec | app.py:331-334 | there is a last attempt exactly when the pair has records, and no record of the pair is newer than it |
| Progress.HistorySpec | app.py:423 | the history is sorted newest first, holds only the user's records, and is a permutation of all of them |
| Progress.ProfileHistory | app.py:396 | at most ten records, all of them if the user has at most ten, and a prefix of the newest-first history |
| Progress.Summaries | app.py:313-345 | the main-menu loop yields one summary per listed quiz, in listing order |
| Progress.MainMenu | app.py:306-353 | a user without access, and only such a user, is redirected to payment; otherwise each non-beta quiz gets its summary (best percentage, last attempt), plus the days left and the paid flag |
| Progress.ProgressCanExceedHundred | app.py:413-420 | two attempts of the only quiz show 200 percent complete |
| Progress.ProgressIntendedBounded | app.py:413-420 | counting attempted quizzes instead, completion never exceeds the quiz total and the percentage lies in 0..100 |
| Text.Strip | app.py:540 | Python's `str.strip()`; StripKeepsNonSpace, StripIdempotent and StripEnds prove what it removes and keeps |
| Text.Split | app.py:602 | `str.split(',')`: at least one piece and no piece holds the separator; JoinSplit and SplitJoin prove it inverse to Join |
| Text.StripKeepsNonSpace | app.py:540 | stripping removes only white space: every other character is in the result exactly when it is in the input |
| Text.StripIdempotent | app.py:540 | stripping twice is stripping once |
| Text.StripEnds | app.py:540 | a stripped string neither starts nor ends with white space |
| Text.JoinSplit | app.py:602 | joining the comma split gives the string back |
| Text.SplitJoin | app.py:602 | splitting the join of comma-free pieces gives the pieces back |
| Text.SplitSingleton | app.py:602 | the split has one piece exactly when the separator does not occur |
| ImportRules.Stem | app.py:799 | `splitext(basename(path))[0]`; StemOfCsvPath and StemOfDotFile prove it on ordinary and leading-dot names |
| ImportRules.LastIndex | app.py:799 | the last index of the character, or -1 when it is absent (`rfind`) |
| ImportRules.StemOfCsvPath | app.py:799 | the stem of `dir/name.csv` is `name`, for a name without slashes or dots |
| ImportRules.StemOfDotFile | app.py:799 | a file named `.csv` has stem `.csv`, since `splitext` keeps a leading dot |
| ImportRules.Optional | app.py:844-846 | an optional cell becomes a value exactly when present and not blank after stripping, and the value is the stripped cell |
| ImportRules.MakeQuestion | app.py:838-848 | the question stored for one row; ImportedQuizHoldsRows proves each stored question carries the stripped cells, None for blank options, and its row index |
| ImportRules.FirstBadRow | app.py:837-850 | None exactly when every row has the required cells; otherwise the index of a row that raises, with every earlier row valid |
| ImportRules.ImportStep | app.py:799-866 | what one file does to the catalog; ImportStepOutcome, FailedFileLeavesCatalog, ImportedQuizHoldsRows, ImportIdempotent and ImportStepConsistent prove its outcomes and effects |
| ImportRules.Tally | app.py:808-811 | how one outcome updates the statistics (also app.py:855-865); TallyBalanced proves it keeps the accounting balanced |
| ImportRules.Run | app.py:797-866 | the files imported one after another; RunAccounting proves its accounting |
| ImportRules.ImportAll | app.py:797-866 | the whole import over the path-sorted files; ImportAllAccounting and ImportOrderSorted prove its accounting and order |
| ImportRules.ImportStepOutcome | app.py:797-866 | an excluded stem is skipped; an unmapped stem fails; a row missing a required cell fails at the first such row; otherwise the file is imported with its mapped title and category and its row count |
| ImportRules.ImportStepSucceeds | app.py:815-861 | a mapped, non-excluded file whose rows all convert is imported, and the mapped quiz holds exactly the converted rows |
| ImportRules.FailedFileLeavesCatalog | app.py:808-866 | a file that is not imported leaves the whole catalog as before, including a quiz just created for it |
| ImportRules.ImportedQuizHoldsRows | app.py:815-852 | after an import the mapped quiz has one question per row, each numbered by its row and holding the stripped cells with blank options as None; other quizzes are unchanged and no other title is added |
| ImportRules.ImportKeepsExistingQuiz | app.py:815-820 | a quiz that existed keeps its id, labels, beta flag and creation time; only its questions change |
| ImportRules.ImportCreatesQuiz | app.py:821-831 | a new quiz gets the next id, the table's description and category, difficulty "Advanced", is not beta and is stamped `now` |
| ImportRules.ImportStepConsistent | app.py:815-852 | importing a file keeps every quiz filed under its own title with distinct ids below the next free id |
| ImportRules.ImportIdempotent | app.py:815-852 | importing the same file a second time changes neither the catalog nor the outcome |
| ImportRules.RunAccounting | app.py:797-866 | over any run, success + failed + excluded files equals the number of files; each success has one detail; the question total is the sum over the details; the catalog stays consistent |
| ImportRules.ImportOrderSorted | app.py:797 | the files are imported sorted by path in code-point order, and the sorted list is a permutation of the files found |
| ImportRules.ImportAllAccounting | app.py:789-892 | the same accounting for a whole import over the files sorted by path |
| ImportRules.UnmappedFileCountsAsFailure | app.py:806-811 | an unmapped file adds one failure, changes nothing else in the statistics and touches no quiz |
| Importer.QuizCatalog.ImportFile | app.py:799-866 | the in-place import of one file keeps the catalog consistent and reaches the state and outcome of `ImportRules.ImportStep`, restoring the snapshot when a row raises |
| Importer.QuizCatalog.ImportFiles | app.py:797-866 | the loop over files keeps the catalog consistent and yields the state and statistics of `ImportRules.Run` |
| Importer.QuizCatalog.ImportAllFiles | app.py:640-892 | the whole import over the files sorted by path equals `ImportRules.ImportAll` |
| Importer.ConvertRows | app.py:835-850 | the row loop stops at the first row that raises; otherwise it makes one question per row, in row order |
| Importer.CategoriesSpec | app.py:878-883 | the category order lists each category once, exactly those of the details, in order of first appearance |
| Importer.GroupByCategory | app.py:878-883 | the grouping has a key exactly for each category of the details, in first-appearance order, and each key holds its details in their original order |
| Importer.ScenarioRowConverts | app.py:838-848 | a row with option C set, D empty, E a space and answers "A,C" keeps C, has no D or E, and its answers split into "A" and "C" |
| Importer.ThreeRowScenario | app.py:797-861 | a three-row file for a mapped stem is imported with three questions, the second made from the "A,C" row |

## Left out

- Flask routing, templates, `flash` messages, `session`, `jsonify`, redirects other than
  the payment redirect, and login handling. These are HTTP glue.
- Password hashing, the OTP stub, the payment form and the home-page JSON state. These
  are foreign library calls, stubs or JSON serialisation.
- `os.walk`, the `.csv` name filter, `open` and `csv.DictReader`. The import takes
  already-parsed files: a path and a sequence of rows, each row a map from column to
  optional cell.
- All `print` reporting of the import, including the printed category breakdown. The
  grouping it prints is modelled by `Importer.GroupByCategory`.
- Database transactions and exceptions other than a missing required cell. An I/O error
  or a failing commit is not modelled; a row without a required cell (`KeyError`, or
  `None.strip()`) is the exception path, and the rollback restores a snapshot.
- Question ids, which the database assigns. Importing a file again would give the same
  questions with new ids; the model's questions carry no id.
- Tie order of `ORDER BY`, which SQL leaves open. The model sorts stably.
- The import looks up quizzes with `filter_by(title).first()`. The model keys the catalog
  by title, so it cannot express two stored quizzes with one title.
- A whole import creates every new quiz with the same `now`. In the source, each created
  quiz's `created_at` is taken from the clock when that quiz is flushed (app.py:84,
  829-830).
- That the 24 titles of the mapping table are distinct is not proved. The import lemmas
  take the table as a parameter and hold for any table.
- Progress.BestPercentage: computes `best * 100` truncated-divided by the question count
  in exact integer arithmetic. The source computes `int((best / count) * 100)` in
  floating point, which can come out one lower (29 of 100 gives 28).
- Progress.ProgressPage: the overall percentage is an exact `real` quotient. The source
  uses a floating-point division.
- Progress.ProgressLog.Submit: the JSON payload is modelled as integers. `quiz_id`,
  `score` and `total` are optional integers, so of the values `not quiz_id` rejects only a
  missing id and 0 occur; strings, booleans and floats in the payload are not modelled.
- QuizData.Shuffle: states only that the result is a permutation. It does not state that
  the draws are uniform.
- verify_database.py and import_quizzes.py are not part of this model. They are console
  scripts that count and print.

## Findings

| source | as written | input that shows it | evidently intended | confidence | as-written member | corrected member |
|---|---|---|---|---|---|---|
| app.py:537-544 | the `else:` belongs to the `for` loop, so it runs once after the loop and `single_answer_count` is always 1 | a quiz of two single-answer questions reports 1 single-answer question | `else` under the `if`, so the two counts split the questions | not executed | QuizData.ForElseMiscount | QuizData.CountKinds |
| app.py:417-420 | `completed_quizzes` counts the user's progress records, so repeated attempts of one quiz count again | two attempts of the only listed quiz show 200 percent | count the listed quizzes the user has attempted, so the figure stays within 0..100 | not executed | Progress.ProgressCanExceedHundred | Progress.ProgressIntendedBounded |
