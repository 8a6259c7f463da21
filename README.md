# NounPaddi core, modelled in Dafny

NounPaddi is a learning portal: students take course quizzes, see leaderboards,
keep reading reminders, apply for IT placements and hand in final-year projects,
which are checked for plagiarism. This project models the logic behind those
features. That covers the Express controllers and their Mongoose documents, the
plagiarism checkers, the quiz-text parser, the PDF text cleaners, the cache helper
and the front-end transformers. The model is Dafny 4.11, one module per source file.

- `ProjectModel`, `ProjectPlagiarism` and `ProjectLifecycle` cover the project
  submission. `ProjectModel` is the document and its report. `ProjectPlagiarism`
  is the project plagiarism checker: the database comparison, the weighted
  overall score, the verdict bands and the assembled report. `ProjectLifecycle`
  is the controller over a collection of documents: DRAFT, then the check
  (PENDING, CHECKING, then the verdict or FAILED), then finalizing, review and
  deletion.
- `DuplicateCheck` and `SubmissionStore` cover the assignment plagiarism check.
  `DuplicateCheck` compares text against previous submissions. `SubmissionStore`
  is the in-memory per-assignment store that its endpoints keep.
- `QuizParser` reads generated quiz text into question records. It also holds the
  sentence-based fallback generator. `QuestionTransformer` is the front end's
  mixer. It turns multiple-choice questions into true/false and multi-select
  questions. `QuestionBank` is the question listing and answer check.
- `Leaderboard` is the course leaderboard and a student's rank.
- `PdfParser` and `PdfHelper` are the two PDF text cleaners and the section
  extractor.
- `SummaryFormat` covers the summary formatter and splitter. `DateHelper` covers
  the date helpers. `Cache` is the read-through cache helper.
- `ItPlacement` is the IT placement application registry. `ReadingReminders` is
  the per-user reminder store.
- `JsText`, `JsRegex` and `Sorting` are shared helpers. `JsText` holds JavaScript
  `trim`, `includes`, `split`, `parseInt` and number-to-text. `JsRegex` holds the
  white-space replacements. `Sorting` holds a stable sort with a strict weak
  order, which is how `Array.prototype.sort` behaves.

A handler that saves a document mutates state, so it is a method of a class
(`ProjectStore`, `Registry`, `Store`) that holds the collection as a sequence or
map. Its `ensures` give the whole new state, and lemmas prove what the
application promises about it. An algorithm with a loop is written as a method
with loop invariants. Examples are Fisher-Yates on an array, the option loop, the
section splitter and the pattern invalidation. Each such method is proved equal
to a specification function. A pure helper is written as a function with lemmas.
Several things become parameters:

- `Math.random()` draws;
- the clock;
- the language-model replies;
- the web search;
- locale rendering;
- the ids of new documents.

The model follows the code as written, except that arithmetic is exact where the
code computes in floating point (see `ProjectPlagiarism.OverallScore` under
"## Left out"). For example, `determinePlagiarismVerdict`
(backend/utils/projectPlagiarismChecker.js:397-448) puts its verdict bands at 70, 45
and 25, and so does the model. Where the code departs from what it evidently
intends, the operations still follow the code, and a corrected definition stands
beside them (see "## Findings").

## Model

| member | source | states |
|---|---|---|
| ProjectPlagiarism.Candidates | backend/utils/projectPlagiarismChecker.js:73-77 | exactly the other students' handed-in projects, in collection order |
| ProjectPlagiarism.ToCheck | backend/utils/projectPlagiarismChecker.js:86 | at most ten projects are compared: the first candidates, and all of them when there are fewer than ten |
| ProjectPlagiarism.CheckAgainstDatabase | backend/utils/projectPlagiarismChecker.js:70-146 | the comparison loop's matches, their sort by similarity and the highest similarity equal the database-check function |
| ProjectPlagiarism.DatabaseCheckProperties | backend/utils/projectPlagiarismChecker.js:86-140 | at most 10 matches; each comes from a candidate and scores at least 30; matches are in descending similarity; the highest similarity is the top match's score, at least every match's score, or 0 when there is none (completeness is DatabaseCheckComplete) |
| ProjectPlagiarism.DatabaseCheckComplete | backend/utils/projectPlagiarismChecker.js:88-133 | every one of the first ten candidates whose score is at least 30 appears among the matches with that score |
| ProjectPlagiarism.OverallScore | backend/utils/projectPlagiarismChecker.js:369-388 | the score is in 0..100; it is 0 iff the weighted sum 0.4·database + 0.35·(100 − originality) + 0.25·web is below 0.5, 100 iff it is at least 99.5, and otherwise the sum rounded half up; the sum is exact, not the double sum of the source (see "## Left out") |
| ProjectPlagiarism.OverallScoreMonotoneInDatabase | backend/utils/projectPlagiarismChecker.js:377-385 | a higher database similarity never lowers the overall score |
| ProjectPlagiarism.OverallScoreMonotoneInWeb | backend/utils/projectPlagiarismChecker.js:377-385 | a higher web plagiarism score never lowers the overall score |
| ProjectPlagiarism.OverallScoreAntitoneInOriginality | backend/utils/projectPlagiarismChecker.js:377-385 | a higher originality score (1..100) never raises the overall score |
| ProjectPlagiarism.OverallScoreFallbacks | backend/utils/projectPlagiarismChecker.js:377-379 | a missing or zero originality score counts as 50, and a missing web score counts as 0 |
| ProjectPlagiarism.DeterminePlagiarismVerdict | backend/utils/projectPlagiarismChecker.js:393-456 | PLAGIARIZED iff the score is at least 70; SUSPICIOUS iff it is 25..69, with the manual-review message iff 45..69 and the moderate message iff 25..44; ORIGINAL iff below 25; always four recommendations and a non-empty message |
| ProjectPlagiarism.VerdictMonotone | backend/utils/projectPlagiarismChecker.js:397-448 | a higher score never gives a milder verdict |
| ProjectPlagiarism.BandOf | backend/utils/projectPlagiarismChecker.js:397-448 | the status band, message and recommendations for a score: the status is PLAGIARIZED, SUSPICIOUS or ORIGINAL exactly on the score ranges 70.., 25..69 and below 25, with four recommendations and a non-empty message |
| ProjectPlagiarism.CheckProjectPlagiarism | backend/utils/projectPlagiarismChecker.js:18-65 | the check throws exactly when one of the language-model analyses is missing; otherwise it returns the report assembled from the three analyses |
| ProjectPlagiarism.ReportProperties | backend/utils/projectPlagiarismChecker.js:37-47 | the report's score is in 0..100, PLAGIARIZED iff it is at least 70, ORIGINAL iff it is below 25; four recommendations; the database matches and the web sources are carried unchanged |
| ProjectPlagiarism.FallbacksAloneAreModerate | backend/utils/projectPlagiarismChecker.js:249-363 | with both analysis fallbacks and no database match the score is 30, SUSPICIOUS with moderate concerns |
| ProjectPlagiarism.FallbacksNeverOriginal | backend/utils/projectPlagiarismChecker.js:249-363 | with both analysis fallbacks the verdict is never ORIGINAL, whatever the database similarity |
| ProjectLifecycle.SubmitGuard | backend/controllers/projectSubmissionController.js:59-78 | 400 iff a required field is missing or the student already has a handed-in project for the course; 500 iff otherwise the title is blank after the schema's trim; 201 otherwise |
| ProjectLifecycle.NewProject | backend/controllers/projectSubmissionController.js:81-92 | a new project is a DRAFT with a PENDING report, owned by the caller, with the trimmed title and no submission time |
| ProjectLifecycle.ProjectStore.SubmitProject | backend/controllers/projectSubmissionController.js:55-107 | the guard's code; on 201 exactly one new project is appended with a fresh id, otherwise nothing changes |
| ProjectLifecycle.CheckGuard | backend/controllers/projectSubmissionController.js:126-131 | 200 iff the caller owns the project or is an admin, otherwise 403 |
| ProjectLifecycle.ProjectStore.CheckPlagiarism | backend/controllers/projectSubmissionController.js:112-194 | 404 for an unknown id, 403 unless owner or admin; a stored submission status outside the enumeration, or null, fails the first `save`, so the report becomes FAILED with 500 and the checker does not run; otherwise the report is set to CHECKING and the checker runs on that collection; only the target changes: its report is the checker's result merged in, or FAILED with 500 when the checker throws |
| ProjectLifecycle.MergeReport | backend/controllers/projectSubmissionController.js:146-155 | the check's fields replace the stored ones and every other report field keeps its value |
| ProjectLifecycle.FinalizeGuard | backend/controllers/projectSubmissionController.js:257-279 | 403 iff another student; 200 iff it is the owner and the report is neither PENDING, CHECKING nor PLAGIARIZED |
| ProjectLifecycle.ProjectStore.FinalizeSubmission | backend/controllers/projectSubmissionController.js:243-298 | once the guards pass, the target becomes SUBMITTED at `now` and every other project is unchanged |
| ProjectLifecycle.ProjectStore.ReviewProject | backend/controllers/projectSubmissionController.js:362-397 | admins only; 404 for an unknown project; the target gets the given status text, even one outside the enumeration, the given notes and the reviewer; a status or notes missing from the request are stored as null; nothing else changes |
| ProjectModel.StatusOfText | backend/models/ProjectSubmission.js:75-79 | a stored status text passes the enum validator exactly when it is in the enumeration; any other text is kept as an unlisted text, never as null |
| ProjectModel.StatusTextRoundTrip | backend/models/ProjectSubmission.js:75-79 | reading a text as a status and writing it back gives the same text, and every status that passes the enum validator reads back as itself |
| ProjectLifecycle.DeleteGuard | backend/controllers/projectSubmissionController.js:416-428 | 200 iff the owner deletes a DRAFT; 403 iff another student |
| ProjectLifecycle.ProjectStore.DeleteProject | backend/controllers/projectSubmissionController.js:402-444 | once the guards pass, exactly the target is removed and the rest keep their order |
| ProjectLifecycle.FinalizeBlocksOnlyUnfinishedOrPlagiarized | backend/controllers/projectSubmissionController.js:265-279 | for its owner, finalizing is refused iff the check is pending, running or PLAGIARIZED; a FAILED check does not block it |
| ProjectLifecycle.NewProjectNeedsCheck | backend/controllers/projectSubmissionController.js:265-271 | a freshly created project (lines 81-92) cannot be finalized but can be deleted by its owner (lines 423-430) |
| ProjectLifecycle.CheckedStatusIsVerdict | backend/controllers/projectSubmissionController.js:146-155 | after a completed check the stored status is the verdict band of the stored score, never PENDING |
| ProjectLifecycle.ReviewWithoutStatusUnblocks | backend/controllers/projectSubmissionController.js:367-375 | a review without a status stores null, after which the handed-in project no longer blocks a second project for its course (lines 67-78) |
| ProjectLifecycle.HandedInBlocksResubmission | backend/controllers/projectSubmissionController.js:67-78 | once a project for a course is handed in, a second one for that course is refused with 400 |
| DuplicateCheck.Collect | backend/utils/plagiarismChecker.js:113-126 | fails iff some comparison fails; otherwise at most one match per previous submission, each scoring at least 41 and built from its own submission, and every submission scoring at least 41 is among them |
| DuplicateCheck.CheckAgainstSubmissions | backend/utils/plagiarismChecker.js:109-146 | the comparison loop and the sort equal the submissions-check function |
| DuplicateCheck.SubmissionsCheckProperties | backend/utils/plagiarismChecker.js:116-140 | every previous submission is counted; only scores of 41 or more are reported, highest first; the highest match is the first one, or null without matches; PLAGIARIZED iff the top score is at least 61, SUSPICIOUS iff there are matches below that, ORIGINAL iff there are none |
| DuplicateCheck.SubmissionsCheckComplete | backend/utils/plagiarismChecker.js:116-125 | every previous submission scoring 41 or more is reported |
| DuplicateCheck.CollectFailurePropagates | backend/utils/plagiarismChecker.js:142-145 | once a comparison fails (lines 53-56), the whole check fails with that error |
| DuplicateCheck.DetermineFinalVerdict | backend/utils/plagiarismChecker.js:178-188 | PLAGIARIZED iff the database says PLAGIARIZED or the web says LIKELY_COPIED; NEEDS_REVIEW iff neither, but the database says SUSPICIOUS or the web NEEDS_REVIEW; ORIGINAL otherwise |
| DuplicateCheck.ComprehensiveCheck | backend/utils/plagiarismChecker.js:154-173 | the report equals the comprehensive-check function of the previous submissions, the comparisons, the web answer and the clock |
| DuplicateCheck.ComprehensiveProperties | backend/utils/plagiarismChecker.js:156-168 | fails iff the web check or some comparison fails; with no previous submissions the database half is ORIGINAL with 0 checked; the final verdict combines the two halves |
| DuplicateCheck.NoPreviousVerdict | backend/utils/plagiarismChecker.js:157-188 | with no previous submissions the final verdict is ORIGINAL iff the web verdict is neither LIKELY_COPIED nor NEEDS_REVIEW |
| SubmissionStore.StatsOf | backend/controllers/plagiarismController.js:122-149 | the count is the stored list's length (0 for an unknown assignment), and each summary keeps the text length of its submission |
| SubmissionStore.Store.CheckPlagiarism | backend/controllers/plagiarismController.js:14-57 | 400 and no change without text or assignment; otherwise the check runs against the assignment's list, and an ORIGINAL verdict appends the submission to that list only |
| SubmissionStore.Store.Clear | backend/controllers/plagiarismController.js:154-174 | exactly the assignment's entry is dropped |
| SubmissionStore.StoreAddsOne | backend/controllers/plagiarismController.js:126-132 | storing (lines 33-42) adds one to that assignment's count and leaves every other assignment's stats alone |
| SubmissionStore.ClearIsFinal | backend/controllers/plagiarismController.js:158-160 | after clearing, the assignment reports zero submissions, clearing again changes nothing, and others are untouched |
| QuizParser.FormatQuestionsToMCQ | backend/utils/aiHelper.js:435-574 | the block and line loops yield exactly the questions of the parse function |
| QuizParser.ParseEachBlock | backend/utils/aiHelper.js:444-545 | the `forEach` over the question blocks collects exactly the questions the parse function gives for the blocks |
| QuizParser.AppendParsedBlock | backend/utils/aiHelper.js:445-541 | one block of the `forEach`: the questions so far grow to those of the blocks up to and including this one |
| QuizParser.ParseBlockLines | backend/utils/aiHelper.js:446-543 | the field-by-field reading of one block equals the block parse function |
| QuizParser.ExtractOptions | backend/utils/aiHelper.js:465-472 | the options are the texts of the lines whose trimmed form starts with `A)`..`D)`, in line order, with the marker removed only where the untrimmed line starts with it |
| QuizParser.TypeOf | backend/utils/aiHelper.js:456-461 | true-false iff the Type line mentions it; otherwise multi-select iff it mentions that; otherwise multiple-choice |
| QuizParser.AnswerOf | backend/utils/aiHelper.js:475-515 | a multi-select answer is a non-empty list of indices in 0..3, any other answer one index in 0..3, with fallbacks [0] and 0 when the line is missing |
| QuizParser.DifficultyCases | backend/utils/aiHelper.js:525-530 | easy iff the line mentions easy; hard iff it mentions hard but not easy; medium iff the line is missing or mentions neither |
| QuizParser.ParseProperties | backend/utils/aiHelper.js:438-573 | missing or empty text yields no questions, and every parsed question has the option count its type requires and an answer in range |
| QuizParser.ParseBlocksWellFormed | backend/utils/aiHelper.js:533-543 | every question parsed from any sequence of blocks is well formed |
| QuizParser.TooFewOptionsDropped | backend/utils/aiHelper.js:533-543 | a block with fewer options than its type requires yields no question |
| QuizParser.IndentedOptionKeepsMarker | backend/utils/aiHelper.js:469-470 | as written, the indented option line " A) x" keeps its marker ("A) x"); the corrected text is "x" |
| QuizParser.OptionTextOfIndentedLine | backend/utils/aiHelper.js:469-470 | on any line indented by white space, the corrected text is the trimmed text after the marker, while the code as written keeps the marker |
| QuizParser.OptionTextAgreesUnindented | backend/utils/aiHelper.js:469-470 | on a line that starts with its marker, the code as written and the corrected option text agree |
| QuizParser.Sentences | backend/utils/aiHelper.js:418 | every sentence match starts with a non-terminator and ends with one of `.`, `!`, `?` |
| QuizParser.SimpleQuestionFor | backend/utils/aiHelper.js:423-428 | a sentence yields a question iff its trimmed text is longer than 20 characters, made from the trimmed text |
| QuizParser.SimpleQuestionsFromLongSentences | backend/utils/aiHelper.js:423-428 | every simple question is built from the trimmed text of a sentence longer than 20 characters |
| QuizParser.GenerateSimpleQuestions | backend/utils/aiHelper.js:417-432 | at most ten questions: one per long sentence among the first ten sentences, in order |
| QuizParser.AskFirstTen | backend/utils/aiHelper.js:422-429 | the loop yields at most ten questions: the simple questions of the first ten sentences (all of them when there are fewer), in order |
| QuizParser.AppendSimpleQuestion | backend/utils/aiHelper.js:423-428 | one turn of the loop: the questions of the sentences before `i` become those of the sentences up to and including `i` |
| QuestionTransformer.ShuffleArray | frontend/src/utils/questionTransformer.js:162-169 | the in-place swap loop leaves the array in the Fisher-Yates order of its old contents |
| QuestionTransformer.FisherYatesPermutes | frontend/src/utils/questionTransformer.js:162-169 | whatever the draws, the shuffle is a permutation: the same multiset of elements |
| QuestionTransformer.ShuffleQuestions | frontend/src/utils/questionTransformer.js:162-169 | a shuffled copy with the same multiset of questions |
| QuestionTransformer.ConvertToTrueFalse | frontend/src/utils/questionTransformer.js:9-51 | without a usable correct option, the question stays multiple-choice; otherwise a true statement with answer 0, or a false one quoting another option with answer 1, with options True and False |
| QuestionTransformer.MultiSelectOf | frontend/src/utils/questionTransformer.js:74-93 | with at least three options and both picks present and non-empty, the question becomes multi-select with the two indices in the default sort's string order; otherwise it stays multiple-choice |
| QuestionTransformer.ConvertToMultiSelect | frontend/src/utils/questionTransformer.js:56-94 | the retry loop settles on the first draw that is not the correct answer, then converts with it |
| QuestionTransformer.MultiSelectAnswer | frontend/src/utils/questionTransformer.js:65-90 | a multi-select answer holds the correct answer and the second pick as two distinct in-range indices; they are ascending when there are at most ten options |
| QuestionTransformer.LexSortMisordersTen | frontend/src/utils/questionTransformer.js:74 | as written, the default string sort orders the indices 2 and 10 as [10, 2] |
| QuestionTransformer.LexSortAgreesBelowTen | frontend/src/utils/questionTransformer.js:74 | below ten options the string sort agrees with the ascending numeric pair |
| QuestionTransformer.ShufflePositions | frontend/src/utils/questionTransformer.js:112-116 | the positions 0..n-1 shuffled by the Fisher-Yates loop |
| QuestionTransformer.ChooseTypePositions | frontend/src/utils/questionTransformer.js:107-120 | the true/false positions are the first floor(0.3 n) shuffled positions and the multi-select ones the next floor(0.1 n) |
| QuestionTransformer.TypeIndexSets | frontend/src/utils/questionTransformer.js:107-120 | the two position sets are disjoint, in range, and of sizes floor(0.3 n) and floor(0.1 n) |
| QuestionTransformer.TransformAt | frontend/src/utils/questionTransformer.js:122-154 | the body of the loop for one question equals the one-question transformation |
| QuestionTransformer.TransformQuestions | frontend/src/utils/questionTransformer.js:100-157 | same length; each output position is the transformation of the same input position |
| QuestionTransformer.TransformOneTypes | frontend/src/utils/questionTransformer.js:122-154 | an output that turned true/false or multi-select from another type was chosen for that type |
| QuestionTransformer.TransformConvertsAtMost | frontend/src/utils/questionTransformer.js:107-154 | at most floor(0.3 n) questions become true/false and at most floor(0.1 n) multi-select |
| QuestionTransformer.GetBalancedQuestions | frontend/src/utils/questionTransformer.js:174-177 | the result is a shuffle of a transformed list of the same length |
| QuestionTransformer.HalfIndicesSize | frontend/src/utils/questionTransformer.js:186-195 | floor(n / 2) chosen positions, all in range |
| QuestionTransformer.ConvertHalfToTrueFalse | frontend/src/utils/questionTransformer.js:182-217 | empty input gives empty output; otherwise the chosen convertible questions are converted and the whole list shuffled |
| QuestionTransformer.HalveEach | frontend/src/utils/questionTransformer.js:197-214 | the `forEach` yields, position by position, the converted or kept question of the conversion function |
| QuestionTransformer.HalveAt | frontend/src/utils/questionTransformer.js:198-213 | one question is converted to true/false exactly when it is convertible and its index was chosen; otherwise it is kept with its type defaulted |
| QuestionTransformer.HalfConvertsAtMost | frontend/src/utils/questionTransformer.js:197-214 | only chosen questions with an answer and four options become true/false, at most floor(n / 2) of them |
| QuestionBank.QuestionsByCourse | backend/controllers/questionController.js:6-29 | the course's questions in order, with their id, text, options and difficulty, and the count |
| QuestionBank.ListingCountsCourse | backend/controllers/questionController.js:8-21 | the count is the number of the course's questions, and every one of them is listed without its answer |
| QuestionBank.CheckAnswer | backend/controllers/questionController.js:34-62 | not found iff the id is unknown; otherwise correct iff `parseInt` of the submitted text is the stored answer, with the stored answer and its option text |
| QuestionBank.CheckNumericAnswer | backend/controllers/questionController.js:46 | submitting a number as its decimal text is correct iff it is the stored answer |
| QuestionBank.CheckAnswerReadsLeadingNumber | backend/controllers/questionController.js:46 | the text " 2x" is judged correct for stored answer 2, as `parseInt` reads it |
| QuestionBank.FindQuestion | backend/controllers/questionController.js:39-44 | the question found has the requested id, and none is found only when no question has it |
| Leaderboard.EntryOrderIsWeakOrder | backend/controllers/leaderboardController.js:48-83 | the leaderboard order (score down, then time up) is a strict weak order, so the stable sort is well defined |
| Leaderboard.BestIn | backend/controllers/leaderboardController.js:47-62 | a student's best attempt is one of their results and no other result of theirs is ahead of it |
| Leaderboard.Entries | backend/controllers/leaderboardController.js:53-71 | one entry per student that has a user record, built from that student's best attempt; students without a user record are dropped |
| Leaderboard.CourseLeaderboard | backend/controllers/leaderboardController.js:39-104 | fails iff the limit is not a positive integer; otherwise the ranked list of the course's best attempts |
| Leaderboard.BoardIsRankedPrefix | backend/controllers/leaderboardController.js:83-91 | the board is the first `limit` entries of the sorted entries, ranked 1, 2, 3 … |
| Leaderboard.LeaderboardShape | backend/controllers/leaderboardController.js:42-91 | at most `limit` entries (100 when the query has none), ranked 1, 2 … in list order, in leaderboard order, each student at most once |
| Leaderboard.LeaderboardBestAttempts | backend/controllers/leaderboardController.js:47-62 | every entry carries its student's best result for the course, and the student has a user record |
| Leaderboard.LeaderboardComplete | backend/controllers/leaderboardController.js:45-85 | a board shorter than its limit lists every student of the course who has a user record |
| Leaderboard.MyRank | backend/controllers/leaderboardController.js:132-200 | no rank iff the student has no result in the course; otherwise one plus the number of students whose best result is ahead |
| Leaderboard.RankBounds | backend/controllers/leaderboardController.js:181 | a rank is at least 1 and at most the number of students of the course, and it is 1 iff nobody is ahead |
| Leaderboard.RankOrder | backend/controllers/leaderboardController.js:152-181 | a student whose best attempt is ahead of another's has a smaller rank |
| Sorting.SortSorted | backend/controllers/leaderboardController.js:83 | the stable sort's output is sorted and a permutation of its input |
| Sorting.SortOfSorted | backend/utils/plagiarismChecker.js:140 | an already-sorted list is left as it is |
| PdfParser.CleanPdfTextShape | backend/utils/pdfParser.js:31-44 | the cleaned text has no line break or tab (its only white space is the space), is trimmed, and is no longer than the input |
| PdfParser.CleanPdfTextWithoutDigits | backend/utils/pdfParser.js:29-45 | on text without digits, the cleaner is the white-space collapse followed by trim |
| PdfParser.RemovePageMarkersWithoutDigits | backend/utils/pdfParser.js:34 | without digits no "Page n" marker is removed |
| PdfParser.DropDigitLinesSingleLine | backend/utils/pdfParser.js:35 | on one line, `/^\d+$/gm` removes the line only when it is all digits |
| PdfParser.DropLine | backend/utils/pdfParser.js:35 | `/^\d+$/gm` treats the text line by line: a line is emptied exactly when it is a non-empty digit string, its terminator is kept, and the rest is handled on its own |
| PdfParser.NormalizeBreaksIdentity | backend/utils/pdfParser.js:38-42 | after the white-space collapse the line-break passes change nothing |
| PdfParser.NumberLineSurvives | backend/utils/pdfParser.js:31-35 | as written, a page-number line survives: for any digit d between two plain characters a and b (not white space, digits or "p"), "a\nd\nb" cleans to "a d b", because the newlines were already collapsed |
| PdfParser.CleanByLinesDropsNumberLines | backend/utils/pdfParser.js:31-35 | in the corrected order, text whose every line is a number or free of digits leaves no digit in the cleaned text |
| PdfParser.NumberLineDropped | backend/utils/pdfParser.js:31-35 | in the corrected order the same samples keep no digit |
| PdfParser.ExtractProjectSections | backend/utils/pdfParser.js:52-77 | the full text is returned unchanged beside the title and the abstract |
| PdfParser.TitleShape | backend/utils/pdfParser.js:60-65 | the title is at most 200 characters, holds no newline, and is empty iff the whole text is white space |
| PdfParser.AbstractShape | backend/utils/pdfParser.js:68-74 | the abstract is at most 1000 characters: the trimmed captured group when the pattern matches, otherwise the first 500 characters |
| PdfParser.AbstractGroup | backend/utils/pdfParser.js:68 | the pattern matches iff a group is captured, and the group is 100 to 1000 characters long |
| PdfParser.AbstractWithoutWord | backend/utils/pdfParser.js:71-74 | text without the word "abstract" in any letter case gets its first 500 characters as the abstract |
| PdfParser.AbstractOfShortText | backend/utils/pdfParser.js:71-74 | text shorter than 108 characters cannot match, so it gets its first 500 characters |
| PdfHelper.CleanExtractedShape | backend/utils/pdfHelper.js:5-19 | the cleaned text is no longer than the input, trimmed, holds no newline, has the space as its only white space and never two white-space characters in a row; absent text gives "" |
| PdfHelper.CleanWithoutDigits | backend/utils/pdfHelper.js:8-16 | on text without digits, the cleaner is the white-space collapse then trim |
| PdfHelper.RemoveNumbersWithoutDigits | backend/utils/pdfHelper.js:14 | with no digit, no standalone number is removed |
| PdfHelper.RemoveNumbersSingleSpaced | backend/utils/pdfHelper.js:14 | removing standalone numbers never creates a double space |
| JsRegex.CollapseWsSingleSpaced | backend/utils/pdfHelper.js:12 | `replace(/\s+/g, ' ')` leaves no two white-space characters in a row |
| JsText.ParseIntOfIntToString | backend/controllers/questionController.js:46 | `parseInt` of an integer's decimal text gives that integer back |
| SummaryFormat.FormatPlainLine | frontend/src/utils/formatSummary.js:5-20 | a line without `*`, `_` or backticks is only trimmed |
| SummaryFormat.PlainUnchanged | frontend/src/utils/formatSummary.js:10-18 | each marker replacement leaves text without markers alone |
| SummaryFormat.FormatRemovesBoldAndCode | frontend/src/utils/formatSummary.js:10-18 | `**w**`, `__w__` and `` `w` `` format to `w` |
| SummaryFormat.FormatRemovesItalic | frontend/src/utils/formatSummary.js:14-15 | `*w*` and `_w_` format to `w` |
| SummaryFormat.SplitSummary | frontend/src/utils/formatSummary.js:26-62 | the loop over the lines gives the same sections as the splitter function |
| SummaryFormat.TakeLine | frontend/src/utils/formatSummary.js:33-55 | one line of the `forEach`: a header saves a non-empty current section and opens one with the trimmed title, a non-blank line is appended to the content with a newline between, a blank line changes nothing |
| SummaryFormat.SectionsShape | frontend/src/utils/formatSummary.js:27-59 | no sections for missing or empty text; every section has a title or content; at most one section per header line plus one; the content lines of all sections, in order, are exactly the lines that are neither blank nor headers |
| SummaryFormat.HeaderTitle | frontend/src/utils/formatSummary.js:37 | a captured header title is a non-empty suffix of the line |
| SummaryFormat.HeaderLineTitle | frontend/src/utils/formatSummary.js:37-49 | on a line of 1 to 6 `#`, white space and a title, the header pattern captures exactly that title |
| DateHelper.FormatDate | frontend/src/utils/dateHelper.js:5-29 | "N/A" for a falsy date, "Invalid Date" for an unparsable one, otherwise the locale rendering |
| DateHelper.FormatDateTime | frontend/src/utils/dateHelper.js:34-55 | the same guards around the rendering with the time |
| DateHelper.Guards | frontend/src/utils/dateHelper.js:6-61 | all three helpers answer "N/A" and "Invalid Date" the same way |
| DateHelper.BucketRanges | frontend/src/utils/dateHelper.js:72-84 | just now iff under a minute (future dates included); minutes 1..59, hours 1..23 and days 1..6, each the floor of the difference by its unit; from seven days the absolute date |
| DateHelper.JustNowUnderAMinute | frontend/src/utils/dateHelper.js:72-78 | under a minute, or in the future, the text is "Just now" |
| DateHelper.AgoInBetween | frontend/src/utils/dateHelper.js:79-84 | from a minute to a week, the text is the floor count of the largest unit that fits, then the unit and "ago" |
| DateHelper.AgoPlural | frontend/src/utils/dateHelper.js:80-84 | the unit takes an "s" iff the count is not 1 |
| DateHelper.AgoReadsBack | frontend/src/utils/dateHelper.js:80-84 | `parseInt` of the relative text gives back its count |
| DateHelper.OldDatesAbsolute | frontend/src/utils/dateHelper.js:85-87 | from seven days on the result is `formatDate` of the date |
| Cache.GetOrSetSpec | backend/utils/cache.js:38-61 | a hit iff the key is present, returning the stored value and leaving the cache alone; a miss stores and returns the fetched value; other keys keep their values |
| Cache.Store.GetOrSet | backend/utils/cache.js:38-61 | the value, hit flag and new entries are those of the specification |
| Cache.GetOrSetTwice | backend/utils/cache.js:41-55 | a second call for the same key is a hit that returns the first call's value |
| Cache.Store.Invalidate | backend/utils/cache.js:68-71 | exactly the key is deleted |
| Cache.InvalidateExact | backend/utils/cache.js:68-71 | the key is gone and every other entry keeps its value |
| Cache.InvalidateThenMiss | backend/utils/cache.js:41-70 | after invalidation the next call for the key is a miss returning the fresh value |
| Cache.Store.InvalidatePattern | backend/utils/cache.js:78-87 | exactly the matching keys are deleted, and their number is returned |
| Cache.MatchingKeys | backend/utils/cache.js:79-83 | the filtered keys are exactly the cache keys that match the pattern |
| Cache.Store.DeleteEach | backend/utils/cache.js:85 | exactly the given keys are deleted |
| Cache.InvalidatePatternExact | backend/utils/cache.js:78-87 | what remains is exactly the non-matching keys with their old values |
| Cache.PrefixPattern | backend/utils/cache.js:81-82 | a key matches `prefix*` iff it contains the prefix |
| Cache.Store.Clear | backend/utils/cache.js:93-96 | every entry is dropped |
| ItPlacement.Registry.Apply | backend/controllers/itPlacementController.js:7-83 | refused, with nothing stored, while the student has an active application; a form missing a required field or with a value outside an enumeration (backend/models/ITPlacement.js:10-101) is rejected with nothing stored; otherwise exactly one new Pending application is appended |
| ItPlacement.ApplyKeepsOneActive | backend/controllers/itPlacementController.js:32-42 | applying keeps at most one active application per student |
| ItPlacement.NewApplication | backend/models/ITPlacement.js:109-113 | a new application from a valid track and study centre is Pending, active and fit to store, with no review or placement time |
| ItPlacement.Registry.UpdateStatus | backend/controllers/itPlacementController.js:145-186 | 404 for an unknown id; a status outside the enumeration fails validation and changes nothing; otherwise only the target changes, to its revised fields |
| ItPlacement.RevisedFields | backend/controllers/itPlacementController.js:158-171 | each given field replaces the stored one (trimmed) and an empty one keeps it; the review time changes only for Under Review and the placement time only for Placed; owner, track, centre and creation time never change |
| ItPlacement.KeepOrReplace | backend/controllers/itPlacementController.js:158-161 | `x \|\| old` after the trim setter: empty keeps the old value |
| ItPlacement.RevisedStored | backend/controllers/itPlacementController.js:158-173 | a revised, stored application stays storable |
| ItPlacement.EmptyUpdateChangesNothing | backend/controllers/itPlacementController.js:158-161 | an update with no fields gives back the same application |
| ItPlacement.ReactivationAllowsTwoActive | backend/controllers/itPlacementController.js:158 | the status update does not check the one-active rule of lines 32-35, so an admin can give a student two active applications |
| ItPlacement.ListingShape | backend/controllers/itPlacementController.js:108-140 | an absent page is 1 and an absent limit 20; the page holds only matching applications, at most `limit`, newest first, taken from the sorted matches at offset (page − 1)·limit; the total counts all matches and the page count is the ceiling of total / limit |
| ItPlacement.Find | backend/controllers/itPlacementController.js:112-117 | exactly the applications matching every given filter of status, track and study centre |
| ItPlacement.NewestFirstShape | backend/controllers/itPlacementController.js:119 | the sorted listing holds the same applications, in non-increasing creation time |
| ItPlacement.PageWithin | backend/controllers/itPlacementController.js:120-121 | a page holds elements of the list it is cut from, and keeps a newest-first list newest first |
| ItPlacement.PageCountBounds | backend/controllers/itPlacementController.js:131 | the page count is the least number of pages of `limit` that covers the total |
| ItPlacement.MyApplicationNewest | backend/controllers/itPlacementController.js:88-103 | the result is the student's own application, there is one whenever the student has any, and none of theirs is newer |
| ReadingReminders.Store.Create | backend/controllers/readingReminderController.js:6-28 | a new active reminder with a fresh id is appended, or a validation failure stores nothing |
| ReadingReminders.NewReminderDefaults | backend/models/ReadingReminder.js:9-26 | a new reminder is active, owned by the caller, titled "Reading Time" when no title is given |
| ReadingReminders.StoredDaysAreWeekdays | backend/models/ReadingReminder.js:14-18 | a stored reminder's days are weekday names |
| ReadingReminders.ListingOwnNewestFirst | backend/controllers/readingReminderController.js:33-49 | the listing is a permutation of exactly the caller's reminders, newest first |
| ReadingReminders.Store.Update | backend/controllers/readingReminderController.js:54-88 | the collection and answer are those of the update specification |
| ReadingReminders.PatchedFields | backend/controllers/readingReminderController.js:70-73 | each given field replaces the stored one and every other field is kept |
| ReadingReminders.EmptyPatchChangesNothing | backend/controllers/readingReminderController.js:70-73 | an update with no fields changes nothing |
| ReadingReminders.Store.Delete | backend/controllers/readingReminderController.js:93-120 | the collection and found flag are those of the delete specification |
| ReadingReminders.DeleteExact | backend/controllers/readingReminderController.js:107 | a delete finds a reminder iff one has that id and owner; it leaves exactly the other reminders, one fewer; and the new collection is the old one with the found position cut out, so the others keep their order |
| ReadingReminders.DeleteMembership | backend/controllers/readingReminderController.js:95-107 | a delete finds a reminder iff one has that id and owner, leaves exactly the other reminders, and removes one when found |
| ReadingReminders.Store.Toggle | backend/controllers/readingReminderController.js:125-153 | the collection and answer are those of the toggle specification |
| ReadingReminders.ToggleTwice | backend/controllers/readingReminderController.js:139 | a toggle of an unknown reminder changes nothing; otherwise it flips `isActive` of the found reminder, keeps that reminder's other fields and every other reminder, and toggling twice restores the collection |
| ReadingReminders.OwnerScoped | backend/controllers/readingReminderController.js:56-137 | update, toggle and delete change nothing and answer "not found" unless the id and the owner both match |
| ReadingReminders.OthersUntouched | backend/controllers/readingReminderController.js:56-137 | another user's reminders survive every update, toggle and delete |
| ReadingReminders.LocateUnique | backend/controllers/readingReminderController.js:56-59 | with unique ids, the lookup finds the reminder with that id and owner |

## Left out

- The language model and the web search are left out. Their replies are parameters: the three project analyses and the pairwise text comparisons of both checkers.
- Mongo, the file system and `pdf-parse` are left out, along with the HTTP requests they serve. Collections are sequences or maps, and new ids come from a counter.
- `Math.random()`, the clock and locale rendering (`toLocaleDateString`) are parameters. The try/catch around the locale call is left out.
- The random questions `formatQuestionsToMCQ` falls back to when nothing parses (backend/utils/aiHelper.js:550-570) are not modelled. An empty result stands for them.
- The e-mail helpers of itPlacementController.js (248-405) are left out. They are I/O, and they catch their own errors.
- Strings are sequences of Unicode scalar values. UTF-16 lengths and surrogate splitting are not modelled, so `length`, `substring` and the cut-offs at 150, 200, 500 and 1000 characters differ from JavaScript on characters outside the Basic Multilingual Plane. There is no Unicode case folding: the `/i` flag folds only ASCII letters.
- Floating point is not modelled. `toFixed` percentages in messages, and scores from the language model, are whole numbers.
- ProjectPlagiarism.OverallScore: the weighted sum is computed exactly, while the source adds `d*0.4 + g*0.35 + w*0.25` in doubles before `Math.round`. When the exact sum ends in .5 the double sum can land just below it, and the source's score is then one point lower than the model's. With no database match, originality 10 and web score 0, the double sum is 31.499999999999996: the source gives 31 and the model 32. The difference can cross a band: database 18, originality 52 and web score 2 give 24 (ORIGINAL) in the source and 25 (SUSPICIOUS) in the model. The monotonicity lemmas are about the exact sum.
- When Mongo's sort keys tie, its order is not modelled. The model keeps the stable order of the collection.
- The test-parser.js sample (backend/test-parser.js:4-51) is not restated as a lemma. Unfolding the parser over that concrete text exceeds the verifier's budget, so the general parse properties are proved instead.
- SummaryFormat.HeaderTitle: it is applied to the trimmed line, as the source does; the header regular expression is not matched against untrimmed text.
- Cache.KeyMatches: the pattern is turned into a regular expression with only its first `*` rewritten. Every other regular-expression metacharacter in a pattern is taken literally.
- Cache.Store.GetOrSet: NodeCache TTL expiry, value cloning and stored `undefined` values are not modelled. The catch path that calls the fetcher again (backend/utils/cache.js:56-60) and `getStats` (103-105) are also left out.
- ItPlacement.PageOf: requires page and limit of at least 1. Non-numeric, NaN or infinite query values are not modelled.
- ItPlacement.ListApplications: a page or limit the query gives must be at least 1; an absent one takes the defaults page 1 and limit 20. The string values of a query are not modelled: `page` and `limit` arrive as numbers.
- ItPlacement.Registry.Apply: the schema validation is the `ValidForm` predicate over the form as given. Casting (a number given for `level`), the `lowercase` setter on `email` and the stored copies of the fields the controller never reads are not modelled. An application's id is its position.
- The application statistics (`getITPlacementStats`) are not modelled. Malformed ids (CastError) are not modelled either.
- QuestionTransformer.ConvertToMultiSelect: requires, for a question with three or more options, that the draws end the retry loop; `transformQuestions` requires it only at the positions where it reaches that loop. A random source that never yields another index does not terminate in the source either.
- ProjectLifecycle.ProjectStore.ReviewProject: the model follows Mongoose 5 and 6, which the code is written for (the `useNewUrlParser` and `useUnifiedTopology` options of backend/config/db.js:15-16, and `mongoose.Types.ObjectId(...)` called without `new` at backend/controllers/leaderboardController.js:46). There an update key left `undefined` is written as null, so a review without a status or notes stores null for it. The enum validator that a later `save` runs over the loaded paths skips only `undefined`, so it rejects a stored null as it rejects an unlisted text. Non-string values in the request are not modelled.
- The index-array correct-answer form that `convertToMultiSelect` produces is kept as a list. Its reading by the answer check is not modelled.
- Promise.all over the analyses is modelled as sequential calls. When every analysis succeeds the result does not depend on order. When several reject, `Promise.all` reports the first rejection in time, while the model reports the first in program order.
- Several handlers are not modelled because they are route wrappers, I/O or reads with no logic of their own:
  - `updateQuestion` and `deleteQuestion` (backend/controllers/questionController.js:67-123);
  - `getMyResults`;
  - `getPlagiarismReport`, `getMyProjects` and `getAllProjects`;
  - `uploadPDF`;
  - `compareTwoTexts`;
  - the `checkWebPlagiarism` route;
  - `extractTextFromPDF`.

## Findings

| source | as written | input that shows it | evidently intended | confidence | as-written member | corrected member |
|---|---|---|---|---|---|---|
| backend/utils/aiHelper.js:469-470 | the option marker is matched on the trimmed line but stripped from the untrimmed one | the option line " A) x" gives the option text "A) x" | the text after the marker, "x" | not executed | QuizParser.IndentedOptionKeepsMarker | QuizParser.OptionText |
| frontend/src/utils/questionTransformer.js:74 | `[correct, second].sort()` compares the indices as strings | 11 options, correct answer 2 and second pick 10 give [10, 2] | the ascending pair [2, 10] | not executed | QuestionTransformer.LexSortMisordersTen | QuestionTransformer.AscendingPair |
| backend/utils/pdfParser.js:31-35 | `/^\d+$/gm` runs after all white space, newlines included, has been collapsed to single spaces, so the text is one line by then and only a number that makes up the whole text is removed ("7" cleans to "") | "a\n7\nb" cleans to "a 7 b" | the page-number line dropped, so no digit is left | not executed | PdfParser.NumberLineSurvives | PdfParser.CleanByLinesDropsNumberLines |

