# Coding-Problems-Platform: a verified model of its scoring and page logic

Coding-Problems-Platform is a teaching site. Authors publish programming
problems with test cases. Students submit Python or C++ solutions, which the
backend runs against the tests and scores. Teachers group problems into
homeworks inside classrooms and follow each student's progress. This project
models the parts of the system that compute something, in Dafny:

- the backend services that score a submission, keep the problem and
  homework link lists in step, and pick each student's best submission per
  problem to total a homework;
- the repository queries those services read from, as filters and sorts
  over an in-memory table;
- the user, classroom and validator services, and entity equality;
- the React pages and dialogs: the test-report colouring, the profile
  statistics, the homework countdown and progress labels, the search
  filters, the selection lists, the forms and their guards, and the
  role-based navigation.

One Dafny module stands for one source file. Backend services and stateful
React components are classes whose methods state their whole new state.
Pure derivations are functions, with lemmas relating them to each other and
to the promises the source makes. Shared modules:

- `Wrappers`: `Option` and the `Outcome` of a Java call (null, a value, or
  an exception);
- `Text`: lower-casing, substring search, trimming, splitting on newlines;
- `Lists`: filters and subsequences;
- `Model`: the backend entities;
- `Dtos`: the frontend's DTO shapes and the browser's stored session;
- `JsMath`: `Math.round` of an exact fraction;
- `Palette`: the colour rules several pages share.

Persistence, HTTP, the clock and randomness are parameters. A repository
is a map or a sequence. A server answer is an argument of the handler that
awaits it. "now" is a number of milliseconds. A `Math.random()` draw is a
real in [0, 1).

## Model

| member | source | states |
|---|---|---|
| HomeworkService.BestByProblem | backend/src/main/java/org/example/backend/business/logic/HomeworkService.java:195-208 | the merge map holds exactly the problems of the visited rows, each mapped to one of that problem's rows |
| HomeworkService.BestIsFirstUnbeaten | backend/src/main/java/org/example/backend/business/logic/HomeworkService.java:200-206 | the kept row is the first row, in visiting order, that no row for its problem beats (higher score, or equal score and strictly later time) |
| HomeworkService.BestHasTopScoreThenLatest | backend/src/main/java/org/example/backend/business/logic/HomeworkService.java:195-208 | the kept row has the highest score of its problem and, among rows with that score, the latest time; with equal score and time the first seen is kept |
| HomeworkService.FindBestSubmissions | backend/src/main/java/org/example/backend/business/logic/HomeworkService.java:193-208 | the merge loop builds exactly the map `BestByProblem` of the query rows |
| HomeworkService.GroupingByUserIsPerUserBest | backend/src/main/java/org/example/backend/business/logic/HomeworkService.java:248-263 | grouping by user first gives each user the same best rows the single-student merge gives from their rows alone |
| HomeworkService.GroupBestSubmissions | backend/src/main/java/org/example/backend/business/logic/HomeworkService.java:246-263 | the nested-map loop builds, for every user, the per-user best map |
| HomeworkService.Chosen | backend/src/main/java/org/example/backend/business/logic/HomeworkService.java:210-219 | the listed rows follow the homework's problem order, one per problem that has a best row |
| HomeworkService.ChosenMembers | backend/src/main/java/org/example/backend/business/logic/HomeworkService.java:210-219 | a row is listed iff it is the best row of one of the homework's problems |
| HomeworkService.CollectBest | backend/src/main/java/org/example/backend/business/logic/HomeworkService.java:210-219 | the totals loop returns the chosen rows and the sum of their scores |
| HomeworkService.TotalIsBounded | backend/src/main/java/org/example/backend/business/logic/HomeworkService.java:210-219 | with scores in 0..100 the total lies in 0..100 per problem and at most one row per problem is listed |
| HomeworkService.NothingCountedMeansEmptyStatus | backend/src/main/java/org/example/backend/business/logic/HomeworkService.java:185-219 | a student with no counted row (always so without a deadline) lists nothing and totals 0 |
| HomeworkService.RosterQueryRestricts | backend/src/main/java/org/example/backend/business/logic/HomeworkService.java:235-247 | restricting the roster query to one student gives that student's own query |
| HomeworkService.RosterRowMatchesStudentView | backend/src/main/java/org/example/backend/business/logic/HomeworkService.java:266-285 | every enrolled student gets in the teacher view exactly the best rows and total of their own view |
| HomeworkService.RemoveAll | backend/src/main/java/org/example/backend/business/logic/HomeworkService.java:90-95 | `removeIf` keeps exactly the other ids and keeps a list free of duplicates |
| HomeworkService.LinkAllExact | backend/src/main/java/org/example/backend/business/logic/HomeworkService.java:107-121 | linking appends the homework once to each named existing problem that lacks it, and touches no other list |
| HomeworkService.UnlinkAllExact | backend/src/main/java/org/example/backend/business/logic/HomeworkService.java:302-307 | unlinking removes the homework from each named problem's list, and touches no other list |
| HomeworkService.LinkAllKeepsNoDuplicates | backend/src/main/java/org/example/backend/business/logic/HomeworkService.java:61-66 | linking never adds a homework to a list that already holds it |
| HomeworkService.UnlinkAllKeepsNoDuplicates | backend/src/main/java/org/example/backend/business/logic/HomeworkService.java:90-95 | unlinking keeps every list free of duplicates |
| HomeworkService.AddKeepsSynced | backend/src/main/java/org/example/backend/business/logic/HomeworkService.java:136-160 | a new homework linked to its problems keeps the two link directions in step |
| HomeworkService.UpdateKeepsSynced | backend/src/main/java/org/example/backend/business/logic/HomeworkService.java:80-134 | re-pointing a homework at a new problem list keeps the two link directions in step |
| HomeworkService.DeleteKeepsSynced | backend/src/main/java/org/example/backend/business/logic/HomeworkService.java:290-320 | after a delete no problem list names the homework and the link directions stay in step |
| HomeworkService.UnlinkFrom | backend/src/main/java/org/example/backend/business/logic/HomeworkService.java:302-307 | the unlink loop computes `UnlinkAll` |
| HomeworkService.LinkNew | backend/src/main/java/org/example/backend/business/logic/HomeworkService.java:56-68 | the create loop keeps the existing requested problems and links the homework to each once; unknown ids are skipped |
| HomeworkService.LinkTo | backend/src/main/java/org/example/backend/business/logic/HomeworkService.java:107-121 | the save loop links every requested problem, or stops at the first unknown one, which throws |
| HomeworkService.KnownProblems | backend/src/main/java/org/example/backend/business/logic/HomeworkService.java:56-68 | the requested problems that exist, in request order |
| HomeworkService.HomeworkStore.GetStatusOfStudentHomework | backend/src/main/java/org/example/backend/business/logic/HomeworkService.java:167-227 | null for an unknown homework or student or a student outside the roster; otherwise the best rows and their total, nothing else changes |
| HomeworkService.HomeworkStore.GetStatusOfStudentsHomework | backend/src/main/java/org/example/backend/business/logic/HomeworkService.java:229-288 | null for an unknown homework; otherwise one line per enrolled student, in roster order, each its best rows and total |
| HomeworkService.HomeworkStore.CreateHomework | backend/src/main/java/org/example/backend/business/logic/HomeworkService.java:43-75 | null for an unknown classroom; otherwise the homework is stored with its existing problems and linked to them, links in step |
| HomeworkService.HomeworkStore.Save | backend/src/main/java/org/example/backend/business/logic/HomeworkService.java:77-161 | update: unlink, relink (rolling back on an unknown problem) and copy the fields; create: store and link; links stay in step |
| HomeworkService.HomeworkStore.Delete | backend/src/main/java/org/example/backend/business/logic/HomeworkService.java:290-320 | an unknown homework throws; otherwise it leaves every problem's list and the store, links in step |
| SubmissionRepository.FindByUserIdsAndProblemIdsAndDeadline | backend/src/main/java/org/example/backend/data/access/SubmissionRepository.java:18-28 | the result is the stored rows filtered by the WHERE clause: a row is returned iff its user and problem are listed and it is stamped no later than the deadline, each as often as stored and in stored order |
| SubmissionRepository.DeadlineIsInclusive | backend/src/main/java/org/example/backend/data/access/SubmissionRepository.java:22 | a row stamped exactly at the deadline is kept, one a millisecond later is dropped |
| SubmissionRepository.SortDesc | backend/src/main/java/org/example/backend/data/access/SubmissionRepository.java:14-16 | the `ORDER BY ... DESC` sort: a descending permutation of its input |
| SubmissionRepository.OfUserAndProblem | backend/src/main/java/org/example/backend/data/access/SubmissionRepository.java:14 | the rows of one user for one problem |
| SubmissionRepository.OfUser | backend/src/main/java/org/example/backend/data/access/SubmissionRepository.java:16 | the rows of one user |
| SubmissionRepository.OfProblem | backend/src/main/java/org/example/backend/data/access/SubmissionRepository.java:15 | the rows for one problem |
| SubmissionRepository.UserProblemHistoryStrictlyDescending | backend/src/main/java/org/example/backend/data/access/SubmissionRepository.java:14 | with distinct ids the history holds exactly that user's rows for that problem, each once, in strictly decreasing id order |
| SubmissionRepository.UserHistoryLatestFirst | backend/src/main/java/org/example/backend/data/access/SubmissionRepository.java:16 | the history holds exactly that user's rows, in non-increasing time order |
| SubmissionRepository.LatestSubmittedAt | backend/src/main/java/org/example/backend/data/access/SubmissionRepository.java:34 | the user's latest time, or NULL when the user has no rows |
| SubmissionRepository.LatestRows | backend/src/main/java/org/example/backend/data/access/SubmissionRepository.java:30-36 | the user's rows for the problem stamped at the user's latest time |
| SubmissionRepository.LastSubmissionIsUsersLatest | backend/src/main/java/org/example/backend/data/access/SubmissionRepository.java:30-36 | the "last submission" is no older than any row of the user for any problem, and there is none when the newest row is for another problem |
| SubmissionService.ScoreIsTruncatedPercentage | backend/src/main/java/org/example/backend/business/logic/SubmissionService.java:50 | missing or zero counts score 0; otherwise the score is the whole part of 100·passed/tests |
| SubmissionService.ScoreInRange | backend/src/main/java/org/example/backend/business/logic/SubmissionService.java:50 | with 0 ≤ passed ≤ tests the score lies in 0..100, and 100 when every test passed |
| SubmissionService.ScoreMonotone | backend/src/main/java/org/example/backend/business/logic/SubmissionService.java:50 | more passed tests out of the same total never lower the score |
| SubmissionService.SubmissionStore.Submit | backend/src/main/java/org/example/backend/business/logic/SubmissionService.java:42-54 | a missing problem or user throws before evaluating; an unknown language crashes; otherwise one row with the report and the score is appended |
| SubmissionService.CompletedEvaluationScore | backend/src/main/java/org/example/backend/business/logic/SubmissionService.java:48-53 | a completed evaluation stores a score in 0..100 that is 100 exactly when every test passed |
| Evaluator.PassedCount | backend/src/main/java/org/example/backend/business/logic/evaluator/PhytonEvaluator.java:38-47 | the passed count is the number of matching runs |
| Evaluator.CaseLines | backend/src/main/java/org/example/backend/business/logic/evaluator/PhytonEvaluator.java:41-47 | one "Test case i: pass/failed" line per test, in order |
| Evaluator.LinesIsJoin | backend/src/main/java/org/example/backend/business/logic/evaluator/PhytonEvaluator.java:41-52 | the report is its lines joined on newlines |
| Evaluator.Evaluate | backend/src/main/java/org/example/backend/business/logic/evaluator/PhytonEvaluator.java:13-60 | a timeout ends evaluation with the time-limit report; otherwise one line per case and the count line, with the passed count |
| Evaluator.AllMatchedMeansAllPassed | backend/src/main/java/org/example/backend/business/logic/evaluator/PhytonEvaluator.java:52-55 | all tests matching gives a passed count equal to the test count |
| Evaluator.Dispatch | backend/src/main/java/org/example/backend/business/logic/evaluator/SubmissionEvaluator.java:10-23 | only "python" and "cpp" have an evaluator; any other language gives null |
| UserService.RunChain | backend/src/main/java/org/example/backend/business/logic/UserService.java:56-58 | the validators run in order and the first rejection wins |
| UserService.FindByUsername | backend/src/main/java/org/example/backend/business/logic/UserService.java:43 | the stored user with that name, if any |
| UserService.FindByUsernameUnique | backend/src/main/java/org/example/backend/business/logic/UserService.java:43 | with distinct usernames the lookup returns the one user with the name |
| UserService.OfType | backend/src/main/java/org/example/backend/business/logic/UserService.java:76-84 | the users of one type, in stored order |
| UserService.FindById | backend/src/main/java/org/example/backend/business/logic/UserService.java:90-96 | the stored user with that id, if any |
| UserService.UserStore.constructor | backend/src/main/java/org/example/backend/business/logic/UserService.java:37-40 | the chain is the username validator, then the password validator |
| UserService.UserStore.Save | backend/src/main/java/org/example/backend/business/logic/UserService.java:52-74 | an unknown type throws before any validator; the first rejection throws; otherwise every field is copied and the encoded password stored |
| UserService.UserStore.Login | backend/src/main/java/org/example/backend/business/logic/UserService.java:42-50 | a user only when the name exists and the password matches its hash; null otherwise |
| UserService.UserStore.GetByType | backend/src/main/java/org/example/backend/business/logic/UserService.java:76-84 | an unknown type gives an empty list, a known one its users |
| UserService.UserStore.FindUserById | backend/src/main/java/org/example/backend/business/logic/UserService.java:90-96 | the user with that id with its password blanked, null when absent |
| UserService.UsernameCheckedFirst | backend/src/main/java/org/example/backend/business/logic/UserService.java:38-39 | a DTO failing both checks is rejected for its username |
| PasswordValidator.Validate | backend/src/main/java/org/example/backend/business/logic/validators/PasswordValidator.java:8-12 | rejects null and passwords under five UTF-16 code units (Java's `length()`), accepts any longer one |
| PasswordValidator.LengthCountsCodeUnits | backend/src/main/java/org/example/backend/business/logic/validators/PasswordValidator.java:9 | five characters always pass and two never do; three characters above U+FFFF (six code units) pass where "abc" does not |
| UsernameValidator.Validate | backend/src/main/java/org/example/backend/business/logic/validators/UsernameValidator.java:17-23 | null or empty names are rejected first, then stored names; a name of spaces passes the emptiness check |
| ClassroomService.HomeworksOf | backend/src/main/java/org/example/backend/business/logic/ClassroomService.java:51 | the homeworks whose classroom is the given one |
| ClassroomService.Enrolled | backend/src/main/java/org/example/backend/business/logic/ClassroomService.java:64-67 | the roster grows by the user at the end, earlier entries unchanged |
| ClassroomService.EnrolledCountsEveryEnrolment | backend/src/main/java/org/example/backend/business/logic/ClassroomService.java:64-66 | enrolling twice leaves two roster entries |
| ClassroomService.ClassroomStore.Enroll | backend/src/main/java/org/example/backend/business/logic/ClassroomService.java:58-71 | succeeds only for an existing classroom and user with the matching key; otherwise throws and nothing changes |
| ClassroomService.ClassroomStore.Delete | backend/src/main/java/org/example/backend/business/logic/ClassroomService.java:73-89 | a missing id throws; otherwise the roster is cleared, each homework emptied and deleted, then the classroom deleted |
| ClassroomService.ClassroomStore.GetHomeworksByClassroomId | backend/src/main/java/org/example/backend/business/logic/ClassroomService.java:50-52 | the classroom's homeworks; a missing classroom fails |
| AbstractEntity.Equals | backend/src/main/java/org/example/backend/model/AbstractEntity.java:18-23 | false for null or another class; otherwise equal ids |
| AbstractEntity.HashCode | backend/src/main/java/org/example/backend/model/AbstractEntity.java:25-28 | 0 for a null id, otherwise `Long.hashCode` of the id |
| AbstractEntity.SmallIdHashesToItself | backend/src/main/java/org/example/backend/model/AbstractEntity.java:25-28 | an id in the non-negative `int` range hashes to itself |
| AbstractEntity.UnsavedEntitiesAreEqual | backend/src/main/java/org/example/backend/model/AbstractEntity.java:21-22 | two unsaved entities of one class are equal |
| AbstractEntity.EqualsIsEquivalence | backend/src/main/java/org/example/backend/model/AbstractEntity.java:18-23 | equality is reflexive, symmetric and transitive |
| AbstractEntity.EqualsAgreesWithHashCode | backend/src/main/java/org/example/backend/model/AbstractEntity.java:18-28 | equal entities have equal hash codes |
| Dtos.LoggedIn | frontend/src/pages/UsersPage.tsx:42-47 | a stored user counts only when the stored text is present and not "null" |
| JsMath.RoundRatio | frontend/src/pages/UserProfilePage.tsx:234-237 | `Math.round` of a fraction: the nearest integer, halves up |
| JsMath.RoundMonotone | frontend/src/pages/UserProfilePage.tsx:234-237 | a larger fraction never rounds lower |
| JsMath.RoundWhole | frontend/src/pages/UserProfilePage.tsx:234-237 | a whole fraction rounds to itself |
| JsMath.RoundedPercentInRange | frontend/src/pages/UserProfilePage.tsx:234-237 | a rounded percentage of a part no larger than the whole lies in 0..100 |
| Palette.RatioColor | frontend/src/components/SubmissionDetailsDialog.tsx:41-45 | 80 and above success, 50 and above warning, below error |
| Palette.ScoreColor | frontend/src/pages/UserProfilePage.tsx:170-174 | the same thresholds on a whole score |
| Palette.RatioColorMonotone | frontend/src/components/SubmissionDetailsDialog.tsx:41-45 | a higher score never gets a worse colour |
| Palette.DifficultyColor | frontend/src/pages/HomeworkDetailsPage.tsx:214-225 | easy success, medium warning, hard error, after lower-casing |
| Palette.DifficultyColorIgnoresCase | frontend/src/pages/HomeworkDetailsPage.tsx:215 | the colour does not depend on case |
| SubmissionDetailsDialog.KeptLines | frontend/src/components/SubmissionDetailsDialog.tsx:48-49 | the lines of the report split on "\n" that are not blank after trimming |
| SubmissionDetailsDialog.LineColor | frontend/src/components/SubmissionDetailsDialog.tsx:50-59 | "pass" in any case is success, else "fail" in any case is error, else default |
| SubmissionDetailsDialog.ParseTestResults | frontend/src/components/SubmissionDetailsDialog.tsx:47-63 | one entry per kept line, keyed 0..k-1 in order |
| SubmissionDetailsDialog.EntriesAreNonBlankLinesInOrder | frontend/src/components/SubmissionDetailsDialog.tsx:48-61 | the entries are exactly the report's non-blank lines: unmodified, in order, and each as many times as the report holds it |
| SubmissionDetailsDialog.BlankReportHasNoEntries | frontend/src/components/SubmissionDetailsDialog.tsx:49 | a whitespace-only report has no entries |
| SubmissionDetailsDialog.PassWinsOverFail | frontend/src/components/SubmissionDetailsDialog.tsx:50-56 | a line with both words is success |
| SubmissionDetailsDialog.PassedCaseLineIsSuccess | backend/src/main/java/org/example/backend/business/logic/evaluator/PhytonEvaluator.java:45 | a passed test's report line is success |
| SubmissionDetailsDialog.FailedCaseLineIsError | backend/src/main/java/org/example/backend/business/logic/evaluator/PhytonEvaluator.java:42 | a failed test's report line is error |
| SubmissionDetailsDialog.CountLineIsDefault | backend/src/main/java/org/example/backend/business/logic/evaluator/PhytonEvaluator.java:52 | the count line is default |
| SubmissionDetailsDialog.ReportLinesAreSingleNonBlankLines | backend/src/main/java/org/example/backend/business/logic/evaluator/PhytonEvaluator.java:41-52 | no evaluator line holds a newline or is blank |
| SubmissionDetailsDialog.EvaluatorReportColors | backend/src/main/java/org/example/backend/business/logic/evaluator/PhytonEvaluator.java:41-52 | on an evaluator report, one entry per case coloured by pass/fail and a default count entry |
| SubmissionComponent.GetUserId | frontend/src/components/SubmissionComponent.tsx:45-52 | the stored user's id, null when nothing or "null" is stored |
| SubmissionComponent.LineColor | frontend/src/components/SubmissionComponent.tsx:111-121 | "pass" wins; else "fail" or "time limit" is error; else default |
| SubmissionComponent.ParseTestResults | frontend/src/components/SubmissionComponent.tsx:106-126 | the kept lines in order, with an icon exactly when the colour is success or error |
| SubmissionComponent.AgreesWithDetailsDialog | frontend/src/components/SubmissionComponent.tsx:116-121 | without "time limit" both parsers colour a line alike |
| SubmissionComponent.TimeoutReportDiffers | frontend/src/components/SubmissionComponent.tsx:111 | the evaluator's timeout line is error here and default in the details dialog |
| SubmissionComponent.CheckSubmit | frontend/src/components/SubmissionComponent.tsx:62-73 | no logged-in user is refused first, then blank code; only then is a request built |
| SubmissionComponent.LoginCheckedBeforeCode | frontend/src/components/SubmissionComponent.tsx:65-73 | without a user the login message wins, whatever the code |
| SubmissionComponent.SubmissionForm.constructor | frontend/src/components/SubmissionComponent.tsx:37-42 | no code, Python, no error, no result |
| SubmissionComponent.SubmissionForm.HandleSubmit | frontend/src/components/SubmissionComponent.tsx:62-98 | a refused check sets its message and sends nothing; otherwise the result or the error is stored |
| SubmissionHistoryComponent.RowLabels | frontend/src/components/SubmissionHistoryComponent.tsx:195-197 | row i shows n - i |
| SubmissionHistoryComponent.RowLabelsCountDown | frontend/src/components/SubmissionHistoryComponent.tsx:195-197 | the labels are n, n-1, ..., 1: distinct and strictly decreasing |
| SubmissionHistoryComponent.StatusLabel | frontend/src/components/SubmissionHistoryComponent.tsx:207-211 | "Accepted" iff the score is 100 |
| SubmissionHistoryComponent.SubmissionHistory.constructor | frontend/src/components/SubmissionHistoryComponent.tsx:34-42 | loading, nothing selected, dialog closed |
| SubmissionHistoryComponent.SubmissionHistory.FetchSubmissions | frontend/src/components/SubmissionHistoryComponent.tsx:48-72 | without a user an error and no request; otherwise the answer or the error is stored |
| SubmissionHistoryComponent.SubmissionHistory.ViewSubmission | frontend/src/components/SubmissionHistoryComponent.tsx:85-89 | selects the submission, resets the complexity and opens the dialog |
| SubmissionHistoryComponent.SubmissionHistory.CloseDialog | frontend/src/components/SubmissionHistoryComponent.tsx:91-95 | clears the selection and complexity and closes the dialog |
| StudentSubmissionsDialog.SubmittedProblemIds | frontend/src/components/StudentSubmissionsDialog.tsx:122-125 | the problem ids of the submissions, in order |
| StudentSubmissionsDialog.MissingProblems | frontend/src/components/StudentSubmissionsDialog.tsx:119-126 | none for no problems; otherwise the problems whose id no submission has, in order |
| StudentSubmissionsDialog.SubmittedProblems | frontend/src/components/StudentSubmissionsDialog.tsx:122-125 | the problems some submission is for |
| StudentSubmissionsDialog.MissingKeepsOrder | frontend/src/components/StudentSubmissionsDialog.tsx:122-125 | the missing problems keep the problem list's order |
| StudentSubmissionsDialog.MissingAndSubmittedPartition | frontend/src/components/StudentSubmissionsDialog.tsx:122-125 | missing and submitted problems are disjoint and together are the problem list, as a multiset |
| StudentSubmissionsDialog.NoSubmissionsAllMissing | frontend/src/components/StudentSubmissionsDialog.tsx:122-125 | with no submissions every problem is missing |
| StudentSubmissionsDialog.Received | frontend/src/components/StudentSubmissionsDialog.tsx:79-88 | an answer becomes the status and its submissions, an absent list read as empty |
| StudentSubmissionsDialog.StatusChip | frontend/src/components/StudentSubmissionsDialog.tsx:212-217 | "Completed" in success iff the score is 100, else "Attempted" in warning |
| UserProfilePage.GetSubmissionStats | frontend/src/pages/UserProfilePage.tsx:190-211 | the one-pass Map fill of the statistics |
| UserProfilePage.StatsKeys | frontend/src/pages/UserProfilePage.tsx:193-201 | entries have distinct problem ids, and a problem has one iff some submission is for it |
| UserProfilePage.StatsSummarise | frontend/src/pages/UserProfilePage.tsx:196-207 | each entry keeps the first-seen problem, the best score, the attempt count, and solved iff some score is 100 |
| UserProfilePage.StatsInFirstSeenOrder | frontend/src/pages/UserProfilePage.tsx:195-201 | entries follow the order of their problems' first submissions |
| UserProfilePage.CountsAddUp | frontend/src/pages/UserProfilePage.tsx:199-205 | the attempt counts add up to the number of submissions |
| UserProfilePage.Percent | frontend/src/pages/UserProfilePage.tsx:234-237 | for a positive whole, `Math.round` of part/whole·100, in 0..100 |
| UserProfilePage.CalculateStats | frontend/src/pages/UserProfilePage.tsx:214-239 | the number of attempted problems; the solved count and each difficulty bucket are the numbers of entries that are solved or have that exact difficulty; solved ≤ total; the solve rate is 0 with no problem, otherwise the rounded solved share |
| UserProfilePage.ThreeBucketsAtMostTotal | frontend/src/pages/UserProfilePage.tsx:218-226 | easy + medium + hard ≤ the attempted problems |
| UserProfilePage.ThreeBucketsFillTotal | frontend/src/pages/UserProfilePage.tsx:218-226 | with only the three difficulties the buckets add up to the total |
| UserProfilePage.BucketsFillTotal | frontend/src/pages/UserProfilePage.tsx:214-239 | the same for the buckets `calculateStats` returns |
| UserProfilePage.TotalIsDistinctProblems | frontend/src/pages/UserProfilePage.tsx:216 | the total is the number of distinct attempted problems; 0 iff there are no submissions |
| UserProfilePage.TierRate | frontend/src/pages/UserProfilePage.tsx:659-724 | "N/A" for a tier with no attempted problem, otherwise the rounded solved share |
| UserProfilePage.MaxScore | frontend/src/pages/UserProfilePage.tsx:198-204 | the highest of the scores |
| UserProfilePage.FirstAt | frontend/src/pages/UserProfilePage.tsx:195-196 | the position of a problem's first submission |
| UserProfilePage.Find | frontend/src/pages/UserProfilePage.tsx:195-203 | where the entry for a problem is, if any |
| UserProfilePage.ProblemIds | frontend/src/pages/UserProfilePage.tsx:194 | the problem ids of the submissions, in order |
| HomeworkDetailsPage.DeadlineStaysPassed | frontend/src/pages/HomeworkDetailsPage.tsx:239-245 | once passed a deadline stays passed; the deadline instant itself is not passed |
| HomeworkDetailsPage.TimeRemaining | frontend/src/pages/HomeworkDetailsPage.tsx:247-259 | "N/A" without a deadline, "Deadline passed" iff now is after it, otherwise the days/hours/minutes breakdown |
| HomeworkDetailsPage.BreakdownBounds | frontend/src/pages/HomeworkDetailsPage.tsx:255-258 | hours in 0..23, minutes in 0..59, and the breakdown is the difference to within a minute |
| HomeworkDetailsPage.RemainingNeverIncreases | frontend/src/pages/HomeworkDetailsPage.tsx:243-258 | as now advances the remaining whole minutes never increase |
| HomeworkDetailsPage.RemainingText | frontend/src/pages/HomeworkDetailsPage.tsx:247-259 | the text shown for each case |
| HomeworkDetailsPage.TableStatus | frontend/src/pages/HomeworkDetailsPage.tsx:703-721 | no submissions not started, fewer than the problems in progress, otherwise completed |
| HomeworkDetailsPage.ProgressLabelsDistinct | frontend/src/pages/HomeworkDetailsPage.tsx:874-896 | every count shows exactly one label |
| HomeworkDetailsPage.HeaderChip | frontend/src/pages/HomeworkDetailsPage.tsx:385-402 | "Completed" iff the count equals the problems, otherwise "n/total Completed" |
| HomeworkDetailsPage.HeaderAgreesWithTable | frontend/src/pages/HomeworkDetailsPage.tsx:385-402 | with no more submissions than problems the header agrees with the status column |
| HomeworkDetailsPage.HeaderDisagreesWhenOverfull | frontend/src/pages/HomeworkDetailsPage.tsx:385-402 | with more submissions than problems they disagree |
| HomeworkDetailsPage.CountChipColor | frontend/src/pages/HomeworkDetailsPage.tsx:683-690 | success when all problems are done, warning when some, default when none |
| HomeworkDetailsPage.EmptyHomeworkCountChip | frontend/src/pages/HomeworkDetailsPage.tsx:683-721 | a homework without problems shows a success chip while the column says not started |
| HomeworkDetailsPage.AverageDivisor | frontend/src/pages/HomeworkDetailsPage.tsx:644-645 | `total || 1` is never 0 |
| HomeworkDetailsPage.AveragePercent | frontend/src/pages/HomeworkDetailsPage.tsx:644-645 | the rounded average |
| HomeworkDetailsPage.AverageColor | frontend/src/pages/HomeworkDetailsPage.tsx:232-236 | the score colour of the exact average |
| HomeworkDetailsPage.AverageLabel | frontend/src/pages/HomeworkDetailsPage.tsx:833-860 | the encouragement label for the average |
| HomeworkDetailsPage.AverageLabelMatchesColor | frontend/src/pages/HomeworkDetailsPage.tsx:833-860 | label and colour use the same thresholds |
| HomeworkDetailsPage.ShownPercentAndColor | frontend/src/pages/HomeworkDetailsPage.tsx:693-697 | the colour is taken before rounding: 79.5 shows "80%" in warning |
| HomeworkDetailsPage.EmptyHomeworkAverage | frontend/src/pages/HomeworkDetailsPage.tsx:644-645 | an empty homework never divides by zero |
| HomeworkDetailsPage.FindSubmission | frontend/src/pages/HomeworkDetailsPage.tsx:934-936 | the first submission for the problem, none when no submission is for it |
| HomeworkDetailsPage.ProblemStatus | frontend/src/pages/HomeworkDetailsPage.tsx:933-972 | the first submission decides: 100 completed, else attempted; none not started |
| HomeworkDetailsPage.CardAgreesWithTable | frontend/src/pages/HomeworkDetailsPage.tsx:549-580 | the problem card and the table row agree |
| HomeworkDetailsPage.SolvedIffFullScore | frontend/src/pages/HomeworkDetailsPage.tsx:549-580 | with one submission per problem, solved iff some submission for it scored 100 |
| HomeworkDetailsPage.ProblemStateColor | frontend/src/pages/HomeworkDetailsPage.tsx:951-972 | success iff solved, warning iff attempted, default iff not started |
| ProblemsPage.ApplyFilters | frontend/src/pages/ProblemsPage.tsx:71-89 | the title filter for a non-empty query, then the exact topic filter for a selected topic |
| ProblemsPage.ApplyFiltersIsOneFilter | frontend/src/pages/ProblemsPage.tsx:71-89 | a problem is kept iff it passes both tests |
| ProblemsPage.FilteredKeepsOrder | frontend/src/pages/ProblemsPage.tsx:72-88 | the shown problems are a subsequence of the loaded ones |
| ProblemsPage.ApplyFiltersIdempotent | frontend/src/pages/ProblemsPage.tsx:71-89 | filtering the output again changes nothing |
| ProblemsPage.SpaceQueryIsApplied | frontend/src/pages/ProblemsPage.tsx:75-79 | a query of one space is not ignored |
| ProblemsPage.ClearFilters | frontend/src/pages/ProblemsPage.tsx:102-105 | both filters empty |
| ProblemsPage.ClearedFiltersShowAll | frontend/src/pages/ProblemsPage.tsx:75-86 | after clearing every problem is shown |
| ProblemsPage.Preview | frontend/src/pages/ProblemsPage.tsx:355-356 | counting UTF-16 code units as `length` and `substring` do: the description whole when it has at most 150; otherwise a prefix of 149 or 150 units (149 only where a character above U+FFFF straddles the cut) followed by "..." |
| ProblemsPage.PreviewIsBoundedPrefix | frontend/src/pages/ProblemsPage.tsx:355-356 | at most 153 code units, starting with the longest part of the description that fits in 150, and only that part exactly when the description fits |
| ProblemsPage.AstralDescriptionIsCut | frontend/src/pages/ProblemsPage.tsx:355-356 | a description of 100 characters above U+FFFF is 200 units long and is cut |
| ProblemsPage.ExactDifficultyColor | frontend/src/pages/ProblemsPage.tsx:113-124 | only the exact lower-case words are coloured on this page |
| ProblemsPage.CapitalisedDifficultyDiffers | frontend/src/pages/ProblemsPage.tsx:113-124 | "Easy" is coloured on the homework page but not here |
| ClassroomsPage.SearchFilter | frontend/src/pages/ClassroomsPage.tsx:91-101 | a query that trims to nothing shows all; otherwise name or description contains the untrimmed query, ignoring case |
| ClassroomsPage.SearchKeepsOrder | frontend/src/pages/ClassroomsPage.tsx:96-101 | the shown classrooms are a subsequence |
| ClassroomsPage.PaddedQueryIsSearchedAsTyped | frontend/src/pages/ClassroomsPage.tsx:92-100 | spaces alone are ignored, spaces around a word are searched |
| ClassroomsPage.FetchRequest | frontend/src/pages/ClassroomsPage.tsx:105-137 | nothing without a user id; the teacher endpoint for admins and teachers, the student endpoint otherwise |
| ClassroomsPage.WithoutIdRemovesExactly | frontend/src/pages/ClassroomsPage.tsx:204-207 | no classroom with the id remains, the others stay in order |
| ClassroomsPage.ClassroomsState.constructor | frontend/src/pages/ClassroomsPage.tsx:71-89 | the loaded user and classrooms, nothing selected |
| ClassroomsPage.ClassroomsState.HandleCreateClassroom | frontend/src/pages/ClassroomsPage.tsx:154-161 | teachers and admins go to the create page, others get an error |
| ClassroomsPage.ClassroomsState.HandleEditClassroom | frontend/src/pages/ClassroomsPage.tsx:219-226 | teachers and admins go to the edit page, others get an error |
| ClassroomsPage.ClassroomsState.HandleDeleteClassroom | frontend/src/pages/ClassroomsPage.tsx:189-197 | teachers and admins select and open the dialog, others get an error |
| ClassroomsPage.ClassroomsState.ConfirmDeleteClassroom | frontend/src/pages/ClassroomsPage.tsx:199-213 | nothing without a selection; on success both lists lose the id, on failure an error |
| ClassroomsPage.ClassroomsState.OpenEnrollDialog | frontend/src/pages/ClassroomsPage.tsx:235-242 | an empty form, no error, the dialog open |
| ClassroomsPage.ClassroomsState.HandleEnroll | frontend/src/pages/ClassroomsPage.tsx:256-293 | nothing without a user; an empty id or key sets an error and sends nothing; otherwise the outcome is stored |
| ClassroomDetailsPage.Authorized | frontend/src/pages/ClassroomDetailsPage.tsx:164-176 | no user or classroom denies; admins and teachers pass; students and users iff on the roster; others are denied |
| ClassroomDetailsPage.AuthorizationSurvivesEnrolment | frontend/src/pages/ClassroomDetailsPage.tsx:171-173 | adding a student never removes anyone's access |
| ClassroomDetailsPage.WithoutHomework | frontend/src/pages/ClassroomDetailsPage.tsx:147 | the homeworks without the selected id |
| ClassroomDetailsPage.ConfirmDeleteHomework | frontend/src/pages/ClassroomDetailsPage.tsx:139-157 | nothing without a selection; on success the homework is removed, on failure an error |
| ClassroomDetailsPage.DeleteRemovesExactlySelected | frontend/src/pages/ClassroomDetailsPage.tsx:140-147 | exactly the homeworks with the id go, the rest stay in order; no selection is a no-op |
| ClassroomDetailsPage.AddHomework | frontend/src/pages/ClassroomDetailsPage.tsx:112-118 | with a classroom id go to its add-homework page, otherwise an error |
| UsersPage.OnLoad | frontend/src/pages/UsersPage.tsx:40-51 | without a stored user go to the login page, otherwise fetch |
| UsersPage.SearchFilter | frontend/src/pages/UsersPage.tsx:53-62 | an empty query shows all; otherwise the usernames containing it, ignoring case |
| UsersPage.SearchKeepsOrder | frontend/src/pages/UsersPage.tsx:59-62 | the shown users keep their order |
| UsersPage.TypeCounts | frontend/src/pages/UsersPage.tsx:200-222 | each chip is the number of shown users of exactly that type; the three add up to at most the shown users |
| UsersPage.TypeCountsFillHeader | frontend/src/pages/UsersPage.tsx:200-222 | with only the three types the counts add up to the header |
| UsersPage.TypeLabel | frontend/src/pages/UsersPage.tsx:273-276 | first character upper-cased, the rest unchanged |
| UsersPage.TypeLabelIdempotent | frontend/src/pages/UsersPage.tsx:273-276 | capitalising twice is capitalising once |
| UsersPage.YouMarker | frontend/src/pages/UsersPage.tsx:264 | "(You)" iff the row's id is the current user's |
| TopicsPage.OnLoad | frontend/src/pages/TopicsPage.tsx:39-54 | no user or a non-admin is sent home and nothing is fetched |
| TopicsPage.SearchFilter | frontend/src/pages/TopicsPage.tsx:57-66 | an empty query shows all; otherwise the titles containing it, ignoring case |
| TopicsPage.SearchKeepsOrder | frontend/src/pages/TopicsPage.tsx:63-66 | the shown topics keep their order |
| TopicsPage.HeaderCountsShown | frontend/src/pages/TopicsPage.tsx:191 | the header counts the shown topics |
| AddHomeworkPage.IdStringInjective | frontend/src/pages/AddHomeworkPage.tsx:208-217 | different ids print differently, so `String(id)` comparison is id comparison |
| AddHomeworkPage.SelectedFrom | frontend/src/pages/AddHomeworkPage.tsx:208-211 | the available problems whose id was selected, in available order |
| AddHomeworkPage.SelectionKeepsAvailableOrder | frontend/src/pages/AddHomeworkPage.tsx:205-211 | the selection is a subsequence, and ids with no available problem add nothing |
| AddHomeworkPage.DeadlineString | frontend/src/pages/AddHomeworkPage.tsx:192 | `date + "T" + time + ":00"` |
| AddHomeworkPage.DeadlineIsLocalDateTime | frontend/src/pages/AddHomeworkPage.tsx:189-202 | well-formed inputs give an ISO 8601 local date-time that reads back to them |
| AddHomeworkPage.OnLoad | frontend/src/pages/AddHomeworkPage.tsx:79-104 | home for non-teachers, the classroom list without a classroom id, otherwise a load (edit mode with a homework id) |
| AddHomeworkPage.HomeworkEditor.constructor | frontend/src/pages/AddHomeworkPage.tsx:44-77 | the loaded form with nothing selected and the week-ahead deadline, in the mode the load chose (edit mode iff the route names a homework) |
| AddHomeworkPage.HomeworkEditor.LoadHomework | frontend/src/pages/AddHomeworkPage.tsx:127-149 | in edit mode, the fetched homework's fields, deadline inputs and problems; nothing else changes |
| AddHomeworkPage.HomeworkEditor.HandleChange | frontend/src/pages/AddHomeworkPage.tsx:169-177 | only the edited field changes |
| AddHomeworkPage.HomeworkEditor.HandleDateChange | frontend/src/pages/AddHomeworkPage.tsx:179-182 | the new date and the deadline rebuilt from it |
| AddHomeworkPage.HomeworkEditor.HandleTimeChange | frontend/src/pages/AddHomeworkPage.tsx:184-187 | the new time and the deadline rebuilt from it |
| AddHomeworkPage.HomeworkEditor.HandleProblemSelection | frontend/src/pages/AddHomeworkPage.tsx:204-218 | the ids as chosen, both problem lists the matching available problems, in sync |
| AddHomeworkPage.HomeworkEditor.HandleRemoveProblem | frontend/src/pages/AddHomeworkPage.tsx:220-236 | a null id changes nothing; otherwise the id and its problem leave all three lists, the rest in order, sync kept |
| AddHomeworkPage.HomeworkEditor.HandleSubmit | frontend/src/pages/AddHomeworkPage.tsx:238-284 | an empty title, description or deadline or no problem is refused; edit mode uses the update endpoint, otherwise save; only the submitting flag and the error change |
| AddHomeworkPage.RemovalKeepsSync | frontend/src/pages/AddHomeworkPage.tsx:223-235 | removing an id and its problem leaves the problems the remaining ids select |
| AddProblemPage.AuthorName | frontend/src/pages/AddProblemPage.tsx:75-83 | the session user's first and last name, "" without one |
| AddProblemPage.EmptyForm | frontend/src/pages/AddProblemPage.tsx:35-59 | the empty form, author pre-filled, difficulty "medium" |
| AddProblemPage.TopicsTitled | frontend/src/pages/AddProblemPage.tsx:104-117 | the available topics whose title was selected |
| AddProblemPage.TopicsKeepAvailableOrder | frontend/src/pages/AddProblemPage.tsx:104-117 | they keep the available order; no title chooses none |
| AddProblemPage.RemoveAt | frontend/src/pages/AddProblemPage.tsx:157-162 | one element fewer for an index in range, the same length otherwise |
| AddProblemPage.RemoveAtSplices | frontend/src/pages/AddProblemPage.tsx:157-162 | index i in range gives the list without element i, others in order; other indices remove nothing |
| AddProblemPage.CheckImage | frontend/src/pages/AddProblemPage.tsx:164-178 | no file does nothing; not "image/" is rejected first; over 5 MB rejected; otherwise accepted |
| AddProblemPage.ImageSizeBoundary | frontend/src/pages/AddProblemPage.tsx:175 | exactly 5 MB is accepted, one byte more is not |
| AddProblemPage.ProblemEditor.constructor | frontend/src/pages/AddProblemPage.tsx:35-59 | the empty form and the fetched topics |
| AddProblemPage.ProblemEditor.HandleTopicChange | frontend/src/pages/AddProblemPage.tsx:104-117 | the titles as chosen and the matching topics in the form |
| AddProblemPage.ProblemEditor.EditDraft | frontend/src/pages/AddProblemPage.tsx:119-136 | only the draft changes |
| AddProblemPage.ProblemEditor.HandleAddTestCase | frontend/src/pages/AddProblemPage.tsx:138-155 | no-op with empty input or output; otherwise the draft is appended and reset |
| AddProblemPage.ProblemEditor.HandleRemoveTestCase | frontend/src/pages/AddProblemPage.tsx:157-162 | the case at the index leaves the form |
| AddProblemPage.ProblemEditor.HandleImageUpload | frontend/src/pages/AddProblemPage.tsx:164-190 | a rejected file sets its message; an accepted one becomes the preview and the form's image |
| AddProblemPage.ProblemEditor.HandleSubmit | frontend/src/pages/AddProblemPage.tsx:192-235 | on success the form is emptied and the notice shown; on failure the message and the form kept |
| AddProblemPage.SubmittedFormNeedsATest | frontend/src/pages/AddProblemPage.tsx:544 | submit is disabled with no test case and enabled with one |
| AddClassroomPage.KeyIndex | frontend/src/pages/AddClassroomPage.tsx:240 | a draw picks a position of the 62-character alphabet |
| AddClassroomPage.KeyFrom | frontend/src/pages/AddClassroomPage.tsx:234-241 | eight characters, each from the alphabet |
| AddClassroomPage.EveryCharacterCanBeDrawn | frontend/src/pages/AddClassroomPage.tsx:236-240 | every alphabet position is picked by some draw |
| AddClassroomPage.OnLoad | frontend/src/pages/AddClassroomPage.tsx:61-78 | anyone but a logged-in teacher or admin goes home; otherwise a load, editing with a classroom id |
| AddClassroomPage.StudentsNamed | frontend/src/pages/AddClassroomPage.tsx:160-173 | the fetched students whose username was selected |
| AddClassroomPage.StudentsKeepFetchedOrder | frontend/src/pages/AddClassroomPage.tsx:160-173 | they keep the fetched order; no username chooses none |
| AddClassroomPage.ClearedForm | frontend/src/pages/AddClassroomPage.tsx:198-207 | the cleared form keeps only the teacher |
| AddClassroomPage.GeneratedKeyEnablesSubmit | frontend/src/pages/AddClassroomPage.tsx:432-437 | a generated key with a name and description enables submit; a cleared form stays disabled |
| AddClassroomPage.ClassroomEditor.constructor | frontend/src/pages/AddClassroomPage.tsx:33-59 | an empty form with the teacher and the fetched students |
| AddClassroomPage.ClassroomEditor.HandleChange | frontend/src/pages/AddClassroomPage.tsx:150-158 | only the edited field changes |
| AddClassroomPage.ClassroomEditor.HandleStudentChange | frontend/src/pages/AddClassroomPage.tsx:160-173 | the usernames as chosen and the matching students in the form |
| AddClassroomPage.ClassroomEditor.GenerateEnrollmentKey | frontend/src/pages/AddClassroomPage.tsx:234-246 | the loop builds `KeyFrom(draws)` and only the form's key changes |
| AddClassroomPage.ClassroomEditor.HandleSubmit | frontend/src/pages/AddClassroomPage.tsx:175-228 | a create clears the form but the teacher and the selection; failure keeps the form and sets the message |
| EditProfileDialog.InitialForm | frontend/src/components/EditProfileDialog.tsx:37-62 | the user's fields, never a password |
| EditProfileDialog.PasswordProblem | frontend/src/components/EditProfileDialog.tsx:128-137 | when changing: a missing password first, then a differing confirmation; nothing otherwise |
| EditProfileDialog.OutgoingUser | frontend/src/components/EditProfileDialog.tsx:144-153 | the form's fields, with a password only when changing it |
| EditProfileDialog.CheckedPasswordIsSent | frontend/src/components/EditProfileDialog.tsx:128-153 | a password that passes the checks is sent and equals its confirmation |
| EditProfileDialog.SessionEffectAsWritten | frontend/src/components/EditProfileDialog.tsx:159-165 | the session step as written throws iff the stored text is "null" |
| EditProfileDialog.LoggedOutSaveThrows | frontend/src/components/EditProfileDialog.tsx:159-165 | after a logout a successful save throws in the session step |
| EditProfileDialog.SessionAfterSave | frontend/src/components/EditProfileDialog.tsx:159-165 | the stored session is replaced iff it is the edited user's |
| EditProfileDialog.SessionAfterSaveAgrees | frontend/src/components/EditProfileDialog.tsx:159-165 | it agrees with the written step wherever that does not throw |
| EditProfileDialog.OtherSessionKept | frontend/src/components/EditProfileDialog.tsx:159-165 | another user's session is never replaced |
| EditProfileDialog.ProfileEditor.constructor | frontend/src/components/EditProfileDialog.tsx:37-62 | the initial form, password change off |
| EditProfileDialog.ProfileEditor.EditPasswords | frontend/src/components/EditProfileDialog.tsx:71-79 | only the password fields change |
| EditProfileDialog.ProfileEditor.TogglePasswordChange | frontend/src/components/EditProfileDialog.tsx:113-122 | the flag flips; turning it on clears both password fields |
| EditProfileDialog.ProfileEditor.HandleSubmit | frontend/src/components/EditProfileDialog.tsx:124-181 | a failed check sets its message and sends nothing; otherwise the DTO is sent, and success updates the session by the corrected step `SessionAfterSave` (see Findings) and closes |
| EditProfileDialog.ToggledOnNeedsAPassword | frontend/src/components/EditProfileDialog.tsx:113-132 | right after turning the change on the missing-password check fires |
| AppNavigationBar.RolePages | frontend/src/components/AppNavigationBar.tsx:39-51 | the settings entry exists iff the type is a settings key |
| AppNavigationBar.Pages | frontend/src/components/AppNavigationBar.tsx:68-78 | base only without a user or an entry; otherwise base, common, then the role's pages |
| AppNavigationBar.RoleLinks | frontend/src/components/AppNavigationBar.tsx:39-51 | students, teachers and admins get exactly their links, without repeats |
| AppNavigationBar.BaseLinksFirst | frontend/src/components/AppNavigationBar.tsx:70-74 | every bar starts with the base links, then the common ones |
| AppNavigationBar.CommonTypeRepeatsLinks | frontend/src/components/AppNavigationBar.tsx:39-51 | a type named "common" gets the common links twice |
| AppNavigationBar.NavigationBar.constructor | frontend/src/components/AppNavigationBar.tsx:55-66 | the stored user and their links |
| AppNavigationBar.NavigationBar.HandleLogin | frontend/src/components/AppNavigationBar.tsx:99-101 | the login dialog opens, nothing else changes |
| AppNavigationBar.NavigationBar.HandleLoginSuccess | frontend/src/components/AppNavigationBar.tsx:107-111 | the user is shown and stored and their links appear |
| AppNavigationBar.NavigationBar.HandleLogout | frontend/src/components/AppNavigationBar.tsx:120-126 | no user, "null" stored, base links only, navigation to "/" |

## Left out

- HTTP (axios, the Spring controllers), React rendering, routing and timers are not modelled. A server answer is a parameter of the handler that awaits it. A navigation is a returned path.
- `localStorage` is the `Dtos.Stored` parameter: absent, the text "null", or a user's JSON. Malformed JSON is not modelled.
- The clock (`new Date()`, `toISOString`, `toLocaleString`) is not modelled: "now" is integer milliseconds, and the week-ahead deadline text is a constructor argument. `Math.random()` draws are parameters.
- Running code is not modelled: compiler and interpreter processes, temp files, and the exception path that reports "Error: ...". Each test run's outcome is an input to `Evaluator.Evaluate`. The C++ compile step is not modelled.
- Gemini and the complexity analysis are not modelled; they are foreign network calls. Only the dialogs' resetting of the complexity text is kept.
- Persistence is not modelled: JPA, MapStruct mappers, `@PrePersist` timestamps, and `ProblemService`/`TopicService`, which only forward to repositories. Repositories are maps and sequences. A `@Transactional` method that throws part-way is modelled as leaving the state unchanged.
- ClassroomService.ClassroomStore.Delete: clearing `homework.getProblems()` is not visible in the model, because the homework is deleted right after. The join rows owned by `Problem`, and what JPA does with them, are not modelled.
- SubmissionRepository.FindByUserIdsAndProblemIdsAndDeadline: the query has no ORDER BY, and the model returns rows in stored order. "The first seen of two equal rows is kept" is relative to that order.
- SubmissionService.ScoreIsTruncatedPercentage: the score is the exact whole part of 100·passed/tests. The Java `double` computation can be one lower on some inputs (29/100 gives 28 there). IEEE rounding is not modelled.
- JsMath.RoundRatio: `Math.round` of an exact fraction, halves rounded up. The JavaScript `double` quotient is not modelled.
- AbstractEntity.Equals: a runtime class is a tag compared for equality. Hibernate proxies are not modelled.
- AddClassroomPage.KeyFrom: states that each character belongs to the 62-character alphabet. It does not state, character by character, that the alphabet holds only ASCII letters and digits.
- AddClassroomPage.ClassroomEditor.constructor: the edit-mode fetch of an existing classroom and its pre-selection of students are not modelled.
- EditProfileDialog.ProfileEditor: the profile-picture file selection is not modelled. The image checks are those of `AddProblemPage.CheckImage`, and `FileReader`'s data URL would be a parameter.
- AddProblemPage.ProblemEditor.HandleImageUpload: the data URL that `FileReader` produces is a parameter.
- ClassroomsPage.ClassroomsState.HandleEnroll: `parseInt` of the classroom id is not modelled; the id is sent as typed.
- AppNavigationBar.RolePages: the settings object's inherited keys (`toString` and the like) are not modelled as types with an entry. The own key "common" is modelled.
- The list pages' error messages for failed fetches are not modelled, beyond the error cases named above.
- Text.LowerChar, Text.UpperChar: `toLowerCase` and `toUpperCase` fold ASCII letters only; JavaScript folds all of Unicode. The case-insensitive searches and colour tests differ from the source on non-ASCII letters.
- Text: a string is a sequence of Unicode scalar values. Lengths are counted in UTF-16 code units where the source's test depends on them (PasswordValidator.Validate, ProblemsPage.Preview). `charAt` and `slice` positions elsewhere count characters.
- ProblemsPage.Preview: when the 150th code unit is the first half of a surrogate pair, `substring(0, 150)` keeps that lone half. The model cannot hold half a character and keeps 149 units.
- EditProfileDialog.ProfileEditor.HandleSubmit: uses the corrected session step `SessionAfterSave`. With the stored text "null" and a save that succeeds, the source throws in the session step, shows "Failed to update profile. Please try again." and stays open; the model closes the dialog with no error. The step as written is `SessionEffectAsWritten` (see Findings).

## Findings

| source | as written | input that shows it | evidently intended | confidence | as-written member | corrected member |
|---|---|---|---|---|---|---|
| frontend/src/components/EditProfileDialog.tsx:159-165 | any stored text is parsed, so the text "null" gives `null` and reading its `id` throws after the server has saved | a save while the stored text is "null", the value `handleLogout` stores (frontend/src/components/AppNavigationBar.tsx:122) | leave the session alone when no user is stored | low, not executed | EditProfileDialog.SessionEffectAsWritten, EditProfileDialog.LoggedOutSaveThrows | EditProfileDialog.SessionAfterSave |
