# Sistema Educacional — a verified model of its table rules

Sistema Educacional is a console course platform. Users register, browse
courses by level, have their course views timed and rate courses from 1 to
5. An administrator logs in, creates, edits and deletes courses, and reads
usage statistics. Two generations of the program live side by side:

- the current one: `user/usuario.py`, `admins/admin.py`, `utils/estatisticas.py`;
- an older one: `usuario.py`, `admin.py`.

Every screen loads a JSON table, applies a few rules to a list of records
and saves the list back. This project models those rules in Dafny and
proves what they guarantee.

- **Records.** Accounts, courses, access records and ratings are datatypes
  (module `Records`).
- **Tables.** Each table the source appends to or updates in place is a
  `seq` field of a small class:
  - `Users.UserDirectory`
  - `Access.AccessTracker`
  - `Access.AccessLog`
  - `Ratings.RatingLedger`
  - `Catalogue.CourseCatalogue`
- **Answers.** Each method takes the operator's answers as parameters and
  returns a `Result` naming the refusal the screen prints.
- **Specifications.** Pure functions specify the methods:
  - `Users.Admit`
  - `Access.Viewed`
  - `Ratings.Rate`
  - `Catalogue.CheckNewCourse`
  - `Catalogue.ContentLines`
  - `Catalogue.EditedCourse`
- **Invariants.** The methods' contracts are proved to preserve:
  - distinct user names;
  - at most one access record per (user, course) pair;
  - scores in 1..5 and at most one rating per (user, course);
  - course names unique up to case and at most 7 courses per level.
- **Statistics.** Mean, median and mode are computed over exact `real`s
  (module `Numbers`). The statistics screens are modules `UsageStatistics`
  and `AdminReports`.

Modules follow the program's parts:

| module | file |
|---|---|
| `Base` | Option, Result, ASCII lower-casing, `"\n".join`, `int()`/`isdigit()`/`str()` on decimals |
| `Records` | users, courses, access records, ratings, levels |
| `Numbers` | `calcular_media`, `calcular_mediana`, `calcular_moda` |
| `UsageStatistics` | `gerar_estatisticas_usuarios`, `gerar_estatisticas_acessos`, `gerar_estatisticas_avaliacoes` |
| `Selection` | the level menu and the numbered course menus |
| `Users` | registration (both variants), the personal-data editor, deletion |
| `Access` | the access upsert and the older access log |
| `Ratings` | rating a course (both variants) |
| `Catalogue` | creating (both variants), editing and deleting courses |
| `AdminLogin` | the administrator's three-attempt login |
| `AdminReports` | the older administrator reports |

## Model

| member | source | states |
|---|---|---|
| Records.LevelForOption | admins/admin.py:73-78 | only "1", "2", "3" choose a level, and each chooses the matching entry of iniciante/intermediário/avançado |
| Base.ParseNatToString | user/usuario.py:209-212 | reading back the printed number of a menu entry gives that number: `int(str(n)) == n` |
| Numbers.MeanBetween | utils/estatisticas.py:9-10 | the mean of a non-empty list lies between any lower and upper bound of its elements |
| Numbers.MeanOfConstant | utils/estatisticas.py:9-10 | the mean of a list of one repeated value is that value |
| Numbers.SortedCopy | utils/estatisticas.py:18-19 | `sorted` yields an ascending arrangement of the same multiset |
| Numbers.SortedPermutationUnique | utils/estatisticas.py:18-19 | two ascending arrangements of the same multiset are equal, so the sorted copy is unique |
| Numbers.MedianOfArrangement | utils/estatisticas.py:18-19 | the median is the middle element (odd length) or the mean of the two middle elements (even length) of any sorted arrangement |
| Numbers.MedianIgnoresOrder | utils/estatisticas.py:18-19 | the median depends only on the multiset of values |
| Numbers.MedianBetween | utils/estatisticas.py:18-19 | the median of a non-empty list lies between any bounds of its elements |
| Numbers.MedianEvenExample | utils/estatisticas.py:18-19 | the median of [1, 2, 3, 4] is 2.5 |
| Numbers.MedianOddExample | utils/estatisticas.py:18-19 | the median of [3, 1, 2] is 2 (the input is sorted first) |
| Numbers.Mode | utils/estatisticas.py:12-16 | 'Sem moda' (None) exactly on empty input; otherwise an element of the list, of maximal frequency, and no earlier element is as frequent |
| Numbers.ModeUnique | utils/estatisticas.py:12-16 | those properties determine the mode: the first value of maximal frequency is it |
| Numbers.ModeTieExample | utils/estatisticas.py:12-16 | on a tie the first value wins: the mode of [1, 1, 2, 2, 3] is 1 |
| Numbers.ModeMostFrequentExample | utils/estatisticas.py:12-16 | the most frequent value wins even when not first: the mode of [3, 2, 2] is 2 |
| UsageStatistics.Describe | utils/estatisticas.py:43-51 | a screen reports nothing exactly for an empty list; otherwise it shows `Numbers.Mean`, `Numbers.Mode` and `Numbers.Median` of the list, so the mode is the first most frequent value; the mean and median lie within any bounds of the list |
| UsageStatistics.Ages | utils/estatisticas.py:31 | the age list holds exactly the ages of users that have one, no more entries than users |
| UsageStatistics.Genders | utils/estatisticas.py:32 | the gender list holds exactly the genders of users that have one, no more entries than users |
| UsageStatistics.ExtractionKeepsOrder | utils/estatisticas.py:31-32 | both lists keep table order: extracting from a concatenation is concatenating the extractions |
| UsageStatistics.AgesEmpty | utils/estatisticas.py:43-44 | the age list is empty exactly when no user has an age |
| UsageStatistics.GendersEmpty | utils/estatisticas.py:55-56 | the gender list is empty exactly when no user has a gender |
| UsageStatistics.Bump | utils/estatisticas.py:59 | counting one more value raises that value's count by one, keeps keys distinct and counts positive, and leaves other counts alone |
| UsageStatistics.Tally | utils/estatisticas.py:59-62 | `Counter`: each value once with its number of occurrences, every value of the list present, counts summing to the list's length |
| UsageStatistics.UserStatistics | utils/estatisticas.py:29-62 | the age screen is `Describe` of the stored ages and is empty exactly when no user has an age; the gender screen is the `Counter` of the stored genders, counting each gender's occurrences, and is empty exactly when no user has a gender; the tally never exceeds the number of users |
| UsageStatistics.VisitCounts | utils/estatisticas.py:79 | the visit-count list holds exactly the counts of entries that are access summaries |
| UsageStatistics.VisitTimes | utils/estatisticas.py:80 | the duration list holds exactly the durations of access summaries, one per visit count |
| UsageStatistics.SummaryTableFeedsEveryRecord | utils/estatisticas.py:79 | on a table of access summaries every record contributes its count, in table order |
| UsageStatistics.NoVisitsNoCounts | utils/estatisticas.py:82-84 | the count list is empty exactly when no entry is an access summary |
| UsageStatistics.AccessStatistics | utils/estatisticas.py:77-84 | nothing is computed exactly when no entry has a count or a duration; otherwise the two screens are `Describe` of the visit counts and of the visit durations |
| UsageStatistics.GroupIndex | utils/estatisticas.py:135 | the found position holds the key; no position holds it when none is found |
| UsageStatistics.GroupAdd | utils/estatisticas.py:131-135 | `setdefault(curso, []).append(nota)` extends the grouping of a table to the grouping of the table plus one scored rating |
| UsageStatistics.GroupSkip | utils/estatisticas.py:133-134 | a rating without a score changes no group |
| UsageStatistics.GroupJoin | utils/estatisticas.py:135 | a scored rating of a grouped course is appended to the end of its group |
| UsageStatistics.GroupOpen | utils/estatisticas.py:135 | a scored rating of a new course opens a group at the end |
| UsageStatistics.GroupByCourse | utils/estatisticas.py:130-135 | the groups have distinct keys and hold exactly each course's scores in table order, "Desconhecido" for a missing course; every scored rating is grouped; the group sizes sum to the number of scored ratings; the keys come in order of first appearance (`FirstSeen`), as a dict receives them |
| UsageStatistics.FirstSeen | utils/estatisticas.py:130-135 | the course keys of the scored ratings, each once, and no other |
| UsageStatistics.AddScoreKeys | utils/estatisticas.py:135 | `setdefault(...).append` keeps the existing keys in place and puts a new key last |
| UsageStatistics.MinOf | utils/estatisticas.py:147 | `min` is an element no larger than any other |
| UsageStatistics.MaxOf | utils/estatisticas.py:146 | `max` is an element no smaller than any other |
| UsageStatistics.SummarizeGroups | utils/estatisticas.py:144-155 | one line per group in group order, with count = len(notas) > 0, the mean, and min ≤ mean ≤ max |
| UsageStatistics.ReportFromGroups | utils/estatisticas.py:130-155 | summarising a grouping reports each course's own scores once, covers every scored rating, and counts each scored rating once |
| UsageStatistics.ScoredRowExists | utils/estatisticas.py:137-139 | a non-empty group comes from some scored rating |
| UsageStatistics.SummariesMatchGroups | utils/estatisticas.py:148 | the reported counts add up to the group sizes |
| UsageStatistics.RatingStatistics | utils/estatisticas.py:123-155 | "no ratings" exactly for an empty table; "no valid rating" exactly when no rating has a score; otherwise a report of every course's scores as above, one line per course in order of first appearance |
| Selection.CoursesAtLevel | user/usuario.py:191 | the level's list holds exactly the catalogue's courses of that level |
| Selection.CountAtLevelAppend | admins/admin.py:80-83 | appending a course raises its level's count by one and no other |
| Selection.MenuChoice | user/usuario.py:207-216 | the entry after the last goes back; a non-digit or out-of-range answer is refused; otherwise entry `int(answer) - 1` is picked |
| Selection.MenuChoiceOfNumber | user/usuario.py:203-216 | typing the number printed beside an entry picks that entry |
| Selection.SelectCourse | user/usuario.py:272-306 | a selected course is a catalogue course of the chosen level |
| Selection.SelectCourseByNumber | user/usuario.py:281-306 | typing entry `k` of a level's list selects the level's k-th course in catalogue order |
| Users.Admit | user/usuario.py:73-130 | the account is admitted exactly when no prompt was cancelled, the name has ≥ 3 characters and no blank, no account has exactly that name, the password has ≥ 6 characters and is confirmed, the gender is masculino/feminino and the age parses to a positive integer; the stored record has tipo "usuario"; distinct names stay distinct; the duplicate refusal happens exactly for a valid taken name |
| Users.AdmitLegacy | usuario.py:56-75 | admitted exactly when the name is new and the stripped, lower-cased gender is masculino/feminino; the record has tipo "usuario" and no age |
| Users.FindName | usuario.py:57-60 | the duplicate scan finds an account exactly when one has that exact name |
| Users.WithoutUser | user/usuario.py:413 | after deletion the table holds exactly the accounts of other names |
| Users.WithoutUserKeepsOrder | user/usuario.py:413 | the remaining accounts keep table order |
| Users.WithoutAbsentUser | usuario.py:291 | deleting a name nobody has leaves the table unchanged |
| Users.WithoutUserCount | usuario.py:291 | exactly the accounts of that name are removed, and none of that name remains |
| Users.WithoutUserKeepsDistinct | user/usuario.py:413 | deletion keeps names distinct |
| Users.ApplyEdit | user/usuario.py:354-395 | an empty answer cancels; a non-empty answer to option 1, 2 or 4 always updates, replacing only the name, the password hash or the lower-cased, unchecked gender; an age is accepted exactly when all digits, and then only the age changes, to `int()` of the answer (so 0 is accepted); option 5 deletes and 6 leaves |
| Users.FirstNamed | user/usuario.py:398-399 | the position found is the first account of that name; none is found exactly when no account has it |
| Users.ReplaceFirstNamed | user/usuario.py:397-403 | only the first account named as the edited account was originally is replaced; with none, nothing changes |
| Users.ReplaceFirstNamedAt | user/usuario.py:398-400 | the replaced position is the first one holding the name |
| Users.UserDirectory.Register | user/usuario.py:65-131 | the outcome is `Admit`'s, so the appended record carries the name, hash, lower-cased gender and positive age; exactly one account is appended when the answers are admissible, none otherwise; distinct names stay distinct |
| Users.UserDirectory.RegisterLegacy | usuario.py:48-84 | the duplicate scan and the gender check give `AdmitLegacy`'s outcome and record; exactly one account is appended when the name is new and the gender valid, none otherwise; distinct names stay distinct |
| Users.UserDirectory.Delete | user/usuario.py:405-416 | on "s" (any case) the table becomes the filter without that name, otherwise it is unchanged; distinct names stay distinct |
| Users.UserDirectory.SaveProfile | user/usuario.py:397-403 | the enumerate loop leaves the table as `ReplaceFirstNamed` says |
| Users.UserDirectory.EditProfile | user/usuario.py:336-403 | a session of menu passes leaves the table as `EditedTable` says, pass by pass |
| Users.RenameCanDuplicate | user/usuario.py:354-359 | the editor can create two accounts of the same name |
| Users.EditAfterRenameIsLost | user/usuario.py:397-403 | after a saved rename, a later change finds no account under the original name and is not saved |
| Access.FirstMatch | user/usuario.py:229-232 | the first record of the (user, course) pair, or none exactly when no record matches |
| Access.FindAccess | user/usuario.py:229-232 | the `next(...)` scan finds that first record |
| Access.FirstMatchAt | user/usuario.py:229-232 | a matching record with no match before it is the one found |
| Access.Viewed | user/usuario.py:227-250 | an existing pair's record gets visits + 1, time + duration and a new last access, all else unchanged and the table the same length; a new pair appends one record with one visit, the duration, the course's level and `now` as first and last access |
| Access.ViewAddsOneVisit | user/usuario.py:234-248 | every view adds exactly one to the table's total visits |
| Access.ViewKeepsOnePerPair | user/usuario.py:229-248 | a view never creates a second record for a pair |
| Access.ViewLeavesRecord | user/usuario.py:229-248 | after a view the pair has a record |
| Access.TwoViews | user/usuario.py:229-248 | two views of a new course leave one record with two visits, the summed durations, the first time and the last time |
| Access.AccessTracker.RecordView | user/usuario.py:227-250 | the table becomes `Viewed(...)`; one record per pair is kept; total visits grow by one |
| Access.AccessLog.LeaveCatalogue | usuario.py:127-191 | an empty catalogue logs nothing; otherwise exactly one entry with the user and the number of courses is appended |
| Ratings.HasRated | usuario.py:230-233 | the duplicate scan finds a rating exactly when the user rated that course name |
| Ratings.RateChosen | user/usuario.py:310-330 | accepted exactly when the user has not rated the course name and the score parses to 1..5; a duplicate is refused as such; the stored rating carries the course's current level; soundness (scores in range, one per pair) is kept |
| Ratings.Rate | user/usuario.py:254-330 | refused as "no courses" exactly for an empty catalogue; accepted exactly when the menus select a course, it is not yet rated and the score is valid; the rating is for the selected catalogue course, stamped with the time |
| Ratings.ChooseLegacy | usuario.py:209-222 | a course number is accepted exactly when `Base.ParseInt` gives a value in 1..len(cursos), and it picks course `int(answer) - 1` (see Left out for the texts Python's `int()` also accepts) |
| Ratings.RateLegacy | usuario.py:195-253 | refused as "no courses" exactly for an empty catalogue; once a course is picked the outcome is `RateChosen`'s for that course; accepted exactly when the number is valid, the course is not yet rated and the score is in 1..5; the stored rating is the user, the picked course's name and level, the score and no timestamp |
| Ratings.Rows | utils/estatisticas.py:131-133 | the statistics screen sees one row per stored rating |
| Ratings.RatingFeedsStatistics | user/usuario.py:324-330 | a new rating adds its score to the end of its course's group and changes no other group |
| Ratings.RatingLedger.Submit | user/usuario.py:254-334 | exactly one rating is appended when `Rate` accepts, none otherwise; soundness is kept |
| Ratings.RatingLedger.SubmitLegacy | usuario.py:195-259 | the guard scans give `RateLegacy`'s outcome; exactly one rating is appended on success, none otherwise; soundness is kept |
| Catalogue.ContentLines | admins/admin.py:91-103 | the kept lines are a prefix of the typed ones, hold no sentinel and sum to at most the limit; reading stopped at the sentinel or at the line that would exceed the limit |
| Catalogue.ReadContent | admins/admin.py:92-103 | the reading loop with its running total keeps exactly `ContentLines(lines, 5000)` |
| Catalogue.StoredContentWithinLimit | admins/admin.py:92-103 | the stored content has at most 5000 characters besides the newlines that join it |
| Catalogue.LinesBefore | admin.py:104-111 | the older reader keeps the prefix before the first sentinel |
| Catalogue.ReadContentLegacy | admin.py:105-111 | the older reading loop keeps exactly `LinesBefore(lines)` |
| Catalogue.CoursesAtLevelConcat | admins/admin.py:80 | a level's list of a concatenation is the concatenation of the lists |
| Catalogue.CountAtLevelUpdate | admins/admin.py:229-233 | overwriting one course moves at most one unit of count between levels |
| Catalogue.CountAtLevelRemove | admins/admin.py:269 | removing one course lowers only its level's count, by one |
| Catalogue.CheckNewCourse | admins/admin.py:71-89 | refused as an invalid level exactly when the option is not 1/2/3; accepted exactly when the level has fewer than `cap` courses and no course has the name up to case |
| Catalogue.NewCourseKeepsSound | admins/admin.py:80-111 | a course that passes the checks keeps names unique up to case and every level within the cap |
| Catalogue.CountOthersOnce | admins/admin.py:229-230 | the other courses at a level are the level's count less the edited course itself |
| Catalogue.EditedCourse | admins/admin.py:196-235 | the edit is refused exactly when a different course has the new name up to case; an empty name keeps the name, no lines keep the content; a valid level option sets the level exactly when that level has fewer than 7 other courses, and any other option keeps it |
| Catalogue.EditKeepsSound | admins/admin.py:196-235 | an accepted edit keeps names unique up to case and every level within 7 |
| Catalogue.RemoveKeepsSound | admins/admin.py:264-270 | removing a course keeps the catalogue sound |
| Catalogue.CourseCatalogue.Create | admins/admin.py:63-114 | the course is appended exactly when `CheckNewCourse` accepts, with the read content and the chosen level; otherwise nothing changes; the catalogue stays sound under the cap of 7 |
| Catalogue.CourseCatalogue.CreateLegacy | admin.py:67-127 | the same with the cap of 5 and the unlimited older reader |
| Catalogue.CourseCatalogue.Edit | admins/admin.py:169-239 | nothing to edit on an empty catalogue; saved exactly when an entry is picked and the rename is allowed, and then only that position changes, as `EditedCourse` says; otherwise nothing changes; soundness is kept |
| Catalogue.CourseCatalogue.Delete | admins/admin.py:242-274 | removes exactly the picked position, keeping the rest in order, exactly when an entry is picked and "s" confirms; otherwise nothing changes; soundness is kept for any cap |
| AdminLogin.Authenticate | admins/admin.py:41-61 | access is granted exactly when one of the first three attempts matches; the granting attempt is the first that matches; refused after three failed attempts, or when the answers run out |
| AdminLogin.AcceptsOnlyTheAdministrator | admins/admin.py:49 | with an injective digest, only the fixed name and password are accepted |
| AdminReports.CountGenders | admin.py:205-211 | the loop counts exactly the users stored as masculino and as feminino |
| AdminReports.GenderCountsBounded | admin.py:205-211 | the two counts sum to at most the number of users |
| AdminReports.GenderCountIsTally | admin.py:205-211 | each count equals that gender's count in the current screen's gender list |
| AdminReports.GeneralStatistics | admin.py:194-211 | total accesses is the length of the access table; the gender counts are as above and bounded by the number of users |
| AdminReports.ScoresOf | admin.py:240 | a value is among a course's scores exactly when some rating of that course name has it |
| AdminReports.ScoresOfIsGroup | admin.py:240 | they are exactly the group the current statistics screen builds for that course |
| AdminReports.MeanScore | admin.py:243-249 | no mean exactly for no scores; otherwise `sum(notas) / len(notas)`, which is `Numbers.Mean` and lies between the lowest and the highest score |
| AdminReports.MeanScoreInRange | admin.py:243-246 | scores within 1..5 have a mean within 1..5 |
| AdminReports.NoScoresOf | admin.py:240-249 | a course has no scores exactly when no rating names it |
| AdminReports.CourseAverages | admin.py:224-249 | nothing for an empty catalogue; otherwise one line per course in order, with its number of ratings, "no rating" exactly when none names it, and the mean of exactly its scores |
| AdminReports.CourseMeanInRange | admin.py:243-246 | on a sound rating table every course mean lies in 1..5 |
| AdminReports.CourseAveragesInRange | admin.py:238-249 | on a sound rating table every mean line of the per-course screen lies in 1..5 |
| AdminReports.ScoresAtLevel | admin.py:271 | a value is among a level's scores exactly when some rating that stored that level has it |
| AdminReports.LevelAverages | admin.py:253-280 | nothing for an empty rating table; otherwise one line per fixed level, in order, counting the ratings by their stored level, with the mean of exactly those scores |
| AdminReports.LevelAveragesInRange | admin.py:268-280 | on a sound rating table every mean line of the per-level screen lies in 1..5 |
| AdminReports.LevelCountsPartition | admin.py:269-271 | each rating is counted under its stored level: the three counts sum to the ratings whose stored level is one of the three |

## Left out

- Menus, prompts, printing, the `main.py` dispatcher and the repeat-on-error loops are not modelled. Each screen is one pass with the operator's answers as parameters. A refusal returns, where the source would print and ask again or return.
- The personal-data editor's menu loop is modelled (`Users.UserDirectory.EditProfile`), because its passes interact through the saved table.
- A typed stream that runs out ends reading: content lines, login attempts, editor passes. The source would raise EOFError there.
- Answers are taken as already stripped wherever the source strips them.
- Ratings.RateChosen: the score is `int(input())` without `.strip()` in both rating screens. Python's `int()` also accepts surrounding blanks and digit-group underscores. `Base.ParseInt` accepts only an optional sign and ASCII digits.
- Ratings.ChooseLegacy: the course number is `int(input())` without `.strip()` (usuario.py:211). Python picks course 2 for " 2" or "2 " and course 10 for "1_0"; the model refuses these texts as not selected.
- Users.Admit: the age goes through Python's `int()`, which also accepts digit-group underscores such as "1_8"; `Base.ParseInt` refuses them as not an integer.
- Base.Lower: lower-cases ASCII letters only. Python's `str.lower()` folds all of Unicode, so names differing only in accented capitals are not identified here.
- Base.AllDigits: `str.isdigit()` is modelled on ASCII digits only. Python also accepts other Unicode digits, on which `int()` may then fail.
- JSON loading and saving, backups, logging and plotting are not modelled. Tables are in-memory sequences.
- The statistics loader in `utils/estatisticas.py` raises on a missing file, where the other loaders return an empty list. This difference is not modelled.
- Password hashing (bcrypt, SHA-256) is not modelled. Hashes are parameters, and the administrator's SHA-256 comparison takes the digest function as a parameter.
- Clocks are not modelled. Durations (`round(time.time() - start, 2)`) and ISO timestamps are parameters. The two `datetime.now()` calls that fill a new access record are one `now`.
- The older `admin.py` login (`autenticar_admin`, an unlimited loop) is not modelled, nor are the user login screens (`autenticar_usuario`). They check a password against a hash and change no table.
- The `ver_cursos` catalogue listings and the admin `ver_cursos` screen only display.
- The two variants' access tables are modelled as two tables (`Access.AccessTracker`, `Access.AccessLog`). A table mixing both kinds of entries would make the current upsert raise KeyError on a catalogue-view entry. `UsageStatistics` and `AdminReports` read the mixed form.
- Course.level is always present, so the `"não especificado"` default of the rating screens never arises. Every course writer stores a level.
- `av.get("curso", "Desconhecido")` is modelled with a missing course. A stored JSON `null` course would group under `None` in the source, not under "Desconhecido"; that case is not modelled.
- Course names are not checked for emptiness; the model follows the code, which does not check.
- Mode follows `statistics.mode` of Python 3.8 and later. It raises only on empty input and returns the first most frequent value on ties. Older Pythons raise on ties.
- Means and medians are exact reals. Floating-point rounding and the `:.2f` display are not modelled.
