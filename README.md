# Survey analysis engine — a Dafny model

This project models the statistics engine of a small survey web
application. Respondents answer a ten-question Likert questionnaire (answers
1 to 5) and give their age, gender, income and disability status. Staff with
the `admin` or `editor` role see a report page that runs three analyses over
the stored responses:

- a one-way ANOVA of one question's answers, grouped by one categorical key
  (`calculate_anova`);
- Tukey's HSD post-hoc comparison of the groups, when the ANOVA is
  significant (`calculate_tukey_hsd`);
- a two-way ANOVA with interaction over two categorical factors
  (`calculate_two_way_anova`).

The project also models the pieces around the engine. These are the age and
income brackets the database query derives, and the gates on the report page
that decide which analysis runs. It also models the submission validator that
decides whether a response is stored. Finally, it models the session helpers:
the single-use CSRF token, the 30-minute session renewal, and the login and
role gates.

Every statistic is computed over Dafny `real`, which is exact. Each engine
is an imperative method that follows the source loop for loop:
`foreach` appends to `$groups[$name][]` and `$cells[$a][$b][]`, running sums,
nested `for` loops. Each engine is proved equal to a specification function
(`OneWay`, `Tukey`, `TwoWay`). The properties are lemmas about those
functions: sums-of-squares decompositions, degree-of-freedom identities, the
order and shape of the comparisons, and the order of the error checks.

Modules, leaves first: `Wrappers` (Option), `Records` (rows and brackets),
`Sums` (power sums and squared deviations), `Grouping` (the one-way
grouping), `OneWayAnova`, `PairOrder` (the pair enumeration of the Tukey
loops), `TukeyHsd`, `Levels` (sorting level names), `CrossTable` (the
two-way cross-tabulation and its sums), `TwoWayAnova`, `TwoWayLaws`,
`AnalysisPage` (the report page's gates), `Submission` and `Sessions`.

Where the source and its design notes disagree, the model follows the code:

- Significance uses the fixed thresholds 2.5 and 4.0 (analysis.php:177-178).
  There is no F-table lookup.
- Tukey uses the fixed q = 3.63 (analysis.php:196) and ignores the degrees
  of freedom it is given. There is no q-table lookup.
- The two-way analysis computes no significance at all.
- The one-way grand mean is taken over every observed value, including the
  values of singleton groups that are then dropped (analysis.php:137, 152).
  So `ss_between + ss_within` equals the total sum of squares only when no
  group was dropped (`OneWayAnova.OneWayTotalWhenNothingDropped`). In
  general it equals the sum of squared deviations of the retained values
  from that grand mean (`OneWayAnova.OneWayDecomposition`).
- The one-way engine also refuses fewer than three retained values
  (analysis.php:150). With two groups of two or more values each this never
  fires on its own (`OneWayAnova.OneWayNoneIff`).
- The two-way engine's degree-of-freedom error can never be returned, because
  a complete grid always has `N > a·b` (`TwoWayLaws.NeverBadDegreesOfFreedom`).

## Model

| member | source | states |
|---|---|---|
| `Records.AgeGroup` | analysis.php:102 | the age bracket is one of the five names, and it is bracket i exactly when the age lies in band i of the cuts 30, 40, 50, 60; a NULL age fails every `WHEN` and gets the `ELSE` bracket `60代以上` |
| `Records.IncomeGroup` | analysis.php:103 | the income bracket is one of the three names, and it is bracket i exactly when the income lies in band i of the cuts 400, 800; a NULL income gets the `ELSE` bracket `800万円以上` |
| `Records.OneBracket` | analysis.php:102-103 | with ascending cuts, every column value, NULL included, lies in exactly one bracket |
| `Records.AgeBracketsPartition` | analysis.php:102 | every age, NULL included, falls in exactly one of five distinct brackets |
| `Records.IncomeBracketsPartition` | analysis.php:103 | every income, NULL included, falls in exactly one of three distinct brackets |
| `Grouping.Retain` | analysis.php:140-144 | the `unset` loop leaves no more groups than there were |
| `Grouping.RetainMembers` | analysis.php:140-144 | the groups left after the `unset` loop are exactly the groups with at least two values |
| `Grouping.GroupByCoversAllValues` | analysis.php:132-138 | the groups hold exactly as many values as `$all_values`, with the same sum and sum of squares |
| `Grouping.GroupByMeaning` | analysis.php:132-138 | group names are distinct; each group holds exactly the values of the rows with that key, in row order; a name has a group exactly when some row observed it |
| `Grouping.RetainCount` | analysis.php:140-148 | the retained groups hold at least two values per group, and no more values than before |
| `Grouping.RetainDistinct` | analysis.php:140-144 | dropping groups keeps their names distinct |
| `OneWayAnova.CollectGroups` | analysis.php:130-138 | the first loop builds the grouping and `$all_values` of the reference reading |
| `OneWayAnova.DropSmallGroups` | analysis.php:140-144 | the `unset` loop leaves the groups with at least two values, in order |
| `OneWayAnova.TotalCount` | analysis.php:146-148 | `$n_total` is the number of retained values |
| `OneWayAnova.SumsOfSquares` | analysis.php:154-164 | the nested loop accumulates `Σ n_g (mean_g − grand)²` and `Σ_g Σ_v (v − mean_g)²` |
| `OneWayAnova.Summarise` | analysis.php:171-185 | the mean squares, F (0 when `ms_within` is not positive) and the fixed-threshold significance level are assembled into the result |
| `OneWayAnova.CalculateAnova` | analysis.php:128-186 | the engine returns exactly the specification `OneWay`: null or the result over the retained groups around the grand mean of all values |
| `OneWayAnova.SignificanceLevels` | analysis.php:176-178 | the level is 0.01 iff F > 4.0, 0.05 iff 2.5 < F ≤ 4.0, and 0 iff F ≤ 2.5 |
| `OneWayAnova.OneWayNoneIff` | analysis.php:146-150 | there is no result exactly when fewer than two groups with two or more values remain |
| `OneWayAnova.OneWayFew` | analysis.php:145-150 | with fewer than two retained groups or fewer than three values there is no result |
| `OneWayAnova.OneWayGroups` | analysis.php:140-144 | the returned groups are exactly the groups of at least two values, in first-seen order, with distinct names |
| `OneWayAnova.OneWayDegreesOfFreedom` | analysis.php:166-169 | `df_between = k − 1 ≥ 1`, `df_within = n − k ≥ k`, and together they are `n − 1` |
| `OneWayAnova.GroupsDecomposition` | analysis.php:154-164 | over any groups and any centre, the squared deviations of all values split into the within-group and between-group sums |
| `OneWayAnova.OneWayDecomposition` | analysis.php:152-167 | `ss_between + ss_within` is the sum of squared deviations of the retained values from the grand mean of all observed values |
| `OneWayAnova.OneWayTotalWhenNothingDropped` | analysis.php:137-164 | when no group was dropped, `ss_between + ss_within` is the total sum of squares of all observed values |
| `OneWayAnova.OneWayBetweenShift` | analysis.php:137-160 | `ss_between` exceeds the between-group sum around the retained values' own mean by `n (mean_retained − grand)²` |
| `OneWayAnova.OneWayFValue` | analysis.php:171-178 | the mean squares are SS/df, F is `ms_between/ms_within` or 0, all are non-negative, and the level follows the thresholds |
| `OneWayAnova.SsNonNegative` | analysis.php:154-164 | both sums of squares are non-negative |
| `PairOrder.PairsBeforeClosed` | analysis.php:205-206 | the outer loop's first i rows visit `i(2k − i − 1)/2` pairs |
| `PairOrder.AllPairsAt` | analysis.php:205-206 | the pair (a, b), a < b, is visited at position `PairIndex(k, a, b)`: ordered by a, then by b |
| `TukeyHsd.GroupMeans` | analysis.php:198-203 | `$means` holds each group's mean and size under its name, and `array_keys` lists the names in group order |
| `TukeyHsd.CompareRow` | analysis.php:206-224 | the inner loop appends the comparisons of group i with every later group |
| `TukeyHsd.ComparePair` | analysis.php:207-223 | one pass of the inner loop appends the comparison of groups i and j, built from the `$means` table, after those already made |
| `TukeyHsd.CalculateTukeyHsd` | analysis.php:191-227 | the engine returns exactly the specification `Tukey` |
| `TukeyHsd.TukeyNoneIff` | analysis.php:193-194 | there is no result exactly when k < 2 or `ms_within ≤ 0` |
| `TukeyHsd.TukeyIgnoresDf` | analysis.php:191-196 | the result does not depend on `df_within` |
| `TukeyHsd.TukeyPairs` | analysis.php:203-226 | a result has exactly k(k − 1)/2 comparisons, and the comparison of groups i < j sits at `PairIndex(k, i, j)` |
| `TukeyHsd.CompareMeaning` | analysis.php:209-223 | each comparison names its groups, its diff is the absolute difference of their means, hsd² is positive, and it is significant iff diff > hsd for the non-negative root hsd of hsd² |
| `TukeyHsd.SignificantIffExceeds` | analysis.php:216-222 | for non-negative d and h, comparing squares decides `d > h` |
| `Levels.SortUnique` | analysis.php:251-252 | two lists of the same distinct names sort to the same list |
| `Levels.SortIncreasing` | analysis.php:251-252 | sorting distinct names gives a strictly increasing list |
| `Levels.SortElements` | analysis.php:251-252 | sorting keeps the names and their multiplicities |
| `Levels.DedupMeaning` | analysis.php:245-250 | the `in_array`-guarded appends give each observed name exactly once |
| `CrossTable.CellsOfMeaning` | analysis.php:233-242 | `$cells` has distinct keys, each cell holds exactly the values observed at its two levels, and its keys are exactly the observed levels |
| `CrossTable.Partition` | analysis.php:264-299 | over a grid holding every observation's levels, the cells' counts, totals and sums of squares are those of `$all_values` |
| `CrossTable.GridSplit` | analysis.php:284-315 | the squared deviations within cells plus `Σ sum²/n` over the cells equal the cells' sum of squares |
| `CrossTable.GridSizeComplete` | analysis.php:254-260 | a grid that passed the cell check holds at least two values per cell |
| `TwoWayAnova.CollectCells` | analysis.php:233-242 | the first loop builds the table `$cells` and `$all_values` of the observations |
| `TwoWayAnova.CollectColumns` | analysis.php:245-250 | `$factorB_levels` holds every factor B level under some factor A level, once |
| `TwoWayAnova.CheckCells` | analysis.php:254-260 | the check passes exactly when every cell of the sorted grid has at least two values |
| `TwoWayAnova.SquaredDeviations` | analysis.php:270-271 | the loop sums `(v − c)²` over the values |
| `TwoWayAnova.ZeroTotals` | analysis.php:273-282 | every row and column total and count starts at 0 |
| `TwoWayAnova.DescribeCell` | analysis.php:287-294 | a cell's count, sum, mean and squared deviations from its mean |
| `TwoWayAnova.AccumulateRow` | analysis.php:286-298 | one level's pass sets its row total and count to its margins, adds each cell to its column, records the cell summaries and adds the within-cell deviations to `ss_error` |
| `TwoWayAnova.AccumulateCells` | analysis.php:284-299 | the nested loop leaves every row and column margin, `cell_stats` and `ss_error` of the grid |
| `TwoWayAnova.SsFromTotals` | analysis.php:301-307 | the loop sums `total²/count` over the levels' margins |
| `TwoWayAnova.SsRow` | analysis.php:311-313 | the inner loop sums `sum²/n` over one level's cells |
| `TwoWayAnova.SsCells` | analysis.php:309-315 | the nested loop sums `sum²/n` over every cell of the grid |
| `TwoWayAnova.Summarise` | analysis.php:326-344 | the mean squares (0 for the interaction when its df is 0), the F ratios (0 when `ms_error` is not positive) and the result array |
| `TwoWayAnova.SortedLevels` | analysis.php:244-252 | the sorted keys of `$cells` and the sorted collected factor B levels are the sorted distinct observed levels |
| `TwoWayAnova.CountsPositive` | analysis.php:302-306 | after the cell check, no row or column count is zero, so the divisions are defined |
| `TwoWayAnova.Analyse` | analysis.php:267-344 | the computation after both checks equals the specification `Tabulate` |
| `TwoWayAnova.CalculateTwoWayAnova` | analysis.php:232-345 | the engine returns exactly the specification `TwoWay`: the cell error, the levels error, the df error or the result table |
| `TwoWayLaws.LevelsFacts` | analysis.php:244-252 | both level lists are strictly increasing, distinct and hold exactly the observed levels |
| `TwoWayLaws.NoObservationsTooFewLevels` | analysis.php:254-265 | with no usable row the answer is the levels error, reached before any division by N |
| `TwoWayLaws.CellCheckFirst` | analysis.php:254-265 | the cell check runs before the levels check: whenever some observed pair of levels has fewer than two values, the answer is the cell error, however many levels each factor has |
| `TwoWayLaws.SingleRowCellError` | analysis.php:254-265 | so any single row carrying both factors and the value, one level per factor, gets the cell error and not the levels error |
| `TwoWayLaws.ErrorDegreesPositive` | analysis.php:322 | a complete grid of at least one level each has `N > a·b` |
| `TwoWayLaws.NeverBadDegreesOfFreedom` | analysis.php:319-324 | the degree-of-freedom error is never returned |
| `TwoWayLaws.TableLevels` | analysis.php:342-343 | a result's level lists are the sorted distinct observed levels, at least two each |
| `TwoWayLaws.TableCells` | analysis.php:294 | `cell_stats[i][j]` is the mean, count and sum of the cell of the i-th A level and j-th B level, which holds at least two values |
| `TwoWayLaws.TableCellCounts` | analysis.php:294-296 | the counts in `cell_stats` add up to N |
| `TwoWayLaws.TableDegreesOfFreedom` | analysis.php:319-340 | `df_a = a − 1`, `df_b = b − 1`, `df_ab = (a − 1)(b − 1)`, `df_error = N − ab > 0`, total `N − 1`, and the four add up to the total |
| `TwoWayLaws.TableSumsOfSquares` | analysis.php:267-317 | `ss_a + ss_b + ss_ab + ss_error = ss_total`, and the error and total sums are non-negative |
| `TwoWayLaws.SumsOfSquaresAddUp` | analysis.php:267-317 | the same decomposition stated over the observations |
| `AnalysisPage.AnovaGroupsUsable` | analysis.php:400-402 | a one-way result's groups are non-empty and distinctly named, as Tukey needs |
| `AnalysisPage.RunAnalyses` | analysis.php:393-420 | the analysis block sets the page variables exactly as the specification `Analyses` |
| `AnalysisPage.AnalysesGate` | analysis.php:393-398 | nothing is analysed unless there is no earlier error, the role is an analyst role and more than ten rows are stored; a failed load sets only the load error |
| `AnalysisPage.RoleGate` | analysis.php:393 | the page analyses exactly for the roles `admin` and `editor` |
| `AnalysisPage.TukeyAfterSignificantAnova` | analysis.php:400-403 | Tukey is reported exactly when the one-way result exists with a positive significance level, and it is never null then |
| `AnalysisPage.TwoWayGate` | analysis.php:406-419 | the two-way analysis runs only with more than 20 rows and two different factor keys; otherwise exactly one message says why |
| `AnalysisPage.MessagesDiffer` | analysis.php:408-418 | the three two-way error strings and the two page messages are all different |
| `Submission.Validate` | submit.php:23-45 | the validation block builds exactly the error list `Errors`, with the answer loop stopping at the first bad entry |
| `Submission.CheckFields` | submit.php:24-35 | the four field checks append exactly the messages of `FieldErrors`, in field order |
| `Submission.CheckAnswers` | submit.php:36-45 | the count check and the answer loop give exactly `AnswerErrors`: one message for a missing or short answer set, otherwise one message exactly when some entry is bad |
| `Submission.Submit` | submit.php:47-52 | under the given rule set, a form is rejected exactly when its error list is non-empty, and then with that list |
| `Submission.Bound` | submit.php:65-67 | a number that was not posted binds `null`, and a posted one binds its integer |
| `Submission.AcceptedFields` | submit.php:23-45 | under either rule set, a form that passes has no invalid number, listed choices and an answers array |
| `Submission.BindAnswers` | submit.php:70-73 | the answers to q1..q10 are bound in question order, `null` for a key that is absent |
| `Submission.HandleSubmission` | submit.php:23-85 | under the given rule set, the handler stores a response only when validation left no error, binding the posted fields and answers |
| `Submission.ErrorsMeaning` | submit.php:23-45 | each message is in the list exactly when its check fails |
| `Submission.MessagesDistinct` | submit.php:24-42 | the six messages are pairwise different |
| `Submission.AtMostOneAnswerError` | submit.php:36-45 | the answer check adds at most one message, so there are at most five |
| `Submission.AcceptedIff` | submit.php:23-45 | a form passes exactly when every field check and every answer passes |
| `Submission.AcceptedKeys` | submit.php:24-45 | under the intended rules, an accepted form has age and income ≥ 0, listed choices, and answers under exactly the keys q1..q10, each valued 1 to 5 |
| `Submission.StoredResponse` | submit.php:59-73 | under the intended rules, a stored response carries a non-negative age and income, listed choices and the ten answers in question order, each a string valued 1 to 5 |
| `Submission.StoredFields` | submit.php:59-73 | under either rule set, a stored response carries listed choices, `null` exactly for a number that was not posted, and for each of q1..q10 the posted answer or `null` when the key is absent, each posted one casting to 1..5 |
| `Submission.CastReadsDecimal` | submit.php:40 | `(int)` reads the decimal spelling of a natural number back |
| `Submission.MissingAgeAccepted` | submit.php:17-32 | as written, a form without age and income fields passes and is stored with `null` for both, which the brackets then count as `60代以上` and `800万円以上` |
| `Submission.MissingAgeRejected` | submit.php:17-32 | under the intended rules that form is rejected with both the age and the income message |
| `Submission.NewlineKeyAccepted` | submit.php:40 | as written, ten answers keyed q1..q9 and "q1\n" pass although q10 is missing, and the stored q10 is `null` |
| `Submission.NestedAnswerAccepted` | submit.php:40 | as written, a posted array of one entry passes as an answer and is stored as q1; the intended rules reject that form |
| `Submission.IntendedStricter` | submit.php:23-45 | whatever the intended rules accept, the rules as written accept too |
| `Sessions.Renewal` | functions.php:18-23 | the id is renewed iff a stamp exists and more than 1800 s have passed; the stamp becomes now when unset or renewed and is kept otherwise; afterwards `now − created_at ≤ 1800` |
| `Sessions.RenewalIdempotent` | functions.php:18-23 | a second start at the same time changes nothing and renews nothing |
| `Sessions.Session.Start` | functions.php:16-23 | the `created_at` handling updates the stamp and the renewal count as `Renewal` says and leaves the other session variables alone |
| `Sessions.UnhexHex` | functions.php:50 | reading a `bin2hex` token back gives the random bytes |
| `Sessions.HexInjective` | functions.php:50 | different random bytes give different tokens |
| `Sessions.TokenAcceptance` | functions.php:61-68 | a non-empty token passes against itself; nothing passes with no stored token; a passing token matches the stored bytes |
| `Sessions.Session.GenerateCsrfToken` | functions.php:48-54 | the returned token is the hex of the random bytes and is the stored session token |
| `Sessions.Session.ValidateCsrfToken` | functions.php:61-69 | the result is false for an empty, missing or different token, and the session is then unchanged; on success the stored token is removed |
| `Sessions.TokenUsedOnce` | functions.php:48-69 | a generated token passes the first validation and fails the second |
| `Sessions.LoginGate` | functions.php:75-80 | the page goes on exactly for a logged-in user, and redirects to the given page otherwise |
| `Sessions.RoleGateMeaning` | functions.php:87-93 | the role gate goes on exactly for a logged-in user whose role is strictly in the allowed list; it sends others to the login page or the given page |
| `Sessions.Session.RequireLogin` | functions.php:75-80 | the gate, and the login message set before a redirect |
| `Sessions.Session.RequireRole` | functions.php:87-93 | the login gate with its default target first, then the role check with its message |

## Left out

- Database access is not modelled: `get_total_count`, `get_demographics_data`, `get_radar_avg_scores`, the query in `get_all_survey_data`, and the insert in submit.php. The rows, the stored row count and a failed load are inputs.
- Rows are taken as the query returns them, with `age_group` and `income_group` already among their categorical columns. The bracket functions model the SQL `CASE`, but nothing forces a given row's columns to agree with them.
- Only categorical columns (gender, disability and the two brackets) can be group keys or factors. Grouping by a numeric column such as `age` is not modelled.
- PHP's conversion of numeric-string array keys to integers is not modelled. Neither is `sort()` on mixed or numeric strings. Level names are sorted by character code, which is how `sort()` orders the non-numeric level names this page uses.
- Floating point is not modelled: every statistic is an exact `real`, with no rounding.
- TukeyHsd.CalculateTukeyHsd: stores `hsd²` instead of `hsd`, because there is no square root over `real`. `significant` is decided as `diff² > hsd²`, and `TukeyHsd.CompareMeaning` proves this equals `diff > hsd` for the non-negative root.
- TukeyHsd.CalculateTukeyHsd: requires every group to be non-empty. The source divides by each group's count at analysis.php:200, before its `n == 0` guard at line 214, so an empty group would end the request there. The page only passes one-way results, and `AnalysisPage.AnovaGroupsUsable` proves their groups are non-empty.
- HTML output, Tailwind/Chart.js rendering, the chart-data preparation (analysis.php:424-442) and `h()` are presentation and are not modelled.
- The request-parameter defaults of the report page (analysis.php:354-369) are not modelled. The group key, question and factor keys are inputs.
- The report page's CSRF check and the loading of the demographic summaries (analysis.php:354-391) are not modelled, apart from the `$error_message` they may set, which is an input.
- The cookie parameters of `session_start_secure` and `session_start` itself are not modelled. `session_regenerate_id` is modelled as a renewal counter.
- `time()` is the parameter `now`, and `random_bytes(32)` is the parameter `randomBytes`.
- `hash_equals` is modelled as string equality: its constant-time behaviour is not modelled.
- `redirect()` and `exit` become the `Gate` result. Nothing after a redirect runs in the model either.
- `filter_input(…, FILTER_VALIDATE_INT)` is a parameter. Its result is one of: not posted, not an integer, or the integer.
- Submission.TextToInt: models `(int)` on a string as leading white space, an optional sign and leading digits. Exponent notation (`"1e1"` casts to 10 in PHP) and the saturation of very long digit strings are not modelled.
- The POST-method check and the CSRF check at the top of submit.php (lines 6-14) are not part of `Submission.HandleSubmission`. The token check itself is `Sessions.Session.ValidateCsrfToken`.
- The PDO exception path of the insert (submit.php:78-82) is I/O and is not modelled.
- `password_hash`, `password_verify`, the CSV download, and the user-administration and CRUD scripts are not modelled. They are request and database plumbing.

## Findings

| source | as written | input that shows it | evidently intended | confidence | as-written member | corrected member |
|---|---|---|---|---|---|---|
| submit.php:17-32 | The age check (`$age === false`, or `$age < 0`) lets through the `null` that `filter_input` returns for a field that was not posted, because `null < 0` is false; the same holds for income | a POST with valid gender, disability and answers but no `age` and no `income` field: it is stored with NULL age and income, and the bracket `CASE` (analysis.php:58, 63, 102-103) then counts it in the top age and income brackets of every bracket-grouped analysis | a missing age or income is rejected | high, not executed | `Submission.MissingAgeAccepted` | `Submission.MissingAgeRejected` |
| submit.php:40 | The key pattern lets its `$` match before a final line feed, so a key `"q1\n"` passes and ten keys need not be q1..q10 | answers under q1..q9 and `"q1\n"`, each `"3"`: accepted, and q10 is then missing from the insert | the answers have exactly the keys q1..q10 | medium, not executed | `Submission.NewlineKeyAccepted` | `Submission.AcceptedKeys` |
| submit.php:40 | `(int)$value` turns a non-empty array into 1, so an answer posted as an array passes the 1..5 check | `answers[q1][]=9` with the other nine answers valid | an answer must be a single value from 1 to 5 | medium, not executed | `Submission.NestedAnswerAccepted` | `Submission.StoredResponse` |

The handler in the model (`Submission.Submit`, `Submission.HandleSubmission`)
takes the rule set as a parameter: `Rules.AsWritten` is submit.php as it
stands, and `Rules.Intended` is the corrected handler.
`Submission.IntendedStricter` shows that the corrected rules only remove
acceptances.
