# CourseRecommender, modelled in Dafny

CourseRecommender is a desktop survey. A student picks a status,
Undergraduate or Graduate. They then rate, on a five-point Likert scale,
the statements attached to each degree program of their tier. The
statements come in a shuffled order, and the student moves through them
with Back and Next buttons. When the last statement is answered, the
programs are ranked. Each program's raw total comes from the sum of its
answers, and each program is reported with a percentage fit.

This project models the part of `main.py` that decides what the student
is asked and what they are told:

- `Tiers` (`tiers.dfy`) holds the status string and the tier test. A name
  containing "Master of Science" is a graduate program; any other name is
  undergraduate. It also holds the list comprehension both operations use
  to keep one tier, and the `InvalidStatus` error they raise for any other
  status.
- `Ranking` (`ranking.dfy`) is `sorted(..., key=total, reverse=True)`. It
  is a stable sort, highest total first, with ties kept in input order.
- `Scoring` (`scoring.dfy`) is `get_recommendations`: the totals, the
  filter, the sort, and the percentage fit `round((total - k) / (5k - k) * 100)`.
  The fit is 0 when a program has no answers.
- `Catalog` (`catalog.dfy`) is the `program_questions` dictionary and
  `get_flattened_questions`, which turns the shuffled program order into
  (program, statement) pairs.
- `Navigation` (`navigation.dfy`) is the survey window as a class. It
  holds the shuffled pairs, the index of the statement on screen, and the
  nested `user_scores` dictionary. Its methods model the radio buttons,
  Back and Next.

The two loops of `get_recommendations` are two methods (`MatchScores`,
`AttachFits`), and the two nested loops of `get_flattened_questions` are
one method (`FlattenedQuestions`). Each is proved against a specification
function (`Totals`, `Recommend`, `QuestionsFor`), and the properties of
those functions are lemmas.

Two behaviours of the code are worth stating outright:

- Going Back clears the answer to the statement returned to, because
  `show_question` binds a fresh `IntVar(0)` to the statement it shows
  (main.py:257, 267) (`Navigation.Survey.Back`).
- Python's `sorted` is stable under `reverse=True`, so programs with equal
  totals keep the order in which they were first recorded
  (`Scoring.RecommendStable`).

## Model

| member | source | states |
|---|---|---|
| Tiers.FilterTier | main.py:29-32 | the kept programs are exactly the given programs of the tier, and there are no more of them than were given |
| Tiers.FilterTierAppend | main.py:223-226 | filtering distributes over concatenation |
| Tiers.FilterTierWhole | main.py:223-226 | a list wholly inside the tier passes unchanged; a list wholly outside it gives the empty list |
| Tiers.FilterTierDistinct | main.py:29-32 | filtering a list without duplicates gives a list without duplicates |
| Tiers.FilterTierCount | main.py:29-32 | each program of the tier is kept exactly as often as it occurs; any other program is dropped |
| Tiers.FilterTierPartition | main.py:29-32 | the undergraduate and graduate results together are a permutation of the input |
| Tiers.FilterTierPermutation | main.py:223-226 | filtering two reorderings of one list gives reorderings of one result, of equal length |
| Tiers.ContainsIffOccurs | main.py:30 | the recursive `in` test holds exactly when the qualifier occurs at some position |
| Tiers.FirstLetterAbsent | main.py:30 | a name lacking the qualifier's first letter does not contain the qualifier |
| Tiers.TierIsExclusive | main.py:29-32 | every program is in exactly one of the two tiers |
| Tiers.DistinctPermutation | main.py:217 | a reordering of a duplicate-free list is duplicate-free |
| Ranking.InsertByTotal | main.py:37 | one insertion step keeps every program and adds exactly the inserted one |
| Ranking.SortByTotal | main.py:37 | the sorted list is a permutation of its input |
| Ranking.SortByTotalMembers | main.py:37 | the sorted list has the input's length and exactly its members |
| Ranking.SortByTotalDistinct | main.py:37 | sorting a duplicate-free list gives a duplicate-free list |
| Ranking.InsertKeepsDistinct | main.py:37 | inserting a new program into a duplicate-free ranking keeps it duplicate-free |
| Ranking.InsertKeepsDescending | main.py:37 | inserting into a descending ranking keeps it descending |
| Ranking.SortByTotalDescending | main.py:37 | the sorted list is in descending order of total |
| Ranking.InsertWithTotal | main.py:37 | insertion puts the new program in front of every program with the same total |
| Ranking.SortByTotalStable | main.py:37 | for every total, the programs with that total keep their input order |
| Scoring.SumAppend | main.py:25 | the sum of a concatenation is the sum of its parts |
| Scoring.SumOrderIndependent | main.py:25 | a program's total does not depend on the order of its answers |
| Scoring.SumOfLikert | main.py:25 | k answers from 1 to 5 total between k and 5k |
| Scoring.SumOfConstant | main.py:25 | k equal answers c total c times k |
| Scoring.RoundHalfEven | main.py:47 | `round` gives the nearest integer to the quotient, and the even one on a tie |
| Scoring.RoundHalfEvenUnique | main.py:47 | only one integer meets that description |
| Scoring.PercentageFit | main.py:43-47 | a program with no answers has fit 0 |
| Scoring.FitWithinBounds | main.py:43-47 | any total between the all-1 and the all-5 total gives a fit in [0, 100] |
| Scoring.FitOfMinimum | main.py:43-47 | all answers 1 give fit 0 |
| Scoring.FitOfMaximum | main.py:43-47 | all answers 5 give fit 100 |
| Scoring.FitOfDescendingAnswers | main.py:43-47 | the answers 5, 4, 3, 2, 1 give fit 50 |
| Scoring.FitOfUniformAnswers | main.py:43-47 | a non-empty run of 1s gives 0 and a non-empty run of 5s gives 100 |
| Scoring.RecommendSelectsTier | main.py:29-37 | the result is a permutation of the recorded programs of the tier: exactly those programs, each once |
| Scoring.RecommendDescending | main.py:37 | the result is in descending order of raw total |
| Scoring.RecommendStable | main.py:37 | programs with equal totals keep the order in which they were recorded |
| Scoring.RecommendUnansweredFit | main.py:47 | a program recorded without answers is reported with fit 0 |
| Scoring.RecommendFitsInRange | main.py:43-47 | with Likert answers, every reported fit is in [0, 100] |
| Scoring.MatchScores | main.py:23-26 | the loop builds each recorded program's raw total |
| Scoring.AttachFits | main.py:40-48 | the loop pairs the k-th ranked program with its fit, for every k |
| Scoring.GetRecommendations | main.py:21-50 | an invalid status is an error, and only an invalid one; a valid status yields the ranked programs of its tier with their fits |
| Catalog.FlattenLength | main.py:231-234 | the number of pairs is the number of statements of the programs listed |
| Catalog.FlattenMembers | main.py:231-234 | a pair is produced exactly when its program is listed and its statement belongs to that program |
| Catalog.FlattenAt | main.py:231-234 | the j-th statement of the i-th program sits after all statements of the earlier programs |
| Catalog.UniformQuestionCount | main.py:231-234 | programs with n statements each give n pairs per program |
| Catalog.QuestionsForTier | main.py:222-234 | a pair is asked exactly when its program is listed, is in the tier, and owns the statement |
| Catalog.FlattenDistinct | main.py:231-234 | distinct programs with distinct statements give distinct pairs |
| Catalog.CatalogNames | main.py:133-204 | the catalog names ten programs, each once |
| Catalog.BSComputerScienceEntry | main.py:134-140 | this program has five distinct statements |
| Catalog.BSCybersecurityEntry | main.py:141-147 | this program has five distinct statements |
| Catalog.BSDataAnalyticsEntry | main.py:148-154 | this program has five distinct statements |
| Catalog.BSNetworkEngineeringEntry | main.py:155-161 | this program has five distinct statements |
| Catalog.BSSoftwareEngineeringEntry | main.py:162-168 | this program has five distinct statements |
| Catalog.BSCloudComputingEntry | main.py:169-175 | this program has five distinct statements |
| Catalog.BSInformationTechnologyEntry | main.py:176-182 | this program has five distinct statements |
| Catalog.MSCybersecurityEntry | main.py:183-189 | this program has five distinct statements |
| Catalog.MSDataAnalyticsEntry | main.py:190-196 | this program has five distinct statements |
| Catalog.MSITManagementEntry | main.py:197-203 | this program has five distinct statements |
| Catalog.ShippedCatalogKeys | main.py:133-204 | `program_questions` has an entry for each of the ten programs and for no other |
| Catalog.ShippedCatalogEntries | main.py:133-204 | every entry of `program_questions` has five distinct statements |
| Catalog.UndergraduateNamesLackQualifier | main.py:134-182 | the seven Bachelor names do not contain the letter M |
| Catalog.GraduateNamesStartWithQualifier | main.py:183-203 | the three graduate names start with "Master of Science" |
| Catalog.CatalogTiers | main.py:223-226 | the first seven programs are the undergraduate tier and the last three the graduate tier |
| Catalog.CatalogQuestionTotals | main.py:215-234 | in any shuffled order, an undergraduate gets 35 distinct pairs and a graduate 15 |
| Catalog.FlattenedQuestions | main.py:220-236 | an invalid status is an error, and only an invalid one; a valid status yields the pairs of its tier, program by program in the given order |
| Navigation.Record | main.py:266-267 | the written statement holds the new value and every other statement keeps its own |
| Navigation.RecordInRange | main.py:266-267 | writing a value from 0 to 5 keeps every stored value from 0 to 5 |
| Navigation.Survey.Start | main.py:238-242 | the survey opens at the first pair, shown with nothing selected |
| Navigation.Survey.Select | main.py:262-264 | a radio button stores its score for the statement on screen, which is then answered |
| Navigation.Survey.ShowQuestion | main.py:244-267 | showing a statement resets only that statement to 0, and every earlier statement stays answered |
| Navigation.Survey.Back | main.py:286-291 | at the first statement nothing changes; otherwise the index drops by one and that statement is reset to 0 |
| Navigation.Survey.Next | main.py:293-310 | with nothing selected nothing changes; otherwise the index rises by one, the survey completes exactly at the end, and on completion every statement is answered |

## Left out

- The tkinter window, labels, frames, buttons and `centered_label` are left out. So are the colour bar and the rank labels of `show_recommendations` and the "Survey Completed!" screen. The model keeps the state these screens read and write.
- The "Please select an answer." label is left out. Its creation passes an option that `ttk.Label` rejects, so only its effect is modelled: the index does not move.
- The Next button starts disabled and is enabled by the first selection. The model does not use this. `Navigation.Survey.Next` checks the stored value instead, as `next_question` does.
- Both `random.shuffle` calls are left out. The shuffled program order is a parameter (`programs`), and so is the shuffled pair order (`questions` of `Navigation.Survey.Start`).
- `Navigation.Survey.Start` requires a non-empty, duplicate-free list of pairs. An empty list makes `show_question` fail on its first index. A duplicate would share one answer slot. The shipped catalog yields neither (`Catalog.CatalogQuestionTotals`).
- `Scoring.PercentageFit` computes `round` exactly. The source rounds a floating-point quotient, whose representation error the model does not capture.
- The scoring input drops the statement texts. `Scoring.Responses` keeps each program's answer values and the order in which programs were first recorded, which is all that `get_recommendations` reads. The model does not derive this order from the survey's insertion order.
- `IntVar.get` becomes a plain integer value.
- The unused module-level `programs` list and the unused `pandas` import are left out.
- The program names are written as a shared prefix plus the rest of the name; the strings are the same.
