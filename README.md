# Student portal grade calculators, in Dafny

This project models the grade arithmetic of three pages of the student portal:

- **SGPA calculator** (`app/sgpa-calculator/page.tsx`). The page keeps a roster of subjects, each with a credit and a letter grade. It keeps the subjects whose credit is positive and whose grade is on the scale (A+ 10, A 9, B+ 8, B 7, C+ 6, C 5, D 4, F 0). From those it computes the credit-weighted mean of the grade points, rounded to two decimals. It also shows a motivational message and can build a downloadable report.
- **CGPA calculator** (`app/cgpa-calculator/page.tsx`). This is the same shape of page over semesters. Each semester has an SGPA and a credit count. A semester counts when its SGPA is in (0, 10] and its credits are positive.
- **CGPA predictor** (`app/cgpa-predictor/page.tsx`). Given the current CGPA C over E earned credits, a target T and the N credits of the next semester, it computes the SGPA the next semester needs: R = (T·(E+N) − C·E)/N, rounded to two decimals. Three guards are checked in order first. It then gives a verdict on R and the letter grade R corresponds to.

Files:

- `common.dfy` (module `Common`) holds shared pieces:
  - `Math.round(x * 100) / 100` as `Round2`;
  - the array operations the pages apply (filter, conditional map, a summing `forEach`);
  - the first-match threshold lookup behind the message chains;
  - the decimal text of a row number.
- `roster.dfy` (`Roster`) holds the add/remove/update-by-id operations both calculators use on their row lists.
- `sgpa.dfy`, `cgpa.dfy` and `predictor.dfy` hold one module per page.

Each page's React state is a class whose fields are the `useState` variables. Its handlers are methods that update those fields. Each method is specified by a pure function of the state (`ComputeSgpa`, `ComputeCgpa`, `Predict`, `RemoveRow`, `UpdateRows`), and the page's properties are proved about those functions.

Points where the model shows the code's behaviour more precisely than a plain reading suggests:

- **Duplicate ids.** Ids come from `Date.now()`, so two rows can share an id. Removing that id removes both rows, and a roster of two such rows becomes empty (`SgpaCalculator.RemoveSharedIdEmptiesRoster`). "Remove never empties the roster" is proved only for rosters with distinct ids (`Roster.RemoveKeepsRoster`).
- **Rounding can reach the "invalid" verdict.** The predictor's unrounded requirement is always at least the target, which is positive. Rounding can still turn a very small requirement into 0.00. With C = T = 0.004 the page stores 0 and shows "N/A" with the invalid-calculation verdict (`CgpaPredictor.TinyTargetRoundsToInvalid`). For any target of at least 0.005, that verdict cannot occur (`CgpaPredictor.ComputedResultIsValid`).
- **A worked example.** 3 credits of B+ and 2 credits of A give (3·8 + 2·9)/5 = 8.40 (`SgpaCalculator.SgpaExamples`).
- **Reports versus results.** The CGPA report lists every semester with a positive SGPA and positive credits, including one with an SGPA above 10. The CGPA itself leaves that semester out (`CgpaCalculator.ReportListsExcludedSemester`).

## Model

| member | source | states |
|---|---|---|
| Common.Round2 | app/sgpa-calculator/page.tsx:75 | The result is a whole number of hundredths within half a hundredth of the input: x - 0.005 < result <= x + 0.005 |
| Common.Round2HalfUp | app/sgpa-calculator/page.tsx:75 | Halves round toward +infinity, also below zero (0.125 gives 0.13, -0.125 gives -0.12), and 7.8 is kept |
| Common.Round2Monotone | app/sgpa-calculator/page.tsx:75 | Rounding preserves order |
| Common.Round2OfHundredths | app/sgpa-calculator/page.tsx:75 | A value with at most two decimals is unchanged |
| Common.Round2Idempotent | app/sgpa-calculator/page.tsx:75 | Rounding a rounded value changes nothing |
| Common.Round2Within | app/cgpa-calculator/page.tsx:62 | Rounding a value inside an interval with two-decimal ends stays inside it |
| Common.Filter | app/sgpa-calculator/page.tsx:56-58 | `filter` keeps exactly the elements satisfying the predicate and is never longer than its input |
| Common.FilterCount | app/sgpa-calculator/page.tsx:56-58 | Each accepted element is kept with its multiplicity; rejected ones are dropped |
| Common.FilterAppend | app/cgpa-calculator/page.tsx:44-46 | Filtering distributes over concatenation, so it keeps the order of what it keeps |
| Common.FilterKeepsAll | app/cgpa-calculator/page.tsx:44-46 | A filter that rejects nothing returns its input |
| Common.MapWhere | app/cgpa-calculator/page.tsx:40 | The conditional `map` keeps the length, rewrites the matching rows and leaves the others identical |
| Common.SumOfPositive | app/sgpa-calculator/page.tsx:65-72 | Accumulating positive credits gives a positive total |
| Common.SumOfMonotone | app/sgpa-calculator/page.tsx:65-72 | Accumulating termwise-smaller terms gives a smaller total |
| Common.SumOfScaled | app/cgpa-calculator/page.tsx:53-59 | A constant factor comes out of the accumulated total |
| Common.SumOfAbove | app/cgpa-calculator/page.tsx:53-59 | If each term is at least `lo` times its weight, the total is at least `lo` times the weight total |
| Common.SumOfBelow | app/cgpa-calculator/page.tsx:53-59 | If each term is at most `hi` times its weight, the total is at most `hi` times the weight total |
| Common.QuotientBetween | app/cgpa-calculator/page.tsx:61 | Dividing by a positive credit total keeps the bounds the weighted sum had |
| Common.NatToString | app/sgpa-calculator/page.tsx:110 | The text of a row number is decimal digits with no leading zero, denoting that number |
| Common.NatToStringInjective | app/sgpa-calculator/page.tsx:110 | Different numbers get different texts |
| Common.NumberedLabelsDiffer | app/cgpa-calculator/page.tsx:96 | A fixed prefix followed by different numbers gives different labels |
| Roster.RemoveRow | app/sgpa-calculator/page.tsx:45-49 | A single row is never removed; otherwise exactly the rows with the target id go, and an empty result means every row had that id |
| Roster.RemoveAbsent | app/cgpa-calculator/page.tsx:33-37 | Removing an id no row carries changes nothing |
| Roster.RemoveKeepsRoster | app/sgpa-calculator/page.tsx:45-49 | With distinct ids, removal never empties a non-empty roster, keeps the ids distinct and removes at most one row |
| Roster.FilterKeepsDistinct | app/sgpa-calculator/page.tsx:47 | Filtering a roster with distinct ids keeps them distinct |
| Roster.RemoveDropsAtMostOne | app/sgpa-calculator/page.tsx:47 | With distinct ids the id filter removes one row or none |
| Roster.UpdateRows | app/sgpa-calculator/page.tsx:51-53 | Update keeps the length, edits the rows with the target id and leaves every other row unchanged |
| Roster.AddKeepsDistinct | app/sgpa-calculator/page.tsx:35-43 | Appending a row with a fresh id keeps the ids distinct |
| Roster.UpdateKeepsDistinct | app/cgpa-calculator/page.tsx:39-41 | An edit that keeps ids keeps the ids distinct |
| SgpaCalculator.Counts | app/sgpa-calculator/page.tsx:56-58 | A subject counts exactly when its credit is positive and its grade is on the scale; a counting subject's grade point lies in 0..10 |
| SgpaCalculator.Listed | app/sgpa-calculator/page.tsx:107 | Every counting subject is listed in the report, and a listed subject whose grade is on the scale counts |
| SgpaCalculator.Apply | app/sgpa-calculator/page.tsx:52 | An edit replaces exactly the named field and keeps the id and every other field |
| CgpaCalculator.Counts | app/cgpa-calculator/page.tsx:44-46 | A counting semester adds a positive amount (SGPA × credits) to the weighted total |
| CgpaCalculator.Listed | app/cgpa-calculator/page.tsx:95 | Every counting semester is listed in the report, and a listed semester whose SGPA is at most 10 counts |
| CgpaCalculator.Apply | app/cgpa-calculator/page.tsx:40 | An edit replaces exactly the named field and keeps the id and every other field |
| CgpaPredictor.RequiredSgpa | app/cgpa-predictor/page.tsx:35-36 | Whenever the combined credits are non-zero, scoring the required SGPA next semester brings the CGPA to exactly the target |
| SgpaCalculator.GradeScale | app/sgpa-calculator/page.tsx:19-28 | The scale maps exactly the eight grades A+ to F, every point in [0, 10] |
| SgpaCalculator.SubjectPointsInRange | app/sgpa-calculator/page.tsx:69-70 | A counting subject contributes between 0 and 10 points per credit |
| SgpaCalculator.WeightedPointsInRange | app/sgpa-calculator/page.tsx:65-72 | Over counting subjects the credit total is positive and the grade-point total lies between 0 and 10 times it |
| SgpaCalculator.WeightedMeanInRange | app/sgpa-calculator/page.tsx:74 | The unrounded SGPA lies in [0, 10] |
| SgpaCalculator.ComputeSgpa | app/sgpa-calculator/page.tsx:55-77 | The alert happens exactly when no subject counts; otherwise the SGPA is a two-decimal value in [0, 10] and the credit total is positive |
| SgpaCalculator.InvalidRowsIgnored | app/sgpa-calculator/page.tsx:56-58 | Rows that do not count have no effect; the result depends only on the counting rows |
| SgpaCalculator.SgpaExamples | app/sgpa-calculator/page.tsx:55-77 | 4 credits of A give 9.00 over 4 credits; 3 of B+ and 2 of A give 8.40 over 5; rows with zero credit or no grade give the alert |
| SgpaCalculator.MotivationalMessage | app/sgpa-calculator/page.tsx:85-92 | The band is 0 below 5, 5 from 9 up, and otherwise the integer part minus 4 |
| SgpaCalculator.MotivationalMessageIsTableLookup | app/sgpa-calculator/page.tsx:85-92 | The if-chain is the first-match lookup of the thresholds 9, 8, 7, 6, 5 |
| SgpaCalculator.MotivationalMessageMonotone | app/sgpa-calculator/page.tsx:85-92 | A higher SGPA never gets a lower band |
| SgpaCalculator.ReportLines | app/sgpa-calculator/page.tsx:106-112 | The report lists the rows with positive credit and a grade, in order, numbered from 1, each labelled with its name or "Subject n", with its credit, grade and the grade's points (none when the grade is off the scale) |
| SgpaCalculator.CountedSubjectsAreListed | app/sgpa-calculator/page.tsx:56-58 | Every subject in the SGPA appears in the report |
| SgpaCalculator.DefaultLabelsDistinct | app/sgpa-calculator/page.tsx:110 | Two unnamed report rows get different default labels |
| SgpaCalculator.UpdateSubjectKeepsIds | app/sgpa-calculator/page.tsx:51-53 | Editing the name, credit or grade keeps the ids distinct |
| SgpaCalculator.RemoveSharedIdEmptiesRoster | app/sgpa-calculator/page.tsx:35-49 | Two rows that share a clock id are both removed, emptying the roster |
| SgpaCalculator.AccumulateSubjects | app/sgpa-calculator/page.tsx:65-72 | The `forEach` accumulates exactly the grade-point total and the credit total of the counting subjects |
| SgpaCalculator.SgpaPage.constructor | app/sgpa-calculator/page.tsx:31-33 | One blank row with id "1", no SGPA, zero credits |
| SgpaCalculator.SgpaPage.AddSubject | app/sgpa-calculator/page.tsx:35-43 | Appends one blank row and keeps the page invariant |
| SgpaCalculator.SgpaPage.RemoveSubject | app/sgpa-calculator/page.tsx:45-49 | The roster becomes `RemoveRow` of the old roster |
| SgpaCalculator.SgpaPage.UpdateSubject | app/sgpa-calculator/page.tsx:51-53 | The roster becomes `UpdateRows` of the old roster with the field edit |
| SgpaCalculator.SgpaPage.CalculateSgpa | app/sgpa-calculator/page.tsx:55-77 | On an alert the stored result is unchanged; otherwise the stored SGPA and credits are those of `ComputeSgpa`; a stored SGPA is always a two-decimal value in [0, 10] |
| SgpaCalculator.SgpaPage.ResetCalculator | app/sgpa-calculator/page.tsx:79-83 | Back to the initial state |
| CgpaCalculator.WeightedSgpaBetween | app/cgpa-calculator/page.tsx:53-59 | When every SGPA lies in [lo, hi], the weighted SGPA total lies between lo and hi times the credit total |
| CgpaCalculator.WeightedMeanBetween | app/cgpa-calculator/page.tsx:61 | The unrounded CGPA lies in any interval containing every counted SGPA |
| CgpaCalculator.WeightedMeanBetweenExtremes | app/cgpa-calculator/page.tsx:43-61 | The unrounded CGPA lies between the lowest and highest counted SGPA, hence in (0, 10] |
| CgpaCalculator.ComputeCgpa | app/cgpa-calculator/page.tsx:43-64 | The alert happens exactly when no semester counts; otherwise the CGPA is a two-decimal value in [0, 10] and the credit total is positive |
| CgpaCalculator.CgpaBetweenExtremes | app/cgpa-calculator/page.tsx:43-64 | The rounded CGPA lies between the rounded lowest and highest counted SGPA |
| CgpaCalculator.InvalidRowsIgnored | app/cgpa-calculator/page.tsx:44-46 | Rows that do not count have no effect on the result |
| CgpaCalculator.CgpaExamples | app/cgpa-calculator/page.tsx:43-64 | 20 credits at 8 and 20 at 9 give 8.50 over 40; no counting semester gives the alert |
| CgpaCalculator.MotivationalMessage | app/cgpa-calculator/page.tsx:72-80 | The band is the number of thresholds 6, 7, 8, 8.5, 9, 9.5 the CGPA reaches |
| CgpaCalculator.MotivationalMessageIsTableLookup | app/cgpa-calculator/page.tsx:72-80 | The if-chain is the first-match lookup of the thresholds 9.5 to 6 |
| CgpaCalculator.MotivationalMessageMonotone | app/cgpa-calculator/page.tsx:72-80 | A higher CGPA never gets a lower band |
| CgpaCalculator.ReportLines | app/cgpa-calculator/page.tsx:94-97 | The report lists the rows with positive SGPA and credits, in order, numbered from 1, each labelled with its name or "Semester n" |
| CgpaCalculator.CountedSemestersAreListed | app/cgpa-calculator/page.tsx:44-46 | Every semester in the CGPA appears in the report |
| CgpaCalculator.DefaultLabelsDistinct | app/cgpa-calculator/page.tsx:96 | Two unnamed report rows get different default labels |
| CgpaCalculator.ReportListsExcludedSemester | app/cgpa-calculator/page.tsx:44-46 | A semester with an SGPA above 10 is in the report but not in the CGPA, and adding it leaves the CGPA unchanged |
| CgpaCalculator.UpdateSemesterKeepsIds | app/cgpa-calculator/page.tsx:39-41 | Editing the name, SGPA or credits keeps the ids distinct |
| CgpaCalculator.AccumulateSemesters | app/cgpa-calculator/page.tsx:53-59 | The `forEach` accumulates exactly the weighted SGPA total and the credit total |
| CgpaCalculator.CgpaPage.constructor | app/cgpa-calculator/page.tsx:19-21 | One blank row with id "1", no CGPA, zero credits |
| CgpaCalculator.CgpaPage.AddSemester | app/cgpa-calculator/page.tsx:23-31 | Appends one blank row and keeps the page invariant |
| CgpaCalculator.CgpaPage.RemoveSemester | app/cgpa-calculator/page.tsx:33-37 | The roster becomes `RemoveRow` of the old roster |
| CgpaCalculator.CgpaPage.UpdateSemester | app/cgpa-calculator/page.tsx:39-41 | The roster becomes `UpdateRows` of the old roster with the field edit |
| CgpaCalculator.CgpaPage.CalculateCgpa | app/cgpa-calculator/page.tsx:43-64 | On an alert the stored result is unchanged; otherwise the stored CGPA and credits are those of `ComputeCgpa`; a stored CGPA is always a two-decimal value in [0, 10] |
| CgpaCalculator.CgpaPage.ResetCalculator | app/cgpa-calculator/page.tsx:66-70 | Back to the initial state |
| CgpaPredictor.Predict | app/cgpa-predictor/page.tsx:19-40 | Each alert happens exactly when its guard is the first to fail (non-positive input, then a CGPA above 10, then a target below the current CGPA); a result is a whole number of hundredths, never below the rounded target and equals the rounded current CGPA when the target is the current CGPA |
| CgpaPredictor.RequiredAtLeastTarget | app/cgpa-predictor/page.tsx:30-36 | Once the guards pass, the unrounded requirement is at least the target, and equals the current CGPA when the target is the current CGPA |
| CgpaPredictor.RequiredReachesTarget | app/cgpa-predictor/page.tsx:35-36 | Scoring exactly the requirement next semester brings the CGPA to the target |
| CgpaPredictor.RequiredIsUnique | app/cgpa-predictor/page.tsx:35-36 | The requirement is the only SGPA that does so |
| CgpaPredictor.PredictionMeetsTarget | app/cgpa-predictor/page.tsx:35-39 | A stored result is within half a hundredth of the SGPA that lands exactly on the target |
| CgpaPredictor.PredictExamples | app/cgpa-predictor/page.tsx:19-40 | 7.5 over 100 credits aiming at 8 with 25 credits needs 10.00; a requirement of 49 is returned, not rejected; each guard fires on its own example |
| CgpaPredictor.ResultMessage | app/cgpa-predictor/page.tsx:51-85 | The verdicts partition the line: invalid at or below 0, easy below 7, achievable below 9, challenging up to 10, impossible above 10 |
| CgpaPredictor.ComputedResultIsValid | app/cgpa-predictor/page.tsx:38-39 | For targets of at least 0.005 a computed result never gets the invalid verdict |
| CgpaPredictor.TinyTargetRoundsToInvalid | app/cgpa-predictor/page.tsx:38-39 | A positive requirement of 0.004 is stored as 0, which gets the invalid verdict and no grade |
| CgpaPredictor.EquivalentGrade | app/cgpa-predictor/page.tsx:241-255 | The grade is on the scale; it is F exactly below 4; from 4 to 10 it is the grade whose point is nearest the requirement, with halves going up |
| CgpaPredictor.DisplayedGrade | app/cgpa-predictor/page.tsx:237 | A grade is shown exactly when the requirement lies in (0, 10] |
| CgpaPredictor.EquivalentGradeMonotone | app/cgpa-predictor/page.tsx:241-255 | A higher requirement never maps to a grade worth fewer points |
| CgpaPredictor.EquivalentGradeIsTableLookup | app/cgpa-predictor/page.tsx:241-255 | The conditional chain is the first-match lookup of the thresholds 9.5 to 4 |
| CgpaPredictor.PredictorPage.constructor | app/cgpa-predictor/page.tsx:12-17 | All inputs 0, no result, nothing shown |
| CgpaPredictor.PredictorPage.CalculateRequiredSgpa | app/cgpa-predictor/page.tsx:19-40 | On an alert nothing changes; otherwise the result of `Predict` is stored and shown; a result is shown exactly when one is stored |
| CgpaPredictor.PredictorPage.ResetCalculator | app/cgpa-predictor/page.tsx:42-49 | All inputs 0, no result, nothing shown |

## Left out

- Floating point. Every number is a mathematical real, so the model leaves out IEEE-754 rounding in the sums, the quotient and `x * 100` before `Math.round`. A sum the browser rounds differently is not captured.
- Input parsing. The `onChange` handlers coerce text with `parseFloat`/`parseInt` and fall back to 0. Their results reach the model as plain reals. Semester and predictor credits go through `parseInt`, so they are whole numbers on the page, but the model allows any real.
- Ids are parameters. `addSubject`/`addSemester` take their id from `Date.now()`; here the caller supplies it.
- Editing the `id` field through `updateSubject`/`updateSemester` is possible in the source, because `field` is any key of the row. The model's edits cover only the name, credit/SGPA and grade/credits fields that the page's inputs use.
- Grade lookup quirks. The grade lookup `gradePoints[grade]` on a plain object would also find inherited keys such as `"constructor"`. The model's lookup is the eight-entry map. The grade select only offers those eight grades.
- Alerts are modelled as an error result, not as a browser dialog.
- Rendering. JSX, the progress bars and their colours, and the "N/A" text are left out. The displayed numbers' `toFixed(2)` formatting is also left out.
- Report text. The download builds its text with `Blob`, object URLs and a click on a hidden link. Only the detail lines are modelled, as records with the row's number, label and fields. The header (result, total credits, message), the timestamp, the `null` guard and the conversion of numbers to text are left out.
- `app/page.tsx` (the landing page) is not part of this model.
- The order that the loop of `calculateSGPA`/`calculateCGPA` visits the rows matters only to floating-point rounding, so over reals it is captured by the sum and not modelled further.
