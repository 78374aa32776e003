# calcGPA transcript parser — a Dafny model

This project models the non-DOM core of the `calcGPA` page script. The user pastes a
university transcript as plain text. The script does the following:

- It folds full-width Latin letters and digits to ASCII (`zenkaku2hankaku`).
- It splits the text into lines.
- It classifies each line as a category header (`類`), a subcategory header (`群`, five
  leading spaces), a course line (thirteen leading spaces, tab-separated fields, the marker
  `選択`), or noise.
- It builds a two-level hierarchy of categories and subcategories. Each accepted course
  result is attached to both the current category and the current subcategory.
- It aggregates credits and grade points per node and over the whole transcript.
- It reports the registered credits, the passed credits and a GPA rounded to two decimals.
  The GPA is zero when nothing is registered.

Modules, following the program's structure:

| file | module | what it holds |
|---|---|---|
| `wrappers.dfy` | `Wrappers` | `Option` |
| `grades.dfy` | `Grades` | the six grade symbols and the grade-point table |
| `text.dfy` | `Text` | `split('\n')` as `SplitOn`, with its inverse `Join` |
| `normalizer.dfy` | `Normalizer` | `zenkaku2hankaku` |
| `numbers.dfy` | `Numbers` | JavaScript `Number` on the credit and term tokens |
| `lines.dfy` | `Lines` | the three line recognisers and their priority |
| `aggregation.dfy` | `Aggregation` | the `AbstractCategory` aggregates and the rounded per-node GPA |
| `hierarchy.dfy` | `Hierarchy` | the parse state (categories plus two cursors) and the per-line step |
| `parse_properties.dfy` | `ParseProperties` | properties of the whole fold |
| `calc.dfy` | `Calc` | the global totals and `calcGPA` end to end |

Both source files are cited below. `program.ts` is the TypeScript original. `program.js` is
its compiled twin, which builds the same patterns inside the function and keeps
`categories` local.

Credits are exact rationals (`real`), and `Math.round` is written out as the floor of
`x + 0.5`. The parse state is an immutable value. A course result is stored by value in the
category's list and again in the subcategory's list. The source pushes one shared object into
both lists, and nothing ever mutates it afterwards.

Notes on the code's behaviour:

- The TypeScript variant keeps `categories` at module level. This is not a leak between
  calls, because `program.ts:212` resets it at the start of every call. The model's state is
  therefore local to one parse.
- Credits are usually integers or decimals, but the pattern `\d+(.\d+)?` leaves its dot
  unescaped, so any character may separate the two digit runs, and `Number` decides what the
  token is worth:
  - `2.5` is 2.5, and `2e3` and `2E3` are 2000.
  - When the first run is the single digit `0`, the prefixes `0x`, `0o` and `0b` (either case)
    read the second run in base 16, 8 or 2: `0x10` is 16, `0o17` is 15 and `0b101` is 5.
    A digit outside the base (`0b2`) gives NaN.
  - Any other token (`2x5`, `1x5`, `2 5`) is NaN, and the course is dropped.

  `Numbers.CreditNumber` models all of these.

## Model

| member | source | states |
|---|---|---|
| Grades.Point | program.ts:14-21 | a grade's point is at most 4; it is 0 exactly for E and D; it is 4 exactly for AA |
| Grades.GradeOf | program.ts:202 | a symbol is read as a grade only if it is that grade's symbol; every other string is not a grade |
| Grades.GradeSymbolRoundTrip | program.js:2-9 | reading a grade's own symbol gives the grade back |
| Text.SplitOn | program.ts:211 | splitting gives at least one piece; no piece contains the separator; joining the pieces gives the input back |
| Text.SplitOfJoin | program.js:181 | splitting a join of separator-free pieces gives the pieces back (the other half of the round trip) |
| Text.DropEmpty | program.ts:198-204 | the kept pieces are the input's pieces minus the empty ones, each with its multiplicity; none is empty |
| Text.DropEmptyAppend | program.ts:198-204 | dropping empty pieces distributes over concatenation, so the kept pieces stay in their input order |
| Normalizer.FoldChar | program.ts:278-280 | a full-width letter or digit maps to the ASCII letter or digit at the same position in its range; any other character is unchanged; the result is never full-width alphanumeric |
| Normalizer.Normalize | program.js:266-268 | folding keeps the length and folds each character independently |
| Normalizer.NormalizeIdempotent | program.ts:278-280 | folding twice is the same as folding once |
| Normalizer.NormalizeFixesHalfWidth | program.js:266-268 | text with no full-width letters or digits is unchanged by folding |
| Normalizer.NormalizeCommutesWithSplit | program.js:168-181 | folding and then splitting into lines equals splitting and then folding each line |
| Numbers.DigitsValue | program.ts:232 | the value of n digits is below 10^n; it is 0 exactly when every digit is '0' |
| Numbers.RadixOf | program.ts:201 | the prefix letters x/X, o/O and b/B select bases 16, 8 and 2; every other separator selects none |
| Numbers.RadixValue | program.js:206 | a digit run read in a given base is 0 exactly when every digit is '0' |
| Numbers.RadixTenIsDecimal | program.js:206 | reading a digit run in base ten gives its decimal value |
| Numbers.RadixLiteralIsToken | program.ts:201 | every `0x`/`0o`/`0b` literal is captured by the credits group, with the single digit `0` as its first run |
| Numbers.SeparatedNumber | program.ts:232 | a two-run token has a value exactly when its separator is '.', 'e' or 'E', and that value is at least the first run's value; after '.' the value is both runs read as one digit run with the point moved left past the second run; after 'e' or 'E' it is the first run followed by as many zeros as the second run's value |
| Numbers.DigitsAppend | program.ts:232 | the decimal value of two digit runs written one after the other is the first run's value shifted left by the second run's length plus the second run's value |
| Numbers.PointLeftAppend | program.ts:232 | a whole part plus a fraction of k digits equals the joined digits with the point moved k places left |
| Numbers.PointLeftTimesPow10 | program.ts:232 | moving the point k places left and then multiplying by 10^k gives back the number |
| Numbers.CreditNumber | program.js:174-206 | the result is a number, never NaN, exactly when the string is a credits-shaped token that is a plain digit run, has '.', 'e' or 'E' as its separator, or is a `0x`/`0o`/`0b` literal whose digits fit the base; the number is non-negative; a plain digit run gives its decimal value; a radix literal gives its value in that base |
| Numbers.DecimalCreditValue | program.ts:232 | a credit token `i.f` is worth the digits of i and f read as one number with the point moved left by the length of f ("1.5" is 15 / 10) |
| Numbers.ExponentCreditValue | program.ts:232 | a credit token `iEj` or `iej` is worth the digits of i followed by j zeros |
| Numbers.DecimalCreditBounds | program.ts:201 | a credit token `i.f` has a value between i and i+1 |
| Numbers.TermNumber | program.ts:203 | a four-digit term is below 10000 and is 0 exactly for "0000" |
| Numbers.CreditOfInteger | program.ts:232 | "2" gives 2 |
| Numbers.CreditOfZero | program.ts:232-233 | "0" gives 0, which the filter then rejects as falsy |
| Numbers.CreditOfDecimal | program.ts:232 | "1.5" gives 1.5 |
| Numbers.CreditOfOtherSeparator | program.ts:232-233 | "2x5" gives NaN, so the course is dropped |
| Numbers.CreditOfExponent | program.ts:232 | "2e3" gives 2000 |
| Numbers.CreditOfHex | program.js:206 | "0x10" gives 16 |
| Numbers.CreditOfBinary | program.js:206 | "0b101" gives 5 |
| Numbers.CreditOfOctal | program.js:206 | "0o17" gives 15 |
| Numbers.CreditOfBadRadix | program.js:206-210 | "0b2" and "1x5" give NaN |
| Lines.CategoryName | program.ts:206 | a line is a category header exactly when it is one run of non-whitespace characters, which is the name |
| Lines.SubcategoryName | program.ts:207 | a line is a subcategory header exactly when it is five spaces followed by one run of non-whitespace characters, which is the name |
| Lines.MatchCourse | program.ts:196-205 | a matched course line starts with thirteen spaces, has no tab right after them, and yields a non-empty name, teacher and semester, a credits token and a four-digit term |
| Lines.Classify | program.ts:217-230 | a line is a category header exactly when it is one word; otherwise a subcategory header when that recogniser matches; otherwise a course line when that one matches; it is noise exactly when no recogniser matches |
| Lines.RecognisersExclusive | program.js:186-188 | no line is both a category header and a subcategory header; a course line is neither |
| Lines.LeadingTabIsNoise | program.ts:197-198 | a line of thirteen spaces, a tab and then otherwise well-formed course fields is noise, because the name group cannot start on a tab |
| Lines.HeaderRoundTrip | program.js:179-180 | a whitespace-free name is classified as that category, and the same name after five spaces as that subcategory |
| Lines.CourseRoundTrip | program.js:170-178 | a course line written out from well-formed fields is classified as a course line with exactly those fields |
| Aggregation.Select | program.ts:37-45 | a filter keeps at most the input's length, and only results the selector accepts |
| Aggregation.SelectEmpty | program.ts:37-45 | a filter's result is empty exactly when no result is selected |
| Aggregation.SelectCounts | program.ts:43-45 | each result occurs in the filter's output as often as in the input when selected, and not at all otherwise |
| Aggregation.CreditSum | program.ts:46-48 | a credit sum is non-negative and zero only for an empty list |
| Aggregation.CountPassedCredits | program.ts:46-48 | passed credits are non-negative, and zero exactly when the passed results (positive grade point) are empty; `SelectEmpty` turns that into "no result is passed" |
| Aggregation.RegisteredCredits | program.ts:49-51 | registered credits are non-negative, and zero exactly when no result survives the not-E filter, i.e. every result is graded E |
| Aggregation.CountGrade | program.ts:61-63 | a grade's credit count is non-negative, and zero exactly when the results of that grade are empty |
| Aggregation.TotalGradePoint | program.ts:52-60 | total grade points are non-negative (grade points and credits are never negative) |
| Aggregation.NoPointsIffNothingPassed | program.ts:37-60 | total grade points are zero exactly when no result is passed: every passed result adds at least its credit |
| Aggregation.TotalGradePointSkipsNothing | program.ts:52-60 | skipping grades whose point is 0 gives the same total as weighting every result by its point |
| Aggregation.AggregatesAdditive | program.js:38-52 | registered credits, passed credits and total grade points of a concatenation are the sums over the two parts |
| Aggregation.CountGradeAdditive | program.ts:61-63 | the per-grade credit counts of a concatenation are the sums over the two parts |
| Aggregation.AggregatesIgnoreOrder | program.ts:46-63 | registered and passed credits, total grade points and every per-grade count depend only on the multiset of results, not on their order |
| Aggregation.SingleResult | program.ts:37-63 | a single result contributes its credit to registered unless E, to passed when its point is positive, to its own grade's count, and point times credit to the grade points |
| Aggregation.AppendResult | program.ts:235-236 | pushing one result changes each aggregate by exactly that result's contribution |
| Aggregation.GradeDAndE | program.js:10-52 | a D result counts as registered but not passed and adds no points; an E result adds nothing to any total |
| Aggregation.RegisteredIsPassedPlusD | program.ts:37-51 | registered credits equal passed credits plus the credits graded D |
| Aggregation.PassedWithinRegistered | program.ts:46-51 | passed credits never exceed registered credits |
| Aggregation.GradeCountsPartitionCredits | program.ts:61-63 | the six per-grade counts add up to the credits of all results |
| Aggregation.GradePointBounds | program.ts:52-60 | total grade points are at least the passed credits and at most four times the registered credits |
| Aggregation.Round | program.ts:245 | the rounded value n satisfies n - 1/2 <= x < n + 1/2 |
| Aggregation.RoundedRatio | program.ts:245 | the result is a whole number of hundredths within half a hundredth of the exact ratio (halves rounded up), so it is `Math.round(100 * ratio) / 100`; it lies in [0, 4] when the points do not exceed four times the credits |
| Aggregation.NoRegisteredNoPoints | program.ts:102 | a node with no registered credits has only E results and no grade points, so its unguarded ratio is 0/0 |
| Aggregation.NodeGpa | program.ts:102 | a node with registered credits has a GPA that is a whole number of hundredths within half a hundredth of points over registered credits, and lies in [0, 4] |
| Aggregation.TwoResultExample | program.ts:46-60 | A with 2 credits plus D with 3 credits gives 5 registered, 2 passed, 6 points and a GPA of 1.2 |
| Hierarchy.IndexOfName | program.ts:223-224 | the lookup finds the first position holding the name, and finds nothing exactly when the name is absent |
| Hierarchy.EnterCategory | program.ts:220-224 | a category header creates the category only if its name is new (appended last, empty); the cursor then points at the category of that name; existing categories and the subcategory cursor are kept |
| Hierarchy.EnterSubCategory | program.ts:225-229 | with no current category, nothing changes and the subcategory cursor is cleared; otherwise the subcategory is found or created by name inside the current category, the cursor points at it, and nothing else changes |
| Hierarchy.AttachResult | program.ts:234-236 | the result is appended to exactly the current category and exactly the current subcategory; names and cursors are unchanged |
| Hierarchy.ToResult | program.ts:231-233 | a course is accepted exactly when name, teacher and semester are non-empty, the credit is a non-NaN non-zero number and the term is not "0000" |
| Hierarchy.AddCourse | program.ts:230-236 | a course line changes the state only when the filter accepts it and both cursors are set; then the current category gains exactly that result; names and cursors never change |
| Hierarchy.Step | program.ts:216-237 | one line keeps the state well formed; noise changes nothing; only a category header adds a category; the category cursor stays set once it is set |
| Hierarchy.Parse | program.js:181-216 | the fold over the lines yields a well-formed state (distinct names, cursors in range) |
| ParseProperties.ParseCategoryOrder | program.ts:212-224 | the category names are the category headers in order of first appearance, without repeats |
| ParseProperties.ParseNamesOnlyOwnHeaders | program.js:189-195 | every category name comes from a category header line of the input |
| ParseProperties.ParseBalanced | program.ts:234-236 | the results held by all categories are, as a multiset, the results held by all their subcategories |
| ParseProperties.DroppedCourseLine | program.js:210-211 | a course line with zero or NaN credits, term "0000", or a missing cursor leaves the state unchanged |
| ParseProperties.AcceptedCourseLine | program.js:212-214 | an accepted course line under both cursors is pushed onto both current nodes |
| ParseProperties.SubcategoryBeforeCategory | program.ts:228-229 | a subcategory header before any category header creates nothing and clears the subcategory cursor |
| ParseProperties.CategoryHeaderKeepsSubcategory | program.ts:223-236 | a category header does not reset the subcategory cursor, so later courses still go to the old subcategory |
| Calc.TranscriptLines | program.ts:210-211 | the transcript's lines are at least one, contain no line feed, and joined with line feeds give the folded text back |
| Calc.GlobalGradePoints | program.ts:240 | the transcript's grade points are non-negative, and zero exactly when every category has none |
| Calc.GlobalRegistered | program.ts:241 | the transcript's registered credits are non-negative, and zero exactly when no category registers any |
| Calc.GlobalPassed | program.ts:242 | the transcript's passed credits are non-negative, and zero exactly when no category passes any |
| Calc.GlobalTotalsOfAllResults | program.js:217-219 | summing per-category aggregates equals aggregating the concatenation of all category results |
| Calc.GlobalGpa | program.js:220-222 | the transcript GPA is a whole number of hundredths; it is 0 when nothing is registered, otherwise within half a hundredth of points over registered credits; it is always in [0, 4] |
| Calc.Summarize | program.ts:240-245 | the reported totals are the aggregates over all category results, with passed <= registered; the GPA is the zero-guarded two-decimal rounding of points over registered credits, and lies in [0, 4] |
| Calc.CalcGpa | program.ts:209-245 | the report for any text has distinct category names, distinct subcategory names per category, passed <= registered, and a zero-guarded two-decimal GPA in [0, 4] |
| Calc.CalcGpaSubcategoriesAgree | program.ts:234-242 | the transcript totals computed over the subcategories equal those computed over the categories |
| Calc.CalcGpaIgnoresFullWidth | program.ts:210 | folding the text first does not change the report |
| Calc.TranscriptLinesFoldEachLine | program.ts:210-211 | the parsed lines are the lines of the raw text, each folded |
| Calc.CalcGpaCategoriesFromOwnText | program.ts:212 | every reported category comes from a header in this text, so nothing carries over from an earlier call |
| Calc.SingleCourseExample | program.ts:216-245 | a category, a subcategory and one A course of 2 credits give 2 registered, 2 passed and a GPA of 3 |

## Left out

- The DOM is not modelled: `getTableRow`, the element updates, the zero and bold styling, `console.log`, and the `window.onload` button wiring. The model returns the three numbers that the page writes instead.
- The `SubCategory` back-reference `_category` is not modelled. The parse never reads it.
- The regular expressions are not modelled in full. `Lines.MatchCourse` requires the thirteen spaces at the start of the line, as the line format intends. The code's pattern is unanchored and can also match further into a longer line.
- Lines.MatchCourse: fields are split on tabs only, and exactly seven non-empty fields are needed. The code's `[\t ]*` separators and its lazy teacher group can also split fields at spaces and accept some other layouts.
- Lines.MatchCourse: the `\b` word boundaries around the credits and term are covered by the shape of whole tab-separated fields, not checked character by character.
- IEEE double arithmetic is not modelled. Credits, sums and ratios are exact rationals, so rounding error in `reduce`, and `Math.round` at exact .5 ties after float error, are out of scope. Overflow to `Infinity` for huge credit tokens such as `1e999` is also out of scope, and so is the loss of precision for integer literals above 2^53.
- Aggregation.NodeGpa: requires registered credits above zero. The per-node GPA in `getTableRow` divides without a guard and shows NaN otherwise: with no registered credits every result is E and there are no grade points (`Aggregation.NoRegisteredNoPoints`), so the ratio is 0/0. That value is only displayed.
- The `if (!categoryName) continue;` and `if (!subCategoryName) continue;` branches are not modelled. A match always has a non-empty group there.
- `!grade` in the acceptance filter is not modelled, because a matched grade is always one of the six non-empty symbols.
