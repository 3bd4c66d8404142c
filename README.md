# Survey statistics model

A Dafny model of the statistics pipeline of the research-survey server
(`server.js`). Students and professors submit questionnaires over HTTP.
Each submission is stored as a record and appended to its population. The
server then rebuilds one analysis object over both populations. That object
holds:

- a summary: participant counts, completion rate and average completion time;
- charts: satisfaction levels, the top ten features, and histograms by major
  and by teaching experience;
- a list of insight lines.

The model keeps the JavaScript semantics the helpers rely on:

- records are objects whose keys keep insertion order (JavaScript lists integer-like keys first; see "## Left out");
- the `||` fallbacks follow JavaScript truthiness;
- property keys are coerced with `String`;
- `parseInt` follows the ECMAScript algorithm: white space, sign, `0x` prefix
  and the leading digit run;
- object spread assigns properties in order;
- `Array.prototype.sort` is stable (the model is an insertion sort);
- `toFixed` rounds half up, and is modelled on exact rationals.

Modules:

- `JsValue` (`json_value.dfy`): values, records, property read and
  assignment, `String`.
- `ParseInt`: the global `parseInt`.
- `Buckets`: label-to-count objects and the tally `groupBy` builds.
- `StableSort`: the descending stable sort and `.slice`.
- `Grouping`: `groupBy`.
- `Statistics`: `calculateCompletionRate` and `calculateAverageTime`, as
  exact values and as the strings the summary stores.
- `Features`: `rankFeatures`.
- `Satisfaction`: `calculateSatisfaction`.
- `Insights`: `generateInsights`.
- `Analysis`: the computation inside `updateAnalysis`.
- `Submission`: the two POST handlers, as a class `Survey` holding the stored
  populations and the last analysis.
- `Arith`: small facts on products used by the proofs.

The loops of the source (`forEach` with in-place updates, `push`, `delete`)
are methods with loop invariants. Each method is proved equal to a
specification function. The properties are proved about those functions.

A few behaviours of the code may surprise a reader. The model follows the
code:

- when both populations are empty, `generateInsights` returns the "waiting
  for the first submissions" line, not its "no insights" fallback;
- feature ratings are any positive `parseInt` result, not only 1 to 5;
- a numeric satisfaction value is not mapped to a label;
- the insights contain no comparison between the two populations.

## Model

| member | source | states |
|---|---|---|
| JsValue.Get | server.js:684 | a property read is defined exactly when the record has the key |
| JsValue.Put | server.js:274-280 | assignment adds the key if absent, at the end, and otherwise keeps the length; every existing key stays at its position; the key reads the new value and every other key's value is unchanged |
| ParseInt.ParseIntCoerces | server.js:699 | reading `parseInt` of a property by cases equals `parseInt(String(v))` for every value, including `undefined`, booleans and `null` |
| ParseInt.ParseIntOfNumber | server.js:699 | `parseInt(String(n))` of an integer is `n` |
| ParseInt.ParseIntPrefix | server.js:714 | a decimal integer followed by a non-digit parses back to that integer; a leading `0x` is the one exception |
| ParseInt.NonNumericIsNaN | server.js:699 | a string starting with something other than white space, a sign or a digit is NaN |
| ParseInt.ParseIntString | server.js:699 | definition of `parseInt` on a string; properties in `ParseInt.ParseIntPrefix`, `ParseInt.NonNumericIsNaN` and `ParseInt.ParseIntOfNumber` |
| ParseInt.ParseIntValue | server.js:714 | definition of `parseInt` of a property value; properties in `ParseInt.ParseIntCoerces` |
| Buckets.BumpFacts | server.js:685 | one increment of `result[value]` raises exactly that label's count by one, keeps labels distinct and appends a new label at the end |
| Buckets.TallyCounts | server.js:681-688 | the histogram has distinct labels, each label's count is its number of occurrences, every count is at least 1 and the counts sum to the number of records |
| Buckets.TallyKeys | server.js:681-688 | a label is in the histogram exactly when some record yields it |
| Buckets.TallyOrder | server.js:683-686 | histogram entries come in the order their labels first occur |
| Buckets.TallySnoc | server.js:683-686 | counting one more record bumps its label |
| Grouping.GroupBy | server.js:681-688 | the loop yields the tally of the records' labels: distinct labels, counts equal to occurrences, each at least 1, summing to the input length, labels exactly those that occur, empty for empty input |
| Grouping.GroupKey | server.js:684 | definition of `item[key] \|\| 'غير محدد'` as a label; properties in `Grouping.AbsentFieldIsUnspecified` and `Grouping.GroupBy` |
| Grouping.TallyFacts | server.js:681-688 | the facts `GroupBy` promises, proved of the tally of any label sequence |
| Grouping.TallyRepeated | server.js:683-686 | records all yielding one label give a single bucket with the full count |
| Grouping.AbsentFieldIsUnspecified | server.js:684 | when no record has a truthy value for the field, everything lands in the one "unspecified" bucket |
| StableSort.FirstMax | server.js:781 | the index found holds the largest score and every earlier entry scores strictly less |
| StableSort.Take | server.js:731 | `.slice(0, n)` is the prefix of length `min(n, length)` |
| StableSort.InsertPerm | server.js:730 | insertion adds exactly one copy of the entry |
| StableSort.InsertSorted | server.js:730 | insertion keeps the list in non-increasing score order |
| StableSort.InsertStable | server.js:730 | the inserted entry goes after every entry with the same score |
| StableSort.SortDescFacts | server.js:730 | the sort is a permutation, sorted in non-increasing order, and stable: for every score the entries with that score keep their order |
| StableSort.SortHead | server.js:781 | the head of the sorted entries is the first entry carrying the largest count |
| StableSort.InsertTies | server.js:730 | inserting an entry that first appeared after all the others keeps labels distinct and keeps equal scores in first-appearance order |
| StableSort.SortTies | server.js:730 | sorting a list whose entries are in first-appearance order yields distinct labels with equal scores still in that order |
| StableSort.TakeKeeps | server.js:731 | `.slice` keeps distinct labels and the order of ties |
| StableSort.CutTies | server.js:731 | an entry of a tie-ordered list that `.slice` drops comes after every kept entry with its score |
| Statistics.CompletedCountBounds | server.js:692 | the completed count is at most the length, and equals it exactly when every response is completed |
| Statistics.IsCompleted | server.js:692 | definition of the completion test; properties in `Statistics.CompletedCountBounds` and `Submission.RecordSubmitted` |
| Statistics.CompletionRate | server.js:691-694 | definition of the completion rate; properties in `Statistics.CompletionRateFacts`, `Statistics.RateQuotient` and `Statistics.HalfCompleted` |
| Statistics.Percent | server.js:693 | the rate is 0 for no responses, lies in [0, 100] and times the total gives 100 times the completed count |
| Statistics.PercentExtremes | server.js:693 | the rate is 100 exactly when all are completed and 0 exactly when none is |
| Statistics.CompletionRateFacts | server.js:691-694 | the completion rate is in [0, 100], 0 for no responses, 100 exactly when every response is completed, 0 exactly when none is |
| Statistics.RateQuotient | server.js:693 | the rate is the exact quotient 100 times completed over total |
| Statistics.HalfCompleted | server.js:691-694 | one completed response out of two gives 50, rendered "50.0%" |
| Statistics.Tenths | server.js:693 | `toFixed(1)` as a whole number of tenths, rounding halves up |
| Statistics.TenthsWithin | server.js:693 | rounding to tenths moves a quotient by at most half a tenth |
| Statistics.TenthsAtMost | server.js:693 | a quotient of at most `m` rounds to at most `10 * m` tenths |
| Statistics.Fixed1Reads | server.js:693 | the one-decimal text reads back through `parseInt` as the integer part, has a point before its last character, and ends with the tenths digit |
| Statistics.RateTextFacts | server.js:644 | the summary rate is "0%" for no responses, otherwise the one-decimal rendering of a value within half a tenth of the rate, at most 100.0, followed by "%" |
| Statistics.RateText | server.js:644 | definition of the summary rate text; properties in `Statistics.RateTextFacts` and `Statistics.HalfCompleted` |
| Statistics.PositiveBounds | server.js:701 | the filter keeps only positive times, no more than it was given, inside any bounds the positive inputs satisfy |
| Statistics.PositiveAll | server.js:701 | an all-positive list passes the filter unchanged |
| Statistics.SumPositive | server.js:703 | the sum of the kept times is non-negative |
| Statistics.SumBounds | server.js:703 | a sum of values in [lo, hi] lies between the count times lo and the count times hi |
| Statistics.MeanBounds | server.js:703 | a mean of values in [lo, hi] lies in [lo, hi] |
| Statistics.AverageTimeBounds | server.js:697-704 | the average is 0 when no time is valid and otherwise lies between the smallest and the largest valid time |
| Statistics.TimeOf | server.js:698-701 | definition of one record's clamped time; properties in `Statistics.TimesPointwise` and `Statistics.UnspecifiedTimeIgnored` |
| Statistics.AverageTime | server.js:697-704 | definition of the average time; properties in `Statistics.AverageTimeBounds` and `Statistics.AverageTimeExample` |
| Statistics.TimesPointwise | server.js:698-701 | the mapped times are the per-record clamped times |
| Statistics.ExampleTimes | server.js:698-701 | times 10, 0, "bad" and 30 map to 10, 0, 0, 30 |
| Statistics.PositiveExample | server.js:701 | filtering 10, 0, 0, 30 keeps 10, 30 |
| Statistics.AverageTimeExample | server.js:697-704 | times 10, 0, "bad" and 30 average to 20 |
| Statistics.UnspecifiedTimeIgnored | server.js:699 | the default completion time "unspecified" parses to NaN and contributes no time |
| Statistics.TimeTextFacts | server.js:645 | the summary time is "0 دقيقة" when no time is valid, otherwise the one-decimal rendering of a value within half a tenth of the mean, followed by " دقيقة" |
| Statistics.TimeText | server.js:645 | definition of the summary time text; properties in `Statistics.TimeTextFacts` |
| Features.ContributionsFacts | server.js:713-715 | every rating that reaches the scores comes from a feature key and is positive |
| Features.ContributionsAbsent | server.js:713-719 | a feature gets no rating exactly when none of its fields has a feature key with a positive rating |
| Features.ScoreEntry | server.js:713-720 | one entry is credited to its feature (created at total 0, count 0) exactly when its key names a feature and its rating is positive |
| Features.ScoreResponse | server.js:712-721 | after one response the scores are those of all fields seen so far |
| Features.AccumulateScores | server.js:710-722 | the outer loop yields the scores of every field of every response |
| Features.ScoreTallyFacts | server.js:716-718 | the scores have distinct features, a feature has an entry exactly when it received a rating, and each entry holds that feature's rating total and count |
| Features.Hundredths | server.js:726 | `(total / count).toFixed(2)` as a whole number of hundredths, rounding halves up |
| Features.AverageScores | server.js:724-727 | the loop yields one average per scored feature, in the same order |
| Features.SumForBounds | server.js:717 | a feature's total lies between its count times the smallest and times the largest rating |
| Features.HundredthsBounds | server.js:726 | rounding keeps a mean inside the rating range |
| Features.FeatureScoreBounds | server.js:710-727 | a feature's score lies between its smallest and its largest rating |
| Features.TopTen | server.js:729-731 | every entry either made the first ten or scores no more than the tenth |
| Features.RankedEntries | server.js:729-735 | at most ten entries, in non-increasing order, each a feature with at least one rating, scored with its rounded mean |
| Features.RankedCoverage | server.js:729-735 | a rated feature is missing from the output only when ten entries are kept and it scores no more than the tenth, and then it received its first rating after every kept feature with the same score |
| Features.ScoredIsFeature | server.js:713 | a feature with a rating has a feature key |
| Features.IsFeatureKey | server.js:713 | definition of the feature-key test; properties in `Features.ScoredIsFeature` and `Features.ContributionsFacts` |
| Features.Rating | server.js:714 | definition of `parseInt(value) \|\| 0`; properties in `Features.ContributionsFacts` and `Features.ContributionsAbsent` |
| Features.Credit | server.js:716-718 | definition of crediting one rating; properties in `Features.CreditFacts` and `Features.CreditShape` |
| Features.CreditShape | server.js:716-718 | crediting a feature that has an entry changes no key and no length; crediting a new one appends `{total: rating, count: 1}` |
| Features.PairKeys | server.js:712-719 | one key per contributing pair, in visiting order |
| Features.CountForIn | server.js:712-719 | a feature has a rating exactly when some contributing pair names it |
| Features.ScoreTallyOrder | server.js:716 | the entries of `featureScores` come in the order their features first received a rating |
| Features.RankedTies | server.js:724-735 | the ranking names each feature once, and features with equal averages come in the order they first received a rating |
| Features.AveragesInOrder | server.js:724-727 | the averages come in the order their features first received a rating |
| Features.RankedCut | server.js:730-731 | a rated feature left out of the ranking was first rated after every kept feature with the same average |
| Features.Ranking | server.js:729-735 | definition of the ranking; properties in `Features.RankedEntries`, `Features.RankedCoverage`, `Features.RankedTies` and `Features.FeatureExample` |
| Features.FeatureExample | server.js:707-736 | two responses rating `featureExams` 4 and 5 rank it alone, at 4.50 |
| Features.RankFeatures | server.js:707-736 | the result is at most ten distinct features in non-increasing score order, each a rated feature with its rounded mean; features with equal scores come in the order they first received a rating; any rated feature left out scores no more than the tenth and was first rated after every kept feature with its score |
| Satisfaction.LevelsDistinct | server.js:740-751 | the ten labels are distinct |
| Satisfaction.StrCountSnoc | server.js:756-757 | one more field adds one to a label's count exactly when it holds that label as a string |
| Satisfaction.TickStep | server.js:755-758 | visiting one field bumps the label it holds, if any, and nothing else |
| Satisfaction.CountResponse | server.js:755-759 | after one response every label's count includes all fields seen so far |
| Satisfaction.DropStep | server.js:763-767 | one turn of the delete loop finds the visited label right after the kept ones and removes it only when its count is 0 |
| Satisfaction.DropZeros | server.js:763-767 | the delete loop leaves exactly the entries with a non-zero count, in order |
| Satisfaction.NonZeroMembers | server.js:763-767 | an entry survives exactly when it was present with a non-zero count |
| Satisfaction.NonZeroOrder | server.js:763-767 | the surviving entries keep their order |
| Satisfaction.NonZeroFacts | server.js:763-767 | deleting zero entries keeps labels distinct, keeps exactly the labels with a non-zero count and keeps every count |
| Satisfaction.LevelCountsFacts | server.js:740-760 | before deletion every label is present once, with the number of fields holding it |
| Satisfaction.CalculateSatisfaction | server.js:739-770 | the method computes the satisfaction specification |
| Satisfaction.SatisfactionFacts | server.js:739-770 | the output labels are distinct, are exactly the listed labels some field holds, each with its count of (record, field) pairs holding it, in the listed order |
| Satisfaction.Satisfaction | server.js:739-770 | definition of the satisfaction chart; properties in `Satisfaction.SatisfactionFacts` and `Satisfaction.RepeatedLevel` |
| Satisfaction.RepeatedLevel | server.js:753-760 | two fields of one record holding "جيد" count 2 |
| Insights.TallyNonEmpty | server.js:782 | a non-empty population gives a non-empty histogram, so `topMajor` is always defined |
| Insights.PopulationInsights | server.js:776-785 | one population block yields its size line and its top-label line, or nothing when it is empty |
| Insights.GenerateInsights | server.js:773-803 | the method computes the insights specification |
| Insights.MostCommonMax | server.js:781 | the top label occurs, its count is its number of occurrences, and no label occurs more often |
| Insights.MostCommonFirst | server.js:781 | every label first seen before the top label occurs strictly less often |
| Insights.MostCommonFacts | server.js:780-783 | the top label is a most frequent one and ties go to the label seen first |
| Insights.MostCommon | server.js:781 | definition of the top label; properties in `Insights.MostCommonMax`, `Insights.MostCommonFirst` and `Insights.MostCommonFacts` |
| Insights.InsightsShape | server.js:773-803 | the fallback is never returned; two lines per non-empty population, students first; exactly the waiting line when both are empty |
| Insights.Insights | server.js:773-803 | definition of the insight lines; properties in `Insights.InsightsShape` and `Insights.TopMajorExample` |
| Insights.PopulationShape | server.js:776-785 | a block yields two lines, the size and the top label, when its population is non-empty, and none otherwise |
| Insights.CountLineReads | server.js:777 | the number in a size line reads back as the size |
| Insights.MostCommonExample | server.js:780-781 | majors "CS", "CS", "Math" give "CS" with 2 |
| Insights.TopMajorExample | server.js:776-785 | three students with those majors give the line naming "CS" with "2 طالب" |
| Analysis.UpdateAnalysis | server.js:637-665 | the method computes the analysis specification |
| Analysis.ReportClocks | server.js:640-665 | the two clock readings are recorded where they were taken |
| Analysis.ReportFacts | server.js:637-658 | the total is students plus professors; each histogram counts every response once under its label; feature rankings are at most ten, best first; only the listed labels appear in the satisfaction chart; there is at least one insight |
| Analysis.ReportOf | server.js:637-665 | definition of the analysis object; properties in `Analysis.ReportFacts` and `Analysis.EmptyReport` |
| Analysis.RankingFacts | server.js:729-735 | the ranking has at most ten entries in non-increasing order |
| Analysis.EmptyRanking | server.js:707-736 | no responses rank no features |
| Analysis.EmptySatisfaction | server.js:739-770 | no responses give no satisfaction levels |
| Analysis.EmptyReport | server.js:637-665 | with no responses: zero counts, "0%", "0 دقيقة", empty charts and the single waiting line |
| Submission.SpreadFacts | server.js:276 | spreading the body assigns its keys and leaves the other keys and the first key alone |
| Submission.Spread | server.js:276 | definition of `...req.body`; properties in `Submission.SpreadFacts` and `Submission.SpreadOverId` |
| Submission.CompletionTime | server.js:279 | definition of `req.body.completionTime \|\| 'غير محدد'`; properties in `Submission.MissingTimeIgnored` |
| Submission.SurveyRecord | server.js:274-281 | definition of the stored record; properties in `Submission.SurveyRecordFacts`, `Submission.RecordGet` and `Submission.RecordFirstKey` |
| Submission.SpreadOverId | server.js:274-276 | the body's keys win over the generated `id`, which stays the first key |
| Submission.ServerFieldsGet | server.js:277-280 | the four server-set properties are exactly `timestamp`, `ip`, `completionTime` and `submitted: true` |
| Submission.RecordGet | server.js:274-281 | reading any key of the stored record: server fields win, then the body, then the generated `id` |
| Submission.RecordFirstKey | server.js:275 | `id` is the record's first key |
| Submission.SurveyRecordFacts | server.js:274-281 | the stored record has `submitted: true` and the server's timestamp, ip and completion time whatever the body says; a body `id` overrides `Date.now()`; every other body key is kept |
| Submission.RecordId | server.js:294 | the returned `id` is the body's `id` when present, otherwise the generated one |
| Submission.RecordSubmitted | server.js:280 | every stored record is marked submitted and so counts as completed |
| Submission.MissingTimeIgnored | server.js:279 | a body without a truthy completion time stores "unspecified", which the average ignores |
| Submission.SubmittedRate | server.js:692 | over records all marked submitted the rate is 100, rendered "100.0%" |
| Submission.SubmitKeepsSubmitted | server.js:280-283 | appending a stored record keeps a population all-submitted |
| Submission.Survey.constructor | server.js:264-272 | the server starts from the stored populations, with no analysis |
| Submission.Survey.RefreshAnalysis | server.js:289 | the stored analysis becomes the analysis of the current populations; the populations are unchanged |
| Submission.Survey.SubmitStudent | server.js:262-306 | the record is appended to the students and the professors are unchanged; the analysis is rebuilt over both; the response carries the record's `id`, its timestamp and the new student count |
| Submission.Survey.SubmitProfessor | server.js:310-354 | the record is appended to the professors and the students are unchanged; the analysis is rebuilt over both; the response carries the record's `id`, its timestamp and the new professor count |

## Left out

- File reads and writes, `JSON.parse`/`JSON.stringify`, the empty-file check and the `try`/`catch` error paths (status 500, `updateAnalysis` returning `null`) are I/O. The populations are explicit state and arguments.
- Express routing, the response's `success` and `message` fields, static pages, keep-alive timers and the debug and status endpoints are HTTP and runtime plumbing and are not modelled.
- `Date.now()`, `toLocaleString('ar-SA')`, `toISOString()` and the client address (`req.ip || x-forwarded-for || remoteAddress`) are environment values. They are parameters.
- Concurrent POSTs and their read-modify-write race are not modelled: the handlers run one at a time.
- JsValue.Value: numbers are integers. Fractional, huge and exponent-format numbers, and what `String` and `parseInt` do with them, are not modelled. Nested objects are not modelled either; array values are string lists.
- Statistics.RateText: `toFixed(1)` works on a binary double. The model rounds the exact quotient half up, so a value whose double sits just below a half may render differently.
- Statistics.TimeText: the same difference for the average time.
- Features.Hundredths: the same difference for `toFixed(2)`; the sort then compares these rounded values as the source does.
- Features.RankFeatures: each average is kept as a number of hundredths, not as the string `toFixed(2)` returns; the order and the cut at ten are the same.
- Grouping.GroupBy: the histogram is an ordered list with no inherited keys. In JavaScript a label such as `constructor` first reads the function inherited from `Object.prototype`, and its bucket becomes a string rather than 1.
- Submission.RecordFirstKey: a JavaScript object lists integer-like keys (such as `"7"`) first, in numeric order, and the other keys in insertion order. The model keeps every record key in insertion order, so `id` is first only when the body has no integer-like keys.
- Engine key order: the same ordering applies to `Object.entries` and to the histograms. The model keeps insertion order there too, so "first seen" tie-breaking is exact only for non-numeric labels.
