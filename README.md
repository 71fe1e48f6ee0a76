# Citizen-satisfaction survey: scoring, analytics and survey routes

This project models the core of a citizen-satisfaction survey service in Dafny.
Citizens submit a survey: demographics, three Citizen's Charter answers, nine
Service-Quality-Dimension ratings (SQD0..SQD8, each 1..5 and optional) and
free-text suggestions. Administrators list, read and delete surveys and
query analytics over the stored corpus.

- `wrappers.dfy`: `Option` and `Result`.
- `ordering.dfy`: a stable insertion sort by an integer rank. It models every
  `$sort` / `.sort` in the service, and its lemmas cover permutation, order,
  membership, distinct keys and sums.
- `survey_model.dfy` (`SurveyModel`): the survey record and its schema
  constraints, the `averageSQDScore` virtual (the exact mean of the present
  ratings, 0 when none) and the `satisfactionLevel` virtual (an if-chain over
  the closed lower bounds 4.5, 3.5, 2.5 and 1.5).
- `analytics.dfy` (`Analytics`): the analytics endpoints as functions over
  `seq<Survey>`. These are `/summary`, `/sqd-averages`, `/by-client-type`,
  `/by-region`, `/trends` and `/export`. MongoDB's `$avg` ignores nulls and
  yields null when nothing is present. `/satisfaction-distribution` is a
  method with the counting loop, proved against a specification function.
- `survey_routes.dfy` (`SurveyRoutes`): the `validateSurvey` sanitisers and
  rules, the document built from an accepted body, the step-by-step filter
  builder, the pagination arithmetic, and a `SurveyStore` class. Its methods
  are `POST /`, `GET /`, `GET /:id` and `DELETE /:id`, with status codes
  and the saved records as state.

Averages are exact reals, and timestamps are integers (milliseconds). A day
is `submittedAt / 86400000`, the UTC day number. The region regular-expression
test is a function parameter.

`/summary` averages the per-record `$avg`s, so unanswered surveys are
skipped rather than counted as 0. The validator does not check ratings: a
rating outside [1,5] passes validation and is then rejected by the schema
with status 500, not 400.

Two length measures meet on `suggestions`. The validator's `isLength`
counts a character outside the Basic Multilingual Plane (a surrogate pair)
once and does not count the variation selectors U+FE0E and U+FE0F
(`ValidatorLength`). The schema's `maxlength` counts UTF-16 code units, so
such a character counts twice (`Utf16Length`). Suggestions that pass the
first limit can fail the second, and the submission is then answered 500.

## Model

| member | source | states |
|---|---|---|
| SurveyModel.ParseClientType | backend/models/Survey.model.js:10-14 | A parsed client type has exactly the given literal as its name; a string that names no client type is refused |
| SurveyModel.ParseSex | backend/models/Survey.model.js:15-19 | A parsed sex has exactly the given literal as its name; a string that names no sex is refused |
| SurveyModel.EnumNamesRoundTrip | backend/models/Survey.model.js:10-19 | Every enum value's literal parses back to that value |
| SurveyModel.Trim | backend/models/Survey.model.js:26-44 | The schema's `trim`: the result has no white space at either end and is a slice of the input with only white space outside it |
| SurveyModel.TrimStart | backend/models/Survey.model.js:26-44 | A suffix of the input whose first character is not white space, everything before it being white space |
| SurveyModel.TrimEnd | backend/models/Survey.model.js:26-44 | A prefix of the input whose last character is not white space, everything after it being white space |
| SurveyModel.TrimSlice | backend/models/Survey.model.js:26-44 | Trimming the front, then the back, leaves the slice of the input between the leading and the trailing white space |
| SurveyModel.TrimTrimmed | backend/models/Survey.model.js:26-30 | A string without white space at either end is left unchanged by trimming |
| SurveyModel.TrimIdempotent | backend/models/Survey.model.js:26-30 | Trimming twice is the same as trimming once |
| SurveyModel.TrimEmpty | backend/routes/survey.routes.js:11 | A string trims to nothing exactly when every character is white space |
| SurveyModel.PresentScores | backend/models/Survey.model.js:83 | The non-null ratings: a value is kept exactly when some slot holds it, and there are no more values than slots |
| SurveyModel.AnsweredIffSomeRating | backend/models/Survey.model.js:83-84 | A survey has a present rating exactly when some SQD slot is non-null |
| SurveyModel.PresentScoresSlots | backend/models/Survey.model.js:83-85 | The sum and number of the present ratings equal the slot-by-slot total (a null adds 0) and the slot-by-slot count of non-null slots |
| SurveyModel.AverageSQDScoreMeaning | backend/models/Survey.model.js:82-86 | `averageSQDScore` is the total of the present ratings over their number, and 0 exactly when no rating is present |
| SurveyModel.AverageSQDScore | backend/models/Survey.model.js:82-86 | `averageSQDScore` is 0 for a survey with no rating, and lies in [1,5] for an answered survey whose ratings meet the schema |
| SurveyModel.PresentMeanInRange | backend/models/Survey.model.js:82-86 | When every rating is in [1,5], the mean of the present ratings is in [1,5] |
| SurveyModel.UnansweredScoresZero | backend/models/Survey.model.js:83-84 | A survey whose nine slots are all null is unanswered and scores exactly 0 |
| SurveyModel.SumBounds | backend/models/Survey.model.js:85 | A sum of n values in [lo, hi] lies in [n·lo, n·hi] |
| SurveyModel.MeanBounds | backend/models/Survey.model.js:85 | A total between n·lo and n·hi divided by n lies in [lo, hi] |
| SurveyModel.SatisfactionLevel | backend/models/Survey.model.js:89-96 | The label's rank (0 for Very Dissatisfied up to 4 for Very Satisfied) is the number of the closed lower bounds 1.5, 2.5, 3.5, 4.5 the average reaches |
| SurveyModel.LowerBoundsReached | backend/models/Survey.model.js:91-95 | The number of bounds reached is the sum of the four separate threshold tests |
| SurveyModel.SatisfactionLevelMonotone | backend/models/Survey.model.js:90-95 | A larger average never gets a lower label |
| SurveyModel.BoundsReachedMonotone | backend/models/Survey.model.js:91-95 | A larger average reaches at least as many bounds |
| SurveyModel.UnansweredIsVeryDissatisfied | backend/models/Survey.model.js:84-95 | A survey with no rating is labelled Very Dissatisfied |
| SurveyModel.LevelNamesDistinct | backend/models/Survey.model.js:91-95 | The five labels are five different strings |
| SurveyModel.Utf16Length | backend/models/Survey.model.js:60-64 | The length `maxlength` measures, in UTF-16 code units: at least the number of characters and at most twice it |
| Analytics.PresentValues | backend/routes/analytics.routes.js:17-21 | The non-null inputs of `$avg`: a value is kept exactly when some input holds it |
| Analytics.PresentValuesEmpty | backend/routes/analytics.routes.js:17-21 | No value is kept exactly when every input is null |
| Analytics.Avg | backend/routes/analytics.routes.js:17-21 | `$avg` is null exactly when every input is null |
| Analytics.RealSumBounds | backend/routes/analytics.routes.js:28 | A sum of n reals in [lo, hi] lies in [n·lo, n·hi] |
| Analytics.AvgBounds | backend/routes/analytics.routes.js:28 | When every present input is in [lo, hi], a non-null `$avg` is in [lo, hi] |
| Analytics.ToReals | backend/routes/analytics.routes.js:17-21 | Each slot converted to a real, nulls kept null |
| Analytics.PresentOfReals | backend/routes/analytics.routes.js:17-21 | Dropping nulls commutes with converting ratings to reals |
| Analytics.RealSumOfInts | backend/routes/analytics.routes.js:17-21 | The real sum of converted ratings is the integer sum converted |
| Analytics.AvgOfRatings | backend/routes/analytics.routes.js:17-21 | `$avg` over integer ratings is their exact mean, and null when none is present |
| Analytics.RecordAverage | backend/routes/analytics.routes.js:15-23 | The per-record `$avg` equals `averageSQDScore` on an answered survey and is null, not 0, on an unanswered one |
| Analytics.RecordAverages | backend/routes/analytics.routes.js:15-23 | One per-record average for each survey, in order |
| Analytics.MeanOfRecordAverages | backend/routes/analytics.routes.js:25-30 | The `$avg` of the per-record averages is null exactly when no survey is answered, and lies in [1,5] when every rating does |
| Analytics.AnsweredAverages | backend/routes/analytics.routes.js:25-30 | The non-null per-record averages are as many as the answered surveys, and add up to their total `averageSQDScore` |
| Analytics.MeanOfAnswered | backend/routes/analytics.routes.js:25-30 | The `$avg` of the per-record averages is null when no survey is answered, and otherwise the total `averageSQDScore` of the answered surveys over their number |
| Analytics.Summary | backend/routes/analytics.routes.js:8-43 | `totalResponses` is the number of surveys; an empty corpus gives (0, 0); the call fails (500) exactly when the corpus is non-empty and every survey is unanswered; otherwise `averageSatisfaction` is the mean `averageSQDScore` of the answered surveys |
| Analytics.SummaryAverageInRange | backend/routes/analytics.routes.js:33-35 | When every rating is in [1,5], a reported average is 0 for an empty corpus and in [1,5] otherwise |
| Analytics.SummaryIntended | backend/routes/analytics.routes.js:33-35 | Corrected summary: never fails, reports 0 for an all-unanswered corpus, and agrees with `/summary` wherever that succeeds |
| Analytics.SummaryFailsOnUnansweredCorpus | backend/routes/analytics.routes.js:33-35 | A one-survey corpus with no rating makes `/summary` fail, while the corrected summary reports (1, 0) |
| Analytics.CountAnswered | backend/routes/analytics.routes.js:25-30 | The number of answered surveys is at most the number of surveys, and 0 exactly when no survey is answered |
| Analytics.DistributionOf | backend/routes/analytics.routes.js:61-67 | The distribution's keys are exactly the five labels |
| Analytics.DistributionHasAllLabels | backend/routes/analytics.routes.js:61-67 | Every label is a key of the distribution, and for an empty corpus every count is 0 |
| Analytics.DistributionStep | backend/routes/analytics.routes.js:69-79 | An unanswered survey changes no counter; an answered one increments exactly the counter of its `satisfactionLevel` |
| Analytics.DistributionNext | backend/routes/analytics.routes.js:69-79 | The same step, stated for the prefix ending at survey i |
| Analytics.DistributionTotal | backend/routes/analytics.routes.js:69-80 | The five counts add up to the number of answered surveys |
| Analytics.CountAverage | backend/routes/analytics.routes.js:74-78 | The if-chain increments the counter of `satisfactionLevel(avg)` and leaves every other counter unchanged |
| Analytics.SatisfactionDistribution | backend/routes/analytics.routes.js:59-80 | The counting loop's result is the specified distribution |
| Analytics.Column | backend/routes/analytics.routes.js:105-113 | Question q's rating from every survey, in order, null when missing |
| Analytics.SqdAverages | backend/routes/analytics.routes.js:99-128 | No entries for an empty corpus, otherwise nine; as written, the SQD6 and SQD7 entries are always equal |
| Analytics.SqdAverageEntry | backend/routes/analytics.routes.js:105-127 | Each entry except SQD6 is the exact mean of the ratings given to its question, and 0 when nobody answered it |
| Analytics.SqdAverageInRange | backend/routes/analytics.routes.js:105-127 | When every rating is in [1,5], an entry is 0 exactly when nobody answered the field it reads, and otherwise lies in [1,5] |
| Analytics.SqdSixReadsSqdSeven | backend/routes/analytics.routes.js:111 | A survey rating SQD6 at 1 and SQD7 at 5 gets 5 as its SQD6 entry; the corrected table reports 1 |
| Analytics.SqdAveragesIntended | backend/routes/analytics.routes.js:105-127 | Corrected table: nine entries, each (SQD6 included) the exact mean of its own question's ratings, and 0 when none was given |
| Analytics.Members | backend/routes/analytics.routes.js:150-153 | A group's members are exactly the surveys with that key |
| Analytics.DistinctKeys | backend/routes/analytics.routes.js:150-153 | The group keys have no duplicates, and every survey's key is among them |
| Analytics.KeysHaveMembers | backend/routes/analytics.routes.js:150-153 | Every group key has at least one member |
| Analytics.GroupsFor | backend/routes/analytics.routes.js:150-163 | One row per key, each row that key's count and average |
| Analytics.MakeGroup | backend/routes/analytics.routes.js:150-163 | A `$group` row: its key, the number of surveys with that key, and their average, null when none of them is answered and otherwise the mean `averageSQDScore` of the answered ones |
| Analytics.OccursOnce | backend/routes/analytics.routes.js:150-153 | A key listed once in a duplicate-free list occurs exactly once |
| Analytics.OccursNever | backend/routes/analytics.routes.js:150-153 | A key not in the list occurs zero times |
| Analytics.GroupSumEmpty | backend/routes/analytics.routes.js:153 | Over an empty corpus every group count is 0 |
| Analytics.GroupSumStep | backend/routes/analytics.routes.js:153 | Adding one survey adds, to the total of the group counts, the number of times its key occurs in the key list |
| Analytics.GroupCountsAddUp | backend/routes/analytics.routes.js:153 | The `$sum: 1` counts of the groups add up to the corpus size |
| Analytics.GroupKeysDistinct | backend/routes/analytics.routes.js:150-153 | No two `$group` rows share a key |
| Analytics.GroupRowsCoverKeys | backend/routes/analytics.routes.js:150-163 | Every row is its key's count and average with count > 0, and every survey's key has a row |
| Analytics.SortedGroupsCount | backend/routes/analytics.routes.js:165-167 | Sorting the rows keeps their counts adding up to the corpus size |
| Analytics.SortedGroupsRows | backend/routes/analytics.routes.js:165-167 | Sorting keeps one non-empty row per key, and every survey's key has a row |
| Analytics.SortedGroupsProperties | backend/routes/analytics.routes.js:149-168 | `$group` then `$sort`: distinct keys, the rows are the groups, counts add up to the corpus size, ordered by the sort key |
| Analytics.ByClientType | backend/routes/analytics.routes.js:147-168 | One row per client type present, each that type's `MakeGroup` row with count > 0; counts add up to the corpus size; count non-increasing |
| Analytics.ByRegion | backend/routes/analytics.routes.js:187-208 | One row per region present, each that region's `MakeGroup` row with count > 0; counts add up to the corpus size; count non-increasing |
| Analytics.GroupAverageInRange | backend/routes/analytics.routes.js:154-162 | When every rating is in [1,5], a group's average is null exactly when none of its members is answered, and otherwise lies in [1,5] |
| Analytics.MembersAnswered | backend/routes/analytics.routes.js:154-162 | A group has no answered member exactly when no survey with its key is answered |
| Analytics.SubmittedSince | backend/routes/analytics.routes.js:234-238 | `$match`: a survey is kept exactly when it was submitted at or after the cutoff |
| Analytics.Trends | backend/routes/analytics.routes.js:227-258 | Only surveys at or after now − days are included; one `MakeGroup` row per day they fall on, with count > 0; counts add up to the number included; days strictly ascending |
| Analytics.DaysAscending | backend/routes/analytics.routes.js:239-258 | Grouping by day and sorting by `_id` ascending gives strictly ascending days, one row per day present, counts adding up |
| Analytics.Export | backend/routes/analytics.routes.js:278-287 | `count` equals the number of surveys returned; every survey is returned exactly once; newest first |
| Ordering.Insert | backend/routes/analytics.routes.js:166 | Insertion adds exactly the one element |
| Ordering.SortByRank | backend/routes/analytics.routes.js:166 | The sort returns a permutation of its input, ordered by non-increasing rank |
| Ordering.SplitHead | backend/routes/analytics.routes.js:166 | The first element and the rest make up the whole multiset |
| Ordering.InsertElement | backend/routes/analytics.routes.js:166 | After insertion, the elements are the inserted one and the old ones |
| Ordering.InsertKeepsOrder | backend/routes/analytics.routes.js:166 | Inserting into an ordered sequence keeps it ordered |
| Ordering.SortKeepsElement | backend/routes/analytics.routes.js:166 | An element is in the sorted sequence exactly when it is in the input |
| Ordering.SumByInsert | backend/routes/analytics.routes.js:166 | Inserting x adds f(x) to a sum over the elements |
| Ordering.SumBySort | backend/routes/analytics.routes.js:166 | Sorting does not change a sum over the elements |
| Ordering.InsertKeepsDistinct | backend/routes/analytics.routes.js:166 | Inserting an element with a new key keeps the keys distinct |
| Ordering.SortKeepsDistinct | backend/routes/analytics.routes.js:166 | Sorting keeps the keys distinct |
| SurveyRoutes.Sanitize | backend/routes/survey.routes.js:11-12 | `region` and `suggestions` become the trim of the received values, and no other field changes |
| SurveyRoutes.SanitizeIdempotent | backend/routes/survey.routes.js:11-12 | Sanitising a sanitised body changes nothing |
| SurveyRoutes.TrimOptionTrimmed | backend/routes/survey.routes.js:11-12 | An optional field after trimming has no white space at either end |
| SurveyRoutes.TrimOptionKeepsTrimmed | backend/routes/survey.routes.js:11-12 | Trimming an optional field that is already trimmed changes nothing |
| SurveyRoutes.ValidatorLength | backend/routes/survey.routes.js:12 | The length `isLength` measures: one per character, a surrogate pair counting once, U+FE0E and U+FE0F not counted; never more than the number of characters |
| SurveyRoutes.LengthMeasuresAgree | backend/routes/survey.routes.js:12 | The validator's length never exceeds the character count, which never exceeds the UTF-16 length; the two lengths agree on text inside the Basic Multilingual Plane without variation selectors |
| SurveyRoutes.AstralLengths | backend/routes/survey.routes.js:12 | On characters outside the Basic Multilingual Plane the validator counts one each and the schema two each |
| SurveyRoutes.OverlongSuggestionPassesValidator | backend/routes/survey.routes.js:12 | Suggestions of 1001 to 2000 characters outside the Basic Multilingual Plane pass the validator's rule but exceed the schema's 2000 UTF-16 code units |
| SurveyRoutes.SanitizedRulesMeaning | backend/routes/survey.routes.js:11-12 | On the body as received: the region rule holds exactly when a region with a non-white-space character is given; the suggestions rule holds exactly when suggestions are absent or their trim measures at most 2000 by `isLength` |
| SurveyRoutes.RuleTable | backend/routes/survey.routes.js:7-13 | The five rules, in order |
| SurveyRoutes.FieldNamesDistinct | backend/routes/survey.routes.js:8-12 | The five field names are five different strings |
| SurveyRoutes.Collect | backend/routes/survey.routes.js:21-25 | One error per failing rule, at most one per rule |
| SurveyRoutes.CollectEmpty | backend/routes/survey.routes.js:21-22 | The error list is empty exactly when every rule holds |
| SurveyRoutes.CollectFlags | backend/routes/survey.routes.js:21-25 | A field is reported exactly when some rule for it fails |
| SurveyRoutes.CollectFieldsFromRules | backend/routes/survey.routes.js:21-25 | Every reported field belongs to a failing rule |
| SurveyRoutes.CollectDistinct | backend/routes/survey.routes.js:21-25 | Rules with distinct fields report each field at most once |
| SurveyRoutes.HeadFieldNotInTail | backend/routes/survey.routes.js:21-25 | With distinct fields, the first rule's field is not reported by the later rules |
| SurveyRoutes.DistinctCons | backend/routes/survey.routes.js:21-25 | Putting an error with a new field in front keeps the fields distinct |
| SurveyRoutes.RuleTableHolds | backend/routes/survey.routes.js:7-13 | Every rule in the table holds exactly when all five checks pass |
| SurveyRoutes.RuleTableFlags | backend/routes/survey.routes.js:8-12 | Rule k's field is reported exactly when rule k fails |
| SurveyRoutes.Validate | backend/routes/survey.routes.js:7-13 | The error list is empty exactly when all five rules hold, and has at most five entries |
| SurveyRoutes.ValidateReportsFailingRules | backend/routes/survey.routes.js:8-12 | Each of clientType, sex, age, region and suggestions is reported exactly when its rule fails, and no field is reported twice |
| SurveyRoutes.ValidateIgnoresRatings | backend/routes/survey.routes.js:7-13 | The verdict does not depend on `sqdAnswers` |
| SurveyRoutes.SchemaSlots | backend/models/Survey.model.js:47-57 | The stored ratings are exactly the nine slots SQD0..SQD8, absent ones null |
| SurveyRoutes.Build | backend/routes/survey.routes.js:30-34 | The saved document carries the given id; `submittedAt` and `date` are the submitted values, defaulting to now; the parsed enums; the age; the region and suggestions as sanitised; the three Citizen's Charter answers trimmed; and exactly the nine SQD slots of the submitted ratings |
| SurveyRoutes.BuildRetrimsNothing | backend/models/Survey.model.js:26-64 | The schema's trim of region and suggestions leaves the built document unchanged |
| SurveyRoutes.BuildShapeValid | backend/models/Survey.model.js:3-79 | Apart from the ratings and the suggestions' UTF-16 length, a document built from an accepted sanitised body meets every schema constraint, and its suggestions still pass the validator's length rule |
| SurveyRoutes.BuildSchemaValidIff | backend/routes/survey.routes.js:30-36 | A document built from an accepted body passes the schema exactly when its SQD0..SQD8 ratings lie in [1,5] and its suggestions are at most 2000 UTF-16 code units |
| SurveyRoutes.BuildFilter | backend/routes/survey.routes.js:70-77 | The step-by-step builder yields the specified filter, and the empty filter when no parameter is given |
| SurveyRoutes.FilterOfMeaning | backend/routes/survey.routes.js:71-76 | A survey matches exactly when it meets each supplied condition: equal client type, region pattern, date bounds inclusive at both ends |
| SurveyRoutes.SortForListing | backend/routes/survey.routes.js:81 | The matches are reordered, not changed: newest first for `order = desc`, oldest first otherwise |
| SurveyRoutes.SelectMatching | backend/routes/survey.routes.js:80 | A survey is selected exactly when it is stored and matches the filter |
| SurveyRoutes.Paginate | backend/routes/survey.routes.js:82-83 | Fails exactly when (page−1)·limit < 0; otherwise returns the records from position (page−1)·limit onwards, at most abs(limit) of them, or all of them when the limit is 0 |
| SurveyRoutes.TotalPages | backend/routes/survey.routes.js:91 | `Math.ceil(count / limit)`: no number for limit 0, otherwise the least integer at or above count/limit |
| SurveyRoutes.TotalPagesBounds | backend/routes/survey.routes.js:91 | For limit > 0, totalPages = ⌈count/limit⌉ is 0 exactly for count 0, and (totalPages−1)·limit < count ≤ totalPages·limit otherwise |
| SurveyRoutes.EveryRecordOnAPage | backend/routes/survey.routes.js:82-91 | For limit > 0, record i lies on page i/limit + 1, which is between 1 and totalPages |
| SurveyRoutes.FindById | backend/routes/survey.routes.js:110 | No result exactly when no record has the id; a result is a stored record with that id |
| SurveyRoutes.WithoutId | backend/routes/survey.routes.js:138 | Exactly the records with another id remain |
| SurveyRoutes.WithoutAbsentId | backend/routes/survey.routes.js:138-145 | Removing an id nobody has changes nothing |
| SurveyRoutes.WithoutPresentId | backend/routes/survey.routes.js:138-145 | With distinct ids, removing a present id removes exactly one record |
| SurveyRoutes.WithoutKeepsDistinct | backend/routes/survey.routes.js:138 | Removing records keeps the ids distinct |
| SurveyRoutes.AppendFreshId | backend/routes/survey.routes.js:36 | Saving a record whose id is the next id keeps the ids distinct and below the new next id |
| SurveyRoutes.AppendNineSlots | backend/models/Survey.model.js:47-57 | Saving a survey with the nine SQD slots keeps every saved survey at exactly nine slots, part of the store's invariant |
| SurveyRoutes.SurveyStore.constructor | backend/routes/survey.routes.js:36 | The store starts empty and valid |
| SurveyRoutes.SurveyStore.Submit | backend/routes/survey.routes.js:18-51 | 400 with the errors exactly when a rule fails; 201 exactly when the rules hold, the ratings are in [1,5] and the suggestions fit 2000 UTF-16 code units, and then exactly the built document is appended and it passes the schema; otherwise 500; nothing is saved unless 201; the ids stay distinct |
| SurveyRoutes.SurveyStore.Get | backend/routes/survey.routes.js:108-122 | 404 exactly when no record has the id; otherwise 200 with a stored record that has it |
| SurveyRoutes.SurveyStore.Delete | backend/routes/survey.routes.js:136-151 | 404 and no change exactly when no record has the id; otherwise 200; either way the records become exactly those with another id, so exactly that record is removed |
| SurveyRoutes.SurveyStore.List | backend/routes/survey.routes.js:56-94 | Fails exactly when the skip is negative; otherwise the page of the sorted matches, `totalRecords` = the number of matches, `totalPages` = ⌈matches/limit⌉; every returned survey is stored and matches the filter; at most `limit` of them |

## Left out

- Rounding: `toFixed(2)` and `parseFloat` are left out; averages are exact reals. The `/sqd-averages` entries are strings with two decimals in the service and are reals here.
- Floating-point arithmetic: all sums and quotients are exact.
- Dates: `new Date()`, `setDate` and local time are left out. The trends cutoff is `now − days·86400000`; `now` is a parameter, and a `days` value that does not parse as an integer is not modelled.
- `$dateToString` is modelled as the UTC day number, whose order is the order of the `YYYY-MM-DD` strings.
- The region filter's case-insensitive regular expression is the parameter `regionMatch`.
- Listing sorts only by `submittedAt`; any other client-supplied `sortBy` field is not modelled.
- Query defaults: `page = 1`, `limit = 10`, `sortBy = 'submittedAt'`, `order = 'desc'` (backend/routes/survey.routes.js:58-66) and `days = 30` (backend/routes/analytics.routes.js:229) are applied before the model; `ListQuery` and `Trends` take the values after defaulting.
- A `region` query that is not a valid regular expression makes `new RegExp` throw, and the listing answers 500 (backend/routes/survey.routes.js:72). The model takes the match as the parameter `regionMatch` and does not model that failure.
- A `startDate` or `endDate` that does not parse as a date gives a cast error and status 500. The model takes both as integers and does not model that failure.
- Among surveys with equal `submittedAt`, the order of the listing and of `/export` is MongoDB's and is not modelled; the model's stable sort keeps the stored order.
- Query-string coercion of `page`, `limit` and `days` is not modelled; they are integers here.
- For `age`, a value that is not an integer is `None`.
- Ratings are integers; a non-integer rating is not modelled.
- `currentPage` is echoed as the integer page.
- The order of ties: the model's `$group` (`DistinctKeys`) emits rows in order of first appearance, and the stable sort keeps that order for equal counts; MongoDB guarantees neither.
- `ipAddress`, `userAgent` and the `createdAt`/`updatedAt` timestamps are not stored.
- Build: a client-supplied `_id` in the body is not modelled; the store assigns every id. Other unknown fields that `...req.body` passes through are dropped, as the strict schema drops them.
- An id that is not a valid ObjectId (a cast error with status 500) is not modelled; ids are natural numbers.
- Database failures other than a negative skip are not modelled, and neither are logging and response formatting.
- The admin routes (login, register, password change; bcrypt and JWT are foreign code) and `backend/scripts/init-db.js` (connection and index setup) are not part of this model.
- Authentication middleware is not part of this model.
- express-validator's handling of missing and non-string fields is not modelled: a missing `clientType` or `sex` reads as the empty string, which the rule rejects like any other invalid value.

## Findings

| source | as written | input that shows it | evidently intended | confidence | as-written member | corrected member |
|---|---|---|---|---|---|---|
| backend/routes/analytics.routes.js:111 | `avgSQD6` averages the `SQD7` field | one survey with SQD6 = 1 and SQD7 = 5: the SQD6 entry is 5 | `avgSQD6` averages `SQD6` | high (not executed) | Analytics.SqdSixReadsSqdSeven | Analytics.SqdAveragesIntended |
| backend/routes/analytics.routes.js:33-35 | `toFixed` is called on `overallAverage`, which is null when every survey has no rating | one survey with all nine ratings null: the call throws and `/summary` answers 500 | report 0 as for an empty corpus | high (not executed) | Analytics.SummaryFailsOnUnansweredCorpus | Analytics.SummaryIntended |
