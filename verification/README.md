# Nutrition backend core in Dafny

A verified model of the logic of a small nutrition-tracking web service.
Its three pieces are:

- **The greedy meal recommender** (`coding/app/recommender.py`). A fixed
  catalog of ten foods, and `recommend_meals`. Over at most five passes,
  `recommend_meals` picks the food whose weighted protein, carbs, fat and
  calorie shortfalls are smallest. It skips foods that overshoot the
  remaining calories by more than 20% while more than 200 kcal remain. It
  then subtracts the chosen food from the running remainders.
- **The request-handler decisions** (`coding/app/routes.py`):
  - the goals upsert of `set_goals`;
  - the target resolution and guards of `get_recommendations`;
  - the month aggregation of `monthly_summary`: exact totals, per-day
    buckets in first-seen order, and the macro totals rounded to two
    decimals.
- **The record validators and constructors** (`coding/app/models.py`):
  `validate_macros`, `new_goals` and `new_intake`.

Modules:

| file | module | form |
|---|---|---|
| `common.dfy` | `Common` | `Option`, `Result` and the `ValueError` the validators raise |
| `models.dfy` | `Models` | pure functions returning `Result` |
| `recommender.dfy` | `Recommender` | the catalog constant and the two nested loops as methods, each proved equal to a specification function (`BestFood`, `Plan`); lemmas about those functions |
| `routes.dfy` | `Routes` | the goals table as a class with an `Upsert` method; the handlers as methods returning `(status, payload)`; the aggregation loop as a method proved equal to the fold `TallyOf`; lemmas about the fold |

Modelling conventions:

- Python floats are exact `real`s. Every catalog value is exact in `real`.
- The four running remainders of `recommend_meals` are one `Remaining`
  record, updated once per pass.
- `best_score = float("inf")` is `best == None`: the first food that is
  not excluded always wins against it.
- A `ValueError` that a handler does not catch becomes a response with
  status 500. The web framework answers it with a generic error page; the
  `ServerError` payload, which records the exception, exists only in the
  model, so that the proofs can say which check failed.
- Dates in the aggregation arrive already parsed. A row's `date` is `None`
  when the timestamp does not parse. A `Date` key stands for its ISO
  string `YYYY-MM-DD`, and the two are one-to-one.
- The insertion order of the `days` dictionary is kept as a separate
  sequence, `order`.
- A request body is `Body`. Each key the handlers read is an `Option`
  (`None` when the key is absent or `null`). A flag records whether the
  object has any other key, or one of these keys with a `null` value, so
  that `not body` can be decided.
- `table.update(goals, cond)` replaces every matching record by `goals`.
  This is exact here because the stored documents are goals documents
  with the same keys.

## Model

| member | source | states |
|---|---|---|
| Models.GetOrZero | coding/app/models.py:36-38 | reference definition, no contract: a missing macro key reads as 0 |
| Models.ToDict | coding/app/models.py:41 | the dictionary form of a `Macros` value has exactly the keys `protein_g`, `carbs_g` and `fat_g` |
| Models.ValidateMacros | coding/app/models.py:35-41 | succeeds exactly when none of protein, carbs and fat is negative; a missing key counts as 0; on success returns the three values unchanged; otherwise raises "Macro values must be non-negative" |
| Models.ValidateStoredMacros | coding/app/models.py:35-41 | validating the dictionary form of a `Macros` value succeeds exactly when it is non-negative, and then gives back the same value |
| Models.NewGoals | coding/app/models.py:44-52 | rejects `daily_calories <= 0` with "daily_calories must be > 0"; otherwise copies user id, calories and macros unchanged and stamps `now` |
| Models.NewIntake | coding/app/models.py:55-75 | rejects `calories < 0` with "calories must be >= 0" and checks no macro sign; otherwise copies every field unchanged; the timestamp is the given one, else `now` |
| Recommender.Excluded | coding/app/recommender.py:51 | reference definition, no contract: a food is skipped when its calories exceed 1.2 times the remaining calories while more than 200 remain |
| Recommender.Eat | coding/app/recommender.py:69-72 | reference definition, no contract: each remainder drops by the picked food's value, without clamping |
| Recommender.Targets | coding/app/recommender.py:34-37 | reference definition, no contract: the starting remainders are the targets, calories as a real |
| Recommender.Gap | coding/app/recommender.py:54-57 | a clamped shortfall is never negative and never below the unclamped difference |
| Recommender.Score | coding/app/recommender.py:59 | every score is non-negative |
| Recommender.BestAmong | coding/app/recommender.py:47-63 | the food the scoring loop holds after a prefix of the catalog, with strict `<`; the held index lies in that prefix |
| Recommender.Best | coding/app/recommender.py:47-63 | the index a whole pass picks lies within the catalog |
| Recommender.BestAmongIsFirstArgMin | coding/app/recommender.py:47-63 | after visiting a prefix of the catalog, the scoring loop holds nothing exactly when every food so far is excluded; otherwise it holds a non-excluded food of minimal score, with no earlier non-excluded food scoring as low (first wins a tie) |
| Recommender.FirstArgMinUnique | coding/app/recommender.py:61-63 | the first-wins minimum is unique, so the characterisation fixes the pick |
| Recommender.BestFood | coding/app/recommender.py:47-63 | the food a pass picks is a catalog entry |
| Recommender.BestFoodIsFirstArgMin | coding/app/recommender.py:47-66 | a pass picks nothing exactly when every food is excluded; otherwise it picks the earliest food of minimal score among the non-excluded ones |
| Recommender.PickBest | coding/app/recommender.py:47-63 | the inner scoring loop returns exactly the food `BestFood` specifies |
| Recommender.Plan | coding/app/recommender.py:42-72 | reference definition, no contract: the greedy plan; stop when no pass is left, calories are used up or nothing is picked, otherwise take the pass's pick and continue from the reduced remainders; its properties are the `Plan*` lemmas |
| Recommender.RecommendMeals | coding/app/recommender.py:29-74 | the loop returns the greedy plan `Plan` over the shipped catalog; at most 5 entries; empty when `target_calories <= 0`; non-empty when it is positive |
| Recommender.PlanFacts | coding/app/recommender.py:34-68 | over the shipped catalog the plan has at most 5 entries, is empty for calories `<= 0` and non-empty for positive calories |
| Recommender.PlanLength | coding/app/recommender.py:42-68 | the plan never has more entries than passes |
| Recommender.PlanFromCatalog | coding/app/recommender.py:49-68 | every plan entry is an element of the catalog (repeats allowed) |
| Recommender.PlanPicks | coding/app/recommender.py:34-72 | pick `k` is made from the remainders "targets minus the sums of the first `k` picks" (no clamping); those calories were still positive, so every proper prefix of the plan sums to fewer calories than the target; the pick is the greedy choice for those remainders |
| Recommender.PlanStops | coding/app/recommender.py:42-66 | a plan shorter than the pass bound ends with the calories used up or with every food excluded |
| Recommender.PlanSkipsExcluded | coding/app/recommender.py:50-63 | no plan entry was excluded on its pass, and no food in play on that pass scored lower |
| Recommender.AfterCons | coding/app/recommender.py:69-72 | subtracting one food and then the rest equals subtracting the whole sequence's sums |
| Recommender.CatalogNeverExcluded | coding/app/recommender.py:15-52 | no catalog food exceeds 216 kcal, so the exclusion rule never fires for the shipped catalog |
| Recommender.PositiveTargetNonEmpty | coding/app/recommender.py:43-68 | with positive calories left and a pass to spare, the plan over the shipped catalog is non-empty |
| Recommender.FirstPickExample | coding/app/recommender.py:15-63 | for targets 500 kcal, 40 g protein, 50 g carbs and 15 g fat, the first pick is brown rice (score 158.54, the catalog minimum) |
| Routes.Lookup | coding/app/routes.py:57 | `table.get` finds nothing exactly when no record belongs to the user; otherwise it returns that user's first stored record |
| Routes.ReplaceUser | coding/app/routes.py:33 | `table.update` keeps the length and overwrites exactly the user's records with the new goals |
| Routes.Upserted | coding/app/routes.py:32-35 | reference definition, no contract: overwrite the user's records when there are any, otherwise append; characterised by the `Upserted*` lemmas |
| Routes.UpsertedLookup | coding/app/routes.py:32-35 | after the upsert the user reads the new goals and every other user reads what it read before |
| Routes.UpsertedShape | coding/app/routes.py:32-35 | the upsert overwrites the user's records in place when there are any, otherwise appends exactly one; other users' records are unchanged |
| Routes.UpsertedIdempotent | coding/app/routes.py:32-35 | storing the same goals twice equals storing them once |
| Routes.GoalsTable.Upsert | coding/app/routes.py:32-35 | the table's new contents are `Upserted` of the old ones |
| Routes.DailyCaloriesOrZero | coding/app/routes.py:25 | reference definition, no contract: a missing `daily_calories` reads as 0 |
| Routes.MacrosOrEmpty | coding/app/routes.py:26 | reference definition, no contract: missing `macros` read as `{}` |
| Routes.GoalsFromBody | coding/app/routes.py:24-28 | `set_goals` builds goals exactly when the body's macros validate and its calories (default 0) are positive; a macro error is raised first; the goals carry the user id, calories, validated macros and `now` |
| Routes.SetGoals | coding/app/routes.py:22-37 | a raised error gives status 500 and leaves the table unchanged; otherwise status 200 with the goals, and the table is upserted |
| Routes.ResolvedCalories | coding/app/routes.py:61 | reference definition, no contract: the body's calories unless absent or 0, then the stored ones, then 0; see `Routes.BodyKeysOverride` |
| Routes.ResolvedMacros | coding/app/routes.py:62 | reference definition, no contract: the body's macros unless absent or empty, then the stored ones, then `{}`; see `Routes.BodyKeysOverride` |
| Routes.ResolveTargets | coding/app/routes.py:58-66 | no stored goals and an empty body gives `goals_not_found`; otherwise invalid macros raise; otherwise a resolved `daily_calories <= 0` is rejected before the recommender; a resolved target has positive calories and validated macros |
| Routes.BodyKeysOverride | coding/app/routes.py:61-62 | each body key overrides the stored goals on its own: a present non-zero `daily_calories` (negative included) and a present non-empty `macros` object are used whatever is stored; an absent or falsy one falls back to the stored value, else to 0 or `{}` |
| Routes.BodyCaloriesStoredMacros | coding/app/routes.py:61-66 | a body with only `daily_calories` uses those calories with valid stored macros; a negative value overrides the stored calories and gives `invalid_daily_calories` |
| Routes.BodyOverridesStored | coding/app/routes.py:61-66 | with both targets in the body, positive calories and valid macros, the body's values are the resolved targets whatever is stored |
| Routes.StoredGoalsUsed | coding/app/routes.py:61-63 | with no targets in the body, valid stored goals are used unchanged |
| Routes.GetRecommendations | coding/app/routes.py:50-75 | status 404 exactly for no goals and an empty body; 500 for rejected macros; 400 `invalid_daily_calories`; otherwise 200 with the greedy plan for the resolved targets |
| Routes.AddRow | coding/app/routes.py:117-132 | reference definition, no contract: one loop step; its effect is stated by `Routes.AddRowEffect` |
| Routes.TallyOf | coding/app/routes.py:117-132 | reference definition, no contract: the loop state after the rows in order; characterised by the `Tally*` lemmas |
| Routes.Accumulate | coding/app/routes.py:111-132 | the aggregation loop ends in exactly the state the fold `TallyOf` specifies |
| Routes.AddRowEffect | coding/app/routes.py:117-132 | an unparseable or other-month row changes nothing; a row of the month adds its values to the totals and to its own day's bucket (a new one starting at zero, its day appended to the key order) and leaves every other bucket unchanged |
| Routes.TallyOfMatching | coding/app/routes.py:117-122 | the result over all rows equals the result over just the rows of the month |
| Routes.TallyTotals | coding/app/routes.py:111-127 | the totals are the exact sums over the month's rows; calories stay an integer |
| Routes.EmptyMonth | coding/app/routes.py:111-132 | with no rows in the month, the totals are zero and `by_day` is empty |
| Routes.TallyDays | coding/app/routes.py:115-128 | `by_day` has exactly one key per distinct day of the month's rows and no other; the key order lists each key once |
| Routes.TallyOrderGrows | coding/app/routes.py:117-128 | keys stay in first-seen order: the order after any prefix of the rows is a prefix of the final order |
| Routes.AddRowBalanced | coding/app/routes.py:124-132 | one loop step keeps the per-day buckets summing to the running totals |
| Routes.BucketsSumToTotals | coding/app/routes.py:124-132 | for each field, the buckets summed over all days equal the unrounded total |
| Routes.TallyDayBucket | coding/app/routes.py:128-132 | each day's bucket is the sum of that day's rows of the month |
| Routes.NoRowsOnMissingDay | coding/app/routes.py:123-128 | a day without a bucket has no rows in the month |
| Routes.Round2 | coding/app/routes.py:138-140 | the rounded total is within 0.005 of the exact one and has at most two decimals |
| Routes.SummaryOf | coding/app/routes.py:134-143 | reference definition, no contract: the month, the calorie total as is, the macro totals through `Round2`, and `by_day` unrounded in its key order |
| Routes.MonthlySummary | coding/app/routes.py:95-145 | a missing or empty `month` gives 400 `missing_month`; an unparseable one gives 400 `invalid_month`; otherwise 200 with the month's totals (macros rounded, calories exact) and the unrounded `by_day` in first-seen order |
| Routes.SummaryExample | coding/app/routes.py:111-143 | rows of 100 and 200 kcal on 2024-03-05 and 50 kcal on 2024-03-06 give 350 kcal and two buckets, 300 and 50, in that order |

## Left out

- HTTP and JSON plumbing. This covers `request.get_json`, Flask routing and
  serialisation, and the `int()`/`float()` coercions of body fields with the
  exceptions they raise. Bodies arrive already decoded, as typed values.
- The document store (coding/app/db.py) and the app factory
  (coding/app/__init__.py). coding/app/db.py is not part of this model. The
  goals table is a sequence of records.
- The `get_goals` and `log_intake` handlers, which only read or insert one
  record; `new_intake`, which `log_intake` calls, is modelled.
- The filtering of intake rows by `user_id` (`table.search`). The
  aggregation receives the user's rows.
- The date parser. Timestamps and the `month` argument arrive parsed, with
  `None` for a parse failure. The ISO string of a day key and the
  `"%Y-%m"` month string are represented by the `Date` and `(year, month)`
  values they are one-to-one with.
- The clock. `utc_now_iso` and the default intake timestamp are a `now`
  parameter.
- IEEE-754 arithmetic. Sums, scores and `round(x, 2)` are on exact reals,
  and `round` is round-half-even at two decimals. Float rounding that could
  flip a score tie or a rounding boundary is not modelled.
- A JSON `null` value for `daily_calories` or `macros` in
  `set_goals`, where `int(None)` and `validate_macros(None)` raise errors
  other than `ValueError`. In `get_recommendations` a `null` value is
  modelled: the key reads as `None`, and `otherKeys` is set because the
  object is not empty.
- Routes.Round2: states closeness and two decimals, not the exact value
  Python's `round` gives on the binary float nearest the sum.
- Recommender.RecommendMeals: its contract does not name the individual
  remainders. That each pick is made from "targets minus the earlier
  picks" is stated for the specification function `Plan` by
  `Recommender.PlanPicks`.
- The docstring of `recommend_meals` says it picks 3 to 5 items. The code
  does not guarantee it (a small calorie target can give one item), and
  the model does not claim it.
