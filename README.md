# Big-three trainer: a Dafny model of its scoring, records and storage

The application logs bench press, squat and deadlift training. It keeps a profile with
three one-rep maxima (1RM) and scores their total with the men's Wilks formula. It
places that score in one of fourteen tiers, and persists everything in the browser's
key-value store. This project models its core in Dafny and proves what the code
promises:

- `wilks.dfy` (module `Wilks`) covers lib/wilks.ts:
  - the Wilks score with its domain checks;
  - the Epley 1RM estimator;
  - the 14-row rank table and its well-formedness;
  - the top-down tier lookup, as a loop;
  - the progress to the next tier.
- `jsmath.dfy` (module `JsMath`) holds JavaScript's `Math.round` (round half up, as
  `Floor(x + 0.5)`) and the one- and two-decimal roundings built on it.
- `storage.dfy` (module `Storage`) covers lib/storage.ts:
  - the record types;
  - the `useLocalStorage` hook, modelled as a class `Cell` over a `Backing` store. It
    starts at `init`, is hydrated once, and has a `set` that applies the updater and
    writes through without failing.
- `session.dfy` (module `Session`) covers the training-tab logic of app/page.tsx:
  - the menu template and `makeDefaultSession`;
  - the seven in-session edits, as session transforms;
  - `finish`: the next template, and the 1RM auto-update as a loop proved against
    a closed form.
- `records.dfy` (module `Records`) covers the updaters that app/page.tsx passes to the
  persisted collections: `saveSession`, `addMealEntry`, `removeMealEntry` and
  `addWeight`.
- `stats.dfy` (module `Stats`) holds `safeWilks`, `computeStats` and the roadmap's
  `isCurrent` test.
- `app.dfy` (module `App`) holds the stateful shell:
  - `AppStore`, the five persisted cells with one method per updater;
  - `TrainingTab`, the working session with its edits and `finish`.
- `common.dfy` (module `Common`) holds `Option` and `Result`, and the array methods
  `findIndex` and `filter` that the lookups and updaters share.

Numbers are exact reals. An exception becomes an `Err` result, and `null` becomes
`None`. The clock (`todayStr()`, `new Date().toISOString()`), `genId()` and
`parseFloat` enter as parameters: a date string, an id, a timestamp, and an
`Option<real>` that is `None` for NaN. Whether a `localStorage` read or write throws
is a boolean parameter. `JSON.stringify`/`JSON.parse` form a `Codec` parameter.

## Model

| member | source | states |
|---|---|---|
| JsMath.Round | lib/wilks.ts:57 | `Math.round` gives the integer n with x - 1/2 < n <= x + 1/2, so halves round up |
| JsMath.RoundMonotone | lib/wilks.ts:57 | rounding never reverses the order of two numbers |
| JsMath.Round1 | lib/wilks.ts:78 | rounding to one decimal moves the value by at most 0.05, and the result is a whole number of tenths |
| JsMath.Round2 | lib/wilks.ts:57 | rounding to two decimals moves the value by at most 0.005, and the result is a whole number of hundredths |
| Wilks.DenominatorPositive | lib/wilks.ts:12-19 | the Wilks quintic is strictly positive for every bodyweight in 40..201.9 kg |
| Wilks.CalculateWilksScoreAsWritten | lib/wilks.ts:29-58 | as written: the result is a number exactly for a bodyweight in 40..635 kg and a positive total; the bodyweight error occurs exactly outside 40..635 kg, and it is checked first; the total error occurs exactly for a total <= 0 in range; a zero quintic gives a non-finite number; otherwise the result is the two-decimal rounding of total * 500 / P(bw) |
| Wilks.AsWrittenScoreNegative | lib/wilks.ts:33 | bodyweight 300 kg with total 300 kg passes the guard and scores below 0 |
| Wilks.CalculateWilksScore | lib/wilks.ts:29-58 | corrected guard (40..201.9 kg): a score exactly for a bodyweight in range and a positive total, the same error conditions and rounding, and every score is >= 0 |
| Wilks.CorrectedAgreesWithinRange | lib/wilks.ts:33-57 | up to 201.9 kg the corrected and as-written functions return the same result |
| Wilks.ScoreNonDecreasingInTotal | __tests__/wilks.test.ts:32-36 | at a fixed valid bodyweight, a larger total never scores lower |
| Wilks.EstimateOneRepMax | lib/wilks.ts:68-79 | an estimate exactly for reps in (0, 30] and a positive weight; the reps error occurs exactly for reps outside (0, 30], and it is checked first; the weight error occurs exactly for weight <= 0; one rep returns the weight itself; otherwise the result is the Epley estimate rounded to one decimal, and it is never negative |
| Wilks.EpleyExamples | __tests__/wilks.test.ts:73-103 | 100x5 gives 116.7, 80x8 gives 101.3 and 120x1 gives 120; reps 0, reps 31 and weight 0 throw |
| Wilks.AdjacentIncreasingIsIncreasing | lib/wilks.ts:109-250 | lower bounds that increase between neighbouring rows increase between any two rows |
| Wilks.RankTableShape | lib/wilks.ts:109-250 | the table has 14 rows, the first lower bound is 0, the bounds increase from row to row, and the last tier is Powerlifter |
| Wilks.RankTableContiguous | lib/wilks.ts:109-250 | every row's upper bound is the next row's lower bound |
| Wilks.RankTableOnlyTopUnbounded | lib/wilks.ts:109-250 | exactly the last row lacks an upper bound |
| Wilks.RankTableWellFormed | lib/wilks.ts:109-250 | the table is well formed: it starts at 0, has strictly increasing and contiguous bands, and only its top band is unbounded |
| Wilks.RankTableDistinctTiers | lib/wilks.ts:109-250 | no tier occurs in two rows |
| Wilks.CountAtMostIsPrefix | lib/wilks.ts:257-262 | in an increasing table, the rows whose lower bound a score reaches form a prefix |
| Wilks.RankIndexOfHighestReached | lib/wilks.ts:257-260 | the lookup index is the highest row whose lower bound the score reaches |
| Wilks.RankIndexOfNoneReached | lib/wilks.ts:262 | when no lower bound is reached, the lookup gives row 0 |
| Wilks.RankIndexInBand | lib/wilks.ts:255-263 | for a score >= 0 the chosen row's band [min, max) contains the score; below 0 the row is 0; every higher row starts above the score |
| Wilks.RankIndexAtBoundary | lib/wilks.ts:255-263 | a score equal to a row's lower bound maps to that row |
| Wilks.GetRankByWilks | lib/wilks.ts:255-263 | the descending loop returns the highest row the score reaches, or row 0; for a score >= 0 the row's band contains it |
| Wilks.BoundaryScores | __tests__/wilks.test.ts:115-169 | each lower bound 0, 80, ..., 500 maps to its own tier; 50 maps to Bronze I, 160 to Silver I, 440 to Gym Master and 999 to Powerlifter |
| Wilks.FindTierIndexOfRow | lib/wilks.ts:274-275 | with distinct tiers, finding a row's tier gives back that row |
| Wilks.RankProgressIn | lib/wilks.ts:268-301 | over any well-formed table with distinct tiers: the current row is the lookup's row; the next row is the following one, or none at the top; the top reports 100 % and 0 points; the percentage lies in [0, 100]; the points are >= 0 and within 0.005 of max(0, next minimum - score) |
| Wilks.GetRankProgress | lib/wilks.ts:268-301 | the same guarantees for the rank table |
| Wilks.RankProgressInMiddle | lib/wilks.ts:290-299 | below the top, the percentage is the rounded, clamped share of the band covered, and the points are the rounded distance to the next band |
| Wilks.ProgressExampleBronze | __tests__/wilks.test.ts:176-181 | score 40 is in Bronze I at 50 %, with 40 points to Bronze II |
| Wilks.HalfOfFirstBand | __tests__/wilks.test.ts:176-181 | in any well-formed table whose first band is [0, 80), score 40 is in the first tier at 50 %, with 40 points to the second |
| Wilks.ProgressExampleTop | __tests__/wilks.test.ts:183-188 | score 600 has no next tier, 100 % and 0 points |
| Storage.Hydrated | lib/storage.ts:70-75 | when the read succeeds, the key is present and its text parses, the parsed value is adopted; in every other case the value stays as it was |
| Storage.HydrateAfterWrite | lib/storage.ts:73 | with a round-tripping codec, a value written under the key is the value hydration reads back |
| Storage.HydrateMissingKeeps | lib/storage.ts:72-74 | a missing key or a failed read leaves the state as it was |
| Storage.Write | lib/storage.ts:84 | a successful `setItem` stores the text under the key, a failed one changes nothing, and other keys never change |
| Storage.Cell.constructor | lib/storage.ts:67 | before hydration the state is `init` |
| Storage.Cell.Hydrate | lib/storage.ts:70-75 | the mount effect sets the state to the hydration value and leaves the store alone |
| Storage.Cell.Set | lib/storage.ts:77-89 | the new state is the plain value, or the updater applied to the previous state, whether or not the write fails; the store gains its serialisation under the key only when the write succeeds |
| Storage.SetTwice | lib/storage.ts:79-85 | `set(f)` then `set(g)` leaves g(f(s)), and after a successful second write the store holds its serialisation |
| Storage.PersistThenReload | lib/storage.ts:67-89 | with a round-tripping codec, a fresh hook on the same key hydrates to the value just set with a successful write |
| Session.MakeDefaultSession | app/page.tsx:33-41 | an unfinished session with no `savedAt`, holding one exercise per menu item in order, each with the item's number of identical, uncompleted sets at the item's load |
| Session.DeriveTemplate | app/page.tsx:456-461 | one template item per exercise, with its name, its number of sets, and the first set's reps and weight (8 reps at 60 kg when it has no sets) |
| Session.TemplateRoundTrip | app/page.tsx:33-41 | a template with at least one set per item comes back unchanged from the default session it builds |
| Session.NextSessionRepeatsFirstSet | app/page.tsx:456-461 | the session built from a finished session's template repeats each exercise with the same number of sets, each at the first set's load and uncompleted |
| Session.ToggleSet | app/page.tsx:406-414 | only the exercise list changes; the edit itself is stated by Session.ToggleSetFlipsOne |
| Session.ToggleSetFlipsOne | app/page.tsx:406-414 | toggling leaves a finished session alone; otherwise it flips only the named set's `completed` flag; indices out of range change nothing |
| Session.ToggleSetInvolution | app/page.tsx:406-414 | toggling the same set twice restores the session |
| Session.AddSet | app/page.tsx:415-424 | only the exercise list changes; the edit itself is stated by Session.AddSetAppends |
| Session.AddSetAppends | app/page.tsx:415-424 | `addSet` appends a copy of the last set's weight and reps (60 kg x 5 when there is none), uncompleted, to the named exercise only |
| Session.RemoveSet | app/page.tsx:425-432 | only the exercise list changes; the edit itself is stated by Session.RemoveSetDeletes |
| Session.RemoveSetDeletes | app/page.tsx:425-432 | `removeSet` deletes exactly the named set; indices out of range change nothing |
| Session.RemoveSetUndoesAddSet | app/page.tsx:415-432 | removing the set just added restores the session |
| Session.UpdateSet | app/page.tsx:396-405 | only the exercise list changes; the edit itself is stated by Session.UpdateSetWrites |
| Session.UpdateSetWrites | app/page.tsx:396-405 | NaN or a negative value changes nothing; otherwise only the named field of the named set takes the value |
| Session.RenameExercise | app/page.tsx:433-438 | only the exercise list changes; the edit itself is stated by Session.RenameExerciseOnlyName |
| Session.RenameExerciseOnlyName | app/page.tsx:433-438 | only the named exercise's name changes, and renaming it back restores the session; an index out of range changes nothing |
| Session.AddExercise | app/page.tsx:439-444 | only the exercise list changes: the old exercises stay in place and "新しい種目" with one uncompleted set of 60 kg x 8 is appended |
| Session.RemoveExercise | app/page.tsx:445-450 | only the exercise list changes; the edit itself is stated by Session.RemoveExerciseDeletes |
| Session.RemoveExerciseDeletes | app/page.tsx:445-450 | `removeExercise` deletes exactly exercise `ei` and keeps the order; an index out of range changes nothing |
| Session.RemoveExerciseUndoesAddExercise | app/page.tsx:439-450 | removing the exercise just added restores the session |
| Session.FinishSession | app/page.tsx:452 | the finished session is completed with `savedAt` set, and has the same id, date and exercises |
| Session.FinishedSessionIgnoresToggle | app/page.tsx:407 | a finished session no longer reacts to toggling |
| Session.Big3Lift | app/page.tsx:334-338 | only the three Japanese lift names map to a lift |
| Session.WithOneRepMax | app/page.tsx:479-480 | sets one lift's 1RM and leaves every other field unchanged |
| Session.QualifiedSetEstimates | app/page.tsx:470-472 | sets that pass the filter never make the estimator throw |
| Session.BestFrom | app/page.tsx:470-477 | the reduction is at least its start value and at least every qualifying set's estimate, and it equals the start value or one of those estimates |
| Session.Best | app/page.tsx:470-477 | `best` is never negative |
| Session.LiftBest | app/page.tsx:466-478 | the largest `best` over the exercises that map to one lift, in forEach order; its meaning is stated by Session.LiftBestIsMaximum |
| Session.LiftBestIsMaximum | app/page.tsx:466-478 | a lift's largest `best` is none exactly when no exercise maps to the lift; otherwise it is the `best` of one such exercise and at least that of every other |
| Session.AutoUpdated | app/page.tsx:466-483 | only the three 1RMs can change, each only to `Math.round` of a larger estimate of its lift; with no update the profile is unchanged |
| Session.AutoUpdatedLift | app/page.tsx:479-481 | each 1RM takes the rounded largest estimate of its lift when that estimate exceeds the 1RM, and otherwise keeps its value |
| Session.RaiseStep | app/page.tsx:479-482 | one step of the sequential rule, applied after the previous exercises, equals the closed form over the maximum, including whether it updates |
| Session.AutoUpdateOneRepMax | app/page.tsx:464-483 | the `forEach` loop yields exactly the closed-form profile, and `didUpdate` is true exactly when some lift's largest estimate beats its 1RM |
| Session.NonBig3LeavesProfile | app/page.tsx:468-469 | exercises outside `BIG3_MAP` never change the profile or set `didUpdate` |
| Session.AutoUpdateMonotoneWhenWhole | app/page.tsx:479-481 | a whole-number 1RM is never lowered |
| Session.AutoUpdateIdempotent | app/page.tsx:464-483 | a second run on the result changes no 1RM |
| Session.AutoUpdateCanLowerFractional | app/page.tsx:1182-1187 | a stored 100.3 with a completed single at 100.4 becomes 100; a second run reports `didUpdate` again without changing anything |
| Common.FindIndex | app/page.tsx:78 | `findIndex` gives the first index whose element satisfies the test, or -1 exactly when none does (the session lookup by id here, the tier lookup in lib/wilks.ts:275) |
| Records.SaveSession | app/page.tsx:76-81 | the saved session is in the result, every old session with another id stays, and nothing else enters |
| Records.SaveSessionUpserts | app/page.tsx:76-81 | with the id present, the length is kept and only the first match is replaced; otherwise the session is prepended and the length grows by one |
| Records.SaveSessionIdempotent | app/page.tsx:76-81 | saving the same session twice equals saving it once |
| Records.SaveSessionKeepsIdsUnique | app/page.tsx:76-81 | unique session ids stay unique |
| Records.TodaySession | app/page.tsx:101 | the first session dated today, or none exactly when there is no such session |
| Records.AddMealEntry | app/page.tsx:82-89 | when a record for today exists, the entry is appended to that record and all others stay as they were; otherwise {today, [entry]} is prepended |
| Common.Filter | app/page.tsx:92 | `filter` keeps exactly the elements that pass the test and never lengthens the sequence (the meal entries here, the weight log in app/page.tsx:96) |
| Common.FilterConcat | app/page.tsx:92 | filtering a concatenation is the concatenation of the filtered parts, so the kept elements stay in their order |
| Common.FilterSingleton | app/page.tsx:92 | a single element is kept exactly when it passes; with FilterConcat this fixes the result on every input, repeats included |
| Common.FilterKeepsAll | app/page.tsx:92 | a filter that every element passes (removing an id or date that does not occur) returns the sequence unchanged |
| Common.FilterAppendRejected | app/page.tsx:92 | an appended element the filter rejects does not change the result |
| Records.RemoveMealEntry | app/page.tsx:90-94 | the record count and the dates never change; records of other dates are untouched; the named date's records lose exactly the entries with the id, the others staying in their order (their list is the filter of the old one) |
| Records.RemoveUndoesAdd | app/page.tsx:82-94 | removing a freshly added entry restores the records, except that a record created for it stays behind, empty |
| Records.MealUpdatersKeepDatesUnique | app/page.tsx:82-94 | both meal updaters keep one record per date |
| Records.AddMealEntryCount | app/page.tsx:82-89 | with one record per date, adding a meal adds exactly one entry overall |
| Records.AddWeight | app/page.tsx:96 | the new entry comes first; the rest are exactly the old entries of other dates, in their old order (the filter of the old log); none of them has the new date |
| Records.AddWeightIdempotent | app/page.tsx:96 | logging the same entry twice equals logging it once |
| Records.AddWeightKeepsDatesUnique | app/page.tsx:96 | the weight log keeps one entry per date |
| Records.WithBodyweight | app/page.tsx:97 | only the profile's bodyweight changes, to the logged weight |
| Stats.SafeWilks | app/page.tsx:24-27 | 0 exactly where the scorer would throw, the score elsewhere, and never negative |
| Stats.SafeWilksAsWritten | app/page.tsx:24-27 | as written: 0 outside 40..635 kg or for a total <= 0, the as-written scorer's number elsewhere, the same as SafeWilks up to 201.9 kg |
| Stats.AsWrittenStatsOutsideEveryTier | app/page.tsx:28-32 | as written, 300 kg with a 300 kg total scores below 0; the progress reports Bronze I, but no roadmap row is current |
| Stats.ComputeStats | app/page.tsx:28-32 | the total is the sum of the three 1RMs; the score is `safeWilks` of it; the current tier, the next tier, the percentage and the points are those `getRankProgress` gives for that score, so the current tier is the lookup's tier and contains the score, the progress is in [0, 100] and the points are >= 0 |
| Stats.IsCurrent | app/page.tsx:1212-1213 | a row is current when the score reaches its lower bound and is below its upper bound, if it has one; its meaning is stated by Stats.CurrentIsLookup |
| Stats.CurrentIsLookup | app/page.tsx:1211-1213 | in a well-formed table, for a score >= 0 a row is current exactly when it is the lookup's row |
| Stats.ExactlyOneCurrent | app/page.tsx:1211-1213 | for a score >= 0 exactly one roadmap tier is current, and it is `getRankByWilks`'s; below 0 none is |
| App.AppStore.constructor | app/page.tsx:62-68 | five cells under their own keys over one store, starting at the default profile, empty collections and the default menu |
| App.AppStore.Hydrate | lib/storage.ts:70-75 | each cell takes its own hydration value |
| App.AppStore.SaveSession | app/page.tsx:76-81 | the sessions cell takes the upsert, and only its key is written |
| App.AppStore.AddMealEntry | app/page.tsx:82-89 | the meals cell takes the append-or-prepend update, and only its key is written |
| App.AppStore.RemoveMealEntry | app/page.tsx:90-94 | the meals cell takes the filter, and only its key is written |
| App.AppStore.AddWeight | app/page.tsx:95-98 | the log takes the replace-by-date update and the profile takes the bodyweight; each is written under its own key when its write succeeds |
| App.AppStore.SaveProfile | app/page.tsx:1187 | the profile is replaced and written through |
| App.AppStore.SaveTemplate | app/page.tsx:462 | the menu template is replaced and written through |
| App.TrainingTab.constructor | app/page.tsx:351-353 | the working session is today's stored session, or a default session built from the stored template |
| App.TrainingTab.ToggleSet | app/page.tsx:406-414 | the session becomes its toggled version |
| App.TrainingTab.AddSet | app/page.tsx:415-424 | the session gains the appended set |
| App.TrainingTab.RemoveSet | app/page.tsx:425-432 | the session loses the named set |
| App.TrainingTab.UpdateSet | app/page.tsx:396-405 | the session takes the guarded field update |
| App.TrainingTab.RenameExercise | app/page.tsx:433-438 | the session takes the new name |
| App.TrainingTab.AddExercise | app/page.tsx:439-444 | the session gains "新しい種目" with one set of 60 kg x 8 |
| App.TrainingTab.RemoveExercise | app/page.tsx:445-450 | the session loses the named exercise |
| App.TrainingTab.Finish | app/page.tsx:451-489 | the session is finished and upserted; the template is derived from it; the profile becomes the closed-form 1RM update; the profile is written only when `didUpdate` holds; the store's writes are stated key by key |

## Left out

- Rendering, navigation, toasts, charts, the chat and nutrition routes, and the
  streaming reader of the planning tab. They are presentation or network I/O.
- The chat cells (`b3_chat_msgs`, `b3_chat_tokens`). They belong to the planning chat,
  which is left out.
- `todayStr`, `genId`, `fmtDate` and `nowTime`. They read the clock, randomness and
  the locale, so their results are parameters.
- `parseFloat` and the raw text inputs (`getRaw`, `handleSetInput`, `handleSetBlur`,
  the settings form). Each parse is an `Option<real>`; `handleSetInput` applies the
  same guarded update as `updateSet`.
- React timing: the hydration window and the effect that resets the working session
  when today's stored session changes (app/page.tsx:389-391). Hydration is an
  explicit method.
- `RelativeGoal`/`UserGoals`. No modelled operation uses them.
- Floating point. All arithmetic is exact: a sum such as 0.1 + 0.2 is exact here. The
  ±0.005 and ±0.05 bands bound the rounding, not floating-point error.
- The numeric score ranges and the lighter-lifter claim of the tests
  (__tests__/wilks.test.ts:13-42). They depend on evaluating the quintic.
- What `JSON.parse` gives for stored text of the wrong shape. The cast is unchecked,
  and a stored `"null"` would yield `null`; the model's codec returns a value of the
  right type or `None`.
- Exercise names that are `Object.prototype` keys (such as `"constructor"`).
  `BIG3_MAP[name]` is then an inherited value (a function, or `Object.prototype` itself
  for `"__proto__"`), which is truthy, and `updated[field]` looks up the key that value
  converts to; that key is absent, so the comparison
  is `best > undefined`, which is false, and no 1RM changes. The model treats such
  names as non-big-three.
- Stats.SafeWilks: uses the corrected bodyweight guard (40..201.9 kg) rather than the
  source's 40..635 kg, so that it agrees with the corrected scorer (see Findings).
- Stats.ComputeStats: its claim that the current tier contains the score rests on the
  corrected guard. With the source's 40..635 kg guard a bodyweight from about 283 kg
  up (the weight input accepts up to 300 kg) gives a score below 0 that no tier
  contains (Stats.AsWrittenStatsOutsideEveryTier). An as-written `computeStats` is
  not modelled: a zero denominator would need `getRankProgress` over an infinity.
- Session.AutoUpdateMonotoneWhenWhole: proved only for whole-number 1RMs. A
  fractional 1RM, storable from the settings form, can be lowered
  (Session.AutoUpdateCanLowerFractional).
- `addMealEntry` keys on the clock's date, not on the entry. Meal entries carry no
  amount or unit fields. The model follows the code on both points.

## Findings

| source | as written | input that shows it | evidently intended | confidence | as-written member | corrected member |
|---|---|---|---|---|---|---|
| lib/wilks.ts:33 | the guard admits bodyweights up to 635 kg, but the men's quintic crosses zero near 283 kg, so heavier lifters get a negative, infinite or meaningless score | bodyweight 300 kg, total 300 kg: the denominator is about -780.9 and the score about -192.09 | the guard ends where the men's formula is defined (201.9 kg), so every score is >= 0 | not executed | Wilks.CalculateWilksScoreAsWritten, Wilks.AsWrittenScoreNegative, Stats.SafeWilksAsWritten, Stats.AsWrittenStatsOutsideEveryTier | Wilks.CalculateWilksScore |
