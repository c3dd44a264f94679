# Bukit Vista rental recommender — Dafny model

This project models the recommendation logic of the Bukit Vista rental dashboard. That logic
runs when the user presses "Get Recommendations":

1. The user is classified as **new** when their id does not occur in the `user_id` column of
   the rental table. Otherwise they are an **existing** user.
2. The table is narrowed by the selected amenities. For each selected amenity that is a column
   of the table, only rows whose cell equals 1 are kept. Selected amenities that are not
   columns are skipped.
3. The candidate properties are the distinct `name`s of the filtered rows, in order of first
   appearance. For an existing user, every name that user rated anywhere in the *unfiltered*
   table is removed.
4. Each candidate is scored by the recommender model. A prediction that raises is skipped,
   and the remaining candidates are still scored.
5. If no prediction succeeded, the request ends with "no recommendations".
6. Otherwise the predictions are sorted by score, highest first, with a stable sort, and the
   first ten are kept.
7. Each kept item shows `min(5, round(score))` stars (none when that count is negative) and
   its score capped at 5.0.

The source writes the pipeline twice, once per kind of user. The model keeps both branches
(`Recommender.NewUserBranch`, `Recommender.ExistingUserBranch`). It also proves that each
branch equals one shared `Recommender.Pipeline`, parameterised by the names to exclude. The
new-user branch excludes nothing. A new user has rated nothing, so every request is the
shared pipeline run with the user's rated names.

Modules:

- `Wrappers`: the `Option` type. The model's `predict` returns `None` when the real call
  raises.
- `Sequences`: duplicate-freedom, subsequences, first occurrences, and `Unique`, which is
  pandas `Series.unique`.
- `Catalog`: the table (`Row`, `Table`), the `name` column and user membership.
- `AmenityFilter`: the mask loop, plus a one-pass conjunctive reference filter it is proved
  equal to.
- `Candidates`: the user's rated names, exclusion, and candidates for both kinds of user.
- `Ranking`: prediction collection, stable descending insertion sort, and the top ten.
- `Display`: star strings, the capped score, and the displayed cards.
- `Recommender`: the two branches, the request, the shared pipeline and end-to-end
  properties.

Abstractions:

- The recommender model is a parameter `predict: (int, string) -> Option<real>`.
- Python's `round` of a float is a parameter `round: real -> int`. No property relies on its
  tie-breaking rule.
- Scores are mathematical reals.
- Table cells are integers. A column missing from a row's `flags` map stands for a NaN cell,
  which never equals 1. `AmenityFilter.HasAmenity` is the cell test `df[a] == 1` of line 126,
  and `Catalog.Names` is the `['name']` column projection of lines 129, 187 and 188.

Choices that follow the code closely:

- Candidates keep first-appearance order. The prediction loop visits them in that order, and
  that order decides which equal-score items make the top ten.
- Equal scores keep input order. `sorted(..., reverse=True)` is stable, so the ranking is
  non-increasing rather than strictly decreasing, and ties keep candidate order.
- An empty candidate list and a list whose every prediction raised both reach the same
  message. The model has a single `NoRecommendations` outcome for both.

## Model

| member | source | states |
|---|---|---|
| Sequences.Unique | Internpro/dashboard-Bukit-vista.py:129 | `unique()` returns each distinct name once, and exactly the names that occur in the input |
| Sequences.UniqueKeepsFirstOccurrenceOrder | Internpro/dashboard-Bukit-vista.py:129 | distinct names appear in the order of their first occurrence in the column |
| Catalog.IsKnownUser | Internpro/dashboard-Bukit-vista.py:119 | a user is known iff some row carries the user's id |
| Catalog.Names | Internpro/dashboard-Bukit-vista.py:188 | the `['name']` column projection has one entry per row, the i-th being row i's name, in table order |
| Catalog.NamesMembership | Internpro/dashboard-Bukit-vista.py:129 | a name is in the `name` column exactly when some row carries it |
| AmenityFilter.Mask | Internpro/dashboard-Bukit-vista.py:126 | one mask `df[df[a] == 1]` keeps exactly the rows whose `a` cell equals 1 and never grows the table |
| AmenityFilter.Step | Internpro/dashboard-Bukit-vista.py:125-126 | one loop iteration keeps the columns; it keeps a row iff the row has the amenity, when the amenity is a column, and otherwise leaves the table unchanged |
| AmenityFilter.Filter | Internpro/dashboard-Bukit-vista.py:123-126 | the filter loop keeps the columns, returns the table unchanged for an empty selection, and keeps a row iff it has every selected amenity that is a column |
| AmenityFilter.FilterIsConjunctive | Internpro/dashboard-Bukit-vista.py:123-126 | the sequential masks equal a single pass that keeps, in table order, the rows satisfying the whole conjunction |
| AmenityFilter.MaskThenSatisfy | Internpro/dashboard-Bukit-vista.py:124-126 | masking on the first known amenity, then filtering by the rest, equals filtering by the whole selection |
| AmenityFilter.NoRowSatisfies | Internpro/dashboard-Bukit-vista.py:124-126 | when no row has every selected known amenity, the filtered table is empty |
| AmenityFilter.FilterIsSubsequence | Internpro/dashboard-Bukit-vista.py:123-126 | filtering only deletes rows: the result is a subsequence of the table in the same order |
| AmenityFilter.FilterIgnoresUnknownAmenities | Internpro/dashboard-Bukit-vista.py:124-125 | selected amenities that are not columns have no effect on the result |
| AmenityFilter.FilterDependsOnlyOnKnownSelection | Internpro/dashboard-Bukit-vista.py:124-126 | the result depends only on which known amenities are selected, not on their order or repetition |
| Candidates.RowsOf | Internpro/dashboard-Bukit-vista.py:187 | `df[df['user_id'] == user]` keeps exactly the user's rows |
| Candidates.RatedNames | Internpro/dashboard-Bukit-vista.py:187 | the rated names are distinct, and a name is rated iff some row of the unfiltered table pairs it with the user |
| Candidates.Exclude | Internpro/dashboard-Bukit-vista.py:189 | a name survives the comprehension iff it is in the list and not rated |
| Candidates.ExcludeIsSubsequence | Internpro/dashboard-Bukit-vista.py:189 | exclusion keeps the order of the kept names and introduces no duplicate |
| Candidates.ExcludeAll | Internpro/dashboard-Bukit-vista.py:187-189 | when every listed name is rated, no candidate remains |
| Candidates.ExcludeNothing | Internpro/dashboard-Bukit-vista.py:189 | with nothing rated, exclusion returns the list unchanged |
| Candidates.NewUserHasNoRatings | Internpro/dashboard-Bukit-vista.py:119 | a user absent from the `user_id` column has no rated names |
| Candidates.KnownUserHasRows | Internpro/dashboard-Bukit-vista.py:119 | the `user_id` test holds iff the mask on that user keeps at least one row |
| Candidates.ExistingUserCandidates | Internpro/dashboard-Bukit-vista.py:186-189 | existing-user candidates are distinct, and a name is a candidate iff a filtered row carries it and the user rated it nowhere in the table |
| Candidates.NewUserCandidates | Internpro/dashboard-Bukit-vista.py:128-129 | new-user candidates are distinct, and a name is a candidate iff some filtered row carries it |
| Candidates.CandidatesKeepFirstAppearanceOrder | Internpro/dashboard-Bukit-vista.py:188-189 | new-user candidates are in the order of first appearance in the filtered `name` column, and existing-user candidates are a subsequence of them |
| Candidates.NewUserIsExistingUserWithNoRatings | Internpro/dashboard-Bukit-vista.py:129 | the new-user candidate list is the existing-user computation with an empty rated set, and the two coincide for a user absent from the table |
| Ranking.Collect | Internpro/dashboard-Bukit-vista.py:132-138 | the loop keeps a (name, score) pair iff the name is a candidate and its prediction returned that score |
| Ranking.CollectAppend | Internpro/dashboard-Bukit-vista.py:192-198 | collection over two lists is the concatenation of the two collections, so no item affects another |
| Ranking.SkipsFailedPrediction | Internpro/dashboard-Bukit-vista.py:134-138 | a candidate whose prediction raises is dropped and the items after it are still scored |
| Ranking.CollectKeepsCandidateOrder | Internpro/dashboard-Bukit-vista.py:133-136 | collected names are a subsequence of the candidates |
| Ranking.CollectEmptyIff | Internpro/dashboard-Bukit-vista.py:132-140 | the prediction list is empty iff every candidate's prediction raised |
| Ranking.TiesMembership | Internpro/dashboard-Bukit-vista.py:153 | an item is among the equal-score items at `v` iff it occurs with score `v` |
| Ranking.Insert | Internpro/dashboard-Bukit-vista.py:153 | insertion adds exactly one copy of the item and loses nothing |
| Ranking.InsertKeepsDescending | Internpro/dashboard-Bukit-vista.py:153 | inserting into a descending list keeps it descending |
| Ranking.InsertTies | Internpro/dashboard-Bukit-vista.py:153 | the inserted item goes before all items of equal score, and items of other scores are untouched |
| Ranking.SortByScore | Internpro/dashboard-Bukit-vista.py:153 | `sorted(..., reverse=True)` is non-increasing in score and a permutation of its input |
| Ranking.SortByScoreIsStable | Internpro/dashboard-Bukit-vista.py:153 | equal-score items keep their input order |
| Ranking.DescendingWithSameTiesAreEqual | Internpro/dashboard-Bukit-vista.py:153 | two descending lists with the same equal-score runs are identical |
| Ranking.SortByScoreIsTheStableSort | Internpro/dashboard-Bukit-vista.py:153 | any descending arrangement that keeps equal-score items in input order is the sort result |
| Ranking.TiesOfPrefix | Internpro/dashboard-Bukit-vista.py:153 | a prefix of a list keeps a prefix of each equal-score run |
| Ranking.LeftOutScoreNoHigher | Internpro/dashboard-Bukit-vista.py:153 | after a non-empty cut of a descending list, nothing left out scores above the last item kept |
| Ranking.Rank | Internpro/dashboard-Bukit-vista.py:153 | `[:10]` of the sort has min(10, n) items, non-increasing and drawn from the predictions; nothing left out scores above the last kept; each equal-score run is a prefix of the input's |
| Display.Repeat | Internpro/dashboard-Bukit-vista.py:154 | Python string repetition yields `n` copies, and the empty string when `n` is not positive |
| Display.Stars | Internpro/dashboard-Bukit-vista.py:154 | the star string has between 0 and 5 stars: none when the rounded score is at most 0, five when it is at least 5, otherwise the rounded score |
| Display.ShownScore | Internpro/dashboard-Bukit-vista.py:155 | the displayed score is at most 5.0 and at most the score, and equals one of them |
| Display.StarCount | Internpro/dashboard-Bukit-vista.py:154 | the star count is between 0 and 5: 5 iff the rounded score is at least 5, 0 iff it is at most 0, and the rounded score in between |
| Display.CardOf | Internpro/dashboard-Bukit-vista.py:153-155 | a card shows the item's name, exactly `min(5, round(score))` stars (none when negative) and the score capped at 5.0, and also keeps the raw score used for ranking |
| Display.Cards | Internpro/dashboard-Bukit-vista.py:153-155 | the i-th card shows the i-th ranked item's name, its exact star count and its capped score, and keeps that item's raw score |
| Display.DisplayOfSampleScores | Internpro/dashboard-Bukit-vista.py:154-155 | with any round-to-nearest, score 6.2 shows 5 stars and 5.0, and score 0.4 shows no star and 0.4 |
| Display.CardsFollowRanking | Internpro/dashboard-Bukit-vista.py:213-215 | with a monotone rounding, stars and displayed scores do not increase along a ranked list |
| Recommender.Present | Internpro/dashboard-Bukit-vista.py:140-153 | the outcome is "no recommendations" iff no prediction succeeded, and otherwise holds 1 to 10 cards |
| Recommender.NewUserBranch | Internpro/dashboard-Bukit-vista.py:119-176 | the new-user branch ends with "no recommendations" iff the prediction raises for every name of the filtered table, and otherwise shows 1 to 10 cards |
| Recommender.ExistingUserBranch | Internpro/dashboard-Bukit-vista.py:179-236 | the existing-user branch ends with "no recommendations" iff the prediction raises for every filtered name the user has not rated, and otherwise shows 1 to 10 cards |
| Recommender.CandidatesFor | Internpro/dashboard-Bukit-vista.py:187-189 | the shared candidates are distinct, and a name is one iff a filtered row carries it and it is not excluded |
| Recommender.Pipeline | Internpro/dashboard-Bukit-vista.py:188-202 | the shared pipeline ends with "no recommendations" iff every candidate's prediction raises, and otherwise shows 1 to 10 cards |
| Recommender.Recommend | Internpro/dashboard-Bukit-vista.py:117-236 | the new-user flag is set iff the user is absent from the table, and a ranked outcome holds 1 to 10 cards |
| Recommender.BranchesShareOnePipeline | Internpro/dashboard-Bukit-vista.py:179-189 | both branches are the shared pipeline: new user with nothing excluded, existing user with the rated names; so every request is the pipeline with the rated names |
| Recommender.NoRecommendationsIff | Internpro/dashboard-Bukit-vista.py:200-202 | a request ends with "no recommendations" iff every candidate's prediction raises, including when there are no candidates |
| Recommender.NoMatchingRowsMeansNoRecommendations | Internpro/dashboard-Bukit-vista.py:181-202 | an amenity selection that no row satisfies yields "no recommendations" |
| Recommender.CardShowsPrediction | Internpro/dashboard-Bukit-vista.py:213 | every displayed card's name and kept raw score form one of the successful predictions |
| Recommender.RecommendedItemIsEligible | Internpro/dashboard-Bukit-vista.py:186-198 | a displayed property has a row with every selected amenity, is unrated by the user, and its prediction returned the raw score the card keeps |
| Recommender.RecommendationsAreEligible | Internpro/dashboard-Bukit-vista.py:186-213 | every displayed property is eligible in that sense |
| Recommender.PresentedCardsAreRanked | Internpro/dashboard-Bukit-vista.py:213-214 | for a non-empty prediction list, the outcome is ranked and the displayed list has min(10, n) cards in non-increasing score order, exactly `min(5, round(score))` stars (none when negative) and the score capped at 5.0 on each, and no left-out prediction scores above the last card |
| Recommender.CardsShowDisplayValues | Internpro/dashboard-Bukit-vista.py:213-215 | every card of a ranked list shows exactly `min(5, round(score))` stars (none when negative), and its score capped at 5.0 |
| Recommender.LeftOutBelowLastCard | Internpro/dashboard-Bukit-vista.py:213 | no prediction cut off by `[:10]` scores above the last card shown |
| Recommender.RecommendationsAreRanked | Internpro/dashboard-Bukit-vista.py:213-214 | a request's displayed list is in non-increasing score order, each card with exactly `min(5, round(score))` stars (none when negative) and the score capped at 5.0 |
| Recommender.PoolViewExample | Internpro/dashboard-Bukit-vista.py:179-202 | user 9 asking for a pool view, having rated the only such property, gets "no recommendations" for any model |

## Left out

- The amenity widget limits selections to eight fixed names (line 111). The model's filter
  accepts any strings, which covers every selection the widget allows. Amenities are looked
  up in a row's `flags` map, not in its `user` or `name` fields. None of the eight names is
  `user_id` or `name`, so this never differs from pandas' comparison of the real column.
- Everything Streamlit: page setup, styling, header and footer markup, widgets, and the
  warning, error and success messages. Only the outcome values are modelled. `st.stop()` is
  the `NoRecommendations` outcome, and the new-user notice is the `newUser` flag.
- Loading the models, the CSV table and the logo with `joblib`, `pandas` and `PIL`. This is
  I/O. The table is a parameter.
- The random-forest model loaded at line 9. Nothing uses it.
- The SVD model's internals. `predict` is an abstract partial function. The error message
  for a failed prediction is not modelled, only the skip.
- The `min_score` and `max_score` computed at lines 145-146 and 205-206. They are never used.
- The one-decimal formatting of the score text and its `/5` suffix. Only the cap
  `min(score, 5.0)` is modelled (`Display.ShownScore`).
- Floating point. Scores are reals: NaN, infinities and float comparison quirks are not
  modelled.
- Display.Stars: `round` is a parameter. Python's half-to-even rule is not fixed; the sample
  scores are proved for any rounding to a nearest integer.
- The HTML card markup. `Display.Card` holds the values the markup shows (name, stars and
  capped score), plus the raw score used for ranking, which is not shown.
