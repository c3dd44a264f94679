/**
 The "Get Recommendations" request: classify the user as new or existing, filter the table
 by the selected amenities, pick the candidate properties, score them, and either report
 that there is nothing to recommend or rank and display the best ten.
 */
module Recommender {
  import opened Wrappers
  import opened Sequences
  import opened Catalog
  import opened AmenityFilter
  import opened Candidates
  import opened Ranking
  import opened Display

  /** The two terminal outcomes of a request. */
  datatype Outcome = NoRecommendations | Recommendations(cards: seq<Card>)

  /** The outcome together with the new-user notice flag. */
  datatype Response = Response(newUser: bool, outcome: Outcome)

  /** Stop when no prediction succeeded; otherwise rank and display. */
  function Present(ps: seq<Prediction>, round: real -> int): (r: Outcome)
    ensures r == NoRecommendations <==> ps == []
    ensures r.Recommendations? ==> 0 < |r.cards| <= TopN
  {
    if ps == [] then NoRecommendations else Recommendations(Cards(Rank(ps), round))
  }

  /**
   The branch taken for a user absent from the table: it ends with "no recommendations"
   exactly when the prediction fails for every name of the filtered table.
   */
  function NewUserBranch(t: Table, user: int, selected: seq<string>, predict: Predictor, round: real -> int): (r: Outcome)
    ensures r == NoRecommendations <==>
      forall row :: row in Filter(t, selected).rows ==> predict(user, row.name) == None
    ensures r.Recommendations? ==> 0 < |r.cards| <= TopN
  {
    var candidates := NewUserCandidates(Filter(t, selected));
    CollectEmptyIff(predict, user, candidates);
    Present(Collect(predict, user, candidates), round)
  }

  /**
   The branch taken for a user present in the table: it ends with "no recommendations"
   exactly when the prediction fails for every filtered name the user has not rated.
   */
  function ExistingUserBranch(t: Table, user: int, selected: seq<string>, predict: Predictor, round: real -> int): (r: Outcome)
    ensures r == NoRecommendations <==>
      forall row :: row in Filter(t, selected).rows && row.name !in RatedNames(t, user) ==> predict(user, row.name) == None
    ensures r.Recommendations? ==> 0 < |r.cards| <= TopN
  {
    var filtered := Filter(t, selected);
    var candidates := ExistingUserCandidates(t, filtered, user);
    CollectEmptyIff(predict, user, candidates);
    assert forall row :: row in filtered.rows ==> (row.name in candidates <==> row.name !in RatedNames(t, user));
    Present(Collect(predict, user, candidates), round)
  }

  /** The whole request; the classification is made once and decides the branch. */
  function Recommend(t: Table, user: int, selected: seq<string>, predict: Predictor, round: real -> int): (r: Response)
    ensures r.newUser <==> !IsKnownUser(t, user)
    ensures r.outcome.Recommendations? ==> 0 < |r.outcome.cards| <= TopN
  {
    if !IsKnownUser(t, user) then Response(true, NewUserBranch(t, user, selected, predict, round))
    else Response(false, ExistingUserBranch(t, user, selected, predict, round))
  }

  /** Candidates of the shared pipeline: distinct filtered names not in `excluded`. */
  function CandidatesFor(t: Table, selected: seq<string>, excluded: seq<string>): (r: seq<string>)
    ensures NoDuplicates(r)
    ensures forall x :: x in r <==> (exists row :: row in Filter(t, selected).rows && row.name == x) && x !in excluded
  {
    var all := NewUserCandidates(Filter(t, selected));
    ExcludeIsSubsequence(all, excluded);
    Exclude(all, excluded)
  }

  /**
   One pipeline for both kinds of user, parameterised only by the names to exclude; it
   stops exactly when every candidate's prediction fails.
   */
  function Pipeline(t: Table, user: int, selected: seq<string>, excluded: seq<string>, predict: Predictor, round: real -> int): (r: Outcome)
    ensures r == NoRecommendations <==> forall c :: c in CandidatesFor(t, selected, excluded) ==> predict(user, c) == None
    ensures r.Recommendations? ==> 0 < |r.cards| <= TopN
  {
    CollectEmptyIff(predict, user, CandidatesFor(t, selected, excluded));
    Present(Collect(predict, user, CandidatesFor(t, selected, excluded)), round)
  }

  /**
   Both branches are the shared pipeline: the new-user branch excludes nothing, the
   existing-user branch excludes the rated names, and since a new user has rated nothing,
   every request is the pipeline run with the user's rated names.
   */
  lemma BranchesShareOnePipeline(t: Table, user: int, selected: seq<string>, predict: Predictor, round: real -> int)
    ensures NewUserBranch(t, user, selected, predict, round) == Pipeline(t, user, selected, [], predict, round)
    ensures ExistingUserBranch(t, user, selected, predict, round) == Pipeline(t, user, selected, RatedNames(t, user), predict, round)
    ensures Recommend(t, user, selected, predict, round).outcome == Pipeline(t, user, selected, RatedNames(t, user), predict, round)
  {
    NewUserIsExistingUserWithNoRatings(t, Filter(t, selected), user);
  }

  /**
   A request ends with "no recommendations" exactly when every candidate's prediction fails,
   which includes the case of no candidate at all.
   */
  lemma NoRecommendationsIff(t: Table, user: int, selected: seq<string>, predict: Predictor, round: real -> int)
    ensures Recommend(t, user, selected, predict, round).outcome == NoRecommendations <==>
      forall c :: c in CandidatesFor(t, selected, RatedNames(t, user)) ==> predict(user, c) == None
  {
    BranchesShareOnePipeline(t, user, selected, predict, round);
    CollectEmptyIff(predict, user, CandidatesFor(t, selected, RatedNames(t, user)));
  }

  /** When no row has every selected amenity, the request ends with "no recommendations". */
  lemma NoMatchingRowsMeansNoRecommendations(t: Table, user: int, selected: seq<string>, predict: Predictor, round: real -> int)
    requires forall row :: row in t.rows ==> !Satisfies(t.columns, selected, row)
    ensures Recommend(t, user, selected, predict, round).outcome == NoRecommendations
  {
    FilterIsConjunctive(t, selected);
    NoRowSatisfies(t.rows, t.columns, selected);
    assert Names(Filter(t, selected).rows) == [];
    assert CandidatesFor(t, selected, RatedNames(t, user)) == [];
    NoRecommendationsIff(t, user, selected, predict, round);
  }

  /** Each displayed card's name and kept raw score form one of the successful predictions. */
  lemma CardShowsPrediction(ps: seq<Prediction>, round: real -> int, i: int)
    requires 0 <= i < |Cards(Rank(ps), round)|
    ensures Prediction(Cards(Rank(ps), round)[i].name, Cards(Rank(ps), round)[i].score) in ps
  {
    var ranked := Rank(ps);
    assert Cards(ranked, round)[i] == CardOf(ranked[i], round);
    assert ranked[i] in multiset(ranked);
  }

  /**
   A displayed card is eligible: some row with every selected amenity carries its name, the
   user rated that name in no row of the table, and its prediction returned the card's score.
   */
  predicate Eligible(t: Table, user: int, selected: seq<string>, predict: Predictor, c: Card) {
    && (exists row :: row in t.rows && Satisfies(t.columns, selected, row) && row.name == c.name)
    && !(exists row :: row in t.rows && row.user == user && row.name == c.name)
    && predict(user, c.name) == Some(c.score)
  }

  /** A displayed property was a candidate whose prediction returned the raw score the card keeps. */
  lemma RecommendedItemIsEligible(t: Table, user: int, selected: seq<string>, predict: Predictor, round: real -> int, i: int)
    ensures var o := Recommend(t, user, selected, predict, round).outcome;
      o.Recommendations? && 0 <= i < |o.cards| ==> Eligible(t, user, selected, predict, o.cards[i])
  {
    var o := Recommend(t, user, selected, predict, round).outcome;
    if o.Recommendations? && 0 <= i < |o.cards| {
      BranchesShareOnePipeline(t, user, selected, predict, round);
      var ps := Collect(predict, user, CandidatesFor(t, selected, RatedNames(t, user)));
      CardShowsPrediction(ps, round, i);
    }
  }

  /** Every displayed property is eligible. */
  lemma RecommendationsAreEligible(t: Table, user: int, selected: seq<string>, predict: Predictor, round: real -> int)
    ensures var o := Recommend(t, user, selected, predict, round).outcome;
      o.Recommendations? ==> forall i :: 0 <= i < |o.cards| ==> Eligible(t, user, selected, predict, o.cards[i])
  {
    var o := Recommend(t, user, selected, predict, round).outcome;
    if o.Recommendations? {
      forall i | 0 <= i < |o.cards| ensures Eligible(t, user, selected, predict, o.cards[i]) {
        RecommendedItemIsEligible(t, user, selected, predict, round, i);
      }
    }
  }

  /** Cards of a descending list are in non-increasing score order. */
  lemma CardsOfDescending(ranked: seq<Prediction>, round: real -> int)
    requires IsDescending(ranked)
    ensures forall i, j :: 0 <= i < j < |Cards(ranked, round)| ==>
      Cards(ranked, round)[i].score >= Cards(ranked, round)[j].score
  {
    var cards := Cards(ranked, round);
    forall i, j | 0 <= i < j < |cards| ensures cards[i].score >= cards[j].score {
      assert cards[i].score == ranked[i].score && cards[j].score == ranked[j].score;
    }
  }

  /** Every card shows `min(5, round(score))` stars, none when negative, and its score capped at 5.0. */
  lemma CardsShowDisplayValues(ranked: seq<Prediction>, round: real -> int)
    ensures var cards := Cards(ranked, round);
      forall i :: 0 <= i < |cards| ==>
        && |cards[i].stars| == StarCount(cards[i].score, round) <= MaxStars
        && cards[i].shown == ShownScore(cards[i].score) <= MaxShownScore
  {
    var cards := Cards(ranked, round);
    forall i | 0 <= i < |cards|
      ensures |cards[i].stars| == StarCount(cards[i].score, round)
      ensures cards[i].shown == ShownScore(cards[i].score)
    {
      assert cards[i] == CardOf(ranked[i], round);
    }
  }

  /** No prediction left out of the ranking scores above the last card shown. */
  lemma LeftOutBelowLastCard(ps: seq<Prediction>, round: real -> int)
    requires ps != []
    ensures forall p :: p in multiset(ps) - multiset(Rank(ps)) ==>
      p.score <= Cards(Rank(ps), round)[|Cards(Rank(ps), round)| - 1].score
  {
    var ranked := Rank(ps);
    var cards := Cards(ranked, round);
    var last := cards[|cards| - 1].score;
    assert last == ranked[|ranked| - 1].score;
    forall p | p in multiset(ps) - multiset(ranked) ensures p.score <= last {
    }
  }

  /**
   The displayed list holds the first `min(10, |ps|)` predictions by score, highest first.
   Each card shows exactly `min(5, round(score))` stars, none when negative, and the score
   capped at 5.0. No prediction left out scores above the last one shown.
   */
  lemma PresentedCardsAreRanked(ps: seq<Prediction>, round: real -> int)
    requires ps != []
    ensures Present(ps, round) == Recommendations(Cards(Rank(ps), round))
    ensures var cards := Cards(Rank(ps), round);
      && |cards| == (if |ps| < TopN then |ps| else TopN)
      && (forall i, j :: 0 <= i < j < |cards| ==> cards[i].score >= cards[j].score)
      && (forall i :: 0 <= i < |cards| ==> |cards[i].stars| == StarCount(cards[i].score, round) <= MaxStars)
      && (forall i :: 0 <= i < |cards| ==> cards[i].shown == ShownScore(cards[i].score) <= MaxShownScore)
      && (forall p :: p in multiset(ps) - multiset(Rank(ps)) ==> p.score <= cards[|cards| - 1].score)
  {
    CardsOfDescending(Rank(ps), round);
    CardsShowDisplayValues(Rank(ps), round);
    LeftOutBelowLastCard(ps, round);
  }

  /** The request's displayed list is ranked as above over the successful predictions. */
  lemma RecommendationsAreRanked(t: Table, user: int, selected: seq<string>, predict: Predictor, round: real -> int)
    ensures var o := Recommend(t, user, selected, predict, round).outcome;
      o.Recommendations? ==>
        && (forall i, j :: 0 <= i < j < |o.cards| ==> o.cards[i].score >= o.cards[j].score)
        && (forall i :: 0 <= i < |o.cards| ==> |o.cards[i].stars| == StarCount(o.cards[i].score, round) <= MaxStars)
        && (forall i :: 0 <= i < |o.cards| ==> o.cards[i].shown == ShownScore(o.cards[i].score))
  {
    BranchesShareOnePipeline(t, user, selected, predict, round);
    var ps := Collect(predict, user, CandidatesFor(t, selected, RatedNames(t, user)));
    if ps != [] {
      assert Recommend(t, user, selected, predict, round).outcome == Recommendations(Cards(Rank(ps), round));
      CardsOfDescending(Rank(ps), round);
      CardsShowDisplayValues(Rank(ps), round);
    }
  }

  /** A three-row catalog: user 7 rated villas A and B, user 9 rated villa A, the only one with a pool view. */
  function PoolViewCatalog(): Table {
    Table({"user_id", "name", "Pool view"},
      [Row(7, "Villa A", map["Pool view" := 1]),
       Row(7, "Villa B", map["Pool view" := 0]),
       Row(9, "Villa A", map["Pool view" := 1])])
  }

  /**
   Worked example: user 9 rated "Villa A", the only property with a pool view, so asking for
   a pool view leaves nothing to recommend, whatever the model predicts.
   */
  lemma PoolViewExample(predict: Predictor, round: real -> int)
    ensures Recommend(PoolViewCatalog(), 9, ["Pool view"], predict, round) == Response(false, NoRecommendations)
  {
    var t := PoolViewCatalog();
    var rated := t.rows[2];
    assert rated in t.rows && rated.user == 9;
    assert IsKnownUser(t, 9);
    forall row | row in Filter(t, ["Pool view"]).rows
      ensures rated in t.rows && rated.user == 9 && rated.name == row.name
    {
      assert HasAmenity(row, "Pool view");
    }
    assert ExistingUserBranch(t, 9, ["Pool view"], predict, round) == NoRecommendations;
  }
}
