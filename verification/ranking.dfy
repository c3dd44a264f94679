/**
 Prediction collection and ranking: each candidate is scored by the recommender model, items
 whose prediction raises are skipped, and the successful (name, score) pairs are sorted by
 score, highest first, with a stable sort, and cut to the first ten.
 */
module Ranking {
  import opened Wrappers
  import opened Sequences

  /** A successful prediction: property name and estimated score. */
  datatype Prediction = Prediction(name: string, score: real)

  /** The recommender model's `predict(user, name)`; `None` means the call raised. */
  type Predictor = (int, string) -> Option<real>

  /** How many ranked items are shown. */
  const TopN: nat := 10

  /**
   The try/except prediction loop: in candidate order, the candidates whose prediction
   succeeds, each paired with its score.
   */
  function Collect(predict: Predictor, user: int, candidates: seq<string>): (r: seq<Prediction>)
    ensures forall p :: p in r <==> p.name in candidates && predict(user, p.name) == Some(p.score)
    ensures |r| <= |candidates|
  {
    if candidates == [] then []
    else
      match predict(user, candidates[0])
      case Some(s) => [Prediction(candidates[0], s)] + Collect(predict, user, candidates[1..])
      case None => Collect(predict, user, candidates[1..])
  }

  /** Collecting over two lists one after the other: one item's failure never affects another. */
  lemma {:induction false} CollectAppend(predict: Predictor, user: int, a: seq<string>, b: seq<string>)
    ensures Collect(predict, user, a + b) == Collect(predict, user, a) + Collect(predict, user, b)
  {
    if a == [] {
      assert a + b == b;
    } else {
      assert (a + b)[0] == a[0] && (a + b)[1..] == a[1..] + b;
      CollectAppend(predict, user, a[1..], b);
      var rest := Collect(predict, user, a[1..]);
      match predict(user, a[0])
      case Some(v) =>
        calc {
          Collect(predict, user, a + b);
          [Prediction(a[0], v)] + Collect(predict, user, a[1..] + b);
          [Prediction(a[0], v)] + (rest + Collect(predict, user, b));
          ([Prediction(a[0], v)] + rest) + Collect(predict, user, b);
          Collect(predict, user, a) + Collect(predict, user, b);
        }
      case None =>
        calc {
          Collect(predict, user, a + b);
          Collect(predict, user, a[1..] + b);
          rest + Collect(predict, user, b);
          Collect(predict, user, a) + Collect(predict, user, b);
        }
    }
  }

  /** A candidate whose prediction raises is dropped and the items after it are still scored. */
  lemma SkipsFailedPrediction(predict: Predictor, user: int, before: seq<string>, c: string, after: seq<string>)
    requires predict(user, c) == None
    ensures Collect(predict, user, before + [c] + after) == Collect(predict, user, before) + Collect(predict, user, after)
  {
    CollectAppend(predict, user, before + [c], after);
    CollectAppend(predict, user, before, [c]);
  }

  /** The collected names keep candidate order. */
  lemma {:induction false} CollectKeepsCandidateOrder(predict: Predictor, user: int, candidates: seq<string>)
    ensures var ps := Collect(predict, user, candidates);
      IsSubsequence(seq(|ps|, i requires 0 <= i < |ps| => ps[i].name), candidates)
  {
    if candidates != [] {
      CollectKeepsCandidateOrder(predict, user, candidates[1..]);
      var rest := Collect(predict, user, candidates[1..]);
      var restNames := seq(|rest|, i requires 0 <= i < |rest| => rest[i].name);
      var ps := Collect(predict, user, candidates);
      var names := seq(|ps|, i requires 0 <= i < |ps| => ps[i].name);
      if predict(user, candidates[0]).Some? {
        assert ps == [Prediction(candidates[0], predict(user, candidates[0]).value)] + rest;
        assert names == [candidates[0]] + restNames;
      } else {
        assert ps == rest;
      }
    }
  }

  /** Nothing is collected exactly when every candidate's prediction raises. */
  lemma CollectEmptyIff(predict: Predictor, user: int, candidates: seq<string>)
    ensures Collect(predict, user, candidates) == [] <==> forall c :: c in candidates ==> predict(user, c) == None
  {
    if c :| c in candidates && predict(user, c) != None {
      assert Prediction(c, predict(user, c).value) in Collect(predict, user, candidates);
    }
  }

  /** Highest score first. */
  predicate IsDescending(s: seq<Prediction>) {
    forall i, j :: 0 <= i < j < |s| ==> s[i].score >= s[j].score
  }

  /** The items of `s` whose score is exactly `v`, in the order of `s`. */
  function Ties(s: seq<Prediction>, v: real): seq<Prediction> {
    if s == [] then []
    else (if s[0].score == v then [s[0]] else []) + Ties(s[1..], v)
  }

  /** An item is among the ties at `v` exactly when it occurs with score `v`. */
  lemma {:induction false} TiesMembership(s: seq<Prediction>, v: real, p: Prediction)
    ensures p in Ties(s, v) <==> p in s && p.score == v
  {
    if s != [] {
      TiesMembership(s[1..], v, p);
      assert s == [s[0]] + s[1..];
    }
  }

  /** The ties of a sequence with a given head. */
  lemma TiesOfCons(x: Prediction, s: seq<Prediction>, v: real)
    ensures Ties([x] + s, v) == (if x.score == v then [x] else []) + Ties(s, v)
  {
    assert ([x] + s)[1..] == s;
  }

  /** A list stays descending under a head that scores at least as high as all of it. */
  lemma ConsDescending(x: Prediction, s: seq<Prediction>)
    requires IsDescending(s)
    requires forall p :: p in s ==> p.score <= x.score
    ensures IsDescending([x] + s)
  {
    var r := [x] + s;
    forall i, j | 0 <= i < j < |r| ensures r[i].score >= r[j].score {
      assert r[j] == s[j - 1];
      if i > 0 {
        assert r[i] == s[i - 1];
      } else {
        assert s[j - 1] in s;
      }
    }
  }

  /**
   Places `x`, which precedes every element of `s` in the input, before the first element of
   `s` whose score is not higher than its own.
   */
  function Insert(x: Prediction, s: seq<Prediction>): (r: seq<Prediction>)
    ensures multiset(r) == multiset(s) + multiset{x}
    ensures |r| == |s| + 1
  {
    if s == [] then [x]
    else if x.score >= s[0].score then [x] + s
    else
      assert s == [s[0]] + s[1..];
      [s[0]] + Insert(x, s[1..])
  }

  /** Inserting into a descending list keeps it descending. */
  lemma {:induction false} InsertKeepsDescending(x: Prediction, s: seq<Prediction>)
    requires IsDescending(s)
    ensures IsDescending(Insert(x, s))
  {
    if s == [] {
    } else if x.score >= s[0].score {
      forall p | p in s ensures p.score <= x.score {
        var k :| 0 <= k < |s| && s[k] == p;
      }
      ConsDescending(x, s);
    } else {
      var rest := Insert(x, s[1..]);
      InsertKeepsDescending(x, s[1..]);
      assert s == [s[0]] + s[1..];
      forall p | p in rest ensures p.score <= s[0].score {
        assert p in multiset(rest);
        assert p == x || p in multiset(s[1..]);
        if p != x {
          var k :| 1 <= k < |s| && s[k] == p;
        }
      }
      ConsDescending(s[0], rest);
    }
  }

  /**
   Inserting `x` puts it in front of every item of equal score and leaves the items of any
   other score as they were.
   */
  lemma {:induction false} InsertTies(x: Prediction, s: seq<Prediction>, v: real)
    ensures Ties(Insert(x, s), v) == if v == x.score then [x] + Ties(s, v) else Ties(s, v)
  {
    if s == [] {
      TiesOfCons(x, [], v);
    } else if x.score >= s[0].score {
      TiesOfCons(x, s, v);
    } else {
      InsertTies(x, s[1..], v);
      TiesOfCons(s[0], Insert(x, s[1..]), v);
      TiesOfCons(s[0], s[1..], v);
      assert s == [s[0]] + s[1..];
    }
  }

  /** Python's `sorted(ps, key=score, reverse=True)`: a sort by score, highest first. */
  function SortByScore(ps: seq<Prediction>): (r: seq<Prediction>)
    ensures IsDescending(r)
    ensures multiset(r) == multiset(ps)
    ensures |r| == |ps|
  {
    if ps == [] then []
    else
      assert ps == [ps[0]] + ps[1..];
      InsertKeepsDescending(ps[0], SortByScore(ps[1..]));
      Insert(ps[0], SortByScore(ps[1..]))
  }

  /** The sort is stable: items of equal score keep their input order. */
  lemma {:induction false} SortByScoreIsStable(ps: seq<Prediction>, v: real)
    ensures Ties(SortByScore(ps), v) == Ties(ps, v)
  {
    if ps != [] {
      assert ps == [ps[0]] + ps[1..];
      assert SortByScore(ps) == Insert(ps[0], SortByScore(ps[1..]));
      SortByScoreIsStable(ps[1..], v);
      InsertTies(ps[0], SortByScore(ps[1..]), v);
      TiesOfCons(ps[0], ps[1..], v);
    }
  }

  /** A descending sequence starts with an element of its highest score. */
  lemma HeadIsMaximal(s: seq<Prediction>, p: Prediction)
    requires IsDescending(s) && p in s
    ensures s[0].score >= p.score
  {
  }

  /** A sequence with no ties at any score is empty. */
  lemma NoTiesMeansEmpty(s: seq<Prediction>)
    requires forall v :: Ties(s, v) == []
    ensures s == []
  {
    if s != [] {
      TiesMembership(s, s[0].score, s[0]);
      assert false;
    }
  }

  /** The run of ties at the head's score starts with the head. */
  lemma HeadLeadsItsTies(s: seq<Prediction>)
    requires s != []
    ensures Ties(s, s[0].score) != [] && Ties(s, s[0].score)[0] == s[0]
  {
    TiesOfCons(s[0], s[1..], s[0].score);
    assert s == [s[0]] + s[1..];
  }

  /** Two non-empty descending sequences with the same ties start with the same item. */
  lemma SameTiesSameHead(a: seq<Prediction>, b: seq<Prediction>)
    requires a != [] && b != []
    requires IsDescending(a) && IsDescending(b)
    requires forall v :: Ties(a, v) == Ties(b, v)
    ensures a[0] == b[0]
  {
    var m := a[0].score;
    TiesMembership(a, m, a[0]);
    TiesMembership(b, m, a[0]);
    HeadIsMaximal(b, a[0]);
    TiesMembership(b, b[0].score, b[0]);
    TiesMembership(a, b[0].score, b[0]);
    HeadIsMaximal(a, b[0]);
    assert b[0].score == m;
    HeadLeadsItsTies(a);
    HeadLeadsItsTies(b);
    assert Ties(a, m) == Ties(b, m);
  }

  /** Removing an equal head from two sequences with the same ties leaves the same ties. */
  lemma SameTiesSameTail(a: seq<Prediction>, b: seq<Prediction>, v: real)
    requires a != [] && b != [] && a[0] == b[0]
    requires Ties(a, v) == Ties(b, v)
    ensures Ties(a[1..], v) == Ties(b[1..], v)
  {
    TiesOfCons(a[0], a[1..], v);
    TiesOfCons(b[0], b[1..], v);
    assert a == [a[0]] + a[1..] && b == [b[0]] + b[1..];
    var head := if a[0].score == v then [a[0]] else [];
    assert Ties(a[1..], v) == (head + Ties(a[1..], v))[|head|..];
    assert Ties(b[1..], v) == (head + Ties(b[1..], v))[|head|..];
  }

  /**
   Two descending sequences with the same items at every score are equal: the ranking order
   is fully determined by the scores and the input order of equal scores.
   */
  lemma {:induction false} DescendingWithSameTiesAreEqual(a: seq<Prediction>, b: seq<Prediction>)
    requires IsDescending(a) && IsDescending(b)
    requires forall v :: Ties(a, v) == Ties(b, v)
    ensures a == b
    decreases |a|
  {
    if a == [] || b == [] {
      NoTiesMeansEmpty(a);
      NoTiesMeansEmpty(b);
    } else {
      SameTiesSameHead(a, b);
      forall v ensures Ties(a[1..], v) == Ties(b[1..], v) {
        SameTiesSameTail(a, b, v);
      }
      DescendingWithSameTiesAreEqual(a[1..], b[1..]);
      assert a == [a[0]] + a[1..] && b == [b[0]] + b[1..];
    }
  }

  /** Any stable descending arrangement of the predictions is exactly `SortByScore`. */
  lemma SortByScoreIsTheStableSort(ps: seq<Prediction>, s: seq<Prediction>)
    requires IsDescending(s)
    requires forall v :: Ties(s, v) == Ties(ps, v)
    ensures s == SortByScore(ps)
  {
    forall v ensures Ties(s, v) == Ties(SortByScore(ps), v) {
      SortByScoreIsStable(ps, v);
    }
    DescendingWithSameTiesAreEqual(s, SortByScore(ps));
  }

  /** The items of a prefix at any one score form a prefix of the items at that score. */
  lemma {:induction false} TiesOfPrefix(s: seq<Prediction>, k: nat, v: real)
    requires k <= |s|
    ensures Ties(s[..k], v) <= Ties(s, v)
  {
    if k > 0 {
      assert s[..k][1..] == s[1..][..k - 1];
      TiesOfPrefix(s[1..], k - 1, v);
    }
  }

  /** Everything after position `k` of a descending sequence scores no higher than item `k - 1`. */
  lemma LeftOutScoreNoHigher(s: seq<Prediction>, k: nat)
    requires IsDescending(s) && k <= |s|
    requires 0 < k || s == []
    ensures forall p :: p in multiset(s) - multiset(s[..k]) ==> 0 < k && p.score <= s[k - 1].score
  {
    assert s == s[..k] + s[k..];
    assert multiset(s) == multiset(s[..k]) + multiset(s[k..]);
    forall p | p in multiset(s) - multiset(s[..k]) ensures 0 < k && p.score <= s[k - 1].score {
      assert p in s[k..];
      var j :| k <= j < |s| && s[j] == p;
    }
  }

  /** A prefix of a descending sequence is descending and draws its items from the sequence. */
  lemma PrefixOfDescending(s: seq<Prediction>, k: nat)
    requires IsDescending(s) && k <= |s|
    ensures IsDescending(s[..k])
    ensures multiset(s[..k]) <= multiset(s)
  {
    assert s == s[..k] + s[k..];
    assert multiset(s) == multiset(s[..k]) + multiset(s[k..]);
  }

  /** A prefix of the sorted list keeps, at every score, a prefix of the input's ties. */
  lemma SortedPrefixKeepsTies(ps: seq<Prediction>, k: nat)
    requires k <= |ps|
    ensures forall v :: Ties(SortByScore(ps)[..k], v) <= Ties(ps, v)
  {
    forall v ensures Ties(SortByScore(ps)[..k], v) <= Ties(ps, v) {
      TiesOfPrefix(SortByScore(ps), k, v);
      SortByScoreIsStable(ps, v);
    }
  }

  /**
   `sorted(...)[:10]`: the ten best predictions, highest first. Nothing left out scores above
   the last item kept, and items of equal score keep their input order.
   */
  function Rank(ps: seq<Prediction>): (r: seq<Prediction>)
    ensures |r| == if |ps| < TopN then |ps| else TopN
    ensures IsDescending(r)
    ensures multiset(r) <= multiset(ps)
    ensures forall p :: p in multiset(ps) - multiset(r) ==> 0 < |r| && p.score <= r[|r| - 1].score
    ensures forall v :: Ties(r, v) <= Ties(ps, v)
  {
    var s := SortByScore(ps);
    var k := if |s| < TopN then |s| else TopN;
    PrefixOfDescending(s, k);
    LeftOutScoreNoHigher(s, k);
    SortedPrefixKeepsTies(ps, k);
    s[..k]
  }
}
