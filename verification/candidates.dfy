/**
 Candidate selection: the distinct property names of the filtered table, minus, for a user
 who already has ratings, every name that user rated anywhere in the unfiltered table.
 */
module Candidates {
  import opened Catalog
  import opened Sequences

  /** The rows of `user`, in table order (the mask `df[df['user_id'] == user]`). */
  function RowsOf(rows: seq<Row>, user: int): (r: seq<Row>)
    ensures forall row :: row in r <==> row in rows && row.user == user
  {
    if rows == [] then []
    else if rows[0].user == user then [rows[0]] + RowsOf(rows[1..], user)
    else RowsOf(rows[1..], user)
  }

  /** The distinct names `user` has rated in the whole, unfiltered table. */
  function RatedNames(t: Table, user: int): (r: seq<string>)
    ensures NoDuplicates(r)
    ensures forall x :: x in r <==> exists row :: row in t.rows && row.user == user && row.name == x
  {
    var r := Unique(Names(RowsOf(t.rows, user)));
    assert forall x :: x in r <==> exists row :: row in t.rows && row.user == user && row.name == x by {
      forall x ensures x in r <==> exists row :: row in t.rows && row.user == user && row.name == x {
        NamesMembership(RowsOf(t.rows, user), x);
      }
    }
    r
  }

  /** The list comprehension `[p for p in names if p not in rated]`. */
  function Exclude(names: seq<string>, rated: seq<string>): (r: seq<string>)
    ensures forall x :: x in r <==> x in names && x !in rated
    ensures |r| <= |names|
  {
    if names == [] then []
    else if names[0] !in rated then [names[0]] + Exclude(names[1..], rated)
    else Exclude(names[1..], rated)
  }

  /** Excluding nothing keeps every name, in order. */
  lemma {:induction false} ExcludeNothing(names: seq<string>)
    ensures Exclude(names, []) == names
  {
    if names != [] {
      ExcludeNothing(names[1..]);
    }
  }

  /** Excluding a superset of the names leaves nothing. */
  lemma {:induction false} ExcludeAll(names: seq<string>, rated: seq<string>)
    requires forall x :: x in names ==> x in rated
    ensures Exclude(names, rated) == []
  {
    if names != [] {
      assert names[0] in names;
      ExcludeAll(names[1..], rated);
    }
  }

  /** Exclusion only deletes names: it keeps their order and introduces no duplicate. */
  lemma {:induction false} ExcludeIsSubsequence(names: seq<string>, rated: seq<string>)
    ensures IsSubsequence(Exclude(names, rated), names)
    ensures NoDuplicates(names) ==> NoDuplicates(Exclude(names, rated))
  {
    if names != [] {
      ExcludeIsSubsequence(names[1..], rated);
      if NoDuplicates(names) {
        assert NoDuplicates(names[1..]);
        assert names[0] !in names[1..];
      }
    }
  }

  /** Candidates for a user absent from the table: every distinct filtered name. */
  function NewUserCandidates(filtered: Table): (r: seq<string>)
    ensures NoDuplicates(r)
    ensures forall x :: x in r <==> exists row :: row in filtered.rows && row.name == x
  {
    forall x ensures x in Names(filtered.rows) <==> exists row :: row in filtered.rows && row.name == x {
      NamesMembership(filtered.rows, x);
    }
    Unique(Names(filtered.rows))
  }

  /**
   Candidates for a user present in the table: distinct filtered names that the user rated
   in no row of the whole table.
   */
  function ExistingUserCandidates(t: Table, filtered: Table, user: int): (r: seq<string>)
    ensures NoDuplicates(r)
    ensures forall x :: x in r <==>
      (exists row :: row in filtered.rows && row.name == x) &&
      !(exists row :: row in t.rows && row.user == user && row.name == x)
  {
    var all := NewUserCandidates(filtered);
    ExcludeIsSubsequence(all, RatedNames(t, user));
    Exclude(all, RatedNames(t, user))
  }

  /** A user absent from the table has rated nothing. */
  lemma NewUserHasNoRatings(t: Table, user: int)
    requires !IsKnownUser(t, user)
    ensures RatedNames(t, user) == []
  {
  }

  /** Both candidate lists are in first-appearance order of the filtered names. */
  lemma CandidatesKeepFirstAppearanceOrder(t: Table, filtered: Table, user: int)
    ensures forall i, j :: 0 <= i < j < |NewUserCandidates(filtered)| ==>
      FirstIndex(Names(filtered.rows), NewUserCandidates(filtered)[i]) <
      FirstIndex(Names(filtered.rows), NewUserCandidates(filtered)[j])
    ensures IsSubsequence(ExistingUserCandidates(t, filtered, user), NewUserCandidates(filtered))
  {
    UniqueKeepsFirstOccurrenceOrder(Names(filtered.rows));
    ExcludeIsSubsequence(NewUserCandidates(filtered), RatedNames(t, user));
  }

  /** A user is in the `user_id` column exactly when the mask on that user keeps some row. */
  lemma KnownUserHasRows(t: Table, user: int)
    ensures IsKnownUser(t, user) <==> RowsOf(t.rows, user) != []
  {
    if IsKnownUser(t, user) {
      var i :| 0 <= i < |t.rows| && t.rows[i].user == user;
      assert t.rows[i] in RowsOf(t.rows, user);
    }
    if RowsOf(t.rows, user) != [] {
      var row := RowsOf(t.rows, user)[0];
      assert row in RowsOf(t.rows, user);
    }
  }

  /**
   The new-user computation is the existing-user computation with nothing excluded, and for a
   user absent from the table the two coincide.
   */
  lemma NewUserIsExistingUserWithNoRatings(t: Table, filtered: Table, user: int)
    ensures NewUserCandidates(filtered) == Exclude(NewUserCandidates(filtered), [])
    ensures !IsKnownUser(t, user) ==> NewUserCandidates(filtered) == ExistingUserCandidates(t, filtered, user)
  {
    ExcludeNothing(NewUserCandidates(filtered));
    if !IsKnownUser(t, user) {
      NewUserHasNoRatings(t, user);
    }
  }
}
