/**
 The rental table loaded from the CSV file: one row per (user, property) rating, with a
 `user_id` column, a `name` column and one 0/1 column per amenity.
 */
module Catalog {

  /**
   One row of the table. `flags` maps the amenity columns to their cell values; a column that
   is absent from `flags` stands for a missing (NaN) cell, which compares unequal to 1.
   */
  datatype Row = Row(user: int, name: string, flags: map<string, int>)

  /** A table snapshot: its column labels and its rows in file order. */
  datatype Table = Table(columns: set<string>, rows: seq<Row>)

  /** `user` occurs in the `user_id` column of the table. */
  predicate IsKnownUser(t: Table, user: int)
    ensures IsKnownUser(t, user) <==> exists row :: row in t.rows && row.user == user
  {
    exists i :: 0 <= i < |t.rows| && t.rows[i].user == user
  }

  /** The `name` column of `rows`. */
  function Names(rows: seq<Row>): (r: seq<string>)
    ensures |r| == |rows|
    ensures forall i :: 0 <= i < |rows| ==> r[i] == rows[i].name
  {
    if rows == [] then [] else [rows[0].name] + Names(rows[1..])
  }

  /** A name occurs in the `name` column exactly when some row carries it. */
  lemma NamesMembership(rows: seq<Row>, x: string)
    ensures x in Names(rows) <==> exists row :: row in rows && row.name == x
  {
    if x in Names(rows) {
      var i :| 0 <= i < |rows| && Names(rows)[i] == x;
      assert rows[i] in rows;
    }
  }
}
