/**
 The amenity filter: starting from the whole table, one boolean mask `df[df[a] == 1]` is
 applied for each selected amenity `a` that is a column of the table; other selections are
 skipped without error.
 */
module AmenityFilter {
  import opened Catalog
  import opened Sequences

  /** The cell of column `amenity` in `row` equals 1. */
  predicate HasAmenity(row: Row, amenity: string) {
    amenity in row.flags && row.flags[amenity] == 1
  }

  /** Conjunctive condition: the row has every selected amenity that is a column of the table. */
  predicate Satisfies(columns: set<string>, selected: seq<string>, row: Row) {
    forall a :: a in selected && a in columns ==> HasAmenity(row, a)
  }

  /** One boolean-mask step: the rows whose `amenity` cell equals 1, in table order. */
  function Mask(rows: seq<Row>, amenity: string): (r: seq<Row>)
    ensures forall row :: row in r <==> row in rows && HasAmenity(row, amenity)
    ensures |r| <= |rows|
  {
    if rows == [] then []
    else if HasAmenity(rows[0], amenity) then [rows[0]] + Mask(rows[1..], amenity)
    else Mask(rows[1..], amenity)
  }

  /** One iteration of the filter loop: mask on `amenity` if it is a column, else keep the table. */
  function Step(t: Table, amenity: string): (r: Table)
    ensures r.columns == t.columns
    ensures amenity !in t.columns ==> r == t
    ensures forall row :: row in r.rows <==> row in t.rows && (amenity in t.columns ==> HasAmenity(row, amenity))
    ensures |r.rows| <= |t.rows|
  {
    if amenity in t.columns then Table(t.columns, Mask(t.rows, amenity)) else t
  }

  /** Satisfying a non-empty selection means satisfying its head and its tail. */
  lemma SatisfiesCons(columns: set<string>, selected: seq<string>, row: Row)
    requires selected != []
    ensures Satisfies(columns, selected, row) <==>
      (selected[0] in columns ==> HasAmenity(row, selected[0])) && Satisfies(columns, selected[1..], row)
  {
    assert selected == [selected[0]] + selected[1..];
  }

  /**
   The filter loop over `selected`, in selection order. A row survives exactly when it
   satisfies every selected amenity that is a column; the column set is unchanged and an
   empty selection returns the table itself.
   */
  function Filter(t: Table, selected: seq<string>): (r: Table)
    ensures r.columns == t.columns
    ensures selected == [] ==> r == t
    ensures forall row :: row in r.rows <==> row in t.rows && Satisfies(t.columns, selected, row)
    ensures |r.rows| <= |t.rows|
    decreases |selected|
  {
    if selected == [] then t
    else
      var r := Filter(Step(t, selected[0]), selected[1..]);
      assert forall row :: Satisfies(t.columns, selected, row) <==>
        (selected[0] in t.columns ==> HasAmenity(row, selected[0])) && Satisfies(t.columns, selected[1..], row)
      by {
        forall row ensures Satisfies(t.columns, selected, row) <==>
          (selected[0] in t.columns ==> HasAmenity(row, selected[0])) && Satisfies(t.columns, selected[1..], row)
        {
          SatisfiesCons(t.columns, selected, row);
        }
      }
      r
  }

  /** Reference definition: the rows that satisfy the whole conjunction, in table order. */
  function SatisfyingRows(rows: seq<Row>, columns: set<string>, selected: seq<string>): (r: seq<Row>)
    ensures |r| <= |rows|
  {
    if rows == [] then []
    else if Satisfies(columns, selected, rows[0]) then [rows[0]] + SatisfyingRows(rows[1..], columns, selected)
    else SatisfyingRows(rows[1..], columns, selected)
  }

  /** Masking on a column and then filtering by the rest is filtering by the whole selection. */
  lemma {:induction false} MaskThenSatisfy(rows: seq<Row>, columns: set<string>, selected: seq<string>)
    requires selected != [] && selected[0] in columns
    ensures SatisfyingRows(Mask(rows, selected[0]), columns, selected[1..]) == SatisfyingRows(rows, columns, selected)
  {
    if rows != [] {
      SatisfiesCons(columns, selected, rows[0]);
      MaskThenSatisfy(rows[1..], columns, selected);
    }
  }

  /** Two selections that agree on every row select the same rows. */
  lemma {:induction false} SatisfyingRowsAgree(rows: seq<Row>, columns: set<string>, s1: seq<string>, s2: seq<string>)
    requires forall row :: Satisfies(columns, s1, row) == Satisfies(columns, s2, row)
    ensures SatisfyingRows(rows, columns, s1) == SatisfyingRows(rows, columns, s2)
  {
    if rows != [] {
      SatisfyingRowsAgree(rows[1..], columns, s1, s2);
    }
  }

  /** The sequential mask loop equals the one-pass conjunctive filter, row for row and in order. */
  lemma {:induction false} FilterIsConjunctive(t: Table, selected: seq<string>)
    ensures Filter(t, selected).rows == SatisfyingRows(t.rows, t.columns, selected)
    decreases |selected|
  {
    if selected == [] {
      SatisfyingRowsOfEmptySelection(t.rows, t.columns);
    } else {
      var a := selected[0];
      FilterIsConjunctive(Step(t, a), selected[1..]);
      if a in t.columns {
        MaskThenSatisfy(t.rows, t.columns, selected);
      } else {
        forall row ensures Satisfies(t.columns, selected[1..], row) == Satisfies(t.columns, selected, row) {
          SatisfiesCons(t.columns, selected, row);
        }
        SatisfyingRowsAgree(t.rows, t.columns, selected[1..], selected);
      }
    }
  }

  /** With nothing selected, every row satisfies the conjunction. */
  lemma {:induction false} SatisfyingRowsOfEmptySelection(rows: seq<Row>, columns: set<string>)
    ensures SatisfyingRows(rows, columns, []) == rows
  {
    if rows != [] {
      SatisfyingRowsOfEmptySelection(rows[1..], columns);
    }
  }

  /** When no row satisfies the conjunction, nothing is selected. */
  lemma {:induction false} NoRowSatisfies(rows: seq<Row>, columns: set<string>, selected: seq<string>)
    requires forall row :: row in rows ==> !Satisfies(columns, selected, row)
    ensures SatisfyingRows(rows, columns, selected) == []
  {
    if rows != [] {
      assert rows[0] in rows;
      NoRowSatisfies(rows[1..], columns, selected);
    }
  }

  /** The conjunctive filter only deletes rows: what is left keeps its table order. */
  lemma {:induction false} SatisfyingRowsIsSubsequence(rows: seq<Row>, columns: set<string>, selected: seq<string>)
    ensures IsSubsequence(SatisfyingRows(rows, columns, selected), rows)
  {
    if rows != [] {
      SatisfyingRowsIsSubsequence(rows[1..], columns, selected);
    }
  }

  /** The filtered table is a subsequence of the original table. */
  lemma FilterIsSubsequence(t: Table, selected: seq<string>)
    ensures IsSubsequence(Filter(t, selected).rows, t.rows)
  {
    FilterIsConjunctive(t, selected);
    SatisfyingRowsIsSubsequence(t.rows, t.columns, selected);
  }

  /** The selected amenities that are columns of the table, in selection order. */
  function KnownAmenities(columns: set<string>, selected: seq<string>): (r: seq<string>)
    ensures forall a :: a in r <==> a in selected && a in columns
  {
    if selected == [] then []
    else if selected[0] in columns then [selected[0]] + KnownAmenities(columns, selected[1..])
    else KnownAmenities(columns, selected[1..])
  }

  /** Selections that are not columns of the table have no effect on the result. */
  lemma FilterIgnoresUnknownAmenities(t: Table, selected: seq<string>)
    ensures Filter(t, selected) == Filter(t, KnownAmenities(t.columns, selected))
  {
    FilterDependsOnlyOnKnownSelection(t, selected, KnownAmenities(t.columns, selected));
  }

  /** The result depends only on which known amenities are selected, not on order or repetition. */
  lemma FilterDependsOnlyOnKnownSelection(t: Table, s1: seq<string>, s2: seq<string>)
    requires forall a :: a in t.columns ==> (a in s1 <==> a in s2)
    ensures Filter(t, s1) == Filter(t, s2)
  {
    FilterIsConjunctive(t, s1);
    FilterIsConjunctive(t, s2);
    SatisfyingRowsAgree(t.rows, t.columns, s1, s2);
  }
}
