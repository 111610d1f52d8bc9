/**
  Cleaning the loaded frame: rows with a missing value are dropped, then
  duplicate rows are dropped keeping the first occurrence, both in place on
  the frame that is passed in, which is also returned.
*/
module DataManager {
  import opened Wrappers
  import opened Seqs

  /** One row of the frame: one cell per column, `None` where the value is missing. */
  type Row<C> = seq<Option<C>>

  /** The row has a value in every column. */
  predicate Complete<C>(row: Row<C>) {
    forall i :: 0 <= i < |row| ==> row[i].Some?
  }

  /** `dropna()`: the rows without a missing value, in frame order. */
  function DropNa<C(==,!new)>(rows: seq<Row<C>>): seq<Row<C>> {
    Filter(rows, Complete)
  }

  /** `dropna()` followed by `drop_duplicates()`. */
  function Clean<C(==,!new)>(rows: seq<Row<C>>): seq<Row<C>> {
    DropDuplicates(DropNa(rows))
  }

  /** No row of a cleaned frame has a missing value. */
  lemma CleanIsComplete<C(!new)>(rows: seq<Row<C>>, k: nat)
    requires k < |Clean(rows)|
    ensures Complete(Clean(rows)[k])
  {
    assert Clean(rows)[k] in Clean(rows);
  }

  /** A row survives cleaning exactly when it is a complete input row. */
  lemma CleanMembers<C(!new)>(rows: seq<Row<C>>, row: Row<C>)
    ensures row in Clean(rows) <==> row in rows && Complete(row)
  {
  }

  /** Every distinct complete input row survives exactly once; no other row survives. */
  lemma CleanKeepsOneOfEach<C(!new)>(rows: seq<Row<C>>, row: Row<C>)
    ensures multiset(Clean(rows))[row] == if row in rows && Complete(row) then 1 else 0
    ensures NoDuplicates(Clean(rows))
  {
    NoDuplicatesCount(DropDuplicates(DropNa(rows)), row);
  }

  /** The cleaned rows are input rows, in their original relative order. */
  lemma CleanIsSubsequence<C(!new)>(rows: seq<Row<C>>)
    ensures IsSubsequence(Clean(rows), rows)
  {
    FilterIsSubsequence(rows, Complete);
    DropDuplicatesIsSubsequence(DropNa(rows));
    SubsequenceTransitive(Clean(rows), DropNa(rows), rows);
  }

  /** Surviving rows are ordered by the position of their first occurrence in the input. */
  lemma CleanKeepsFirstOrder<C(!new)>(rows: seq<Row<C>>, i: nat, j: nat)
    requires i < j < |Clean(rows)|
    ensures Clean(rows)[i] in rows && Clean(rows)[j] in rows
    ensures FirstIndex(rows, Clean(rows)[i]) < FirstIndex(rows, Clean(rows)[j])
  {
    var complete := DropNa(rows);
    var x, y := Clean(rows)[i], Clean(rows)[j];
    DropDuplicatesFirstOrder(complete, i, j);
    assert x in Clean(rows) && y in Clean(rows);
    var fx, fy := FirstIndex(rows, x), FirstIndex(rows, y);
    if fy < fx {
      FilterFirstOrder(rows, Complete, y, x);
    }
  }

  /** Cleaning a cleaned frame changes nothing. */
  lemma CleanIdempotent<C(!new)>(rows: seq<Row<C>>)
    ensures Clean(Clean(rows)) == Clean(rows)
  {
    var once := Clean(rows);
    FilterKeepsAll(once, Complete);
    DropDuplicatesOfDistinct(once);
  }

  /** The frame handed to `clean_data`, whose rows the cleaning replaces in place. */
  class Table<C> {
    var rows: seq<Row<C>>

    constructor (rows: seq<Row<C>>)
      ensures this.rows == rows
    {
      this.rows := rows;
    }
  }

  /**
    `clean_data`. A missing frame is reported (the message itself is not
    modelled) and nothing is returned. Otherwise the frame's rows are
    cleaned in place and the same frame is returned.
  */
  method CleanData<C(==,!new)>(data: Table?<C>) returns (r: Table?<C>)
    modifies data
    ensures data == null ==> r == null
    ensures data != null ==> r == data && data.rows == Clean(old(data.rows))
  {
    if data == null {
      return null;
    }
    data.rows := DropNa(data.rows);
    data.rows := DropDuplicates(data.rows);
    return data;
  }
}
