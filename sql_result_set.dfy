/**
 * `ResultSet`: the rows a query returned, a `std::vector<Row>` that `add`
 * appends to and `clear` empties; iteration (`begin()`..`end()`) visits the
 * rows in the order they were added. A row is stored by value, so the set
 * keeps the columns the row had when it was added.
 */
module SqlResultSets {
  import opened SqlValues
  import opened SqlRows

  class ResultSet {
    /** The `_rows` vector: one column map per row, in insertion order. */
    var rows: seq<map<string, Value>>

    /** A new result set has no rows. */
    constructor()
      ensures rows == []
    {
      rows := [];
    }

    /** `count()`. */
    function Count(): (n: nat)
      reads this
      ensures n == |rows|
    {
      |rows|
    }

    /** `begin()`..`end()`: the rows in insertion order. */
    function Rows(): (rs: seq<map<string, Value>>)
      reads this
      ensures |rs| == Count()
    {
      rows
    }

    /** `add(row)`: a copy of `row` goes after every earlier row, which keep
        their order. */
    method Add(row: Row)
      modifies this
      ensures rows == old(rows) + [row.columns]
      ensures Count() == old(Count()) + 1
      ensures Rows()[..old(Count())] == old(Rows()) && Rows()[old(Count())] == row.columns
    {
      rows := rows + [row.columns];
    }

    /** `clear()`: no rows are left. */
    method Clear()
      modifies this
      ensures rows == []
      ensures Count() == 0
    {
      rows := [];
    }
  }
}
