/**
 * `Row`: one row of a query result, a `std::map` from column name to
 * `sql::Value` that `set` writes into and `count`, `contains` and `get`
 * read.
 */
module SqlRows {
  import opened Wrappers
  import opened SqlValues

  /** The `out_of_range` thrown by `get` for a missing column. */
  datatype RowError = ColumnNotFound(name: string)

  class Row {
    /** The `_columns` map. */
    var columns: map<string, Value>

    /** A new row has no columns. */
    constructor()
      ensures columns == map[]
    {
      columns := map[];
    }

    /** `count()`: the number of distinct column names. */
    function Count(): (n: nat)
      reads this
      ensures n == |columns.Keys|
    {
      |columns|
    }

    /** `contains(name)`. */
    predicate Contains(name: string)
      reads this
    {
      name in columns
    }

    /** `get(name)`: the value of the column, or `out_of_range` naming it;
        it fails exactly when `contains(name)` is false. */
    function Get(name: string): (r: Result<Value, RowError>)
      reads this
      ensures r.Ok? <==> Contains(name)
      ensures r.Ok? ==> name in columns && r.value == columns[name]
      ensures r.Err? ==> r.error == ColumnNotFound(name)
    {
      if name in columns then Ok(columns[name]) else Err(ColumnNotFound(name))
    }

    /** `set(name, value)`: inserts or overwrites one column and leaves every
        other column alone; the count grows only for a new name. */
    method Set(name: string, value: Value)
      modifies this
      ensures columns == old(columns)[name := value]
      ensures Get(name) == Ok(value)
      ensures forall n | n != name :: Get(n) == old(Get(n))
      ensures Count() == if old(Contains(name)) then old(Count()) else old(Count()) + 1
    {
      columns := columns[name := value];
    }
  }
}
