/**
 * `HttpHeaders`: a dictionary from header name to value backed by a
 * `std::map<string, string>`. Names match exactly (case-sensitively), a
 * second `set` of the same name replaces the value, and iteration visits
 * the names in ascending string order.
 */
module Headers {
  import opened Wrappers
  import StringOrder

  class HttpHeaders {
    /** The `_headers` map. */
    var fields: map<string, string>

    /** A default-constructed header set is empty. */
    constructor()
      ensures fields == map[]
    {
      fields := map[];
    }

    /** `contains(key)`. */
    predicate Contains(key: string)
      reads this
    {
      key in fields
    }

    /** `get(key)`: the value stored under `key`, or nothing. */
    function Get(key: string): (r: Option<string>)
      reads this
      ensures r.None? <==> !Contains(key)
      ensures r.Some? ==> key in fields && r.value == fields[key]
    {
      if key in fields then Some(fields[key]) else None
    }

    /** `set(key, value)`: last write wins; no other name is touched and a
        name already present is not added a second time. */
    method Set(key: string, value: string)
      modifies this
      ensures fields == old(fields)[key := value]
      ensures Get(key) == Some(value)
      ensures forall k | k != key :: Get(k) == old(Get(k))
      ensures |fields| == if key in old(fields) then |old(fields)| else |old(fields)| + 1
    {
      fields := fields[key := value];
    }

    /** The `(name, value)` pairs in the order `begin()`..`end()` visits
        them: every name once, ascending. */
    ghost function Entries(): (es: seq<(string, string)>)
      reads this
      ensures |es| == |fields|
      ensures forall i, j | 0 <= i < j < |es| :: StringOrder.Less(es[i].0, es[j].0)
      ensures forall i | 0 <= i < |es| :: es[i].0 in fields && es[i].1 == fields[es[i].0]
      ensures forall k | k in fields :: exists i | 0 <= i < |es| :: es[i].0 == k
    {
      var m := fields;
      var names := StringOrder.SortedKeys(m.Keys);
      var es := seq(|names|, i requires 0 <= i < |names| => (names[i], m[names[i]]));
      assert forall i | 0 <= i < |es| :: es[i] == (names[i], m[names[i]]);
      NamedEntries(m, names, es);
      es
    }
  }

  /** Pairing an ascending list of the names of `m` with their values lists
      every entry of `m` once, in ascending name order. */
  lemma NamedEntries(m: map<string, string>, names: seq<string>, es: seq<(string, string)>)
    requires StringOrder.Ascending(names) && |names| == |m|
    requires forall k :: k in m <==> k in names
    requires |es| == |names| && forall i | 0 <= i < |es| :: names[i] in m && es[i] == (names[i], m[names[i]])
    ensures forall i, j | 0 <= i < j < |es| :: StringOrder.Less(es[i].0, es[j].0)
    ensures forall i | 0 <= i < |es| :: es[i].0 in m && es[i].1 == m[es[i].0]
    ensures forall k | k in m :: exists i | 0 <= i < |es| :: es[i].0 == k
  {
    forall k | k in m
      ensures exists i | 0 <= i < |es| :: es[i].0 == k
    {
      var i :| 0 <= i < |names| && names[i] == k;
      assert es[i].0 == k;
    }
  }
}
