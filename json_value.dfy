/**
 * The JSON value: a six-way tagged union (null, boolean, number, string,
 * array, object) with typed accessors, a size query, membership, indexing
 * by position and by key, and structural equality.
 *
 * A number holds the exact decimal value of its lexeme as a `real`; the
 * rounding to an IEEE-754 double is not modelled. An object is a finite map
 * from key to value: it has at most one value per key, and two objects are
 * equal when they hold the same pairs, which is what `==` on the source's
 * sorted `std::map` decides.
 */
module JsonValues {
  import opened Wrappers

  datatype Json =
    | JNull
    | JBoolean(b: bool)
    | JNumber(n: real)
    | JString(s: string)
    | JArray(elements: seq<Json>)
    | JObject(members: map<string, Json>)
  {
    predicate IsNull() { JNull? }
    predicate IsBoolean() { JBoolean? }
    predicate IsNumber() { JNumber? }
    predicate IsString() { JString? }
    predicate IsArray() { JArray? }
    predicate IsObject() { JObject? }

    /** `getBoolean()`: the payload, or `bad_variant_access` on another variant. */
    function GetBoolean(): (r: Result<bool, AccessError>)
      ensures r.Ok? <==> IsBoolean()
      ensures r.Ok? ==> this == JBoolean(r.value)
      ensures r.Err? ==> r.error == BadVariantAccess
    {
      if JBoolean? then Ok(b) else Err(BadVariantAccess)
    }

    /** `getNumber()`. */
    function GetNumber(): (r: Result<real, AccessError>)
      ensures r.Ok? <==> IsNumber()
      ensures r.Ok? ==> this == JNumber(r.value)
      ensures r.Err? ==> r.error == BadVariantAccess
    {
      if JNumber? then Ok(n) else Err(BadVariantAccess)
    }

    /** `getString()`. */
    function GetString(): (r: Result<string, AccessError>)
      ensures r.Ok? <==> IsString()
      ensures r.Ok? ==> this == JString(r.value)
      ensures r.Err? ==> r.error == BadVariantAccess
    {
      if JString? then Ok(s) else Err(BadVariantAccess)
    }

    /** `getArray()`. */
    function GetArray(): (r: Result<seq<Json>, AccessError>)
      ensures r.Ok? <==> IsArray()
      ensures r.Ok? ==> this == JArray(r.value)
      ensures r.Err? ==> r.error == BadVariantAccess
    {
      if JArray? then Ok(elements) else Err(BadVariantAccess)
    }

    /** `getObject()`. */
    function GetObject(): (r: Result<map<string, Json>, AccessError>)
      ensures r.Ok? <==> IsObject()
      ensures r.Ok? ==> this == JObject(r.value)
      ensures r.Err? ==> r.error == BadVariantAccess
    {
      if JObject? then Ok(members) else Err(BadVariantAccess)
    }

    /** `count()`: the number of elements of an array or members of an
        object, 0 for every other variant. */
    function Count(): (n: nat)
      ensures IsArray() ==> n == |elements|
      ensures IsObject() ==> n == |members|
      ensures !IsArray() && !IsObject() ==> n == 0
    {
      match this
      case JArray(xs) => |xs|
      case JObject(m) => |m|
      case _ => 0
    }

    /** `contains(key)`: false on every variant but an object. */
    predicate Contains(key: string) {
      JObject? && key in members
    }

    /** `operator[](index)`: the element, or `out_of_range` when this is not
        an array or the index is past its end. */
    function At(index: nat): (r: Result<Json, AccessError>)
      ensures r.Ok? <==> IsArray() && index < |elements|
      ensures r.Ok? ==> r.value == elements[index]
      ensures !IsArray() ==> r == Err(NotAnArray)
      ensures IsArray() && index >= |elements| ==> r == Err(IndexOutOfRange)
    {
      if !JArray? then Err(NotAnArray)
      else if index < |elements| then Ok(elements[index])
      else Err(IndexOutOfRange)
    }

    /** `operator[](key)`: the member, or `out_of_range` when this is not an
        object or has no such key. */
    function Get(key: string): (r: Result<Json, AccessError>)
      ensures r.Ok? <==> IsObject() && key in members
      ensures r.Ok? ==> r.value == members[key]
      ensures !IsObject() ==> r == Err(NotAnObject)
      ensures IsObject() && key !in members ==> r == Err(KeyNotFound)
    {
      if !JObject? then Err(NotAnObject)
      else if key in members then Ok(members[key])
      else Err(KeyNotFound)
    }
  }

  /** Why an accessor throws: `bad_variant_access` from a getter, or one of
      the `out_of_range` cases of the two indexing operators. */
  datatype AccessError = BadVariantAccess | NotAnArray | IndexOutOfRange | NotAnObject | KeyNotFound

  /** The defaulted `operator==` spelled out: same alternative of the
      variant, and equal payloads, arrays element by element in order,
      objects as the same keys with equal values. */
  predicate StructurallyEqual(a: Json, b: Json)
    decreases a
  {
    match (a, b)
    case (JNull, JNull) => true
    case (JBoolean(x), JBoolean(y)) => x == y
    case (JNumber(x), JNumber(y)) => x == y
    case (JString(x), JString(y)) => x == y
    case (JArray(xs), JArray(ys)) =>
      |xs| == |ys| && forall i | 0 <= i < |xs| :: StructurallyEqual(xs[i], ys[i])
    case (JObject(m), JObject(n)) =>
      m.Keys == n.Keys && forall k | k in m :: StructurallyEqual(m[k], n[k])
    case _ => false
  }

  /** Structural equality is exactly the equality of the model's values, so
      the model's `==` is the source's `operator==`. */
  lemma {:induction false} StructuralEqualityIsEquality(a: Json, b: Json)
    ensures StructurallyEqual(a, b) <==> a == b
    decreases a
  {
    match (a, b)
    case (JArray(xs), JArray(ys)) =>
      forall i | 0 <= i < |xs| && i < |ys| ensures StructurallyEqual(xs[i], ys[i]) <==> xs[i] == ys[i] {
        StructuralEqualityIsEquality(xs[i], ys[i]);
      }
      if StructurallyEqual(a, b) {
        assert xs == ys;
      }
    case (JObject(m), JObject(n)) =>
      forall k | k in m && k in n ensures StructurallyEqual(m[k], n[k]) <==> m[k] == n[k] {
        StructuralEqualityIsEquality(m[k], n[k]);
      }
      if StructurallyEqual(a, b) {
        assert m == n;
      }
    case _ =>
  }

  /** Exactly one of the six type predicates holds of any value. */
  lemma ExactlyOneKind(v: Json)
    ensures v.IsNull() || v.IsBoolean() || v.IsNumber() || v.IsString() || v.IsArray() || v.IsObject()
    ensures v.IsNull() ==> !v.IsBoolean() && !v.IsNumber() && !v.IsString() && !v.IsArray() && !v.IsObject()
    ensures v.IsBoolean() ==> !v.IsNumber() && !v.IsString() && !v.IsArray() && !v.IsObject()
    ensures v.IsNumber() ==> !v.IsString() && !v.IsArray() && !v.IsObject()
    ensures v.IsString() ==> !v.IsArray() && !v.IsObject()
    ensures v.IsArray() ==> !v.IsObject()
  {
  }

  /** Each constructor stores its own alternative and nothing else: the
      default constructor gives null, and each getter gives back the
      argument. */
  lemma ConstructorsRoundTrip(b: bool, n: real, s: string, xs: seq<Json>, m: map<string, Json>)
    ensures JNull.IsNull()
    ensures JBoolean(b).GetBoolean() == Ok(b) && JBoolean(b).GetNumber().Err?
    ensures JNumber(n).GetNumber() == Ok(n) && JNumber(n).GetString().Err?
    ensures JString(s).GetString() == Ok(s) && JString(s).GetArray().Err?
    ensures JArray(xs).GetArray() == Ok(xs) && JArray(xs).GetObject().Err?
    ensures JObject(m).GetObject() == Ok(m) && JObject(m).GetBoolean().Err?
  {
  }

  /** Indexing by position succeeds exactly below `count()`, and indexing by
      key succeeds exactly when `contains(key)` holds. */
  lemma IndexingAgreesWithCountAndContains(v: Json, i: nat, key: string)
    ensures v.At(i).Ok? <==> v.IsArray() && i < v.Count()
    ensures v.Get(key).Ok? <==> v.Contains(key)
  {
  }
}
