/**
 * `sql::Value`: a column value as read from or bound to SQLite, a
 * `std::variant` of nothing, `int`, `long long`, `double`, `string` and a
 * byte blob. `int` and `long long` are distinct alternatives even when the
 * number would fit both.
 */
module SqlValues {
  import opened Wrappers

  newtype Int32 = x: int | -0x8000_0000 <= x < 0x8000_0000
  newtype Int64 = x: int | -0x8000_0000_0000_0000 <= x < 0x8000_0000_0000_0000
  newtype Byte = x: int | 0 <= x < 0x100

  /** One constructor per alternative; the default constructor gives `Null`.
      A `double` is represented by a real number. */
  datatype Value =
    | Null
    | Int(int32: Int32)
    | Long(int64: Int64)
    | Double(float: real)
    | Text(text: string)
    | Blob(bytes: seq<Byte>)

  /** `std::bad_variant_access`, thrown by a getter on the wrong alternative. */
  datatype BadVariantAccess = BadVariantAccess

  predicate IsNull(v: Value) { v.Null? }
  predicate IsInt(v: Value) { v.Int? }
  predicate IsLong(v: Value) { v.Long? }
  predicate IsDouble(v: Value) { v.Double? }
  predicate IsString(v: Value) { v.Text? }
  predicate IsBlob(v: Value) { v.Blob? }

  /** Exactly one of the six predicates holds of any value. */
  lemma ExactlyOneAlternative(v: Value)
    ensures (if IsNull(v) then 1 else 0) + (if IsInt(v) then 1 else 0) + (if IsLong(v) then 1 else 0)
          + (if IsDouble(v) then 1 else 0) + (if IsString(v) then 1 else 0) + (if IsBlob(v) then 1 else 0) == 1
  {
  }

  /** `getInt()`: defined on the `int` alternative only, which it gives back. */
  function GetInt(v: Value): (r: Result<Int32, BadVariantAccess>)
    ensures r.Ok? <==> IsInt(v)
    ensures r.Ok? ==> Int(r.value) == v
  {
    if v.Int? then Ok(v.int32) else Err(BadVariantAccess)
  }

  /** `getLong()`: defined on the `long long` alternative only; an `int`
      is not widened. */
  function GetLong(v: Value): (r: Result<Int64, BadVariantAccess>)
    ensures r.Ok? <==> IsLong(v)
    ensures r.Ok? ==> Long(r.value) == v
  {
    if v.Long? then Ok(v.int64) else Err(BadVariantAccess)
  }

  /** `getDouble()`: defined on the `double` alternative only. */
  function GetDouble(v: Value): (r: Result<real, BadVariantAccess>)
    ensures r.Ok? <==> IsDouble(v)
    ensures r.Ok? ==> Double(r.value) == v
  {
    if v.Double? then Ok(v.float) else Err(BadVariantAccess)
  }

  /** `getString()`: defined on the string alternative only, which it
      returns unchanged. */
  function GetString(v: Value): (r: Result<string, BadVariantAccess>)
    ensures r.Ok? <==> IsString(v)
    ensures r.Ok? ==> Text(r.value) == v
  {
    if v.Text? then Ok(v.text) else Err(BadVariantAccess)
  }

  /** `getBlob()`: defined on the blob alternative only, which it returns
      unchanged. */
  function GetBlob(v: Value): (r: Result<seq<Byte>, BadVariantAccess>)
    ensures r.Ok? <==> IsBlob(v)
    ensures r.Ok? ==> Blob(r.value) == v
  {
    if v.Blob? then Ok(v.bytes) else Err(BadVariantAccess)
  }

  /** Storing a number as `int` or as `long long` gives two different
      values: the one is `isInt` and not `isLong`, the other the reverse. */
  lemma IntIsNotLong(i: Int32, l: Int64)
    ensures IsInt(Int(i)) && !IsLong(Int(i))
    ensures IsLong(Long(l)) && !IsInt(Long(l))
    ensures Int(i) != Long(l)
    ensures GetLong(Int(i)).Err? && GetInt(Long(l)).Err?
  {
  }
}
