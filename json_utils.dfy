/** Reading a JSON member as a value of a field's declared type, copying a
    member into a ContentValues buffer, and walking a JSON array
    (internal/JsonUtils.kt). */
module JsonUtils {
  import opened Wrappers
  import opened JavaInts
  import opened Decimal
  import opened JsonModel
  import opened Values
  import opened ContentValuesExt
  import opened Metadata

  predicate IsIntType(t: JType) { t == Primitive(IntP) || t == Boxed(IntP) }
  predicate IsLongType(t: JType) { t == Primitive(LongP) || t == Boxed(LongP) }
  predicate IsBooleanType(t: JType) { t == Primitive(BooleanP) || t == Boxed(BooleanP) }
  predicate IsDoubleType(t: JType) { t == Primitive(DoubleP) || t == Boxed(DoubleP) }
  predicate IsFloatType(t: JType) { t == Primitive(FloatP) || t == Boxed(FloatP) }

  /** The types `getValue` can read a member as. */
  predicate SupportedType(t: JType)
  {
    IsIntType(t) || IsLongType(t) || IsBooleanType(t) || t.CharSequenceType? || IsDoubleType(t) || IsFloatType(t)
  }

  /** The typed read of a present member, dispatched on the target type in the
      order int, long, boolean, CharSequence, double, float. */
  function ReadAs(obj: JsonObject, key: string, t: JType): (r: Result<Value>)
    requires SupportedType(t)
    ensures IsIntType(t) ==> r == (var x :- GetInt(obj, key); Success(IntV(x)))
    ensures IsLongType(t) ==> r == (var x :- GetLong(obj, key); Success(LongV(x)))
    ensures IsBooleanType(t) ==> r == (var x :- GetBoolean(obj, key); Success(BoolV(x)))
    ensures t.CharSequenceType? ==> r == (var x :- GetString(obj, key); Success(CharSeqV(x)))
    ensures r.Success? ==> !r.value.Null?
    ensures r.Failure? ==> r.error.JSONException?
  {
    if IsIntType(t) then
      var x :- GetInt(obj, key); Success(IntV(x))
    else if IsLongType(t) then
      var x :- GetLong(obj, key); Success(LongV(x))
    else if IsBooleanType(t) then
      var x :- GetBoolean(obj, key); Success(BoolV(x))
    else if t.CharSequenceType? then
      var x :- GetString(obj, key); Success(CharSeqV(x))
    else if IsDoubleType(t) then
      var x :- GetDouble(obj, key); Success(DoubleV(x))
    else
      var x :- GetDouble(obj, key); Success(FloatV(x))
  }

  /** `JSONObject.getValue(jsonKey, type)`: a missing key and an unsupported
      type are runtime errors; a member that does not convert is a JSON error. */
  function GetValue(obj: JsonObject, key: string, t: JType): (r: Result<Value>)
    ensures !Has(obj, key) ==> r.Failure? && r.error.RuntimeException?
    ensures Has(obj, key) && !SupportedType(t) ==> r.Failure? && r.error.RuntimeException?
    ensures Has(obj, key) && SupportedType(t) ==> r == ReadAs(obj, key, t)
    ensures r.Success? ==> !r.value.Null?
  {
    if !Has(obj, key) then
      Failure(RuntimeException("Failed to get a value from JSON with key " + key + " (key not found)"))
    else if !SupportedType(t) then
      Failure(RuntimeException("Unsupported type (only Integer, Long, Boolean, String, Double and Float are supported)"))
    else
      ReadAs(obj, key, t)
  }

  /** A Long id given as a string without a digit, which `Double.parseDouble`
      refuses unless it spells `NaN` or `Infinity`, is refused with a JSON
      error. */
  lemma NonNumericLongIdIsJsonError(obj: JsonObject, key: string, s: string)
    requires Opt(obj, key) == Some(JString(s))
    requires forall k | 0 <= k < |s| :: !IsDigit(s[k])
    requires forall i, j | 0 <= i <= j <= |s| :: s[i..j] != "NaN" && s[i..j] != "Infinity"
    ensures GetValue(obj, key, Boxed(LongP)).Failure?
    ensures GetValue(obj, key, Boxed(LongP)).error.JSONException?
  {
    assert Has(obj, key);
    if |s| >= 2 {
      assert !IsDigit(s[1]) && s[1..][0] == s[1];
    }
    if |s| >= 1 {
      assert !IsDigit(s[0]);
    }
    assert ParseDecimal(s).None?;
    assert AsLong(JString(s)).None?;
  }

  /** An integral id reads back unchanged, whether the field is declared
      int, Integer, long or Long. */
  lemma IntegerIdReadsBack(obj: JsonObject, key: string, t: JType)
    requires Opt(obj, key).Some? && Opt(obj, key).value.JInt?
    requires IsIntType(t) || IsLongType(t)
    ensures GetValue(obj, key, t).Success?
    ensures IsIntType(t) ==> GetValue(obj, key, t) == Success(IntV(Opt(obj, key).value.i))
    ensures IsLongType(t) ==> GetValue(obj, key, t) == Success(LongV(Opt(obj, key).value.i))
  {
    assert Has(obj, key);
  }

  /** `JsonUtils.copyContentValue`: copies a present member into `values`
      under `key` with `put`; a missing member copies nothing. */
  method CopyContentValue(obj: JsonObject, jsonKey: string, values: ContentValues, key: string) returns (ok: bool)
    modifies values
    ensures !Has(obj, jsonKey) ==> !ok && values.values == old(values.values)
    ensures Has(obj, jsonKey) ==> (ok, values.values) == PutResult(old(values.values), key, FromJson(Opt(obj, jsonKey).value))
  {
    if !Has(obj, jsonKey) {
      return false;
    }
    var jsonValue := Get(obj, jsonKey).value;
    ok := values.Put(key, FromJson(jsonValue));
  }

  /** Copying succeeds exactly for scalar members: nested objects, arrays and
      JSON null are classes `put` does not know. */
  lemma CopySucceedsForScalars(obj: JsonObject, key: string)
    requires Has(obj, key)
    ensures Stored(FromJson(Opt(obj, key).value)).Some? <==> !(Opt(obj, key).value.JObject? || Opt(obj, key).value.JArray? || Opt(obj, key).value.JNull?)
  {
  }

  // ---------------------------------------------------------------------
  // Array iteration

  /** `JsonArrayAnyIterator` as written: `next()` pre-increments the index
      before reading, so the first element read is at index 1. */
  class JsonArrayAnyIterator {
    const jsonArray: JsonArray
    var currentIndex: int

    constructor(jsonArray: JsonArray)
      ensures this.jsonArray == jsonArray && currentIndex == 0
    {
      this.jsonArray := jsonArray;
      currentIndex := 0;
    }

    predicate HasNext()
      reads this
    {
      currentIndex < Length(jsonArray)
    }

    method Next() returns (r: Result<Json>)
      modifies this
      ensures currentIndex == old(currentIndex) + 1
      ensures r == ArrayGet(jsonArray, currentIndex)
    {
      currentIndex := currentIndex + 1;
      r := ArrayGet(jsonArray, currentIndex);
    }
  }

  /** `JsonArrayJsonObjectIterator` as written: the same pre-increment, reading
      with `getJSONObject`. */
  class JsonArrayJsonObjectIterator {
    const jsonArray: JsonArray
    var currentIndex: int

    constructor(jsonArray: JsonArray)
      ensures this.jsonArray == jsonArray && currentIndex == 0
    {
      this.jsonArray := jsonArray;
      currentIndex := 0;
    }

    predicate HasNext()
      reads this
    {
      currentIndex < Length(jsonArray)
    }

    method Next() returns (r: Result<JsonObject>)
      modifies this
      ensures currentIndex == old(currentIndex) + 1
      ensures r == GetJSONObjectAt(jsonArray, currentIndex)
    {
      currentIndex := currentIndex + 1;
      r := GetJSONObjectAt(jsonArray, currentIndex);
    }
  }

  /** What a `for` loop over `toIterable()` sees from index `from` on: the
      elements it reads, or the exception `next()` throws. */
  function AsWrittenFrom(arr: JsonArray, from: nat): Result<seq<Json>>
    decreases Length(arr) - from
  {
    if from < Length(arr) then
      var x :- ArrayGet(arr, from + 1);
      var rest :- AsWrittenFrom(arr, from + 1);
      Success([x] + rest)
    else Success([])
  }

  /** `seen` followed by what the rest of the iteration yields. */
  function Prepend(seen: seq<Json>, r: Result<seq<Json>>): Result<seq<Json>>
  {
    match r
    case Success(rest) => Success(seen + rest)
    case Failure(e) => Failure(e)
  }

  /** Draining the as-written iterator: a loop of `hasNext()` / `next()`. */
  method DrainAsWritten(arr: JsonArray) returns (r: Result<seq<Json>>)
    ensures r == AsWrittenFrom(arr, 0)
  {
    var it := new JsonArrayAnyIterator(arr);
    var seen: seq<Json> := [];
    match AsWrittenFrom(arr, 0) {
      case Success(all) => assert [] + all == all;
      case Failure(_) =>
    }
    while it.HasNext()
      invariant 0 <= it.currentIndex <= Length(arr)
      invariant it.jsonArray == arr
      invariant AsWrittenFrom(arr, 0) == Prepend(seen, AsWrittenFrom(arr, it.currentIndex))
      decreases Length(arr) - it.currentIndex
    {
      var x := it.Next();
      if x.Failure? {
        return Failure(x.error);
      }
      match AsWrittenFrom(arr, it.currentIndex) {
        case Success(rest) => assert seen + ([x.value] + rest) == (seen + [x.value]) + rest;
        case Failure(_) =>
      }
      seen := seen + [x.value];
    }
    assert seen + [] == seen;
    return Success(seen);
  }

  /** From any position inside a non-empty array the as-written iteration ends
      by reading one past the last element. */
  lemma {:induction false} AsWrittenFromFails(arr: JsonArray, from: nat)
    requires from < Length(arr)
    ensures AsWrittenFrom(arr, from).Failure?
    decreases Length(arr) - from
  {
    if from + 1 < Length(arr) {
      AsWrittenFromFails(arr, from + 1);
    }
  }

  /** The as-written iterators never yield the elements of a non-empty array:
      a one-element array already throws, and so does every longer one. */
  lemma AsWrittenIterationFails(arr: JsonArray)
    requires Length(arr) > 0
    ensures AsWrittenFrom(arr, 0).Failure?
    ensures AsWrittenFrom(arr, 0).error.JSONException?
  {
    AsWrittenFromFails(arr, 0);
    AsWrittenErrorIsJson(arr, 0);
  }

  lemma {:induction false} AsWrittenErrorIsJson(arr: JsonArray, from: nat)
    ensures AsWrittenFrom(arr, from).Failure? ==> AsWrittenFrom(arr, from).error.JSONException?
    decreases Length(arr) - from
  {
    if from < Length(arr) && ArrayGet(arr, from + 1).Success? {
      AsWrittenErrorIsJson(arr, from + 1);
    }
  }

  /** The iterator with the evidently intended post-increment: `next()` reads
      the element at the index, then advances. */
  class ArrayIterator {
    const jsonArray: JsonArray
    var currentIndex: nat

    constructor(jsonArray: JsonArray)
      ensures this.jsonArray == jsonArray && currentIndex == 0
    {
      this.jsonArray := jsonArray;
      currentIndex := 0;
    }

    predicate HasNext()
      reads this
    {
      currentIndex < Length(jsonArray)
    }

    method Next() returns (x: Json)
      requires HasNext()
      modifies this
      ensures x == jsonArray.items[old(currentIndex)]
      ensures currentIndex == old(currentIndex) + 1
    {
      x := jsonArray.items[currentIndex];
      currentIndex := currentIndex + 1;
    }
  }

  /** Draining the corrected iterator yields every element once, in order. */
  method Drain(arr: JsonArray) returns (r: seq<Json>)
    ensures r == arr.items
  {
    var it := new ArrayIterator(arr);
    r := [];
    while it.HasNext()
      invariant it.jsonArray == arr
      invariant it.currentIndex <= Length(arr)
      invariant r == arr.items[..it.currentIndex]
      decreases Length(arr) - it.currentIndex
    {
      var x := it.Next();
      r := r + [x];
    }
  }

  /** The objects of an array, read in order with `getJSONObject`; the first
      element that is not an object stops the walk with a JSON error. */
  function ObjectsOf(arr: JsonArray): (r: Result<seq<JsonObject>>)
    ensures r.Success? <==> forall i | 0 <= i < |arr.items| :: arr.items[i].JObject?
    ensures r.Success? ==> |r.value| == |arr.items| && forall i | 0 <= i < |arr.items| :: r.value[i] == arr.items[i]
    ensures r.Failure? ==> r.error.JSONException?
  {
    ObjectsFrom(arr, 0)
  }

  function ObjectsFrom(arr: JsonArray, from: nat): (r: Result<seq<JsonObject>>)
    requires from <= |arr.items|
    ensures r.Success? <==> forall i | from <= i < |arr.items| :: arr.items[i].JObject?
    ensures r.Success? ==> |r.value| == |arr.items| - from && forall i | from <= i < |arr.items| :: r.value[i - from] == arr.items[i]
    ensures r.Failure? ==> r.error.JSONException?
    decreases |arr.items| - from
  {
    if from == |arr.items| then Success([])
    else
      var x :- GetJSONObjectAt(arr, from);
      var rest :- ObjectsFrom(arr, from + 1);
      Success([x] + rest)
  }
}

/** The older coercion helpers (json/JsonUtils.kt). */
module LegacyJsonUtils {
  import opened Wrappers
  import opened JsonModel
  import opened Values
  import opened ContentValuesExt
  import opened Metadata
  import JsonUtils

  /** A successful read, as a present value. */
  function AsPresent(r: Result<Value>): Result<Option<Value>>
  {
    match r
    case Success(v) => Success(Some(v))
    case Failure(e) => Failure(e)
  }

  /** `JsonUtils.getValue`: a missing key gives null instead of an exception;
      otherwise the same dispatch as the newer `getValue`. */
  function GetValue(obj: JsonObject, key: string, t: JType): (r: Result<Option<Value>>)
    ensures !Has(obj, key) ==> r == Success(None)
    ensures Has(obj, key) && !JsonUtils.SupportedType(t) ==> r.Failure? && r.error.RuntimeException?
    ensures r.Failure? ==> r.error.RuntimeException? || r.error.JSONException?
    ensures r.Success? && r.value.Some? ==> !r.value.value.Null?
  {
    if !Has(obj, key) then Success(None)
    else if !JsonUtils.SupportedType(t) then
      Failure(RuntimeException("unsupported type (only Integer, Long, Boolean, String, Double and Float are supported)"))
    else
      var v :- JsonUtils.ReadAs(obj, key, t);
      Success(Some(v))
  }

  /** On a present key of a supported type the older `getValue` reads what
      the newer one reads, failures included; an unsupported type is a runtime
      error in both. */
  lemma GetValueGenerationsAgree(obj: JsonObject, key: string, t: JType)
    requires Has(obj, key)
    ensures JsonUtils.SupportedType(t) ==> GetValue(obj, key, t) == AsPresent(JsonUtils.GetValue(obj, key, t))
    ensures !JsonUtils.SupportedType(t) ==> GetValue(obj, key, t).Failure? && JsonUtils.GetValue(obj, key, t).Failure?
  {
  }

  /** `copyValue(value, key, values)`: stores a value of an exactly supported
      class (numbers, booleans) as it is, a CharSequence or Date as its text,
      and refuses anything else. */
  method CopyValue(v: Value, key: string, values: ContentValues) returns (ok: bool)
    requires !v.Null?
    modifies values
    ensures (ok, values.values) == PutResult(old(values.values), key, v)
  {
    match v {
      case OtherV(_, _) =>
        return false;
      case CharSeqV(s) =>
        values.PutString(key, s);
      case DateV(t) =>
        values.PutString(key, t);
      case IntV(_) =>
        values.values := values.values[key := v];
      case LongV(_) =>
        values.values := values.values[key := v];
      case ShortV(_) =>
        values.values := values.values[key := v];
      case ByteV(_) =>
        values.values := values.values[key := v];
      case BoolV(_) =>
        values.values := values.values[key := v];
      case FloatV(_) =>
        values.values := values.values[key := v];
      case DoubleV(_) =>
        values.values := values.values[key := v];
    }
    return true;
  }

  /** `copyContentValue`: a missing member copies nothing; a present one goes
      through `copyValue`. */
  method CopyContentValue(obj: JsonObject, jsonKey: string, values: ContentValues, key: string) returns (ok: bool)
    modifies values
    ensures !Has(obj, jsonKey) ==> !ok && values.values == old(values.values)
    ensures Has(obj, jsonKey) ==> (ok, values.values) == PutResult(old(values.values), key, FromJson(Opt(obj, jsonKey).value))
  {
    if !Has(obj, jsonKey) {
      return false;
    }
    var value := Get(obj, jsonKey).value;
    ok := CopyValue(FromJson(value), key, values);
  }
}
