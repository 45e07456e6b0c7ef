/** The org.json values the persister reads: objects keep their members in
    insertion order (that is the order `keys()` yields), arrays are indexed from
    zero, numbers are Java ints, longs or opaque doubles. */
module JsonModel {
  import opened Wrappers
  import opened JavaInts
  import opened Decimal

  /** A floating-point number, kept opaque: the text `toString` gives for it
      and its value truncated toward zero (what a cast to an integer type
      starts from). */
  datatype Real = Real(text: string, truncated: int)

  datatype Json =
    | JObject(members: seq<(string, Json)>)
    | JArray(items: seq<Json>)
    | JInt(i: Int32)
    | JLong(l: Int64)
    | JDouble(r: Real)
    | JBool(b: bool)
    | JString(s: string)
    | JNull

  type JsonObject = j: Json | j.JObject? witness JObject([])
  type JsonArray = j: Json | j.JArray? witness JArray([])

  function SumSizes(s: seq<nat>): nat
  {
    if s == [] then 0 else s[0] + SumSizes(s[1..])
  }

  /** Number of nodes in a value; the persister's recursion descends along it. */
  function Size(j: Json): nat
  {
    match j
    case JObject(ms) => 1 + SumSizes(seq(|ms|, i requires 0 <= i < |ms| => Size(ms[i].1)))
    case JArray(items) => 1 + SumSizes(seq(|items|, i requires 0 <= i < |items| => Size(items[i])))
    case _ => 1
  }

  lemma {:induction false} SumSizesBound(s: seq<nat>, i: nat)
    requires i < |s|
    ensures s[i] <= SumSizes(s)
  {
    if i > 0 {
      SumSizesBound(s[1..], i - 1);
    }
  }

  /** Every member value of an object is smaller than the object. */
  lemma MemberSmaller(obj: JsonObject, i: nat)
    requires i < |obj.members|
    ensures Size(obj.members[i].1) < Size(obj)
  {
    var ms := obj.members;
    var sizes := seq(|ms|, k requires 0 <= k < |ms| => Size(ms[k].1));
    SumSizesBound(sizes, i);
  }

  /** Every element of an array is smaller than the array. */
  lemma ItemSmaller(arr: JsonArray, i: nat)
    requires i < |arr.items|
    ensures Size(arr.items[i]) < Size(arr)
  {
    var items := arr.items;
    var sizes := seq(|items|, k requires 0 <= k < |items| => Size(items[k]));
    SumSizesBound(sizes, i);
  }

  // ---------------------------------------------------------------------
  // JSONObject accessors

  /** `keys()`: the member names in insertion order. */
  function Keys(obj: JsonObject): (ks: seq<string>)
    ensures |ks| == |obj.members|
    ensures forall i | 0 <= i < |ks| :: ks[i] == obj.members[i].0
  {
    seq(|obj.members|, i requires 0 <= i < |obj.members| => obj.members[i].0)
  }

  /** Position of the member named `key` (the first one, should the name repeat). */
  function IndexOf(ms: seq<(string, Json)>, key: string): (r: Option<nat>)
    ensures r.Some? ==> r.value < |ms| && ms[r.value].0 == key
    ensures r.Some? ==> forall k | 0 <= k < r.value :: ms[k].0 != key
    ensures r.None? ==> forall k | 0 <= k < |ms| :: ms[k].0 != key
  {
    if ms == [] then None
    else if ms[0].0 == key then Some(0)
    else match IndexOf(ms[1..], key)
      case None => None
      case Some(k) => Some(k + 1)
  }

  /** `opt(key)`: the value stored under `key`, if any (JSONObject.NULL included). */
  function Opt(obj: JsonObject, key: string): (r: Option<Json>)
    ensures r.Some? <==> key in Keys(obj)
    ensures r.Some? ==> Size(r.value) < Size(obj)
  {
    match IndexOf(obj.members, key)
    case None => None
    case Some(k) =>
      MemberSmaller(obj, k);
      assert Keys(obj)[k] == key;
      Some(obj.members[k].1)
  }

  /** `has(key)`. */
  predicate Has(obj: JsonObject, key: string)
  {
    Opt(obj, key).Some?
  }

  /** `get(key)`: throws when there is no such member. */
  function Get(obj: JsonObject, key: string): (r: Result<Json>)
    ensures r.Success? <==> Has(obj, key)
    ensures r.Success? ==> Opt(obj, key) == Some(r.value)
    ensures r.Failure? ==> r.error.JSONException?
  {
    match Opt(obj, key)
    case None => Failure(JSONException("No value for " + key))
    case Some(v) => Success(v)
  }

  /** `isNull(key)`: true when the member is missing or holds JSONObject.NULL. */
  predicate IsNull(obj: JsonObject, key: string)
  {
    Opt(obj, key).None? || Opt(obj, key) == Some(JNull)
  }

  /** `optJSONObject(key)`: the member when it is an object. */
  function OptJSONObject(obj: JsonObject, key: string): (r: Option<JsonObject>)
    ensures r.Some? <==> Opt(obj, key).Some? && Opt(obj, key).value.JObject?
    ensures r.Some? ==> Opt(obj, key) == Some(r.value) && Size(r.value) < Size(obj)
  {
    match Opt(obj, key)
    case Some(v) => if v.JObject? then Some(v) else None
    case None => None
  }

  /** `optJSONArray(key)`: the member when it is an array. */
  function OptJSONArray(obj: JsonObject, key: string): (r: Option<JsonArray>)
    ensures r.Some? <==> Opt(obj, key).Some? && Opt(obj, key).value.JArray?
    ensures r.Some? ==> Opt(obj, key) == Some(r.value) && Size(r.value) < Size(obj)
  {
    match Opt(obj, key)
    case Some(v) => if v.JArray? then Some(v) else None
    case None => None
  }

  /** `getJSONArray(key)`: throws when the member is missing or not an array. */
  function GetJSONArray(obj: JsonObject, key: string): (r: Result<JsonArray>)
    ensures r.Success? <==> OptJSONArray(obj, key).Some?
    ensures r.Success? ==> OptJSONArray(obj, key) == Some(r.value)
    ensures r.Failure? ==> r.error.JSONException?
  {
    match OptJSONArray(obj, key)
    case Some(a) => Success(a)
    case None => Failure(JSONException("Value at " + key + " is not a JSONArray"))
  }

  // ---------------------------------------------------------------------
  // JSONArray accessors

  function Length(arr: JsonArray): nat
  {
    |arr.items|
  }

  /** `get(index)`: throws when the index is out of range. */
  function ArrayGet(arr: JsonArray, index: int): (r: Result<Json>)
    ensures r.Success? <==> 0 <= index < Length(arr)
    ensures r.Success? ==> r.value == arr.items[index] && Size(r.value) < Size(arr)
    ensures r.Failure? ==> r.error.JSONException?
  {
    if 0 <= index < |arr.items| then
      ItemSmaller(arr, index);
      Success(arr.items[index])
    else
      Failure(JSONException("Index out of range"))
  }

  /** `getJSONObject(index)`: throws when the index is out of range or the
      element is not an object. */
  function GetJSONObjectAt(arr: JsonArray, index: int): (r: Result<JsonObject>)
    ensures r.Success? <==> 0 <= index < Length(arr) && arr.items[index].JObject?
    ensures r.Success? ==> r.value == arr.items[index] && Size(r.value) < Size(arr)
    ensures r.Failure? ==> r.error.JSONException?
  {
    var v :- ArrayGet(arr, index);
    if v.JObject? then Success(v) else Failure(JSONException("Value is not a JSONObject"))
  }

  // ---------------------------------------------------------------------
  // Coercions of a member value, as org.json's typed getters apply them

  /** Integer value of a numeric string, when it is an optionally signed run of
      digits (the integer subset of what `Double.parseDouble` accepts). */
  function NumericString(s: string): Option<int>
  {
    ParseDecimal(s)
  }

  /** The coercion behind `getInt`: ints as they are, longs wrapped to 32 bits,
      doubles and numeric strings truncated and clamped. */
  function AsInt(v: Json): (r: Option<Int32>)
    ensures v.JInt? ==> r == Some(v.i)
    ensures v.JLong? ==> r == Some(WrapInt32(v.l))
    ensures v.JDouble? ==> r == Some(SaturateInt32(v.r.truncated))
    ensures (v.JObject? || v.JArray? || v.JBool? || v.JNull?) ==> r.None?
  {
    match v
    case JInt(i) => Some(i)
    case JLong(l) => Some(WrapInt32(l))
    case JDouble(d) => Some(SaturateInt32(d.truncated))
    case JString(s) =>
      (match NumericString(s)
       case Some(n) => Some(SaturateInt32(n))
       case None => None)
    case _ => None
  }

  /** The coercion behind `getLong`. */
  function AsLong(v: Json): (r: Option<Int64>)
    ensures v.JInt? ==> r == Some(v.i)
    ensures v.JLong? ==> r == Some(v.l)
    ensures v.JDouble? ==> r == Some(SaturateInt64(v.r.truncated))
    ensures (v.JObject? || v.JArray? || v.JBool? || v.JNull?) ==> r.None?
  {
    match v
    case JInt(i) => Some(i)
    case JLong(l) => Some(l)
    case JDouble(d) => Some(SaturateInt64(d.truncated))
    case JString(s) =>
      (match NumericString(s)
       case Some(n) => Some(SaturateInt64(n))
       case None => None)
    case _ => None
  }

  function AsciiLower(c: char): char
  {
    if 'A' <= c <= 'Z' then (c as int + 32) as char else c
  }

  predicate EqualsIgnoreCase(s: string, t: string)
  {
    |s| == |t| && forall i | 0 <= i < |s| :: AsciiLower(s[i]) == AsciiLower(t[i])
  }

  /** The coercion behind `getBoolean`: booleans, and the strings "true" and
      "false" in any letter case. */
  function AsBoolean(v: Json): (r: Option<bool>)
    ensures v.JBool? ==> r == Some(v.b)
    ensures r.Some? ==> v.JBool? || v.JString?
  {
    match v
    case JBool(b) => Some(b)
    case JString(s) =>
      if EqualsIgnoreCase(s, "true") then Some(true)
      else if EqualsIgnoreCase(s, "false") then Some(false)
      else None
    case _ => None
  }

  /** The floating-point reading of an integer, as `Double.toString` writes it
      for integers of moderate size. */
  function IntegralReal(n: int): Real
  {
    Real(DecimalText(n) + ".0", n)
  }

  /** The coercion behind `getDouble`. */
  function AsDouble(v: Json): (r: Option<Real>)
    ensures v.JDouble? ==> r == Some(v.r)
    ensures (v.JObject? || v.JArray? || v.JBool? || v.JNull?) ==> r.None?
  {
    match v
    case JDouble(d) => Some(d)
    case JInt(i) => Some(IntegralReal(i))
    case JLong(l) => Some(IntegralReal(l))
    case JString(s) =>
      (match NumericString(s)
       case Some(n) => Some(IntegralReal(n))
       case None => None)
    case _ => None
  }

  function Mismatch<T>(key: string, wanted: string): Result<T>
  {
    Failure(JSONException("Value at " + key + " cannot be converted to " + wanted))
  }

  function GetInt(obj: JsonObject, key: string): (r: Result<Int32>)
    ensures r.Success? <==> Has(obj, key) && AsInt(Opt(obj, key).value).Some?
    ensures r.Success? ==> r.value == AsInt(Opt(obj, key).value).value
    ensures r.Failure? ==> r.error.JSONException?
  {
    var v :- Get(obj, key);
    match AsInt(v)
    case Some(i) => Success(i)
    case None => Mismatch(key, "int")
  }

  function GetLong(obj: JsonObject, key: string): (r: Result<Int64>)
    ensures r.Success? <==> Has(obj, key) && AsLong(Opt(obj, key).value).Some?
    ensures r.Success? ==> r.value == AsLong(Opt(obj, key).value).value
    ensures r.Failure? ==> r.error.JSONException?
  {
    var v :- Get(obj, key);
    match AsLong(v)
    case Some(l) => Success(l)
    case None => Mismatch(key, "long")
  }

  function GetBoolean(obj: JsonObject, key: string): (r: Result<bool>)
    ensures r.Success? <==> Has(obj, key) && AsBoolean(Opt(obj, key).value).Some?
    ensures r.Success? ==> r.value == AsBoolean(Opt(obj, key).value).value
    ensures r.Failure? ==> r.error.JSONException?
  {
    var v :- Get(obj, key);
    match AsBoolean(v)
    case Some(b) => Success(b)
    case None => Mismatch(key, "boolean")
  }

  function GetDouble(obj: JsonObject, key: string): (r: Result<Real>)
    ensures r.Success? <==> Has(obj, key) && AsDouble(Opt(obj, key).value).Some?
    ensures r.Success? ==> r.value == AsDouble(Opt(obj, key).value).value
    ensures r.Failure? ==> r.error.JSONException?
  {
    var v :- Get(obj, key);
    match AsDouble(v)
    case Some(d) => Success(d)
    case None => Mismatch(key, "double")
  }

  /** `getString`: any present member, as its text. */
  function GetString(obj: JsonObject, key: string): (r: Result<string>)
    ensures r.Success? <==> Has(obj, key)
    ensures r.Success? ==> r.value == ToText(Opt(obj, key).value)
  {
    var v :- Get(obj, key);
    Success(ToText(v))
  }

  // ---------------------------------------------------------------------
  // Text forms

  /** `toString()` of a member value: strings are their own text, JSON NULL
      reads "null", numbers their decimal text, containers their JSON text. */
  function ToText(j: Json): (s: string)
    ensures j.JString? ==> s == j.s
    ensures j.JInt? ==> s == DecimalText(j.i)
    ensures j.JLong? ==> s == DecimalText(j.l)
  {
    match j
    case JString(s) => s
    case JNull => "null"
    case JInt(i) => DecimalText(i)
    case JLong(l) => DecimalText(l)
    case JDouble(d) => d.text
    case JBool(b) => if b then "true" else "false"
    case _ => Serialize(j)
  }

  function HexDigit(d: nat): char
    requires d < 16
  {
    "0123456789abcdef"[d]
  }

  /** One character inside a quoted JSON string. */
  function EscapeChar(c: char): string
  {
    if c == '"' || c == '\\' || c == '/' then ['\\', c]
    else if c == '\t' then "\\t"
    else if c == '\U{0008}' then "\\b"
    else if c == '\n' then "\\n"
    else if c == '\r' then "\\r"
    else if c == '\U{000C}' then "\\f"
    else if c as int <= 0x1F then "\\u00" + [HexDigit(c as int / 16), HexDigit(c as int % 16)]
    else [c]
  }

  function Escape(s: string): string
  {
    if s == [] then "" else EscapeChar(s[0]) + Escape(s[1..])
  }

  function Quote(s: string): string
  {
    "\"" + Escape(s) + "\""
  }

  function JoinWithCommas(parts: seq<string>): string
  {
    if parts == [] then ""
    else if |parts| == 1 then parts[0]
    else parts[0] + "," + JoinWithCommas(parts[1..])
  }

  /** The compact JSON text of a value. */
  function Serialize(j: Json): string
  {
    match j
    case JObject(ms) =>
      "{" + JoinWithCommas(seq(|ms|, i requires 0 <= i < |ms| => Quote(ms[i].0) + ":" + Serialize(ms[i].1))) + "}"
    case JArray(items) =>
      "[" + JoinWithCommas(seq(|items|, i requires 0 <= i < |items| => Serialize(items[i]))) + "]"
    case JString(s) => Quote(s)
    case JNull => "null"
    case JInt(i) => DecimalText(i)
    case JLong(l) => DecimalText(l)
    case JDouble(d) => d.text
    case JBool(b) => if b then "true" else "false"
  }

  /** A string member holding the decimal text of a long reads back as that
      long through `getLong`, and through `getInt` when it fits an int. The
      string goes through a double, so this holds for magnitudes up to 2^53,
      which a double represents exactly. */
  lemma NumericStringCoercion(obj: JsonObject, key: string, n: Int64)
    requires -0x20_0000_0000_0000 <= n <= 0x20_0000_0000_0000
    requires Opt(obj, key) == Some(JString(DecimalText(n)))
    ensures GetLong(obj, key) == Success(n)
    ensures -0x8000_0000 <= n < 0x8000_0000 ==> GetInt(obj, key) == Success(n)
  {
    ParseDecimalText(n);
  }
}
