/** The runtime values (Java `Any?`) that travel from JSON into ContentValues,
    query arguments and returned ids. */
module Values {
  import opened JavaInts
  import opened Decimal
  import opened JsonModel

  datatype Value =
    | Null
    | IntV(i: Int32)
    | LongV(l: Int64)
    | ShortV(sval: Int16)
    | ByteV(bval: Int8)
    | BoolV(b: bool)
    | FloatV(f: Real)
    | DoubleV(d: Real)
      /** a String or any other CharSequence */
    | CharSeqV(s: string)
      /** a java.util.Date, by the text its toString gives */
    | DateV(text: string)
      /** an instance of any other class, with its toString text */
    | OtherV(className: string, text: string)

  /** A persisted object's id: whatever type it has, it is never null. */
  type ObjectId = v: Value | !v.Null? witness LongV(0)

  /** The object `JSONObject.get` hands back for a member value. */
  function FromJson(j: Json): (v: Value)
    ensures j.JString? ==> v == CharSeqV(j.s)
    ensures j.JInt? ==> v == IntV(j.i)
    ensures j.JLong? ==> v == LongV(j.l)
    ensures (j.JObject? || j.JArray? || j.JNull?) ==> v.OtherV?
  {
    match j
    case JObject(_) => OtherV("org.json.JSONObject", Serialize(j))
    case JArray(_) => OtherV("org.json.JSONArray", Serialize(j))
    case JNull => OtherV("org.json.JSONObject$1", "null")
    case JInt(i) => IntV(i)
    case JLong(l) => LongV(l)
    case JDouble(d) => DoubleV(d)
    case JBool(b) => BoolV(b)
    case JString(s) => CharSeqV(s)
  }

  /** `toString()` (Kotlin's, so a null reads "null"). */
  function Text(v: Value): string
  {
    match v
    case Null => "null"
    case IntV(i) => DecimalText(i)
    case LongV(l) => DecimalText(l)
    case ShortV(s) => DecimalText(s)
    case ByteV(b) => DecimalText(b)
    case BoolV(b) => if b then "true" else "false"
    case FloatV(f) => f.text
    case DoubleV(d) => d.text
    case CharSeqV(s) => s
    case DateV(t) => t
    case OtherV(_, t) => t
  }

  /** The text of a JSON member value is the text of the object `get` returns. */
  lemma TextOfFromJson(j: Json)
    ensures Text(FromJson(j)) == ToText(j)
  {
  }
}
