/** Android's ContentValues buffer and the `put` / `putOrThrow` extensions
    (internal/database/ContentValuesExtensions.kt) that copy an arbitrary value
    into it by its runtime class. */
module ContentValuesExt {
  import opened Wrappers
  import opened Values

  /** What `put(key, value)` stores for `value`, or None when the class is not
      supported and `put` answers false. Boxed numbers and booleans are stored
      as they are, CharSequences and Dates as their text, null as SQL NULL. */
  function Stored(v: Value): (r: Option<Value>)
    ensures r.Some? <==> !v.OtherV?
    ensures v.DateV? ==> r == Some(CharSeqV(v.text))
    ensures !v.DateV? && !v.OtherV? ==> r == Some(v)
  {
    match v
    case OtherV(_, _) => None
    case DateV(t) => Some(CharSeqV(t))
    case _ => Some(v)
  }

  /** A value read back out of a ContentValues is stored again unchanged, so
      copying one buffer into another loses nothing. */
  lemma StoredIdempotent(v: Value)
    requires Stored(v).Some?
    ensures Stored(Stored(v).value) == Stored(v)
  {
  }

  /** The buffer contents after `put(key, value)` and the answer it gives. */
  function PutResult(values: map<string, Value>, key: string, v: Value): (r: (bool, map<string, Value>))
    ensures r.0 <==> Stored(v).Some?
    ensures r.0 ==> key in r.1 && r.1[key] == Stored(v).value
    ensures forall k | k != key :: (k in r.1 <==> k in values) && (k in values ==> r.1[k] == values[k])
    ensures !r.0 ==> r.1 == values
  {
    match Stored(v)
    case Some(s) => (true, values[key := s])
    case None => (false, values)
  }

  /** The exception `putOrThrow` throws for a value of an unsupported class. */
  function UnsupportedType(key: string, className: string): (e: Exception)
    ensures e.RuntimeException?
  {
    RuntimeException("failed to copy value from key \"" + key + "\" because the type " + className + " is not supported")
  }

  class ContentValues {
    var values: map<string, Value>

    constructor()
      ensures values == map[]
    {
      values := map[];
    }

    function Size(): nat
      reads this
    {
      |values|
    }

    method PutNull(key: string)
      modifies this
      ensures values == old(values)[key := Null]
    {
      values := values[key := Null];
    }

    /** ContentValues' own `put(String, String)`. */
    method PutString(key: string, s: string)
      modifies this
      ensures values == old(values)[key := CharSeqV(s)]
    {
      values := values[key := CharSeqV(s)];
    }

    /** The `put(key, Any?)` extension: stores the value when its class is
        supported and says whether it did. */
    method Put(key: string, v: Value) returns (ok: bool)
      modifies this
      ensures (ok, values) == PutResult(old(values), key, v)
    {
      match v {
        case Null =>
          PutNull(key);
        case OtherV(_, _) =>
          return false;
        case DateV(t) =>
          PutString(key, t);
        case _ =>
          values := values[key := v];
      }
      return true;
    }

    /** `putOrThrow`: `put`, turning an unsupported class into an exception. */
    method PutOrThrow(key: string, v: Value) returns (r: Result<()>)
      modifies this
      ensures r.Success? <==> Stored(v).Some?
      ensures r.Failure? ==> v.OtherV? && r.error == UnsupportedType(key, v.className)
      ensures values == PutResult(old(values), key, v).1
    {
      var ok := Put(key, v);
      if !ok {
        return Failure(UnsupportedType(key, v.className));
      }
      return Success(());
    }
  }
}
