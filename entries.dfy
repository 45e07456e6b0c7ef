/** The classification of a JSON member against the model field it maps to
    (internal/Entry.kt, internal/JsonKeyAndFieldToEntry.kt), and the key
    pipeline that builds the entries of one JSON object. */
module Entries {
  import opened Wrappers
  import opened JsonModel
  import opened Metadata
  import FieldLookup

  /** A JSON key together with the field it was matched to. */
  datatype JsonKeyAndField = JsonKeyAndField(jsonKey: string, field: Field)

  /** What a JSON member is for the persister. */
  datatype Entry =
      /** a column value, an id or a one-to-one reference */
    | FieldEntry(field: Field, jsonKey: string, databaseField: DatabaseFieldInfo)
      /** a many-to-many collection, with the target type of its junction */
    | ManyToManyEntry(field: Field, jsonKey: string, jsonArray: JsonArray, targetType: JType)
      /** a one-to-many collection */
    | ManyToOneEntry(field: Field, jsonKey: string, jsonArray: JsonArray)
      /** a field the persister does not handle */
    | Invalid(field: Field, jsonKey: string)
  {
    /** `Entry.modelClass`: the class that declares the field. */
    function ModelClass(): ClassId
    {
      field.declaringClass
    }
  }

  /** `hasAnnotation(field, type)`: `findAnnotation` found one. */
  predicate HasAnnotation(f: Field, t: AnnotationType)
  {
    FieldAnnotation(f, t).Some?
  }

  /** `JsonKeyAndField.toEntry(parentJsonObject, ...)`. */
  function ToEntry(kf: JsonKeyAndField, parent: JsonObject): (r: Result<Entry>)
    ensures r.Success? ==> r.value.field == kf.field && r.value.jsonKey == kf.jsonKey
    ensures DatabaseFieldOf(kf.field).Some? ==> r == Success(FieldEntry(kf.field, kf.jsonKey, DatabaseFieldOf(kf.field).value))
    ensures DatabaseFieldOf(kf.field).None? && HasAnnotation(kf.field, ForeignCollectionFieldType) ==>
      (r.Success? <==> OptJSONArray(parent, kf.jsonKey).Some?) &&
      (r.Failure? ==> r.error.JSONException?) &&
      (r.Success? ==> r.value.ManyToManyEntry? == HasAnnotation(kf.field, ManyToManyFieldType) &&
                      r.value.ManyToOneEntry? == !HasAnnotation(kf.field, ManyToManyFieldType) &&
                      r.value.jsonArray == OptJSONArray(parent, kf.jsonKey).value)
    ensures DatabaseFieldOf(kf.field).None? && !HasAnnotation(kf.field, ForeignCollectionFieldType) ==>
      r == Success(Invalid(kf.field, kf.jsonKey))
  {
    var field := kf.field;
    var jsonKey := kf.jsonKey;
    match DatabaseFieldOf(field)
    case Some(databaseField) => Success(FieldEntry(field, jsonKey, databaseField))
    case None =>
      if HasAnnotation(field, ForeignCollectionFieldType) then
        match OptJSONArray(parent, jsonKey)
        case None =>
          Failure(JSONException("There was a recoverable JSON error: Mapping " + field.name + " was null."))
        case Some(jsonArray) =>
          match FieldAnnotation(field, ManyToManyFieldType)
          case Some(manyToManyField) => Success(ManyToManyEntry(field, jsonKey, jsonArray, manyToManyField.targetType))
          case None => Success(ManyToOneEntry(field, jsonKey, jsonArray))
      else
        Success(Invalid(field, jsonKey))
  }

  /** The collections an entry carries are members of the object it came
      from, so they are smaller than it: what makes the persister's recursion
      end. */
  predicate EntryOf(obj: JsonObject, e: Entry)
  {
    e.jsonKey in Keys(obj) &&
    ((e.ManyToManyEntry? || e.ManyToOneEntry?) ==> Size(e.jsonArray) < Size(obj))
  }

  lemma ToEntryIsEntryOf(kf: JsonKeyAndField, parent: JsonObject)
    requires kf.jsonKey in Keys(parent)
    ensures ToEntry(kf, parent).Success? ==> EntryOf(parent, ToEntry(kf, parent).value)
  {
  }

  /** `jsonKeyAndFieldOf(jsonKey, modelClass)`: the key with the field it
      answers to, or nothing for a key no field takes. */
  function JsonKeyAndFieldOf(schema: Schema, jsonKey: string, modelClass: JType): (r: Option<JsonKeyAndField>)
    ensures r.Some? <==> FieldLookup.FindField(schema, modelClass, jsonKey).Some?
    ensures r.Some? ==> r.value == JsonKeyAndField(jsonKey, FieldLookup.FindField(schema, modelClass, jsonKey).value)
  {
    match FieldLookup.FindField(schema, modelClass, jsonKey)
    case None => None
    case Some(field) => Some(JsonKeyAndField(jsonKey, field))
  }

  /** The entries of keys `keys[i..]`, in key order: keys no field takes are
      dropped, the first failing classification aborts. */
  function EntriesFrom(schema: Schema, modelClass: JType, obj: JsonObject, keys: seq<string>, i: nat): (r: Result<seq<Entry>>)
    requires i <= |keys|
    requires forall k | 0 <= k < |keys| :: keys[k] in Keys(obj)
    ensures r.Success? ==> forall e | e in r.value :: EntryOf(obj, e)
    ensures r.Success? ==> forall e | e in r.value :: FieldLookup.FindField(schema, modelClass, e.jsonKey) == Some(e.field)
    ensures r.Success? ==> |r.value| <= |keys| - i
    ensures r.Failure? ==> r.error.JSONException?
    decreases |keys| - i
  {
    if i == |keys| then Success([])
    else
      match JsonKeyAndFieldOf(schema, keys[i], modelClass)
      case None => EntriesFrom(schema, modelClass, obj, keys, i + 1)
      case Some(kf) =>
        ToEntryIsEntryOf(kf, obj);
        var e :- ToEntry(kf, obj);
        var rest :- EntriesFrom(schema, modelClass, obj, keys, i + 1);
        Success([e] + rest)
  }

  /** The entries of an object: `keys().mapNotNull { jsonKeyAndFieldOf }
      .map { toEntry }.toList()`. */
  function EntriesOf(schema: Schema, modelClass: JType, obj: JsonObject): (r: Result<seq<Entry>>)
    ensures r.Success? ==> forall e | e in r.value :: EntryOf(obj, e)
    ensures r.Success? ==> forall e | e in r.value :: FieldLookup.FindField(schema, modelClass, e.jsonKey) == Some(e.field)
    ensures r.Failure? ==> r.error.JSONException?
  {
    EntriesFrom(schema, modelClass, obj, Keys(obj), 0)
  }

  /** A key that no field takes contributes no entry. */
  lemma IgnoredKeysContributeNothing(schema: Schema, modelClass: JType, obj: JsonObject, key: string)
    requires FieldLookup.FindField(schema, modelClass, key).None?
    ensures EntriesOf(schema, modelClass, obj).Success? ==>
      forall e | e in EntriesOf(schema, modelClass, obj).value :: e.jsonKey != key
  {
  }

  /** Every key that a field takes yields its entry, classified by `ToEntry`. */
  lemma {:induction false} MatchedKeysYieldEntries(schema: Schema, modelClass: JType, obj: JsonObject, keys: seq<string>, i: nat, k: nat)
    requires i <= k < |keys|
    requires forall j | 0 <= j < |keys| :: keys[j] in Keys(obj)
    requires JsonKeyAndFieldOf(schema, keys[k], modelClass).Some?
    ensures EntriesFrom(schema, modelClass, obj, keys, i).Success? ==>
      ToEntry(JsonKeyAndFieldOf(schema, keys[k], modelClass).value, obj).Success? &&
      ToEntry(JsonKeyAndFieldOf(schema, keys[k], modelClass).value, obj).value in EntriesFrom(schema, modelClass, obj, keys, i).value
    decreases k - i
  {
    var r := EntriesFrom(schema, modelClass, obj, keys, i);
    if r.Success? {
      var rest := EntriesFrom(schema, modelClass, obj, keys, i + 1);
      var kf := JsonKeyAndFieldOf(schema, keys[i], modelClass);
      if kf.None? {
        assert r == rest;
        MatchedKeysYieldEntries(schema, modelClass, obj, keys, i + 1, k);
      } else {
        var e := ToEntry(kf.value, obj);
        assert e.Success? && rest.Success? && r.value == [e.value] + rest.value;
        if k > i {
          MatchedKeysYieldEntries(schema, modelClass, obj, keys, i + 1, k);
          var target := ToEntry(JsonKeyAndFieldOf(schema, keys[k], modelClass).value, obj).value;
          assert target in rest.value;
          assert r.value[1..] == rest.value;
        } else {
          assert r.value[0] == e.value;
        }
      }
    }
  }

  /** The column entries, in order. */
  function FieldEntries(entries: seq<Entry>): (r: seq<Entry>)
    ensures forall e | e in r :: e.FieldEntry? && e in entries
    ensures forall e | e in entries && e.FieldEntry? :: e in r
  {
    if entries == [] then []
    else (if entries[0].FieldEntry? then [entries[0]] else []) + FieldEntries(entries[1..])
  }
}
