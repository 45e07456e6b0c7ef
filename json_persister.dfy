/** The Kotlin JSON persister (JsonPersister.kt) as the object it is: every
    write goes through the database handle, statement by statement, and each
    method is proved to leave what the matching function of JsonPersisterSpec
    describes. */
module JsonPersisterWriter {
  import opened Wrappers
  import opened JavaInts
  import opened JsonModel
  import opened Values
  import opened Metadata
  import opened FieldAnnotations
  import opened Store
  import opened ContentValuesExt
  import opened Databases
  import opened JsonPersisterSpec
  import FieldLookup
  import JsonUtils
  import QueryUtils
  import LegacyQueryUtils
  import PoetrySpec
  import Options
  import PoetryWriter

  /** The outcome of the key loop's body, with the contents and the state it
      leaves. */
  function KeysOutcome(r: Result<(Option<IdDescriptor>, seq<Mapping>)>, db: Db, values: map<string, Value>): Result<(Db, KeyState)>
  {
    match r
    case Success((id, mappings)) => Success((db, KeyState(values, id, mappings)))
    case Failure(e) => Failure(e)
  }

  /** `createInClause(targetIds, targetIdArgs)` on a fresh argument array of
      the ids' size: the arguments it leaves there. */
  method InClauseArgs(targetIds: seq<ObjectId>) returns (r: Result<seq<string>>)
    ensures r == PoetrySpec.InClauseArgs(targetIds)
  {
    var targetIdArgs := new Option<string>[|targetIds|](_ => None);
    var inClause := LegacyQueryUtils.CreateInClause(targetIds, targetIdArgs);
    if inClause.Failure? {
      return Failure(inClause.error);
    }
    assert QueryUtils.FirstUnsupported(targetIds).None?;
    var filled := targetIdArgs[..];
    assert forall k | 0 <= k < |filled| :: filled[k] == targetIdArgs[k];
    var args := LegacyQueryUtils.Unwrapped(filled);
    forall k | 0 <= k < |targetIds|
      ensures args[k] == QueryUtils.ArgumentTexts(targetIds)[k]
    {
      LegacyQueryUtils.ParseAttributeGenerationsAgree(targetIds[k]);
    }
    assert args == QueryUtils.ArgumentTexts(targetIds);
    return Success(args);
  }

  class JsonPersister {
    const database: Database
    const env: PoetrySpec.Env

    /** `JsonPersister(database, options)`; `schema` stands for the model
        classes the persister reflects on. */
    constructor (database: Database, schema: Schema, options: bv32)
      ensures this.database == database && env == PoetrySpec.Env(schema, options)
    {
      this.database := database;
      env := PoetrySpec.Env(schema, options);
    }

    /** `persistObject(modelClass, jsonObject)`: the object's id, written in
        one transaction; outside any other transaction a failure leaves the
        contents as they were. */
    method PersistObject(t: JType, obj: JsonObject) returns (r: Result<ObjectId>)
      modifies database
      ensures var s := JsonPersisterSpec.PersistObjectInternal(env, old(database.state), t, obj);
        (r.Success? <==> s.Success?) && (s.Success? ==> r.value == s.value.1) && (s.Failure? ==> r.error == s.error)
      ensures var s := JsonPersisterSpec.PersistObjectInternal(env, old(database.state), t, obj);
        old(database.levels) == [] ==>
          database.levels == [] && database.state == if s.Success? then s.value.0 else old(database.state)
    {
      database.BeginTransaction();
      var written := PersistObjectInternal(t, obj);
      r := database.FinishTransaction(written);
    }

    /** `persistArray(modelClass, jsonArray)`: the ids of the elements, in
        order, written in one transaction. */
    method PersistArray(t: JType, arr: JsonArray) returns (r: Result<seq<ObjectId>>)
      modifies database
      ensures var s := JsonPersisterSpec.PersistArrayFrom(env, old(database.state), t, arr, 0);
        (r.Success? <==> s.Success?) && (s.Success? ==> r.value == s.value.1) && (s.Failure? ==> r.error == s.error)
      ensures var s := JsonPersisterSpec.PersistArrayFrom(env, old(database.state), t, arr, 0);
        old(database.levels) == [] ==>
          database.levels == [] && database.state == if s.Success? then s.value.0 else old(database.state)
    {
      database.BeginTransaction();
      var written := PersistArrayOfObjects(t, arr);
      r := database.FinishTransaction(written);
    }

    /** `persistArray(modelClass, jsonArray)` with the iterator as written: a
        non-empty array always ends in an exception, and outside any other
        transaction the rows written before it are rolled back. */
    method PersistArrayAsWritten(t: JType, arr: JsonArray) returns (r: Result<seq<ObjectId>>)
      modifies database
      ensures var s := JsonPersisterSpec.PersistArrayAsWrittenFrom(env, old(database.state), t, arr, 0);
        (r.Success? <==> s.Success?) && (s.Success? ==> r.value == s.value.1) && (s.Failure? ==> r.error == s.error)
      ensures |arr.items| > 0 ==> r.Failure?
      ensures old(database.levels) == [] && |arr.items| > 0 ==>
        database.levels == [] && database.state == old(database.state)
    {
      if |arr.items| > 0 {
        JsonPersisterSpec.PersistArrayAsWrittenFails(env, database.state, t, arr, 0);
      }
      database.BeginTransaction();
      var written := PersistArrayOfObjectsAsWritten(t, arr);
      r := database.FinishTransaction(written);
    }

    /** `persistArrayOfObjects` driven by `JsonArrayJsonObjectIterator` as
        written: `hasNext()`, `next()`, then the object is persisted. */
    method PersistArrayOfObjectsAsWritten(t: JType, arr: JsonArray) returns (r: Result<seq<ObjectId>>)
      modifies database`state
      ensures Outcome(r, database.state) == JsonPersisterSpec.PersistArrayAsWrittenFrom(env, old(database.state), t, arr, 0)
    {
      var it := new JsonUtils.JsonArrayJsonObjectIterator(arr);
      var ids: seq<ObjectId> := [];
      PoetryWriter.PrependNothing(JsonPersisterSpec.PersistArrayAsWrittenFrom(env, database.state, t, arr, 0));
      while it.HasNext()
        invariant fresh(it) && it.jsonArray == arr && 0 <= it.currentIndex <= |arr.items|
        invariant JsonPersisterSpec.PersistArrayAsWrittenFrom(env, old(database.state), t, arr, 0) ==
          PoetrySpec.PrependAll(ids, JsonPersisterSpec.PersistArrayAsWrittenFrom(env, database.state, t, arr, it.currentIndex))
        decreases |arr.items| - it.currentIndex
      {
        var id := PersistNextAsWritten(t, arr, it);
        if id.Failure? {
          return Failure(id.error);
        }
        PoetryWriter.PrependAllTwice(ids, [id.value], JsonPersisterSpec.PersistArrayAsWrittenFrom(env, database.state, t, arr, it.currentIndex));
        ids := ids + [id.value];
      }
      assert ids + [] == ids;
      return Success(ids);
    }

    /** One round of that loop: `next()` fetches the element after the
        current index, which is then persisted. */
    method PersistNextAsWritten(t: JType, arr: JsonArray, it: JsonUtils.JsonArrayJsonObjectIterator) returns (r: Result<ObjectId>)
      requires it.jsonArray == arr && 0 <= it.currentIndex < |arr.items|
      modifies database`state, it
      ensures it.currentIndex == old(it.currentIndex) + 1
      ensures JsonPersisterSpec.PersistArrayAsWrittenFrom(env, old(database.state), t, arr, old(it.currentIndex)) ==
        match r
        case Failure(e) => Failure(e)
        case Success(id) => PoetrySpec.PrependAll([id], JsonPersisterSpec.PersistArrayAsWrittenFrom(env, database.state, t, arr, it.currentIndex))
    {
      JsonPersisterSpec.PersistArrayAsWrittenStep(env, database.state, t, arr, it.currentIndex);
      var obj := it.Next();
      if obj.Failure? {
        return Failure(obj.error);
      }
      r := PersistObjectInternal(t, obj.value);
    }

    /** `persistObjectInternal(modelClass, jsonObject)`. */
    method PersistObjectInternal(t: JType, obj: JsonObject) returns (r: Result<ObjectId>)
      modifies database`state
      ensures Outcome(r, database.state) == JsonPersisterSpec.PersistObjectInternal(env, old(database.state), t, obj)
      decreases Size(obj), 4
    {
      var tableName :- TableNameOrThrow(env.schema, t);
      var values := new ContentValues();
      var keys :- ProcessKeys(t, tableName, obj, values);
      var idDescriptor :- ResolveId(tableName, t, keys.0);
      if values.Size() > 0 {
        var changed :- database.Update(tableName, values, ColumnEquals(idDescriptor.columnName, Text(idDescriptor.id)));
      }
      var related :- ProcessMappings(t, obj, keys.1, idDescriptor.id);
      return Success(idDescriptor.id);
    }

    /** The key loop: every key of the object, in order. */
    method ProcessKeys(t: JType, tableName: string, obj: JsonObject, values: ContentValues)
        returns (r: Result<(Option<IdDescriptor>, seq<Mapping>)>)
      modifies database`state, values
      ensures KeysOutcome(r, database.state, values.values) ==
        JsonPersisterSpec.ProcessKeys(env, old(database.state), t, tableName, obj, 0, KeyState(old(values.values), None, []))
      decreases Size(obj), 3
    {
      var id: Option<IdDescriptor> := None;
      var mappings: seq<Mapping> := [];
      var i := 0;
      while i < |Keys(obj)|
        invariant 0 <= i <= |Keys(obj)|
        invariant JsonPersisterSpec.ProcessKeys(env, old(database.state), t, tableName, obj, 0, KeyState(old(values.values), None, [])) ==
          JsonPersisterSpec.ProcessKeys(env, database.state, t, tableName, obj, i, KeyState(values.values, id, mappings))
      {
        var next := ProcessKeyAt(t, tableName, obj, i, values, id, mappings);
        if next.Failure? {
          return Failure(next.error);
        }
        id, mappings := next.value.0, next.value.1;
        i := i + 1;
      }
      return Success((id, mappings));
    }

    /** One turn of the key loop; the rest of the keys continue from the
        contents and the state it leaves. */
    method ProcessKeyAt(t: JType, tableName: string, obj: JsonObject, i: nat, values: ContentValues,
                        id: Option<IdDescriptor>, mappings: seq<Mapping>) returns (r: Result<(Option<IdDescriptor>, seq<Mapping>)>)
      requires i < |Keys(obj)|
      modifies database`state, values
      ensures JsonPersisterSpec.ProcessKeys(env, old(database.state), t, tableName, obj, i, KeyState(old(values.values), id, mappings)) ==
        match r
        case Failure(e) => Failure(e)
        case Success((id', mappings')) =>
          JsonPersisterSpec.ProcessKeys(env, database.state, t, tableName, obj, i + 1, KeyState(values.values, id', mappings'))
      decreases Size(obj), 2, 1
    {
      JsonPersisterSpec.ProcessKeysStep(env, database.state, t, tableName, obj, i, KeyState(values.values, id, mappings));
      r := ProcessKey(t, tableName, obj, Keys(obj)[i], values, id, mappings);
    }

    /** The body of the key loop: an id member makes the row, another column
        member goes into `values`, a foreign collection is kept for later. */
    method ProcessKey(t: JType, tableName: string, obj: JsonObject, key: string, values: ContentValues,
                      id: Option<IdDescriptor>, mappings: seq<Mapping>) returns (r: Result<(Option<IdDescriptor>, seq<Mapping>)>)
      requires key in Keys(obj)
      modifies database`state, values
      ensures KeysOutcome(r, database.state, values.values) ==
        JsonPersisterSpec.ProcessKey(env, old(database.state), t, tableName, obj, key, KeyState(old(values.values), id, mappings))
      decreases Size(obj), 2, 0
    {
      match FieldLookup.FindField(env.schema, t, key) {
        case None =>
          return Success((id, mappings));
        case Some(field) =>
          match DatabaseFieldOf(field) {
            case Some(databaseField) =>
              if IsId(databaseField) {
                if id.Some? {
                  return Failure(JSONException("Trying to set id twice"));
                }
                var created :- CreateRowIfNotExists(obj, key, field, databaseField, tableName);
                return Success((Some(created), mappings));
              }
              var processed :- ProcessDatabaseField(databaseField, field, obj, key, values);
              return Success((id, mappings));
            case None =>
              if FieldAnnotation(field, ForeignCollectionFieldType).None? {
                return Success((id, mappings));
              }
              match OptJSONArray(obj, key) {
                case None =>
                  return Success((id, mappings));
                case Some(jsonArray) =>
                  return Success((id, mappings + [Mapping(field, jsonArray)]));
              }
          }
      }
    }

    /** `createRowIfNotExists(jsonObject, jsonKey, field, databaseField, tableName)`. */
    method CreateRowIfNotExists(obj: JsonObject, key: string, field: Field, df: DatabaseFieldInfo, tableName: string)
        returns (r: Result<IdDescriptor>)
      modifies database`state
      ensures Outcome(r, database.state) == JsonPersisterSpec.CreateRowIfNotExists(old(database.state), obj, key, field, df, tableName)
    {
      var id :- JsonUtils.GetValue(obj, key, field.fieldType);
      var idColumnName := ColumnNameForField(field, df);
      var created :- database.CreateRowIfNotExists(tableName, idColumnName, id);
      return Success(IdDescriptor(idColumnName, id));
    }

    /** `processDatabaseField(databaseField, field, jsonParentObject, jsonKey, modelClass, values)`. */
    method ProcessDatabaseField(df: DatabaseFieldInfo, field: Field, obj: JsonObject, key: string, values: ContentValues)
        returns (r: Result<()>)
      requires key in Keys(obj)
      modifies database`state, values
      ensures var s := JsonPersisterSpec.ProcessDatabaseField(env, old(database.state), df, field, obj, key, old(values.values));
        (r.Success? <==> s.Success?) &&
        (s.Success? ==> s.value == (database.state, values.values)) &&
        (s.Failure? ==> r.error == s.error)
      decreases Size(obj), 1
    {
      var dbFieldName := ColumnNameForField(field, df);
      if IsNull(obj, key) {
        values.PutNull(dbFieldName);
        return Success(());
      }
      if IsForeign(df) {
        match OptJSONObject(obj, key) {
          case Some(foreignObject) =>
            var foreignObjectId :- PersistObjectInternal(field.fieldType, foreignObject);
            r := values.PutOrThrow(dbFieldName, foreignObjectId);
          case None =>
            var foreignObjectIdField :- FindIdFieldOrThrow(env.schema, field.fieldType);
            var foreignObjectId :- JsonUtils.GetValue(obj, key, foreignObjectIdField.fieldType);
            r := values.PutOrThrow(dbFieldName, foreignObjectId);
        }
      } else {
        // an unsupported member is passed over with a warning
        var copied := JsonUtils.CopyContentValue(obj, key, values, dbFieldName);
        r := Success(());
      }
    }

    /** The id from the key loop, else `insertRowFromModelClass(tableName, modelClass)`. */
    method ResolveId(tableName: string, t: JType, id: Option<IdDescriptor>) returns (r: Result<IdDescriptor>)
      modifies database`state
      ensures Outcome(r, database.state) == JsonPersisterSpec.ResolveId(env, old(database.state), tableName, t, id)
    {
      if id.Some? {
        return Success(id.value);
      }
      match FindIdField(env.schema, t) {
        case None =>
          return Failure(SQLiteException("class doesn't have a DatabaseField that is marked as being an ID"));
        case Some(idField) =>
          var idInfo :- DatabaseFieldNotNull(idField);
          var idColumnName := ColumnNameForField(idField, idInfo);
          var empty := new ContentValues();
          var insertedId :- database.InsertOrThrow(tableName, empty, Some(idColumnName));
          return Success(IdDescriptor(idColumnName, LongV(insertedId)));
      }
    }

    /** `foreignCollectionMappings.forEach { ... }`. */
    method ProcessMappings(t: JType, obj: JsonObject, mappings: seq<Mapping>, parentId: ObjectId) returns (r: Result<()>)
      requires MappingsWithin(obj, mappings)
      modifies database`state
      ensures PoetryWriter.Done(r, database.state) == JsonPersisterSpec.ProcessMappings(env, old(database.state), t, obj, mappings, 0, parentId)
      decreases Size(obj), 2, |mappings|
    {
      var i := 0;
      while i < |mappings|
        invariant 0 <= i <= |mappings|
        invariant JsonPersisterSpec.ProcessMappings(env, old(database.state), t, obj, mappings, 0, parentId) ==
          JsonPersisterSpec.ProcessMappings(env, database.state, t, obj, mappings, i, parentId)
      {
        var done :- ProcessMappingAt(t, obj, mappings, i, parentId);
        i := i + 1;
      }
      return Success(());
    }

    /** The mapping at `i`, leaving the contents the rest continue from. */
    method ProcessMappingAt(t: JType, obj: JsonObject, mappings: seq<Mapping>, i: nat, parentId: ObjectId) returns (r: Result<()>)
      requires i < |mappings| && MappingsWithin(obj, mappings)
      modifies database`state
      ensures r.Failure? ==>
        JsonPersisterSpec.ProcessMappings(env, old(database.state), t, obj, mappings, i, parentId) == Failure(r.error)
      ensures r.Success? ==>
        JsonPersisterSpec.ProcessMappings(env, old(database.state), t, obj, mappings, i, parentId) ==
        JsonPersisterSpec.ProcessMappings(env, database.state, t, obj, mappings, i + 1, parentId)
      decreases Size(obj), 1
    {
      assert mappings[i] in mappings;
      JsonPersisterSpec.MappingsStep(env, database.state, t, obj, mappings, i, parentId);
      r := ProcessMapping(t, mappings[i], parentId);
    }

    /** One mapping: through a junction table with a `@ManyToManyField`,
        else one-to-many. */
    method ProcessMapping(t: JType, m: Mapping, parentId: ObjectId) returns (r: Result<()>)
      modifies database`state
      ensures PoetryWriter.Done(r, database.state) == JsonPersisterSpec.ProcessMapping(env, old(database.state), t, m, parentId)
      decreases Size(m.jsonArray), 8
    {
      match FieldAnnotation(m.field, ManyToManyFieldType) {
        case Some(manyToManyField) =>
          r := ProcessManyToMany(manyToManyField.targetType, m, parentId, t);
        case None =>
          r := ProcessManyToOne(m, parentId, t);
      }
    }

    /** `persistArrayOfObjects(modelClass, jsonArray)`, reading the elements
        in order. */
    method PersistArrayOfObjects(t: JType, arr: JsonArray) returns (r: Result<seq<ObjectId>>)
      modifies database`state
      ensures Outcome(r, database.state) == JsonPersisterSpec.PersistArrayFrom(env, old(database.state), t, arr, 0)
      decreases Size(arr), 5, |arr.items| + 1
    {
      var ids: seq<ObjectId> := [];
      var i := 0;
      PoetryWriter.PrependNothing(JsonPersisterSpec.PersistArrayFrom(env, database.state, t, arr, 0));
      while i < |arr.items|
        invariant 0 <= i <= |arr.items|
        invariant JsonPersisterSpec.PersistArrayFrom(env, old(database.state), t, arr, 0) ==
          PoetrySpec.PrependAll(ids, JsonPersisterSpec.PersistArrayFrom(env, database.state, t, arr, i))
      {
        var id := PersistElement(t, arr, i);
        if id.Failure? {
          assert PoetrySpec.PrependAll(ids, Failure(id.error)) == Failure(id.error);
          return Failure(id.error);
        }
        PoetryWriter.PrependAllTwice(ids, [id.value], JsonPersisterSpec.PersistArrayFrom(env, database.state, t, arr, i + 1));
        ids := ids + [id.value];
        i := i + 1;
      }
      assert JsonPersisterSpec.PersistArrayFrom(env, database.state, t, arr, i) == Success((database.state, []));
      assert ids + [] == ids;
      return Success(ids);
    }

    /** One element of `persistArrayOfObjects`. */
    method PersistElement(t: JType, arr: JsonArray, i: nat) returns (r: Result<ObjectId>)
      requires i < |arr.items|
      modifies database`state
      ensures JsonPersisterSpec.PersistArrayFrom(env, old(database.state), t, arr, i) ==
        match r
        case Failure(e) => Failure(e)
        case Success(id) => PoetrySpec.PrependAll([id], JsonPersisterSpec.PersistArrayFrom(env, database.state, t, arr, i + 1))
      decreases Size(arr), 5, |arr.items| - i
    {
      JsonPersisterSpec.PersistArrayStep(env, database.state, t, arr, i);
      var obj := GetJSONObjectAt(arr, i);
      if obj.Failure? {
        return Failure(obj.error);
      }
      r := PersistObjectInternal(t, obj.value);
    }

    /** `persistArrayOfBaseTypes(modelClass, jsonArray, singleTargetField)`. */
    method PersistArrayOfBaseTypes(t: JType, arr: JsonArray, targetField: string) returns (r: Result<seq<ObjectId>>)
      modifies database`state
      ensures Outcome(r, database.state) == JsonPersisterSpec.PersistArrayOfBaseTypes(env, old(database.state), t, arr, targetField)
    {
      var tableName :- TableNameOrThrow(env.schema, t);
      var ids :- InsertBaseValues(tableName, targetField, arr.items);
      return Success(ids);
    }

    /** The loop of `persistArrayOfBaseTypes`: one row per element, and the
        rowids in order. */
    method InsertBaseValues(tableName: string, targetField: string, items: seq<Json>) returns (r: Result<seq<Value>>)
      modifies database`state
      ensures Outcome(r, database.state) == PoetrySpec.InsertBaseValues(old(database.state), tableName, targetField, items, 0)
    {
      var ids: seq<Value> := [];
      var i := 0;
      PoetryWriter.PrependNothing(PoetrySpec.InsertBaseValues(database.state, tableName, targetField, items, 0));
      while i < |items|
        invariant 0 <= i <= |items|
        invariant PoetrySpec.InsertBaseValues(old(database.state), tableName, targetField, items, 0) ==
          PoetrySpec.PrependAll(ids, PoetrySpec.InsertBaseValues(database.state, tableName, targetField, items, i))
      {
        var id := InsertBaseValue(tableName, targetField, items, i);
        if id.Failure? {
          return Failure(id.error);
        }
        PoetryWriter.PrependAllTwice(ids, [LongV(id.value)], PoetrySpec.InsertBaseValues(database.state, tableName, targetField, items, i + 1));
        ids := ids + [LongV(id.value)];
        i := i + 1;
      }
      assert ids + [] == ids;
      return Success(ids);
    }

    /** One element of `persistArrayOfBaseTypes`: its text in a fresh
        ContentValues, inserted with the target column as the null-column
        hack. */
    method InsertBaseValue(tableName: string, targetField: string, items: seq<Json>, i: nat) returns (r: Result<Int64>)
      requires i < |items|
      modifies database`state
      ensures PoetrySpec.InsertBaseValues(old(database.state), tableName, targetField, items, i) ==
        match r
        case Failure(e) => Failure(e)
        case Success(id) => PoetrySpec.PrependAll([LongV(id)], PoetrySpec.InsertBaseValues(database.state, tableName, targetField, items, i + 1))
    {
      PoetrySpec.InsertBaseStep(database.state, tableName, targetField, items, i);
      var values := new ContentValues();
      values.PutString(targetField, ToText(items[i]));
      assert values.values == map[targetField := CharSeqV(ToText(items[i]))];
      r := database.InsertOrThrow(tableName, values, Some(targetField));
    }

    /** `processManyToMany(manyToManyField, mapping, parentId, parentClass)`. */
    method ProcessManyToMany(targetType: JType, m: Mapping, parentId: ObjectId, parentClass: JType) returns (r: Result<()>)
      modifies database`state
      ensures PoetryWriter.Done(r, database.state) == JsonPersisterSpec.ProcessManyToMany(env, old(database.state), targetType, m, parentId, parentClass)
      decreases Size(m.jsonArray), 7
    {
      JsonPersisterSpec.ManyToManyStep(env, database.state, targetType, m, parentId, parentClass);
      var fields :- JunctionFields(env, targetType, m.field, parentClass);
      r := PersistJunction(fields.0, fields.1, fields.2, m.jsonArray, parentId);
    }

    /** The writes of `processManyToMany`: the targets, then the junction
        rows. */
    method PersistJunction(targetClass: JType, targetForeignField: Field, targetTargetField: Field, arr: JsonArray, parentId: ObjectId)
        returns (r: Result<()>)
      modifies database`state
      ensures PoetryWriter.Done(r, database.state) ==
        JsonPersisterSpec.PersistJunction(env, old(database.state), targetClass, targetForeignField, targetTargetField, arr, parentId)
      decreases Size(arr), 6
    {
      var targetTargetIds :- PersistArrayOfObjects(targetTargetField.fieldType, arr);
      r := ReplaceJunction(targetClass, targetForeignField, targetTargetField, targetTargetIds, parentId);
    }

    /** The rest of `processManyToMany`: the `delete` of the parent's junction
        rows and one `insertOrThrow` per target. */
    method ReplaceJunction(targetClass: JType, targetForeignField: Field, targetTargetField: Field,
                           targetTargetIds: seq<ObjectId>, parentId: ObjectId) returns (r: Result<()>)
      modifies database`state
      ensures PoetryWriter.Done(r, database.state) ==
        JsonPersisterSpec.ReplaceJunction(env, old(database.state), targetClass, targetForeignField, targetTargetField, targetTargetIds, parentId)
    {
      var cleared :- ClearJunction(targetClass, targetForeignField, targetTargetField, targetTargetIds, parentId);
      var (targetTableName, targetForeignFieldName) := cleared;
      var targetInfo :- DatabaseFieldNotNull(targetTargetField);
      var targetTargetFieldName := ColumnNameForField(targetTargetField, targetInfo);
      r := InsertJunctionRows(targetTableName, targetForeignFieldName, parentId, targetTargetFieldName, targetTargetIds);
    }

    /** The parent's junction rows are deleted; the junction table and its
        foreign column are returned. */
    method ClearJunction(targetClass: JType, targetForeignField: Field, targetTargetField: Field,
                         targetTargetIds: seq<ObjectId>, parentId: ObjectId) returns (r: Result<(string, string)>)
      modifies database`state
      ensures r.Failure? ==>
        JsonPersisterSpec.ReplaceJunction(env, old(database.state), targetClass, targetForeignField, targetTargetField, targetTargetIds, parentId)
        == Failure(r.error)
      ensures r.Success? ==>
        var clear := PoetrySpec.JunctionClear(env, targetClass, targetForeignField, parentId);
        clear.Success? && r.value == (clear.value.0, clear.value.1) &&
        Store.Delete(old(database.state), clear.value.0, ColumnEqualsLiteral(clear.value.1, clear.value.2)) == Success(database.state)
    {
      var clear :- PoetrySpec.JunctionClear(env, targetClass, targetForeignField, parentId);
      var (targetTableName, targetForeignFieldName, targetForeignFieldValue) := clear;
      var deleted :- database.Delete(targetTableName, ColumnEqualsLiteral(targetForeignFieldName, targetForeignFieldValue));
      return Success((targetTableName, targetForeignFieldName));
    }

    /** `targetTargetIds.indices.forEach { ... insertOrThrow(...) }`. */
    method InsertJunctionRows(table: string, fkColumn: string, parentId: Value, targetColumn: string, ids: seq<ObjectId>)
        returns (r: Result<()>)
      modifies database`state
      ensures PoetryWriter.Done(r, database.state) ==
        JsonPersisterSpec.InsertJunctionRows(old(database.state), table, fkColumn, parentId, targetColumn, ids, 0)
    {
      var index := 0;
      while index < |ids|
        invariant 0 <= index <= |ids|
        invariant JsonPersisterSpec.InsertJunctionRows(old(database.state), table, fkColumn, parentId, targetColumn, ids, 0) ==
          JsonPersisterSpec.InsertJunctionRows(database.state, table, fkColumn, parentId, targetColumn, ids, index)
      {
        var done :- InsertJunctionRow(table, fkColumn, parentId, targetColumn, ids, index);
        index := index + 1;
      }
      return Success(());
    }

    /** The junction row linking the parent to `ids[index]`. */
    method InsertJunctionRow(table: string, fkColumn: string, parentId: Value, targetColumn: string, ids: seq<ObjectId>, index: nat)
        returns (r: Result<()>)
      requires index < |ids|
      modifies database`state
      ensures r.Failure? ==>
        JsonPersisterSpec.InsertJunctionRows(old(database.state), table, fkColumn, parentId, targetColumn, ids, index) == Failure(r.error)
      ensures r.Success? ==>
        JsonPersisterSpec.InsertJunctionRows(old(database.state), table, fkColumn, parentId, targetColumn, ids, index) ==
        JsonPersisterSpec.InsertJunctionRows(database.state, table, fkColumn, parentId, targetColumn, ids, index + 1)
    {
      JsonPersisterSpec.JunctionRowsStep(database.state, table, fkColumn, parentId, targetColumn, ids, index);
      var values := new ContentValues();
      var put :- values.PutOrThrow(fkColumn, parentId);
      var stored :- values.PutOrThrow(targetColumn, ids[index]);
      var rowid :- database.InsertOrThrow(table, values, None);
      return Success(());
    }

    /** `processManyToOne(mapping, parentId, parentClass)`: the children are
        written, then linked to the parent. */
    method ProcessManyToOne(m: Mapping, parentId: ObjectId, parentClass: JType) returns (r: Result<()>)
      modifies database`state
      ensures PoetryWriter.Done(r, database.state) == JsonPersisterSpec.ProcessManyToOne(env, old(database.state), m, parentId, parentClass)
      decreases Size(m.jsonArray), 7
    {
      var fields :- ChildFields(env, m.field, parentClass);
      var (targetClass, targetIdField, targetForeignField) := fields;
      var targetIds :- PersistChildren(m, targetClass);
      r := LinkChildren(targetIds, targetClass, targetIdField, targetForeignField, parentId);
    }

    /** The children of `processManyToOne`, as objects or, with a
        `@ForeignCollectionFieldSingleTarget`, as base values. */
    method PersistChildren(m: Mapping, targetClass: JType) returns (r: Result<seq<ObjectId>>)
      modifies database`state
      ensures Outcome(r, database.state) == JsonPersisterSpec.PersistChildren(env, old(database.state), m, targetClass)
      decreases Size(m.jsonArray), 6
    {
      match FieldAnnotation(m.field, SingleTargetType) {
        case None =>
          r := PersistArrayOfObjects(targetClass, m.jsonArray);
        case Some(singleTargetField) =>
          r := PersistArrayOfBaseTypes(targetClass, m.jsonArray, singleTargetField.targetField);
      }
    }

    /** The children's foreign column, and the ContentValues that sets it
        to the parent id. */
    method ForeignColumn(targetForeignField: Field, parentId: ObjectId) returns (r: Result<string>, values: ContentValues)
      ensures fresh(values)
      ensures r.Success? <==> JsonPersisterSpec.ForeignColumn(targetForeignField, parentId).Success?
      ensures r.Success? ==> JsonPersisterSpec.ForeignColumn(targetForeignField, parentId).value == (r.value, values.values)
      ensures r.Failure? ==> JsonPersisterSpec.ForeignColumn(targetForeignField, parentId).error == r.error
    {
      values := new ContentValues();
      var foreignInfo := DatabaseFieldNotNull(targetForeignField);
      if foreignInfo.Failure? {
        return Failure(foreignInfo.error), values;
      }
      var targetForeignFieldName := ColumnNameForField(targetForeignField, foreignInfo.value);
      var put := values.PutOrThrow(targetForeignFieldName, parentId);
      if put.Failure? {
        return Failure(put.error), values;
      }
      r := Success(targetForeignFieldName);
    }

    /** The lookups of `processManyToOne` before its statements, with the
        ContentValues that carries the parent id. */
    method PlanLink(targetIds: seq<ObjectId>, targetClass: JType, targetIdField: Field, targetForeignField: Field, parentId: ObjectId)
        returns (r: Result<PoetrySpec.LinkPlan>, values: ContentValues)
      ensures r == JsonPersisterSpec.PlanLink(env, targetIds, targetClass, targetIdField, targetForeignField, parentId)
      ensures fresh(values) && (r.Success? ==> values.values == r.value.values)
    {
      var fkColumn;
      fkColumn, values := ForeignColumn(targetForeignField, parentId);
      if fkColumn.Failure? {
        return Failure(fkColumn.error), values;
      }
      var query := TargetQuery(targetIds, targetClass, targetIdField);
      if query.Failure? {
        return Failure(query.error), values;
      }
      var (args, targetTableName, targetIdFieldName) := query.value;
      r := Success(PoetrySpec.LinkPlan(targetTableName, fkColumn.value, values.values, targetIdFieldName, args));
    }

    /** The IN clause over the children's ids, their table and their id
        column. */
    method TargetQuery(targetIds: seq<ObjectId>, targetClass: JType, targetIdField: Field) returns (r: Result<(seq<string>, string, string)>)
      ensures r == PoetrySpec.TargetQuery(env, targetIds, targetClass, targetIdField)
    {
      var args :- InClauseArgs(targetIds);
      var targetTableName :- TableNameOrThrow(env.schema, targetClass);
      var targetIdFieldName :- ColumnNameForFieldOrThrow(targetIdField);
      return Success((args, targetTableName, targetIdFieldName));
    }

    /** The rest of `processManyToOne`: the update of the children's foreign
        column and, unless disabled, the cleanup. */
    method LinkChildren(targetIds: seq<ObjectId>, targetClass: JType, targetIdField: Field, targetForeignField: Field, parentId: ObjectId)
        returns (r: Result<()>)
      modifies database`state
      ensures PoetryWriter.Done(r, database.state) ==
        JsonPersisterSpec.LinkChildren(env, old(database.state), targetIds, targetClass, targetIdField, targetForeignField, parentId)
    {
      var plan, values := PlanLink(targetIds, targetClass, targetIdField, targetForeignField, parentId);
      if plan.Failure? {
        return Failure(plan.error);
      }
      r := LinkTargets(plan.value.table, plan.value.fkColumn, parentId, values, plan.value.idColumn, plan.value.args,
                       !Options.IsEnabled(env.options, Options.DISABLE_FOREIGN_COLLECTION_CLEANUP));
    }

    /** The `update` of the listed children and the optional cleanup. */
    method LinkTargets(table: string, fkColumn: string, parentId: Value, values: ContentValues,
                       idColumn: string, args: seq<string>, cleanup: bool) returns (r: Result<()>)
      modifies database`state
      ensures PoetryWriter.Done(r, database.state) ==
        PoetrySpec.LinkTargets(old(database.state), table, fkColumn, parentId, values.values, idColumn, args, cleanup)
    {
      var updated :- database.Update(table, values, ColumnIn(idColumn, args));
      if cleanup {
        var idToCleanUp :- QueryUtils.ParseAttribute(parentId);
        var deleted :- database.Delete(table, And(ColumnNotIn(idColumn, args), ColumnEqualsLiteral(fkColumn, idToCleanUp)));
      }
      return Success(());
    }
  }
}
