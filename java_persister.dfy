/** The Java JSON persister (json/JsonPersister.java) as the object it is:
    every write goes through the database handle, statement by statement,
    and each method is proved to leave what the matching function of
    JavaPersisterSpec describes. */
module JavaPersisterWriter {
  import opened Wrappers
  import opened JavaInts
  import opened JsonModel
  import opened Values
  import opened Metadata
  import opened Store
  import opened ContentValuesExt
  import opened Databases
  import opened JavaPersisterSpec
  import FieldLookup
  import OrmliteReflection
  import LegacyJsonUtils
  import LegacyQueryUtils
  import PoetrySpec
  import Options
  import PoetryWriter
  import JsonPersisterSpec
  import JsonPersisterWriter

  /** The outcome of the key loop's body, with the contents and the state it
      leaves. */
  function KeysOutcome(r: Result<(Option<IdDescriptor>, seq<Mapping>)>, db: Db, values: map<string, Value>): Result<(Db, KeyState)>
  {
    match r
    case Success((id, mappings)) => Success((db, KeyState(values, id, mappings)))
    case Failure(e) => Failure(e)
  }

  class JsonPersister {
    const database: Database
    const env: PoetrySpec.Env

    /** `JsonPersister(database, options)`; `schema` stands for the model
        classes the persister reflects on. */
    constructor (database: Database, schema: Schema, options: bv32)
      ensures this.database == database && env == PoetrySpec.Env(schema, options)
    {
      this.database := database;
      env := PoetrySpec.Env(schema, options);
    }

    /** `persistObject(modelClass, jsonObject)`: the object's id, written in
        one transaction; outside any other transaction a failure leaves the
        contents as they were. */
    method PersistObject(t: JType, obj: JsonObject) returns (r: Result<ObjectId>)
      modifies database
      ensures var s := JavaPersisterSpec.PersistObjectInternal(env, old(database.state), t, obj);
        (r.Success? <==> s.Success?) && (s.Success? ==> r.value == s.value.1) && (s.Failure? ==> r.error == s.error)
      ensures var s := JavaPersisterSpec.PersistObjectInternal(env, old(database.state), t, obj);
        old(database.levels) == [] ==>
          database.levels == [] && database.state == if s.Success? then s.value.0 else old(database.state)
    {
      database.BeginTransaction();
      var written := PersistObjectInternal(t, obj);
      r := database.FinishTransaction(written);
    }

    /** `persistArray(modelClass, jsonArray)`: the ids of the elements, in
        order, written in one transaction. */
    method PersistArray(t: JType, arr: JsonArray) returns (r: Result<seq<ObjectId>>)
      modifies database
      ensures var s := JavaPersisterSpec.PersistArrayFrom(env, old(database.state), t, arr, 0);
        (r.Success? <==> s.Success?) && (s.Success? ==> r.value == s.value.1) && (s.Failure? ==> r.error == s.error)
      ensures var s := JavaPersisterSpec.PersistArrayFrom(env, old(database.state), t, arr, 0);
        old(database.levels) == [] ==>
          database.levels == [] && database.state == if s.Success? then s.value.0 else old(database.state)
    {
      database.BeginTransaction();
      var written := PersistArrayOfObjects(t, arr);
      r := database.FinishTransaction(written);
    }

    /** `persistObjectInternal(modelClass, jsonObject)`. */
    method PersistObjectInternal(t: JType, obj: JsonObject) returns (r: Result<ObjectId>)
      modifies database`state
      ensures Outcome(r, database.state) == JavaPersisterSpec.PersistObjectInternal(env, old(database.state), t, obj)
      decreases Size(obj), 4
    {
      var tableName :- OrmliteReflection.TableNameOrThrow(env.schema, t);
      var values := new ContentValues();
      var keys :- ProcessKeys(t, tableName, obj, values);
      var idDescriptor :- ResolveId(tableName, t, keys.0);
      if values.Size() > 0 {
        var changed :- database.Update(tableName, values, ColumnEquals(idDescriptor.columnName, Text(idDescriptor.id)));
      }
      var related :- ProcessMappings(t, obj, keys.1, idDescriptor.id);
      return Success(idDescriptor.id);
    }

    /** `while (json_keys.hasNext()) { ... }`: every key of the object, in
        order. */
    method ProcessKeys(t: JType, tableName: string, obj: JsonObject, values: ContentValues)
        returns (r: Result<(Option<IdDescriptor>, seq<Mapping>)>)
      modifies database`state, values
      ensures KeysOutcome(r, database.state, values.values) ==
        JavaPersisterSpec.ProcessKeys(env, old(database.state), t, tableName, obj, 0, KeyState(old(values.values), None, []))
      decreases Size(obj), 3
    {
      var id: Option<IdDescriptor> := None;
      var mappings: seq<Mapping> := [];
      var i := 0;
      while i < |Keys(obj)|
        invariant 0 <= i <= |Keys(obj)|
        invariant JavaPersisterSpec.ProcessKeys(env, old(database.state), t, tableName, obj, 0, KeyState(old(values.values), None, [])) ==
          JavaPersisterSpec.ProcessKeys(env, database.state, t, tableName, obj, i, KeyState(values.values, id, mappings))
      {
        var next := ProcessKeyAt(t, tableName, obj, i, values, id, mappings);
        if next.Failure? {
          return Failure(next.error);
        }
        id, mappings := next.value.0, next.value.1;
        i := i + 1;
      }
      return Success((id, mappings));
    }

    /** One turn of the key loop; the rest of the keys continue from the
        contents and the state it leaves. */
    method ProcessKeyAt(t: JType, tableName: string, obj: JsonObject, i: nat, values: ContentValues,
                        id: Option<IdDescriptor>, mappings: seq<Mapping>) returns (r: Result<(Option<IdDescriptor>, seq<Mapping>)>)
      requires i < |Keys(obj)|
      modifies database`state, values
      ensures JavaPersisterSpec.ProcessKeys(env, old(database.state), t, tableName, obj, i, KeyState(old(values.values), id, mappings)) ==
        match r
        case Failure(e) => Failure(e)
        case Success((id', mappings')) =>
          JavaPersisterSpec.ProcessKeys(env, database.state, t, tableName, obj, i + 1, KeyState(values.values, id', mappings'))
      decreases Size(obj), 2, 1
    {
      JavaPersisterSpec.ProcessKeysStep(env, database.state, t, tableName, obj, i, KeyState(values.values, id, mappings));
      r := ProcessKey(t, tableName, obj, Keys(obj)[i], values, id, mappings);
    }

    /** The body of the key loop: an id member makes the row and becomes the
        id, another column member goes into `values`, a foreign collection is
        kept for later, null or not. */
    method ProcessKey(t: JType, tableName: string, obj: JsonObject, key: string, values: ContentValues,
                      id: Option<IdDescriptor>, mappings: seq<Mapping>) returns (r: Result<(Option<IdDescriptor>, seq<Mapping>)>)
      requires key in Keys(obj)
      modifies database`state, values
      ensures KeysOutcome(r, database.state, values.values) ==
        JavaPersisterSpec.ProcessKey(env, old(database.state), t, tableName, obj, key, KeyState(old(values.values), id, mappings))
      decreases Size(obj), 2, 0
    {
      match FieldLookup.FindField(env.schema, t, key) {
        case None =>
          return Success((id, mappings));
        case Some(field) =>
          match DatabaseFieldOf(field) {
            case Some(databaseField) =>
              if OrmliteReflection.IsId(databaseField) {
                var objectId :- ProcessIdField(databaseField, field, obj, key, tableName);
                var idFieldName := OrmliteReflection.FieldName(field, databaseField);
                return Success((Some(JsonPersisterSpec.IdDescriptor(idFieldName, objectId)), mappings));
              }
              var processed :- ProcessDatabaseField(databaseField, field, obj, key, values);
              return Success((id, mappings));
            case None =>
              if FieldAnnotation(field, ForeignCollectionFieldType).None? {
                return Success((id, mappings));
              }
              if IsNull(obj, key) {
                return Success((id, mappings + [Mapping(field, None)]));
              }
              var jsonArray :- GetJSONArray(obj, key);
              return Success((id, mappings + [Mapping(field, Some(jsonArray))]));
          }
      }
    }

    /** `processIdField(databaseField, field, jsonObject, jsonKey, tableName)`:
        looks the id up and, when no row holds it, inserts one. */
    method ProcessIdField(df: DatabaseFieldInfo, field: Field, obj: JsonObject, key: string, tableName: string)
        returns (r: Result<ObjectId>)
      modifies database`state
      ensures Outcome(r, database.state) == JavaPersisterSpec.ProcessIdField(old(database.state), df, field, obj, key, tableName)
    {
      var dbFieldName := OrmliteReflection.FieldName(field, df);
      var got :- LegacyJsonUtils.GetValue(obj, key, field.fieldType);
      if got.None? {
        return Failure(RuntimeException("failed to get a value from JSON with key " + key));
      }
      var objectId: ObjectId := got.value;
      var objectExists :- database.HasRow(tableName, dbFieldName, Text(objectId));
      if objectExists {
        return Success(objectId);
      }
      var values := new ContentValues();
      var copied := LegacyJsonUtils.CopyValue(objectId, dbFieldName, values);
      if !copied {
        return Failure(JSONException("failed to process id field " + field.name + " for table " + tableName));
      }
      var insertedId := database.Insert(tableName, values, None);
      if insertedId == -1 {
        return Failure(SQLiteException("failed to insert " + tableName + " with id " + dbFieldName));
      }
      return Success(objectId);
    }

    /** `processDatabaseField(databaseField, field, jsonParentObject, jsonKey, modelClass, values)`. */
    method ProcessDatabaseField(df: DatabaseFieldInfo, field: Field, obj: JsonObject, key: string, values: ContentValues)
        returns (r: Result<()>)
      requires key in Keys(obj)
      modifies database`state, values
      ensures var s := JavaPersisterSpec.ProcessDatabaseField(env, old(database.state), df, field, obj, key, old(values.values));
        (r.Success? <==> s.Success?) &&
        (s.Success? ==> s.value == (database.state, values.values)) &&
        (s.Failure? ==> r.error == s.error)
      decreases Size(obj), 1
    {
      var dbFieldName := OrmliteReflection.FieldName(field, df);
      if IsNull(obj, key) {
        values.PutNull(dbFieldName);
        return Success(());
      }
      if OrmliteReflection.IsForeign(df) {
        match OptJSONObject(obj, key) {
          case Some(foreignObject) =>
            var foreignObjectId :- PersistObjectInternal(field.fieldType, foreignObject);
            var copied := LegacyJsonUtils.CopyValue(foreignObjectId, dbFieldName, values);
            if !copied {
              return Failure(RuntimeException("failed to copy values for key " + key));
            }
            return Success(());
          case None =>
            var foreignObjectIdField := OrmliteReflection.FindIdField(env.schema, field.fieldType);
            if foreignObjectIdField.None? {
              return Failure(RuntimeException("failed to find id field for foreign object"));
            }
            var got :- LegacyJsonUtils.GetValue(obj, key, foreignObjectIdField.value.fieldType);
            if got.None? {
              return Failure(RuntimeException("incompatible id type for foreign object"));
            }
            var copied := LegacyJsonUtils.CopyValue(got.value, dbFieldName, values);
            if !copied {
              return Failure(RuntimeException("failed to copy values for key " + key));
            }
            return Success(());
        }
      }
      // an unsupported member is passed over with a warning
      var copied := LegacyJsonUtils.CopyContentValue(obj, key, values, dbFieldName);
      return Success(());
    }

    /** The id from the key loop; without one, an empty row is inserted with
        the id column as the null-column hack, and its rowid is the id. */
    method ResolveId(tableName: string, t: JType, id: Option<IdDescriptor>) returns (r: Result<IdDescriptor>)
      modifies database`state
      ensures Outcome(r, database.state) == JavaPersisterSpec.ResolveId(env, old(database.state), tableName, t, id)
    {
      if id.Some? {
        return Success(id.value);
      }
      var idField := OrmliteReflection.FindIdField(env.schema, t);
      if idField.None? {
        return Failure(SQLiteException("class doesn't have a DatabaseField that is marked as being an ID"));
      }
      var idDatabaseField := DatabaseFieldOf(idField.value);
      if idDatabaseField.None? {
        return Failure(NullPointerException("databaseField"));
      }
      var idFieldName := OrmliteReflection.FieldName(idField.value, idDatabaseField.value);
      var empty := new ContentValues();
      var insertedId := database.Insert(tableName, empty, Some(idFieldName));
      if insertedId == -1 {
        return Failure(SQLiteException("failed to insert with id field " + idFieldName));
      }
      return Success(JsonPersisterSpec.IdDescriptor(idFieldName, LongV(insertedId)));
    }

    /** `for (foreign_collection_mapping : foreign_collection_mappings)`. */
    method ProcessMappings(t: JType, obj: JsonObject, mappings: seq<Mapping>, parentId: ObjectId) returns (r: Result<()>)
      requires MappingsWithin(obj, mappings)
      modifies database`state
      ensures PoetryWriter.Done(r, database.state) == JavaPersisterSpec.ProcessMappings(env, old(database.state), t, obj, mappings, 0, parentId)
      decreases Size(obj), 2, |mappings|
    {
      var i := 0;
      while i < |mappings|
        invariant 0 <= i <= |mappings|
        invariant JavaPersisterSpec.ProcessMappings(env, old(database.state), t, obj, mappings, 0, parentId) ==
          JavaPersisterSpec.ProcessMappings(env, database.state, t, obj, mappings, i, parentId)
      {
        assert mappings[i] in mappings;
        JavaPersisterSpec.MappingsStep(env, database.state, t, obj, mappings, i, parentId);
        var done :- ProcessMapping(t, mappings[i], parentId);
        i := i + 1;
      }
      return Success(());
    }

    /** One mapping: through a junction table with a `@ManyToManyField`,
        else one-to-many. */
    method ProcessMapping(t: JType, m: Mapping, parentId: ObjectId) returns (r: Result<()>)
      modifies database`state
      ensures PoetryWriter.Done(r, database.state) == JavaPersisterSpec.ProcessMapping(env, old(database.state), t, m, parentId)
      decreases ArraySize(m.jsonArray), 8
    {
      match FieldAnnotation(m.field, ManyToManyFieldType) {
        case Some(manyToManyField) =>
          r := ProcessManyToMany(manyToManyField.targetType, m, parentId, t);
        case None =>
          r := ProcessManyToOne(m, parentId, t);
      }
    }

    /** `persistArrayOfObjects(modelClass, jsonArray)`, reading the elements
        in order. */
    method PersistArrayOfObjects(t: JType, arr: JsonArray) returns (r: Result<seq<ObjectId>>)
      modifies database`state
      ensures Outcome(r, database.state) == JavaPersisterSpec.PersistArrayFrom(env, old(database.state), t, arr, 0)
      decreases Size(arr), 5, |arr.items| + 1
    {
      var ids: seq<ObjectId> := [];
      var i := 0;
      PoetryWriter.PrependNothing(JavaPersisterSpec.PersistArrayFrom(env, database.state, t, arr, 0));
      while i < |arr.items|
        invariant 0 <= i <= |arr.items|
        invariant JavaPersisterSpec.PersistArrayFrom(env, old(database.state), t, arr, 0) ==
          PoetrySpec.PrependAll(ids, JavaPersisterSpec.PersistArrayFrom(env, database.state, t, arr, i))
      {
        var id := PersistElement(t, arr, i);
        if id.Failure? {
          assert PoetrySpec.PrependAll(ids, Failure(id.error)) == Failure(id.error);
          return Failure(id.error);
        }
        PoetryWriter.PrependAllTwice(ids, [id.value], JavaPersisterSpec.PersistArrayFrom(env, database.state, t, arr, i + 1));
        ids := ids + [id.value];
        i := i + 1;
      }
      assert JavaPersisterSpec.PersistArrayFrom(env, database.state, t, arr, i) == Success((database.state, []));
      assert ids + [] == ids;
      return Success(ids);
    }

    /** One element of `persistArrayOfObjects`. */
    method PersistElement(t: JType, arr: JsonArray, i: nat) returns (r: Result<ObjectId>)
      requires i < |arr.items|
      modifies database`state
      ensures JavaPersisterSpec.PersistArrayFrom(env, old(database.state), t, arr, i) ==
        match r
        case Failure(e) => Failure(e)
        case Success(id) => PoetrySpec.PrependAll([id], JavaPersisterSpec.PersistArrayFrom(env, database.state, t, arr, i + 1))
      decreases Size(arr), 5, |arr.items| - i
    {
      JavaPersisterSpec.PersistArrayStep(env, database.state, t, arr, i);
      var obj := GetJSONObjectAt(arr, i);
      if obj.Failure? {
        return Failure(obj.error);
      }
      r := PersistObjectInternal(t, obj.value);
    }

    /** `persistArrayOfBaseTypes(modelClass, jsonArray, singleTargetField)`. */
    method PersistArrayOfBaseTypes(t: JType, arr: JsonArray, targetField: string) returns (r: Result<seq<ObjectId>>)
      modifies database`state
      ensures Outcome(r, database.state) == JavaPersisterSpec.PersistArrayOfBaseTypes(env, old(database.state), t, arr, targetField)
    {
      var tableName :- OrmliteReflection.TableNameOrThrow(env.schema, t);
      var ids :- InsertBaseRows(tableName, targetField, arr.items);
      return Success(PoetrySpec.LongIds(ids));
    }

    /** The loop of `persistArrayOfBaseTypes`: one row per element, and the
        rowids in order. */
    method InsertBaseRows(tableName: string, targetField: string, items: seq<Json>) returns (r: Result<seq<Int64>>)
      modifies database`state
      ensures Outcome(r, database.state) == JavaPersisterSpec.InsertBaseRows(old(database.state), tableName, targetField, items, 0)
    {
      var ids: seq<Int64> := [];
      var i := 0;
      PoetryWriter.PrependNothing(JavaPersisterSpec.InsertBaseRows(database.state, tableName, targetField, items, 0));
      while i < |items|
        invariant 0 <= i <= |items|
        invariant JavaPersisterSpec.InsertBaseRows(old(database.state), tableName, targetField, items, 0) ==
          PoetrySpec.PrependAll(ids, JavaPersisterSpec.InsertBaseRows(database.state, tableName, targetField, items, i))
      {
        var id := InsertBaseRow(tableName, targetField, items, i);
        if id.Failure? {
          return Failure(id.error);
        }
        PoetryWriter.PrependAllTwice(ids, [id.value], JavaPersisterSpec.InsertBaseRows(database.state, tableName, targetField, items, i + 1));
        ids := ids + [id.value];
        i := i + 1;
      }
      assert ids + [] == ids;
      return Success(ids);
    }

    /** One element of `persistArrayOfBaseTypes`: its text in a fresh
        ContentValues, inserted with the target column as the null-column
        hack; -1 is an SQLiteException. */
    method InsertBaseRow(tableName: string, targetField: string, items: seq<Json>, i: nat) returns (r: Result<Int64>)
      requires i < |items|
      modifies database`state
      ensures JavaPersisterSpec.InsertBaseRows(old(database.state), tableName, targetField, items, i) ==
        match r
        case Failure(e) => Failure(e)
        case Success(id) => PoetrySpec.PrependAll([id], JavaPersisterSpec.InsertBaseRows(database.state, tableName, targetField, items, i + 1))
    {
      JavaPersisterSpec.BaseRowsStep(database.state, tableName, targetField, items, i);
      var values := new ContentValues();
      values.PutString(targetField, ToText(items[i]));
      assert values.values == map[targetField := CharSeqV(ToText(items[i]))];
      var insertedId := database.Insert(tableName, values, Some(targetField));
      if insertedId == -1 {
        return Failure(SQLiteException("failed to insert " + tableName));
      }
      return Success(insertedId);
    }

    /** `processManyToMany(manyToManyField, mapping, parentId, parentClass)`:
        a null array changes nothing. */
    method ProcessManyToMany(targetType: JType, m: Mapping, parentId: ObjectId, parentClass: JType) returns (r: Result<()>)
      modifies database`state
      ensures PoetryWriter.Done(r, database.state) == JavaPersisterSpec.ProcessManyToMany(env, old(database.state), targetType, m, parentId, parentClass)
      decreases ArraySize(m.jsonArray), 7
    {
      if m.jsonArray.None? {
        return Success(());
      }
      JavaPersisterSpec.ManyToManyStep(env, database.state, targetType, m, parentId, parentClass);
      var fields :- JunctionFields(env, targetType, m.field, parentClass);
      r := PersistJunction(fields.0, fields.1, fields.2, m.jsonArray.value, parentId);
    }

    /** The writes of `processManyToMany`: the targets, then the junction
        rows. */
    method PersistJunction(targetClass: JType, targetForeignField: Field, targetTargetField: Field, arr: JsonArray, parentId: ObjectId)
        returns (r: Result<()>)
      modifies database`state
      ensures PoetryWriter.Done(r, database.state) ==
        JavaPersisterSpec.PersistJunction(env, old(database.state), targetClass, targetForeignField, targetTargetField, arr, parentId)
      decreases Size(arr), 6
    {
      var targetTargetIds :- PersistArrayOfObjects(targetTargetField.fieldType, arr);
      r := ReplaceJunction(targetClass, targetForeignField, targetTargetField, targetTargetIds, parentId);
    }

    /** The rest of `processManyToMany`: the `delete` of the parent's junction
        rows, the parent id spliced into the clause, and one `insert` per
        target. */
    method ReplaceJunction(targetClass: JType, targetForeignField: Field, targetTargetField: Field,
                           targetTargetIds: seq<ObjectId>, parentId: ObjectId) returns (r: Result<()>)
      modifies database`state
      ensures PoetryWriter.Done(r, database.state) ==
        JavaPersisterSpec.ReplaceJunction(env, old(database.state), targetClass, targetForeignField, targetTargetField, targetTargetIds, parentId)
    {
      var cleared :- ClearJunction(targetClass, targetForeignField, targetTargetField, targetTargetIds, parentId);
      var (targetTableName, targetForeignFieldName) := cleared;
      var targetTargetFieldName :- ColumnOf(targetTargetField);
      r := InsertJunctionRows(targetTableName, targetForeignFieldName, parentId, targetTargetFieldName, targetTargetIds);
    }

    /** The parent's junction rows are deleted, the parent id spliced into
        the SQL; the junction table and its foreign column are returned. */
    method ClearJunction(targetClass: JType, targetForeignField: Field, targetTargetField: Field,
                         targetTargetIds: seq<ObjectId>, parentId: ObjectId) returns (r: Result<(string, string)>)
      modifies database`state
      ensures r.Failure? ==>
        JavaPersisterSpec.ReplaceJunction(env, old(database.state), targetClass, targetForeignField, targetTargetField, targetTargetIds, parentId)
        == Failure(r.error)
      ensures r.Success? ==>
        OrmliteReflection.TableNameOrThrow(env.schema, targetClass) == Success(r.value.0) &&
        JavaPersisterSpec.ColumnOf(targetForeignField) == Success(r.value.1) &&
        LegacyQueryUtils.ParseAttribute(parentId).Success? &&
        Store.Delete(old(database.state), r.value.0, ColumnEqualsLiteral(r.value.1, LegacyQueryUtils.ParseAttribute(parentId).value))
          == Success(database.state)
    {
      var targetTableName :- OrmliteReflection.TableNameOrThrow(env.schema, targetClass);
      var targetForeignFieldName :- ColumnOf(targetForeignField);
      var parentText :- LegacyQueryUtils.ParseAttribute(parentId);
      var deleted :- database.Delete(targetTableName, ColumnEqualsLiteral(targetForeignFieldName, parentText));
      return Success((targetTableName, targetForeignFieldName));
    }

    /** `for (int i = 0; i < target_target_ids.size(); ++i) { ... }`. */
    method InsertJunctionRows(table: string, fkColumn: string, parentId: ObjectId, targetColumn: string, ids: seq<ObjectId>)
        returns (r: Result<()>)
      modifies database`state
      ensures PoetryWriter.Done(r, database.state) ==
        JavaPersisterSpec.InsertJunctionRows(old(database.state), table, fkColumn, parentId, targetColumn, ids, 0)
    {
      var i := 0;
      while i < |ids|
        invariant 0 <= i <= |ids|
        invariant JavaPersisterSpec.InsertJunctionRows(old(database.state), table, fkColumn, parentId, targetColumn, ids, 0) ==
          JavaPersisterSpec.InsertJunctionRows(database.state, table, fkColumn, parentId, targetColumn, ids, i)
      {
        var done :- InsertJunctionRow(table, fkColumn, parentId, targetColumn, ids, i);
        i := i + 1;
      }
      return Success(());
    }

    /** The junction row linking the parent to `ids[i]`. */
    method InsertJunctionRow(table: string, fkColumn: string, parentId: ObjectId, targetColumn: string, ids: seq<ObjectId>, i: nat)
        returns (r: Result<()>)
      requires i < |ids|
      modifies database`state
      ensures r.Failure? ==>
        JavaPersisterSpec.InsertJunctionRows(old(database.state), table, fkColumn, parentId, targetColumn, ids, i) == Failure(r.error)
      ensures r.Success? ==>
        JavaPersisterSpec.InsertJunctionRows(old(database.state), table, fkColumn, parentId, targetColumn, ids, i) ==
        JavaPersisterSpec.InsertJunctionRows(database.state, table, fkColumn, parentId, targetColumn, ids, i + 1)
    {
      JavaPersisterSpec.JunctionRowsStep(database.state, table, fkColumn, parentId, targetColumn, ids, i);
      var values := new ContentValues();
      var parentCopied := LegacyJsonUtils.CopyValue(parentId, fkColumn, values);
      if !parentCopied {
        return Failure(RuntimeException("parent id copy failed"));
      }
      var targetCopied := LegacyJsonUtils.CopyValue(ids[i], targetColumn, values);
      if !targetCopied {
        return Failure(RuntimeException("target id copy failed"));
      }
      var insertedId := database.Insert(table, values, None);
      if insertedId == -1 {
        return Failure(RuntimeException("failed to insert item in " + table));
      }
      return Success(());
    }

    /** `processManyToOne(mapping, parentId, parentClass)`: a null array
        changes nothing; otherwise the children are written, then linked. */
    method ProcessManyToOne(m: Mapping, parentId: ObjectId, parentClass: JType) returns (r: Result<()>)
      modifies database`state
      ensures PoetryWriter.Done(r, database.state) == JavaPersisterSpec.ProcessManyToOne(env, old(database.state), m, parentId, parentClass)
      decreases ArraySize(m.jsonArray), 7
    {
      if m.jsonArray.None? {
        return Success(());
      }
      var fields :- ChildFields(env, m.field, parentClass);
      var (targetClass, targetIdField, targetForeignField) := fields;
      var targetIds :- PersistChildren(m.field, m.jsonArray.value, targetClass);
      r := LinkChildren(targetIds, targetClass, targetIdField, targetForeignField, parentId);
    }

    /** The children of `processManyToOne`, as objects or, with a
        `@ForeignCollectionFieldSingleTarget`, as base values. */
    method PersistChildren(collectionField: Field, arr: JsonArray, targetClass: JType) returns (r: Result<seq<ObjectId>>)
      modifies database`state
      ensures Outcome(r, database.state) == JavaPersisterSpec.PersistChildren(env, old(database.state), collectionField, arr, targetClass)
      decreases Size(arr), 6
    {
      match FieldAnnotation(collectionField, SingleTargetType) {
        case None =>
          r := PersistArrayOfObjects(targetClass, arr);
        case Some(singleTargetField) =>
          r := PersistArrayOfBaseTypes(targetClass, arr, singleTargetField.targetField);
      }
    }

    /** The lookups of `processManyToOne` before its statements, with the
        ContentValues that carries the parent id. */
    method PlanLink(targetIds: seq<ObjectId>, targetClass: JType, targetIdField: Field, targetForeignField: Field, parentId: ObjectId)
        returns (r: Result<PoetrySpec.LinkPlan>, values: ContentValues)
      ensures r == JavaPersisterSpec.PlanLink(env, targetIds, targetClass, targetIdField, targetForeignField, parentId)
      ensures fresh(values) && (r.Success? ==> values.values == r.value.values)
    {
      var targetForeignFieldName;
      targetForeignFieldName, values := ForeignKey(targetForeignField, parentId);
      if targetForeignFieldName.Failure? {
        return Failure(targetForeignFieldName.error), values;
      }
      var query := TargetQuery(targetIds, targetClass, targetIdField);
      if query.Failure? {
        return Failure(query.error), values;
      }
      var (targetIdArgs, targetTableName, targetIdFieldName) := query.value;
      r := Success(PoetrySpec.LinkPlan(targetTableName, targetForeignFieldName.value, values.values, targetIdFieldName, targetIdArgs));
    }

    /** `createInClause(target_ids, target_id_args)`, then the children's
        table and id column. */
    method TargetQuery(targetIds: seq<ObjectId>, targetClass: JType, targetIdField: Field) returns (r: Result<(seq<string>, string, string)>)
      ensures r == JavaPersisterSpec.TargetQuery(env, targetIds, targetClass, targetIdField)
    {
      var targetIdArgs :- JsonPersisterWriter.InClauseArgs(targetIds);
      var targetTableName :- OrmliteReflection.TableNameOrThrow(env.schema, targetClass);
      var targetIdFieldName :- OrmliteReflection.FieldNameOrThrow(targetIdField);
      return Success((targetIdArgs, targetTableName, targetIdFieldName));
    }

    /** The children's foreign column, and the ContentValues the parent id is
        copied into. */
    method ForeignKey(targetForeignField: Field, parentId: ObjectId) returns (r: Result<string>, values: ContentValues)
      ensures fresh(values)
      ensures var s := JavaPersisterSpec.ForeignKey(targetForeignField, parentId);
        (r.Success? <==> s.Success?) && (s.Success? ==> s.value == (r.value, values.values)) && (s.Failure? ==> r.error == s.error)
    {
      values := new ContentValues();
      var targetForeignFieldName := ColumnOf(targetForeignField);
      if targetForeignFieldName.Failure? {
        return Failure(targetForeignFieldName.error), values;
      }
      var copied := LegacyJsonUtils.CopyValue(parentId, targetForeignFieldName.value, values);
      if !copied {
        return Failure(RuntimeException("failed to copy foreign key " + targetForeignFieldName.value)), values;
      }
      r := Success(targetForeignFieldName.value);
    }

    /** The statements of `processManyToOne`: the `update` of the listed
        children and, unless disabled, the `delete` of the parent's other
        children. */
    method LinkChildren(targetIds: seq<ObjectId>, targetClass: JType, targetIdField: Field, targetForeignField: Field, parentId: ObjectId)
        returns (r: Result<()>)
      modifies database`state
      ensures PoetryWriter.Done(r, database.state) ==
        JavaPersisterSpec.LinkChildren(env, old(database.state), targetIds, targetClass, targetIdField, targetForeignField, parentId)
    {
      var plan, values := PlanLink(targetIds, targetClass, targetIdField, targetForeignField, parentId);
      if plan.Failure? {
        return Failure(plan.error);
      }
      r := LinkTargets(plan.value.table, plan.value.fkColumn, parentId, values, plan.value.idColumn, plan.value.args,
                       !Options.IsEnabled(env.options, OPTION_DISABLE_FOREIGN_COLLECTION_CLEANUP));
    }

    /** `database.update(...)` of the listed children and, with `cleanup`,
        `database.delete(...)` of the parent's other children. */
    method LinkTargets(table: string, fkColumn: string, parentId: ObjectId, values: ContentValues,
                       idColumn: string, args: seq<string>, cleanup: bool) returns (r: Result<()>)
      modifies database`state
      ensures PoetryWriter.Done(r, database.state) ==
        PoetrySpec.LinkTargets(old(database.state), table, fkColumn, parentId, values.values, idColumn, args, cleanup)
    {
      var updated :- database.Update(table, values, ColumnIn(idColumn, args));
      if cleanup {
        LegacyQueryUtils.ParseAttributeGenerationsAgree(parentId);
        var parentText :- LegacyQueryUtils.ParseAttribute(parentId);
        var deleted :- database.Delete(table, And(ColumnNotIn(idColumn, args), ColumnEqualsLiteral(fkColumn, parentText)));
      }
      return Success(());
    }
  }
}
