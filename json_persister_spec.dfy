/** What the Kotlin JSON persister (JsonPersister.kt) does to the store, as
    functions of the contents before each call. It walks the JSON keys of an
    object, creating the row from the id member before the other columns are
    written with one `update`, and then writes the foreign collections. */
module JsonPersisterSpec {
  import opened Wrappers
  import opened JsonModel
  import opened Values
  import opened Metadata
  import opened FieldAnnotations
  import opened Store
  import opened ContentValuesExt
  import opened Options
  import Databases
  import FieldLookup
  import JsonUtils
  import PoetrySpec

  /** `IdDescriptor(columnName, id)`: the id of the object being written and
      the column that holds it. */
  datatype IdDescriptor = IdDescriptor(columnName: string, id: ObjectId)

  /** `ForeignCollectionMapping(field, jsonArray)`: a foreign collection
      member, written once the object's id is known. */
  datatype Mapping = Mapping(field: Field, jsonArray: JsonArray)

  /** What the key loop has gathered: the column values, the id once an id
      member is met, and the foreign collections in key order. */
  datatype KeyState = KeyState(values: map<string, Value>, id: Option<IdDescriptor>, mappings: seq<Mapping>)

  /** Every mapping holds an array smaller than `obj`, as one of its members. */
  predicate MappingsWithin(obj: JsonObject, mappings: seq<Mapping>)
  {
    forall m | m in mappings :: Size(m.jsonArray) < Size(obj)
  }

  /** A key that names an id field of the model class. */
  predicate IsIdKey(env: PoetrySpec.Env, t: JType, key: string)
  {
    match FieldLookup.FindField(env.schema, t, key)
    case Some(field) => DatabaseFieldOf(field).Some? && IsId(DatabaseFieldOf(field).value)
    case None => false
  }

  // ---------------------------------------------------------------------
  // One object

  /** `createRowIfNotExists(jsonObject, jsonKey, field, databaseField, tableName)`:
      the id read as the field's type, a row made for it when there is none,
      and the id with its column. */
  function CreateRowIfNotExists(db: Db, obj: JsonObject, key: string, field: Field, df: DatabaseFieldInfo, tableName: string): (r: Result<(Db, IdDescriptor)>)
  {
    var id :- JsonUtils.GetValue(obj, key, field.fieldType);
    var idColumnName := ColumnNameForField(field, df);
    var created :- Databases.CreateRow(db, tableName, idColumnName, id);
    Success((created, IdDescriptor(idColumnName, id)))
  }

  /** `processDatabaseField(...)`: the column value of a non-id member goes
      into `values`; a nested foreign object is written first and its id
      stored. */
  function ProcessDatabaseField(env: PoetrySpec.Env, db: Db, df: DatabaseFieldInfo, field: Field, obj: JsonObject, key: string,
                                values: map<string, Value>): (r: Result<(Db, map<string, Value>)>)
    requires key in Keys(obj)
    decreases Size(obj), 1
  {
    var dbFieldName := ColumnNameForField(field, df);
    if IsNull(obj, key) then Success((db, values[dbFieldName := Null]))
    else if IsForeign(df) then
      match OptJSONObject(obj, key)
      case Some(foreignObject) =>
        var written :- PersistObjectInternal(env, db, field.fieldType, foreignObject);
        var put := PutResult(values, dbFieldName, written.1);
        if !put.0 then Failure(UnsupportedType(dbFieldName, written.1.className)) else Success((written.0, put.1))
      case None =>
        var foreignObjectIdField :- FindIdFieldOrThrow(env.schema, field.fieldType);
        var foreignObjectId :- JsonUtils.GetValue(obj, key, foreignObjectIdField.fieldType);
        var put := PutResult(values, dbFieldName, foreignObjectId);
        if !put.0 then Failure(UnsupportedType(dbFieldName, foreignObjectId.className)) else Success((db, put.1))
    else
      // an unsupported member is passed over with a warning
      Success((db, PutResult(values, dbFieldName, FromJson(Opt(obj, key).value)).1))
  }

  /** The body of the key loop for one key. */
  function ProcessKey(env: PoetrySpec.Env, db: Db, t: JType, tableName: string, obj: JsonObject, key: string, st: KeyState): (r: Result<(Db, KeyState)>)
    requires key in Keys(obj)
    ensures r.Success? && MappingsWithin(obj, st.mappings) ==> MappingsWithin(obj, r.value.1.mappings)
    decreases Size(obj), 2
  {
    match FieldLookup.FindField(env.schema, t, key)
    case None => Success((db, st))
    case Some(field) =>
      match DatabaseFieldOf(field)
      case Some(df) =>
        if IsId(df) then
          if st.id.Some? then Failure(JSONException("Trying to set id twice"))
          else
            var created :- CreateRowIfNotExists(db, obj, key, field, df, tableName);
            Success((created.0, st.(id := Some(created.1))))
        else
          var processed :- ProcessDatabaseField(env, db, df, field, obj, key, st.values);
          Success((processed.0, st.(values := processed.1)))
      case None =>
        if FieldAnnotation(field, ForeignCollectionFieldType).None? then Success((db, st))
        else
          match OptJSONArray(obj, key)
          // a missing or non-array collection is passed over with a warning
          case None => Success((db, st))
          case Some(jsonArray) => Success((db, st.(mappings := st.mappings + [Mapping(field, jsonArray)])))
  }

  /** `jsonObject.keys().forEach { ... }` from the `i`-th key on. */
  function ProcessKeys(env: PoetrySpec.Env, db: Db, t: JType, tableName: string, obj: JsonObject, i: nat, st: KeyState): (r: Result<(Db, KeyState)>)
    requires i <= |Keys(obj)|
    ensures r.Success? && MappingsWithin(obj, st.mappings) ==> MappingsWithin(obj, r.value.1.mappings)
    decreases Size(obj), 3, |Keys(obj)| - i
  {
    if i == |Keys(obj)| then Success((db, st))
    else
      var processed :- ProcessKey(env, db, t, tableName, obj, Keys(obj)[i], st);
      ProcessKeys(env, processed.0, t, tableName, obj, i + 1, processed.1)
  }

  /** One key: its body runs, and the rest of the keys continue from the
      state it leaves. */
  lemma ProcessKeysStep(env: PoetrySpec.Env, db: Db, t: JType, tableName: string, obj: JsonObject, i: nat, st: KeyState)
    requires i < |Keys(obj)|
    ensures ProcessKeys(env, db, t, tableName, obj, i, st) ==
      match ProcessKey(env, db, t, tableName, obj, Keys(obj)[i], st)
      case Failure(e) => Failure(e)
      case Success(processed) => ProcessKeys(env, processed.0, t, tableName, obj, i + 1, processed.1)
  {
  }

  /** `insertRowFromModelClass(tableName, modelClass)`: an empty row, whose
      rowid is the id. */
  function InsertRowFromModelClass(env: PoetrySpec.Env, db: Db, tableName: string, t: JType): (r: Result<(Db, IdDescriptor)>)
  {
    match FindIdField(env.schema, t)
    case None => Failure(SQLiteException("class doesn't have a DatabaseField that is marked as being an ID"))
    case Some(idField) =>
      var idInfo :- DatabaseFieldNotNull(idField);
      var idColumnName := ColumnNameForField(idField, idInfo);
      var inserted :- InsertStatement(db, tableName, Some(idColumnName), map[]);
      Success((inserted.0, IdDescriptor(idColumnName, LongV(inserted.1))))
  }

  /** The id from the key loop, else the row `insertRowFromModelClass` makes. */
  function ResolveId(env: PoetrySpec.Env, db: Db, tableName: string, t: JType, id: Option<IdDescriptor>): (r: Result<(Db, IdDescriptor)>)
  {
    match id
    case Some(d) => Success((db, d))
    case None => InsertRowFromModelClass(env, db, tableName, t)
  }

  /** `update(table, values, "<id column> = ?", id)` when there are values. */
  function UpdateValues(db: Db, tableName: string, values: map<string, Value>, d: IdDescriptor): (r: Result<Db>)
    ensures |values| == 0 ==> r == Success(db)
    ensures r.Success? ==> r.value.tables.Keys == db.tables.Keys
    ensures r.Success? ==> forall name | name in db.tables && name != tableName :: r.value.tables[name] == db.tables[name]
    ensures r.Success? && |values| > 0 ==>
      tableName in db.tables &&
      r.value.tables[tableName].rows ==
        UpdateRows(db.tables[tableName], db.tables[tableName].rows, values, ColumnEquals(d.columnName, Text(d.id)))
  {
    if |values| > 0 then Store.Update(db, tableName, values, ColumnEquals(d.columnName, Text(d.id)))
    else Success(db)
  }

  /** `persistObjectInternal(modelClass, jsonObject)`: the object's id. */
  function PersistObjectInternal(env: PoetrySpec.Env, db: Db, t: JType, obj: JsonObject): (r: Result<(Db, ObjectId)>)
    decreases Size(obj), 4
  {
    var tableName :- TableNameOrThrow(env.schema, t);
    var keys :- ProcessKeys(env, db, t, tableName, obj, 0, KeyState(map[], None, []));
    var resolved :- ResolveId(env, keys.0, tableName, t, keys.1.id);
    var updated :- UpdateValues(resolved.0, tableName, keys.1.values, resolved.1);
    var related :- ProcessMappings(env, updated, t, obj, keys.1.mappings, 0, resolved.1.id);
    Success((related, resolved.1.id))
  }

  /** `foreignCollectionMappings.forEach { ... }` from the `i`-th mapping on:
      a `@ManyToManyField` collection goes through a junction table, any
      other is one-to-many. */
  function ProcessMappings(env: PoetrySpec.Env, db: Db, t: JType, obj: JsonObject, mappings: seq<Mapping>, i: nat, parentId: ObjectId): (r: Result<Db>)
    requires i <= |mappings| && MappingsWithin(obj, mappings)
    decreases Size(obj), 2, |mappings| - i
  {
    if i == |mappings| then Success(db)
    else
      assert mappings[i] in mappings;
      var processed :- ProcessMapping(env, db, t, mappings[i], parentId);
      ProcessMappings(env, processed, t, obj, mappings, i + 1, parentId)
  }

  /** One mapping: it is processed, and the rest continue from the contents
      it leaves. */
  lemma MappingsStep(env: PoetrySpec.Env, db: Db, t: JType, obj: JsonObject, mappings: seq<Mapping>, i: nat, parentId: ObjectId)
    requires i < |mappings| && MappingsWithin(obj, mappings)
    ensures ProcessMappings(env, db, t, obj, mappings, i, parentId) ==
      var processed := ProcessMapping(env, db, t, mappings[i], parentId);
      if processed.Failure? then Failure(processed.error)
      else ProcessMappings(env, processed.value, t, obj, mappings, i + 1, parentId)
  {
  }

  /** One foreign collection: through a junction table with a
      `@ManyToManyField`, else one-to-many. */
  function ProcessMapping(env: PoetrySpec.Env, db: Db, t: JType, m: Mapping, parentId: ObjectId): (r: Result<Db>)
    decreases Size(m.jsonArray), 8
  {
    match FieldAnnotation(m.field, ManyToManyFieldType)
    case Some(manyToMany) => ProcessManyToMany(env, db, manyToMany.targetType, m, parentId, t)
    case None => ProcessManyToOne(env, db, m, parentId, t)
  }

  // ---------------------------------------------------------------------
  // Arrays

  /** `persistArrayOfObjects(modelClass, jsonArray)` from the `i`-th element
      on, reading the elements in order. */
  function PersistArrayFrom(env: PoetrySpec.Env, db: Db, t: JType, arr: JsonArray, i: nat): (r: Result<(Db, seq<ObjectId>)>)
    requires i <= |arr.items|
    ensures r.Success? ==> |r.value.1| == |arr.items| - i
    decreases Size(arr), 5, |arr.items| - i
  {
    if i == |arr.items| then Success((db, []))
    else
      var obj :- GetJSONObjectAt(arr, i);
      var written :- PersistObjectInternal(env, db, t, obj);
      PoetrySpec.PrependAll([written.1], PersistArrayFrom(env, written.0, t, arr, i + 1))
  }

  /** One element: fetched as an object and written; the rest of the array
      continues from the new contents. */
  lemma PersistArrayStep(env: PoetrySpec.Env, db: Db, t: JType, arr: JsonArray, i: nat)
    requires i < |arr.items|
    ensures PersistArrayFrom(env, db, t, arr, i) ==
      match GetJSONObjectAt(arr, i)
      case Failure(e) => Failure(e)
      case Success(obj) =>
        match PersistObjectInternal(env, db, t, obj)
        case Failure(e) => Failure(e)
        case Success(written) => PoetrySpec.PrependAll([written.1], PersistArrayFrom(env, written.0, t, arr, i + 1))
  {
  }

  /** `persistArrayOfObjects` with the iterator as written (the pre-increment
      of `JsonArrayJsonObjectIterator.next()`): the `i`-th call fetches
      element `i + 1`, and each object is persisted as soon as it is fetched. */
  function PersistArrayAsWrittenFrom(env: PoetrySpec.Env, db: Db, t: JType, arr: JsonArray, i: nat): (r: Result<(Db, seq<ObjectId>)>)
    decreases |arr.items| - i
  {
    if i < |arr.items| then
      var obj :- GetJSONObjectAt(arr, i + 1);
      var written :- PersistObjectInternal(env, db, t, obj);
      PoetrySpec.PrependAll([written.1], PersistArrayAsWrittenFrom(env, written.0, t, arr, i + 1))
    else Success((db, []))
  }

  lemma PersistArrayAsWrittenStep(env: PoetrySpec.Env, db: Db, t: JType, arr: JsonArray, i: nat)
    requires i < |arr.items|
    ensures PersistArrayAsWrittenFrom(env, db, t, arr, i) ==
      match GetJSONObjectAt(arr, i + 1)
      case Failure(e) => Failure(e)
      case Success(obj) =>
        match PersistObjectInternal(env, db, t, obj)
        case Failure(e) => Failure(e)
        case Success(written) => PoetrySpec.PrependAll([written.1], PersistArrayAsWrittenFrom(env, written.0, t, arr, i + 1))
  {
  }

  /** As written, `persistArrayOfObjects` fails from any position inside a
      non-empty array: it ends by fetching one past the last element. */
  lemma {:induction false} PersistArrayAsWrittenFails(env: PoetrySpec.Env, db: Db, t: JType, arr: JsonArray, i: nat)
    requires i < |arr.items|
    ensures PersistArrayAsWrittenFrom(env, db, t, arr, i).Failure?
    decreases |arr.items| - i
  {
    PersistArrayAsWrittenStep(env, db, t, arr, i);
    var obj := GetJSONObjectAt(arr, i + 1);
    if obj.Success? {
      var written := PersistObjectInternal(env, db, t, obj.value);
      if written.Success? {
        PersistArrayAsWrittenFails(env, written.value.0, t, arr, i + 1);
      }
    }
  }

  /** `persistArrayOfBaseTypes` with the iterator as written: the eager
      `map { it.toString() }` drains `toIterable()` before any row is
      inserted. */
  function PersistArrayOfBaseTypesAsWritten(env: PoetrySpec.Env, db: Db, t: JType, arr: JsonArray, targetField: string): (r: Result<(Db, seq<ObjectId>)>)
  {
    var tableName :- TableNameOrThrow(env.schema, t);
    var items :- JsonUtils.AsWrittenFrom(arr, 0);
    var inserted :- PoetrySpec.InsertBaseValues(db, tableName, targetField, items, 0);
    Success((inserted.0, inserted.1))
  }

  /** As written, `persistArrayOfBaseTypes` on a non-empty array throws a
      JSONException before touching the database (or fails on the table name
      first); on the empty array it inserts nothing, as the corrected one. */
  lemma BaseTypesAsWrittenFail(env: PoetrySpec.Env, db: Db, t: JType, arr: JsonArray, targetField: string)
    ensures |arr.items| > 0 ==> PersistArrayOfBaseTypesAsWritten(env, db, t, arr, targetField).Failure?
    ensures |arr.items| > 0 && TableNameOrThrow(env.schema, t).Success? ==>
      PersistArrayOfBaseTypesAsWritten(env, db, t, arr, targetField).error.JSONException?
    ensures |arr.items| == 0 ==>
      PersistArrayOfBaseTypesAsWritten(env, db, t, arr, targetField) == PersistArrayOfBaseTypes(env, db, t, arr, targetField)
  {
    if |arr.items| > 0 {
      JsonUtils.AsWrittenIterationFails(arr);
    }
  }

  /** `persistArrayOfBaseTypes(modelClass, jsonArray, singleTargetField)`:
      one row per element, its text in the target column; the rowids. */
  function PersistArrayOfBaseTypes(env: PoetrySpec.Env, db: Db, t: JType, arr: JsonArray, targetField: string): (r: Result<(Db, seq<ObjectId>)>)
  {
    var tableName :- TableNameOrThrow(env.schema, t);
    var inserted :- PoetrySpec.InsertBaseValues(db, tableName, targetField, arr.items, 0);
    Success((inserted.0, inserted.1))
  }

  // ---------------------------------------------------------------------
  // Foreign collections

  /** The lookups of `processManyToMany` before it writes: the junction
      class, its field that refers to the parent and its first field of the
      target type. */
  function JunctionFields(env: PoetrySpec.Env, targetType: JType, collectionField: Field, parentClass: JType): (r: Result<(JType, Field, Field)>)
  {
    var targetClass :- ForeignCollectionParameterType(collectionField);
    var targetForeignField :- FindForeignFieldOrThrow(env.schema, targetClass, parentClass);
    match FieldLookup.FindFirstFieldOfType(env.schema, targetClass, JavaObjectType(targetType))
    case None => Failure(RuntimeException("ManyToMany problem: no ID field found"))
    case Some(targetTargetField) => Success((targetClass, targetForeignField, targetTargetField))
  }

  /** `processManyToMany(manyToManyField, mapping, parentId, parentClass)`. */
  function ProcessManyToMany(env: PoetrySpec.Env, db: Db, targetType: JType, m: Mapping, parentId: ObjectId, parentClass: JType): (r: Result<Db>)
    decreases Size(m.jsonArray), 7
  {
    var fields :- JunctionFields(env, targetType, m.field, parentClass);
    PersistJunction(env, db, fields.0, fields.1, fields.2, m.jsonArray, parentId)
  }

  /** Once the lookups succeed, `processManyToMany` is its writes. */
  lemma ManyToManyStep(env: PoetrySpec.Env, db: Db, targetType: JType, m: Mapping, parentId: ObjectId, parentClass: JType)
    ensures ProcessManyToMany(env, db, targetType, m, parentId, parentClass) ==
      var found := JunctionFields(env, targetType, m.field, parentClass);
      if found.Failure? then Failure(found.error)
      else PersistJunction(env, db, found.value.0, found.value.1, found.value.2, m.jsonArray, parentId)
  {
  }

  /** The writes of `processManyToMany`: the targets, then the junction rows
      that link them to the parent. */
  function PersistJunction(env: PoetrySpec.Env, db: Db, targetClass: JType, targetForeignField: Field, targetTargetField: Field,
                           arr: JsonArray, parentId: ObjectId): (r: Result<Db>)
    decreases Size(arr), 6
  {
    var written :- PersistArrayFrom(env, db, targetTargetField.fieldType, arr, 0);
    ReplaceJunction(env, written.0, targetClass, targetForeignField, targetTargetField, written.1, parentId)
  }

  /** The rest of `processManyToMany`: the parent's junction rows are deleted
      and one is inserted per target. */
  function ReplaceJunction(env: PoetrySpec.Env, db: Db, targetClass: JType, targetForeignField: Field, targetTargetField: Field,
                           targetIds: seq<ObjectId>, parentId: ObjectId): (r: Result<Db>)
  {
    var clear :- PoetrySpec.JunctionClear(env, targetClass, targetForeignField, parentId);
    var cleared :- Store.Delete(db, clear.0, ColumnEqualsLiteral(clear.1, clear.2));
    var targetInfo :- DatabaseFieldNotNull(targetTargetField);
    InsertJunctionRows(cleared, clear.0, clear.1, parentId, ColumnNameForField(targetTargetField, targetInfo), targetIds, 0)
  }

  /** One `insertOrThrow` of (fk = parent, target = id) per id of `ids[i..]`;
      either id may be of a class `putOrThrow` refuses. */
  function InsertJunctionRows(db: Db, table: string, fkColumn: string, parentId: Value, targetColumn: string, ids: seq<ObjectId>, i: nat): (r: Result<Db>)
    requires i <= |ids|
    decreases |ids| - i
  {
    if i == |ids| then Success(db)
    else
      var withParent := PutResult(map[], fkColumn, parentId);
      if !withParent.0 then Failure(UnsupportedType(fkColumn, parentId.className))
      else
        var values := PutResult(withParent.1, targetColumn, ids[i]);
        if !values.0 then Failure(UnsupportedType(targetColumn, ids[i].className))
        else
          var inserted :- InsertStatement(db, table, None, values.1);
          InsertJunctionRows(inserted.0, table, fkColumn, parentId, targetColumn, ids, i + 1)
  }

  /** One junction row: both ids are put, then the row is inserted and the
      rest follow from the contents it leaves. */
  lemma JunctionRowsStep(db: Db, table: string, fkColumn: string, parentId: Value, targetColumn: string, ids: seq<ObjectId>, i: nat)
    requires i < |ids|
    ensures InsertJunctionRows(db, table, fkColumn, parentId, targetColumn, ids, i) ==
      var withParent := PutResult(map[], fkColumn, parentId);
      if !withParent.0 then Failure(UnsupportedType(fkColumn, parentId.className))
      else
        var values := PutResult(withParent.1, targetColumn, ids[i]);
        if !values.0 then Failure(UnsupportedType(targetColumn, ids[i].className))
        else
          var inserted := InsertStatement(db, table, None, values.1);
          if inserted.Failure? then Failure(inserted.error)
          else InsertJunctionRows(inserted.value.0, table, fkColumn, parentId, targetColumn, ids, i + 1)
  {
  }

  /** `processManyToOne(mapping, parentId, parentClass)`: the children are
      written, then linked to the parent. */
  function ProcessManyToOne(env: PoetrySpec.Env, db: Db, m: Mapping, parentId: ObjectId, parentClass: JType): (r: Result<Db>)
    decreases Size(m.jsonArray), 7
  {
    var fields :- ChildFields(env, m.field, parentClass);
    var written :- PersistChildren(env, db, m, fields.0);
    LinkChildren(env, written.0, written.1, fields.0, fields.1, fields.2, parentId)
  }

  /** The lookups of `processManyToOne` before it writes: the child class,
      its id field and its field that refers to the parent. */
  function ChildFields(env: PoetrySpec.Env, collectionField: Field, parentClass: JType): (r: Result<(JType, Field, Field)>)
  {
    var targetClass :- ForeignCollectionParameterType(collectionField);
    var targetIdField :- FindIdFieldOrThrow(env.schema, targetClass);
    var targetForeignField :- FindForeignFieldOrThrow(env.schema, targetClass, parentClass);
    Success((targetClass, targetIdField, targetForeignField))
  }

  /** The children of `processManyToOne`: whole objects, or with a
      `@ForeignCollectionFieldSingleTarget`, base values in its column. */
  function PersistChildren(env: PoetrySpec.Env, db: Db, m: Mapping, targetClass: JType): (r: Result<(Db, seq<ObjectId>)>)
    decreases Size(m.jsonArray), 6
  {
    match FieldAnnotation(m.field, SingleTargetType)
    case None => PersistArrayFrom(env, db, targetClass, m.jsonArray, 0)
    case Some(singleTarget) => PersistArrayOfBaseTypes(env, db, targetClass, m.jsonArray, singleTarget.targetField)
  }

  /** The children's foreign column, and the ContentValues that sets it to
      the parent id. */
  function ForeignColumn(targetForeignField: Field, parentId: ObjectId): (r: Result<(string, map<string, Value>)>)
  {
    var foreignInfo :- DatabaseFieldNotNull(targetForeignField);
    var fkColumn := ColumnNameForField(targetForeignField, foreignInfo);
    var values := PutResult(map[], fkColumn, parentId);
    if !values.0 then Failure(UnsupportedType(fkColumn, parentId.className))
    else Success((fkColumn, values.1))
  }

  /** What `processManyToOne` works out before its statements: the
      children's table, their foreign column and the ContentValues holding
      the parent id, their id column and the IN clause's arguments. */
  function PlanLink(env: PoetrySpec.Env, targetIds: seq<ObjectId>, targetClass: JType, targetIdField: Field,
                    targetForeignField: Field, parentId: ObjectId): (r: Result<PoetrySpec.LinkPlan>)
  {
    var foreign :- ForeignColumn(targetForeignField, parentId);
    var query :- PoetrySpec.TargetQuery(env, targetIds, targetClass, targetIdField);
    Success(PoetrySpec.LinkPlan(query.1, foreign.0, foreign.1, query.2, query.0))
  }

  /** The rest of `processManyToOne`: the update of the children's foreign
      column and, unless disabled, the cleanup of the parent's other children. */
  function LinkChildren(env: PoetrySpec.Env, db: Db, targetIds: seq<ObjectId>, targetClass: JType, targetIdField: Field,
                        targetForeignField: Field, parentId: ObjectId): (r: Result<Db>)
  {
    var plan :- PlanLink(env, targetIds, targetClass, targetIdField, targetForeignField, parentId);
    PoetrySpec.LinkTargets(db, plan.table, plan.fkColumn, parentId, plan.values, plan.idColumn, plan.args,
                           !IsEnabled(env.options, DISABLE_FOREIGN_COLLECTION_CLEANUP))
  }
}
