/** What the Java JSON persister (json/JsonPersister.java), the oldest
    generation, does to the store, as functions of the contents before each
    call. It walks the JSON keys like the Kotlin persister, but with the older
    helpers (OrmliteReflection, the older JsonUtils and QueryUtils): an id
    member met twice is simply processed again, a null collection is kept and
    skipped later, and the statements that report failure with -1 are turned
    into exceptions of its own. */
module JavaPersisterSpec {
  import opened Wrappers
  import opened JavaInts
  import opened JsonModel
  import opened Values
  import opened Metadata
  import opened Store
  import opened ContentValuesExt
  import opened Options
  import OrmliteReflection
  import FieldLookup
  import LegacyJsonUtils
  import LegacyQueryUtils
  import QueryUtils
  import PoetrySpec
  import JsonPersisterSpec

  /** `OPTION_DISABLE_FOREIGN_COLLECTION_CLEANUP` of the Java persister. */
  const OPTION_DISABLE_FOREIGN_COLLECTION_CLEANUP: bv32 := 0x0001
  /** `OPTION_DISABLE_IGNORED_ATTRIBUTES_WARNING` of the Java persister. */
  const OPTION_DISABLE_IGNORED_ATTRIBUTES_WARNING: bv32 := 0x0002

  type IdDescriptor = JsonPersisterSpec.IdDescriptor

  /** `ForeignCollectionMapping(field, jsonArray)`: the array is null when the
      member is JSON null. */
  datatype Mapping = Mapping(field: Field, jsonArray: Option<JsonArray>)

  /** The size a mapping's recursion descends along. */
  function ArraySize(a: Option<JsonArray>): nat
  {
    if a.Some? then Size(a.value) else 0
  }

  /** Every mapping's array is smaller than `obj`, as one of its members. */
  predicate MappingsWithin(obj: JsonObject, mappings: seq<Mapping>)
  {
    forall m | m in mappings :: ArraySize(m.jsonArray) < Size(obj)
  }

  /** What the key loop has gathered: the column values, the id column and
      id once an id member is met, and the foreign collections in key order. */
  datatype KeyState = KeyState(values: map<string, Value>, id: Option<IdDescriptor>, mappings: seq<Mapping>)

  /** A key that names an id field of the model class. */
  predicate IsIdKey(env: PoetrySpec.Env, t: JType, key: string)
  {
    match FieldLookup.FindField(env.schema, t, key)
    case Some(field) => DatabaseFieldOf(field).Some? && OrmliteReflection.IsId(DatabaseFieldOf(field).value)
    case None => false
  }

  // ---------------------------------------------------------------------
  // One object

  /** `processIdField(databaseField, field, jsonObject, jsonKey, tableName)`:
      the id read as the field's type; when no row holds it, a row holding
      just the id column is inserted. */
  function ProcessIdField(db: Db, df: DatabaseFieldInfo, field: Field, obj: JsonObject, key: string, tableName: string): (r: Result<(Db, ObjectId)>)
  {
    var name := OrmliteReflection.FieldName(field, df);
    var got :- LegacyJsonUtils.GetValue(obj, key, field.fieldType);
    if got.None? then Failure(RuntimeException("failed to get a value from JSON with key " + key))
    else
      var id: ObjectId := got.value;
      var rowExists :- Store.HasRow(db, tableName, name, Text(id));
      if rowExists then Success((db, id))
      else
        var values := PutResult(map[], name, id);
        if !values.0 then Failure(JSONException("failed to process id field " + field.name + " for table " + tableName))
        else
          match InsertStatement(db, tableName, None, values.1)
          // `insert` answers -1, which is also the rowid of a row stored under -1
          case Failure(_) => Failure(SQLiteException("failed to insert " + tableName + " with id " + name))
          case Success(inserted) =>
            if inserted.1 == -1 then Failure(SQLiteException("failed to insert " + tableName + " with id " + name))
            else Success((inserted.0, id))
  }

  /** `processDatabaseField(databaseField, field, jsonParentObject, jsonKey, modelClass, values)`. */
  function ProcessDatabaseField(env: PoetrySpec.Env, db: Db, df: DatabaseFieldInfo, field: Field, obj: JsonObject, key: string,
                                values: map<string, Value>): (r: Result<(Db, map<string, Value>)>)
    requires key in Keys(obj)
    decreases Size(obj), 1
  {
    var name := OrmliteReflection.FieldName(field, df);
    if IsNull(obj, key) then Success((db, values[name := Null]))
    else if OrmliteReflection.IsForeign(df) then
      match OptJSONObject(obj, key)
      case Some(foreignObject) =>
        var written :- PersistObjectInternal(env, db, field.fieldType, foreignObject);
        var copied := PutResult(values, name, written.1);
        if !copied.0 then Failure(RuntimeException("failed to copy values for key " + key))
        else Success((written.0, copied.1))
      case None =>
        match OrmliteReflection.FindIdField(env.schema, field.fieldType)
        case None => Failure(RuntimeException("failed to find id field for foreign object"))
        case Some(idField) =>
          var got :- LegacyJsonUtils.GetValue(obj, key, idField.fieldType);
          if got.None? then Failure(RuntimeException("incompatible id type for foreign object"))
          else
            var copied := PutResult(values, name, got.value);
            if !copied.0 then Failure(RuntimeException("failed to copy values for key " + key))
            else Success((db, copied.1))
    else
      // an unsupported member is passed over with a warning
      Success((db, PutResult(values, name, FromJson(Opt(obj, key).value)).1))
  }

  /** The body of the key loop for one key. */
  function ProcessKey(env: PoetrySpec.Env, db: Db, t: JType, tableName: string, obj: JsonObject, key: string, st: KeyState): (r: Result<(Db, KeyState)>)
    requires key in Keys(obj)
    ensures r.Success? && MappingsWithin(obj, st.mappings) ==> MappingsWithin(obj, r.value.1.mappings)
    decreases Size(obj), 2
  {
    match FieldLookup.FindField(env.schema, t, key)
    // an unknown member is passed over with a warning
    case None => Success((db, st))
    case Some(field) =>
      match DatabaseFieldOf(field)
      case Some(df) =>
        if OrmliteReflection.IsId(df) then
          var processed :- ProcessIdField(db, df, field, obj, key, tableName);
          Success((processed.0, st.(id := Some(JsonPersisterSpec.IdDescriptor(OrmliteReflection.FieldName(field, df), processed.1)))))
        else
          var processed :- ProcessDatabaseField(env, db, df, field, obj, key, st.values);
          Success((processed.0, st.(values := processed.1)))
      case None =>
        if FieldAnnotation(field, ForeignCollectionFieldType).None? then Success((db, st))
        else if IsNull(obj, key) then Success((db, st.(mappings := st.mappings + [Mapping(field, None)])))
        else
          var jsonArray :- GetJSONArray(obj, key);
          Success((db, st.(mappings := st.mappings + [Mapping(field, Some(jsonArray))])))
  }

  /** `while (json_keys.hasNext()) { ... }` from the `i`-th key on. */
  function ProcessKeys(env: PoetrySpec.Env, db: Db, t: JType, tableName: string, obj: JsonObject, i: nat, st: KeyState): (r: Result<(Db, KeyState)>)
    requires i <= |Keys(obj)|
    ensures r.Success? && MappingsWithin(obj, st.mappings) ==> MappingsWithin(obj, r.value.1.mappings)
    decreases Size(obj), 3, |Keys(obj)| - i
  {
    if i == |Keys(obj)| then Success((db, st))
    else
      var processed :- ProcessKey(env, db, t, tableName, obj, Keys(obj)[i], st);
      ProcessKeys(env, processed.0, t, tableName, obj, i + 1, processed.1)
  }

  /** One key: its body runs, and the rest of the keys continue from the
      state it leaves. */
  lemma ProcessKeysStep(env: PoetrySpec.Env, db: Db, t: JType, tableName: string, obj: JsonObject, i: nat, st: KeyState)
    requires i < |Keys(obj)|
    ensures ProcessKeys(env, db, t, tableName, obj, i, st) ==
      var processed := ProcessKey(env, db, t, tableName, obj, Keys(obj)[i], st);
      if processed.Failure? then Failure(processed.error)
      else ProcessKeys(env, processed.value.0, t, tableName, obj, i + 1, processed.value.1)
  {
  }

  /** The id from the key loop; without one, an empty row is inserted with
      the id column as the null-column hack, and its rowid is the id. */
  function ResolveId(env: PoetrySpec.Env, db: Db, tableName: string, t: JType, id: Option<IdDescriptor>): (r: Result<(Db, IdDescriptor)>)
  {
    match id
    case Some(d) => Success((db, d))
    case None =>
      match OrmliteReflection.FindIdField(env.schema, t)
      case None => Failure(SQLiteException("class doesn't have a DatabaseField that is marked as being an ID"))
      case Some(idField) =>
        match DatabaseFieldOf(idField)
        // not reached: the id field was found by its annotation
        case None => Failure(NullPointerException("databaseField"))
        case Some(df) =>
          var name := OrmliteReflection.FieldName(idField, df);
          match InsertStatement(db, tableName, Some(name), map[])
          // `insert` answers -1, which is also the rowid of a row stored under -1
          case Failure(_) => Failure(SQLiteException("failed to insert with id field " + name))
          case Success(inserted) =>
            if inserted.1 == -1 then Failure(SQLiteException("failed to insert with id field " + name))
            else Success((inserted.0, JsonPersisterSpec.IdDescriptor(name, LongV(inserted.1))))
  }

  /** `persistObjectInternal(modelClass, jsonObject)`: the object's id. */
  function PersistObjectInternal(env: PoetrySpec.Env, db: Db, t: JType, obj: JsonObject): (r: Result<(Db, ObjectId)>)
    decreases Size(obj), 4
  {
    var tableName :- OrmliteReflection.TableNameOrThrow(env.schema, t);
    var keys :- ProcessKeys(env, db, t, tableName, obj, 0, KeyState(map[], None, []));
    var resolved :- ResolveId(env, keys.0, tableName, t, keys.1.id);
    var updated :- JsonPersisterSpec.UpdateValues(resolved.0, tableName, keys.1.values, resolved.1);
    var related :- ProcessMappings(env, updated, t, obj, keys.1.mappings, 0, resolved.1.id);
    Success((related, resolved.1.id))
  }

  /** `for (foreign_collection_mapping : foreign_collection_mappings)` from
      the `i`-th mapping on. */
  function ProcessMappings(env: PoetrySpec.Env, db: Db, t: JType, obj: JsonObject, mappings: seq<Mapping>, i: nat, parentId: ObjectId): (r: Result<Db>)
    requires i <= |mappings| && MappingsWithin(obj, mappings)
    decreases Size(obj), 2, |mappings| - i
  {
    if i == |mappings| then Success(db)
    else
      assert mappings[i] in mappings;
      var processed :- ProcessMapping(env, db, t, mappings[i], parentId);
      ProcessMappings(env, processed, t, obj, mappings, i + 1, parentId)
  }

  /** One mapping: it is processed, and the rest continue from the contents
      it leaves. */
  lemma MappingsStep(env: PoetrySpec.Env, db: Db, t: JType, obj: JsonObject, mappings: seq<Mapping>, i: nat, parentId: ObjectId)
    requires i < |mappings| && MappingsWithin(obj, mappings)
    ensures ProcessMappings(env, db, t, obj, mappings, i, parentId) ==
      var processed := ProcessMapping(env, db, t, mappings[i], parentId);
      if processed.Failure? then Failure(processed.error)
      else ProcessMappings(env, processed.value, t, obj, mappings, i + 1, parentId)
  {
  }

  /** One foreign collection: through a junction table with a
      `@ManyToManyField`, else one-to-many. */
  function ProcessMapping(env: PoetrySpec.Env, db: Db, t: JType, m: Mapping, parentId: ObjectId): (r: Result<Db>)
    decreases ArraySize(m.jsonArray), 8
  {
    match FieldAnnotation(m.field, ManyToManyFieldType)
    case Some(manyToMany) => ProcessManyToMany(env, db, manyToMany.targetType, m, parentId, t)
    case None => ProcessManyToOne(env, db, m, parentId, t)
  }

  // ---------------------------------------------------------------------
  // Arrays

  /** `persistArrayOfObjects(modelClass, jsonArray)` from the `i`-th element on. */
  function PersistArrayFrom(env: PoetrySpec.Env, db: Db, t: JType, arr: JsonArray, i: nat): (r: Result<(Db, seq<ObjectId>)>)
    requires i <= |arr.items|
    ensures r.Success? ==> |r.value.1| == |arr.items| - i
    decreases Size(arr), 5, |arr.items| - i
  {
    if i == |arr.items| then Success((db, []))
    else
      var obj :- GetJSONObjectAt(arr, i);
      var written :- PersistObjectInternal(env, db, t, obj);
      PoetrySpec.PrependAll([written.1], PersistArrayFrom(env, written.0, t, arr, i + 1))
  }

  /** One element: fetched as an object and written; the rest continue from
      the new contents. */
  lemma PersistArrayStep(env: PoetrySpec.Env, db: Db, t: JType, arr: JsonArray, i: nat)
    requires i < |arr.items|
    ensures PersistArrayFrom(env, db, t, arr, i) ==
      var obj := GetJSONObjectAt(arr, i);
      if obj.Failure? then Failure(obj.error)
      else
        var written := PersistObjectInternal(env, db, t, obj.value);
        if written.Failure? then Failure(written.error)
        else PoetrySpec.PrependAll([written.value.1], PersistArrayFrom(env, written.value.0, t, arr, i + 1))
  {
  }

  /** The loop of `persistArrayOfBaseTypes` from the `i`-th element on: one
      `insert` per element of its text, with the target column as the
      null-column hack; -1 becomes an SQLiteException. */
  function InsertBaseRows(db: Db, table: string, column: string, items: seq<Json>, i: nat): (r: Result<(Db, seq<Int64>)>)
    requires i <= |items|
    decreases |items| - i
  {
    if i == |items| then Success((db, []))
    else
      match InsertStatement(db, table, Some(column), map[column := CharSeqV(ToText(items[i]))])
      case Failure(_) => Failure(SQLiteException("failed to insert " + table))
      case Success(inserted) =>
        if inserted.1 == -1 then Failure(SQLiteException("failed to insert " + table))
        else
          var rest :- InsertBaseRows(inserted.0, table, column, items, i + 1);
          Success((rest.0, [inserted.1] + rest.1))
  }

  /** One element: its row is inserted, then the rest follow from the
      contents it leaves. */
  lemma BaseRowsStep(db: Db, table: string, column: string, items: seq<Json>, i: nat)
    requires i < |items|
    ensures InsertBaseRows(db, table, column, items, i) ==
      var inserted := InsertStatement(db, table, Some(column), map[column := CharSeqV(ToText(items[i]))]);
      if inserted.Failure? || inserted.value.1 == -1 then Failure(SQLiteException("failed to insert " + table))
      else
        var rest := InsertBaseRows(inserted.value.0, table, column, items, i + 1);
        if rest.Failure? then Failure(rest.error) else Success((rest.value.0, [inserted.value.1] + rest.value.1))
  {
  }

  /** `persistArrayOfBaseTypes(modelClass, jsonArray, singleTargetField)`:
      the rowids, as Longs. */
  function PersistArrayOfBaseTypes(env: PoetrySpec.Env, db: Db, t: JType, arr: JsonArray, targetField: string): (r: Result<(Db, seq<ObjectId>)>)
  {
    var tableName :- OrmliteReflection.TableNameOrThrow(env.schema, t);
    var inserted :- InsertBaseRows(db, tableName, targetField, arr.items, 0);
    Success((inserted.0, PoetrySpec.LongIds(inserted.1)))
  }

  // ---------------------------------------------------------------------
  // Many-to-many

  /** The lookups of `processManyToMany` before it writes: the junction
      class, its field that refers to the parent and its first field of the
      target type; the junction class must have an id field. */
  function JunctionFields(env: PoetrySpec.Env, targetType: JType, collectionField: Field, parentClass: JType): (r: Result<(JType, Field, Field)>)
  {
    var targetClass :- OrmliteReflection.ForeignCollectionParameterType(collectionField);
    if OrmliteReflection.FindIdField(env.schema, targetClass).None? then
      Failure(RuntimeException("no id field found while processing foreign collection relation"))
    else
      match OrmliteReflection.FindForeignField(env.schema, targetClass, parentClass)
      case None => Failure(RuntimeException("no foreign field found while processing foreign collection relation"))
      case Some(targetForeignField) =>
        match FieldLookup.FindFirstFieldOfType(env.schema, targetClass, targetType)
        case None => Failure(RuntimeException("ManyToMany problem: no ID field found"))
        case Some(targetTargetField) => Success((targetClass, targetForeignField, targetTargetField))
  }

  /** `processManyToMany(manyToManyField, mapping, parentId, parentClass)`: a
      null array changes nothing. */
  function ProcessManyToMany(env: PoetrySpec.Env, db: Db, targetType: JType, m: Mapping, parentId: ObjectId, parentClass: JType): (r: Result<Db>)
    decreases ArraySize(m.jsonArray), 7
  {
    match m.jsonArray
    case None => Success(db)
    case Some(arr) =>
      var fields :- JunctionFields(env, targetType, m.field, parentClass);
      PersistJunction(env, db, fields.0, fields.1, fields.2, arr, parentId)
  }

  /** A present array: the lookups, then the writes. */
  lemma ManyToManyStep(env: PoetrySpec.Env, db: Db, targetType: JType, m: Mapping, parentId: ObjectId, parentClass: JType)
    requires m.jsonArray.Some?
    ensures ProcessManyToMany(env, db, targetType, m, parentId, parentClass) ==
      var found := JunctionFields(env, targetType, m.field, parentClass);
      if found.Failure? then Failure(found.error)
      else PersistJunction(env, db, found.value.0, found.value.1, found.value.2, m.jsonArray.value, parentId)
  {
  }

  /** The writes of `processManyToMany`: the targets, then the junction rows. */
  function PersistJunction(env: PoetrySpec.Env, db: Db, targetClass: JType, targetForeignField: Field, targetTargetField: Field,
                           arr: JsonArray, parentId: ObjectId): (r: Result<Db>)
    decreases Size(arr), 6
  {
    var written :- PersistArrayFrom(env, db, targetTargetField.fieldType, arr, 0);
    ReplaceJunction(env, written.0, targetClass, targetForeignField, targetTargetField, written.1, parentId)
  }

  /** A column name from a field and its annotation; a missing annotation is
      the NullPointerException of `getFieldName(field, null)`. */
  function ColumnOf(f: Field): (r: Result<string>)
    ensures r.Success? <==> DatabaseFieldOf(f).Some?
    ensures r.Success? ==> r.value == OrmliteReflection.FieldName(f, DatabaseFieldOf(f).value)
  {
    match DatabaseFieldOf(f)
    case None => Failure(NullPointerException("databaseField"))
    case Some(df) => Success(OrmliteReflection.FieldName(f, df))
  }

  /** The rest of `processManyToMany`: the parent's junction rows are deleted
      (the parent id spliced into the SQL) and one is inserted per target. */
  function ReplaceJunction(env: PoetrySpec.Env, db: Db, targetClass: JType, targetForeignField: Field, targetTargetField: Field,
                           targetIds: seq<ObjectId>, parentId: ObjectId): (r: Result<Db>)
  {
    var table :- OrmliteReflection.TableNameOrThrow(env.schema, targetClass);
    var fkColumn :- ColumnOf(targetForeignField);
    var parentText :- LegacyQueryUtils.ParseAttribute(parentId);
    var cleared :- Store.Delete(db, table, ColumnEqualsLiteral(fkColumn, parentText));
    var targetColumn :- ColumnOf(targetTargetField);
    InsertJunctionRows(cleared, table, fkColumn, parentId, targetColumn, targetIds, 0)
  }

  /** One `insert` of (fk = parent, target = id) per id of `ids[i..]`; a
      refused copy or a -1 is a RuntimeException. */
  function InsertJunctionRows(db: Db, table: string, fkColumn: string, parentId: Value, targetColumn: string, ids: seq<ObjectId>, i: nat): (r: Result<Db>)
    requires i <= |ids|
    decreases |ids| - i
  {
    if i == |ids| then Success(db)
    else
      var withParent := PutResult(map[], fkColumn, parentId);
      if !withParent.0 then Failure(RuntimeException("parent id copy failed"))
      else
        var values := PutResult(withParent.1, targetColumn, ids[i]);
        if !values.0 then Failure(RuntimeException("target id copy failed"))
        else
          match InsertStatement(db, table, None, values.1)
          case Failure(_) => Failure(RuntimeException("failed to insert item in " + table))
          case Success(inserted) =>
            if inserted.1 == -1 then Failure(RuntimeException("failed to insert item in " + table))
            else InsertJunctionRows(inserted.0, table, fkColumn, parentId, targetColumn, ids, i + 1)
  }

  /** One junction row: both ids are copied, then the row is inserted and the
      rest follow from the contents it leaves. */
  lemma JunctionRowsStep(db: Db, table: string, fkColumn: string, parentId: Value, targetColumn: string, ids: seq<ObjectId>, i: nat)
    requires i < |ids|
    ensures InsertJunctionRows(db, table, fkColumn, parentId, targetColumn, ids, i) ==
      var withParent := PutResult(map[], fkColumn, parentId);
      if !withParent.0 then Failure(RuntimeException("parent id copy failed"))
      else
        var values := PutResult(withParent.1, targetColumn, ids[i]);
        if !values.0 then Failure(RuntimeException("target id copy failed"))
        else
          var inserted := InsertStatement(db, table, None, values.1);
          if inserted.Failure? || inserted.value.1 == -1 then Failure(RuntimeException("failed to insert item in " + table))
          else InsertJunctionRows(inserted.value.0, table, fkColumn, parentId, targetColumn, ids, i + 1)
  {
  }

  // ---------------------------------------------------------------------
  // One-to-many

  /** `processManyToOne(mapping, parentId, parentClass)`: a null array
      changes nothing; otherwise the children are written, then linked. */
  function ProcessManyToOne(env: PoetrySpec.Env, db: Db, m: Mapping, parentId: ObjectId, parentClass: JType): (r: Result<Db>)
    decreases ArraySize(m.jsonArray), 7
  {
    match m.jsonArray
    case None => Success(db)
    case Some(arr) =>
      var fields :- ChildFields(env, m.field, parentClass);
      var written :- PersistChildren(env, db, m.field, arr, fields.0);
      LinkChildren(env, written.0, written.1, fields.0, fields.1, fields.2, parentId)
  }

  /** The lookups of `processManyToOne` before it writes: the child class,
      its id field and its field that refers to the parent. */
  function ChildFields(env: PoetrySpec.Env, collectionField: Field, parentClass: JType): (r: Result<(JType, Field, Field)>)
  {
    var targetClass :- OrmliteReflection.ForeignCollectionParameterType(collectionField);
    match OrmliteReflection.FindIdField(env.schema, targetClass)
    case None => Failure(RuntimeException("no id field found while processing foreign collection relation"))
    case Some(targetIdField) =>
      match OrmliteReflection.FindForeignField(env.schema, targetClass, parentClass)
      case None => Failure(RuntimeException("no foreign field found while processing foreign collection relation"))
      case Some(targetForeignField) => Success((targetClass, targetIdField, targetForeignField))
  }

  /** The children: whole objects, or with a
      `@ForeignCollectionFieldSingleTarget`, base values in its column. */
  function PersistChildren(env: PoetrySpec.Env, db: Db, collectionField: Field, arr: JsonArray, targetClass: JType): (r: Result<(Db, seq<ObjectId>)>)
    decreases Size(arr), 6
  {
    match FieldAnnotation(collectionField, SingleTargetType)
    case None => PersistArrayFrom(env, db, targetClass, arr, 0)
    case Some(singleTarget) => PersistArrayOfBaseTypes(env, db, targetClass, arr, singleTarget.targetField)
  }

  /** What `processManyToOne` works out before its statements: the foreign
      column and the ContentValues holding the parent id, the IN clause's
      arguments, the children's table and id column. */
  function PlanLink(env: PoetrySpec.Env, targetIds: seq<ObjectId>, targetClass: JType, targetIdField: Field,
                    targetForeignField: Field, parentId: ObjectId): (r: Result<PoetrySpec.LinkPlan>)
  {
    var foreign :- ForeignKey(targetForeignField, parentId);
    var query :- TargetQuery(env, targetIds, targetClass, targetIdField);
    Success(PoetrySpec.LinkPlan(query.1, foreign.0, foreign.1, query.2, query.0))
  }

  /** The arguments `createInClause` leaves for the children's ids, their
      table and their id column. */
  function TargetQuery(env: PoetrySpec.Env, targetIds: seq<ObjectId>, targetClass: JType, targetIdField: Field): (r: Result<(seq<string>, string, string)>)
  {
    var args :- PoetrySpec.InClauseArgs(targetIds);
    var table :- OrmliteReflection.TableNameOrThrow(env.schema, targetClass);
    var idColumn :- OrmliteReflection.FieldNameOrThrow(targetIdField);
    Success((args, table, idColumn))
  }

  /** The children's foreign column and the ContentValues holding the
      parent id in it. */
  function ForeignKey(targetForeignField: Field, parentId: ObjectId): (r: Result<(string, map<string, Value>)>)
  {
    var fkColumn :- ColumnOf(targetForeignField);
    var values := PutResult(map[], fkColumn, parentId);
    if !values.0 then Failure(RuntimeException("failed to copy foreign key " + fkColumn))
    else Success((fkColumn, values.1))
  }

  /** The statements of `processManyToOne`: the `update` of the listed
      children and, unless disabled, the delete of the parent's other
      children. */
  function LinkChildren(env: PoetrySpec.Env, db: Db, targetIds: seq<ObjectId>, targetClass: JType, targetIdField: Field,
                        targetForeignField: Field, parentId: ObjectId): (r: Result<Db>)
  {
    var plan :- PlanLink(env, targetIds, targetClass, targetIdField, targetForeignField, parentId);
    PoetrySpec.LinkTargets(db, plan.table, plan.fkColumn, parentId, plan.values, plan.idColumn, plan.args,
                           !IsEnabled(env.options, OPTION_DISABLE_FOREIGN_COLLECTION_CLEANUP))
  }
}
