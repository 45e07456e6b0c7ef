/** What the Kotlin persister (Poetry.kt) does to the store, as functions of
    the contents it starts from: each returns the contents it leaves and its
    answer, or the exception that aborts it (the contents a failed write
    leaves behind are rolled back by its transaction). */
module PoetrySpec {
  import opened Wrappers
  import opened JavaInts
  import opened Decimal
  import opened JsonModel
  import opened Values
  import opened Metadata
  import opened FieldAnnotations
  import opened Store
  import opened Entries
  import opened ContentValuesExt
  import opened Options
  import FieldLookup
  import JsonUtils
  import QueryUtils

  /** The model classes and the option flags a persister is created with. */
  datatype Env = Env(schema: Schema, options: bv32)

  /** A Kotlin `Long` id as the `Any` it is handed on as. */
  function LongIds(ids: seq<Int64>): (r: seq<ObjectId>)
    ensures |r| == |ids| && forall k | 0 <= k < |ids| :: r[k] == LongV(ids[k])
  {
    seq(|ids|, k requires 0 <= k < |ids| => LongV(ids[k]))
  }

  // ---------------------------------------------------------------------
  // Statement shapes

  /** Writing the object's row: an `update ... WHERE ROWID = ?` of the row
      found, else an `insertOrThrow` without a column hack. */
  function WriteRow(db: Db, table: string, values: map<string, Value>, id: Option<Int64>): (r: Result<(Db, Int64)>)
  {
    match id
    case Some(rowid) =>
      var updated :- Store.Update(db, table, values, ColumnEquals("ROWID", DecimalText(rowid)));
      Success((updated, rowid))
    case None => InsertStatement(db, table, None, values)
  }

  /** One `insertOrThrow` of (fk = parent, target = id) per id of
      `ids[i..]`. */
  function InsertJunctionRows(db: Db, table: string, fkColumn: string, parentId: Value, targetColumn: string, ids: seq<Int64>, i: nat): (r: Result<Db>)
    requires i <= |ids|
    ensures r.Success? && table in db.tables ==> table in r.value.tables
    decreases |ids| - i
  {
    if i == |ids| then Success(db)
    else
      var withParent := PutResult(map[], fkColumn, parentId);
      if !withParent.0 then Failure(UnsupportedType(fkColumn, parentId.className))
      else
        // a Long is always a supported value
        var values := PutResult(withParent.1, targetColumn, LongV(ids[i])).1;
        var inserted :- InsertStatement(db, table, None, values);
        InsertJunctionRows(inserted.0, table, fkColumn, parentId, targetColumn, ids, i + 1)
  }

  /** One junction row: the parent id and the target id are put, then the
      row is inserted and the rest follow from the contents it leaves. */
  lemma InsertJunctionStep(db: Db, table: string, fkColumn: string, parentId: Value, targetColumn: string, ids: seq<Int64>, i: nat)
    requires i < |ids|
    ensures InsertJunctionRows(db, table, fkColumn, parentId, targetColumn, ids, i) ==
      var withParent := PutResult(map[], fkColumn, parentId);
      if !withParent.0 then Failure(UnsupportedType(fkColumn, parentId.className))
      else
        match InsertStatement(db, table, None, PutResult(withParent.1, targetColumn, LongV(ids[i])).1)
        case Failure(e) => Failure(e)
        case Success(inserted) => InsertJunctionRows(inserted.0, table, fkColumn, parentId, targetColumn, ids, i + 1)
  {
  }

  /** The `IN (...)` arguments for a list of ids (`inClauseOf`). */
  function InClauseArgs(ids: seq<Value>): (r: Result<seq<string>>)
    ensures r.Success? <==> QueryUtils.FirstUnsupported(ids).None?
    ensures r.Success? ==> r.value == QueryUtils.ArgumentTexts(ids)
    ensures r.Failure? ==> r.error.InvalidParameterException?
  {
    match QueryUtils.FirstUnsupported(ids)
    case Some(k) => Failure(QueryUtils.ParseAttribute(ids[k]).error)
    case None => Success(QueryUtils.ArgumentTexts(ids))
  }

  /** `update(table, {fk: parent}, "id IN (...)")`, then, unless disabled,
      `delete(table, "id NOT IN (...) AND fk = <parent>")`. */
  function LinkTargets(db: Db, table: string, fkColumn: string, parentId: Value, values: map<string, Value>,
                       idColumn: string, args: seq<string>, cleanup: bool): (r: Result<Db>)
  {
    var updated :- Store.Update(db, table, values, ColumnIn(idColumn, args));
    if !cleanup then Success(updated)
    else
      var idToCleanUp :- QueryUtils.ParseAttribute(parentId);
      Store.Delete(updated, table, And(ColumnNotIn(idColumn, args), ColumnEqualsLiteral(fkColumn, idToCleanUp)))
  }

  // ---------------------------------------------------------------------
  // The persister

  /** `processDatabaseField(entry, jsonParentObject)`: the value a column
      entry stores, writing a nested foreign object first. */
  function ProcessDatabaseField(env: Env, db: Db, entry: Entry, obj: JsonObject): (r: Result<(Db, Value)>)
    requires entry.FieldEntry? && entry.jsonKey in Keys(obj)
    decreases Size(obj), 1
  {
    if IsNull(obj, entry.jsonKey) then Success((db, Null))
    else if IsForeign(entry.databaseField) then
      match OptJSONObject(obj, entry.jsonKey)
      case Some(foreign) =>
        var written :- WriteObjectInternal(env, db, entry.field.fieldType, foreign);
        Success((written.0, LongV(written.1)))
      case None =>
        var idField :- FindIdFieldOrThrow(env.schema, entry.field.fieldType);
        var v :- JsonUtils.GetValue(obj, entry.jsonKey, idField.fieldType);
        Success((db, v))
    else
      // the key is one of the object's, so `get` finds it
      Success((db, FromJson(Get(obj, entry.jsonKey).value)))
  }

  /** The fold over the column entries `entries[i..]` that fills the
      ContentValues of the object's row. */
  function FoldColumns(env: Env, db: Db, obj: JsonObject, entries: seq<Entry>, i: nat, values: map<string, Value>): (r: Result<(Db, map<string, Value>)>)
    requires i <= |entries|
    requires forall e | e in entries :: EntryOf(obj, e)
    decreases Size(obj), 2, |entries| - i
  {
    if i == |entries| then Success((db, values))
    else if !entries[i].FieldEntry? then FoldColumns(env, db, obj, entries, i + 1, values)
    else
      var entry := entries[i];
      assert entry in entries;
      assert EntryOf(obj, entry);
      var column := ColumnNameForField(entry.field, entry.databaseField);
      var processed :- ProcessDatabaseField(env, db, entry, obj);
      var put := PutResult(values, column, processed.1);
      if !put.0 then Failure(UnsupportedType(column, processed.1.className))
      else FoldColumns(env, processed.0, obj, entries, i + 1, put.1)
  }

  /** One `queryFirst` per id entry of `entries[i..]`, all of them made. */
  function IdLookups(db: Db, table: string, obj: JsonObject, entries: seq<Entry>, i: nat): (r: Result<seq<Option<Int64>>>)
    requires i <= |entries|
    decreases |entries| - i
  {
    if i == |entries| then Success([])
    else if !(entries[i].FieldEntry? && IsId(entries[i].databaseField)) then IdLookups(db, table, obj, entries, i + 1)
    else
      var found :- IdLookup(db, table, obj, entries[i]);
      var rest :- IdLookups(db, table, obj, entries, i + 1);
      Success([found] + rest)
  }

  /** Lookups already made, in front of the outcome of the rest. */
  function PrependFound(seen: seq<Option<Int64>>, r: Result<seq<Option<Int64>>>): Result<seq<Option<Int64>>>
  {
    match r
    case Success(rest) => Success(seen + rest)
    case Failure(e) => Failure(e)
  }

  /** One entry of the id lookups: an id entry is looked up, any other is
      passed over. */
  lemma IdLookupsStep(db: Db, table: string, obj: JsonObject, entries: seq<Entry>, i: nat)
    requires i < |entries|
    ensures IdLookups(db, table, obj, entries, i) ==
      if entries[i].FieldEntry? && IsId(entries[i].databaseField) then
        match IdLookup(db, table, obj, entries[i])
        case Failure(e) => Failure(e)
        case Success(found) => PrependFound([found], IdLookups(db, table, obj, entries, i + 1))
      else IdLookups(db, table, obj, entries, i + 1)
  {
  }

  /** The `queryFirst` of one id entry: the rowid of the first row whose id
      column reads the JSON id. */
  function IdLookup(db: Db, table: string, obj: JsonObject, entry: Entry): (r: Result<Option<Int64>>)
    requires entry.FieldEntry?
  {
    var column := ColumnNameForField(entry.field, entry.databaseField);
    var idValue :- JsonUtils.GetValue(obj, entry.jsonKey, entry.field.fieldType);
    Store.QueryFirst(db, table, column, Text(idValue))
  }

  /** The rowid of the stored object the JSON denotes: the answer of the
      first id lookup (`firstOrNull`), none without an id entry. */
  function ExistingId(db: Db, table: string, obj: JsonObject, entries: seq<Entry>): (r: Result<Option<Int64>>)
  {
    var found :- IdLookups(db, table, obj, entries, 0);
    Success(if found == [] then None else found[0])
  }

  /** The relations of `entries[i..]`, each written with the parent's id. */
  function ProcessRelations(env: Env, db: Db, obj: JsonObject, entries: seq<Entry>, i: nat, parentId: Int64): (r: Result<Db>)
    requires i <= |entries|
    requires forall e | e in entries :: EntryOf(obj, e)
    decreases Size(obj), 2, |entries| - i
  {
    if i == |entries| then Success(db)
    else
    assert entries[i] in entries;
    assert EntryOf(obj, entries[i]);
    if entries[i].ManyToManyEntry? then
      var db' :- ProcessManyToMany(env, db, entries[i], LongV(parentId));
      ProcessRelations(env, db', obj, entries, i + 1, parentId)
    else if entries[i].ManyToOneEntry? then
      var db' :- ProcessManyToOne(env, db, entries[i], LongV(parentId));
      ProcessRelations(env, db', obj, entries, i + 1, parentId)
    else
      ProcessRelations(env, db, obj, entries, i + 1, parentId)
  }

  /** `writeObjectInternal(modelClass, jsonObject)`: the row of the object,
      with its nested objects and relations; answers its rowid. */
  function WriteObjectInternal(env: Env, db: Db, t: JType, obj: JsonObject): (r: Result<(Db, Int64)>)
    decreases Size(obj), 3
  {
    var tableName :- TableNameOrThrow(env.schema, t);
    var entries :- EntriesOf(env.schema, t, obj);
    var columns :- FoldColumns(env, db, obj, entries, 0, map[]);
    var id :- ExistingId(columns.0, tableName, obj, entries);
    var written :- WriteRow(columns.0, tableName, columns.1, id);
    var related :- ProcessRelations(env, written.0, obj, entries, 0, written.1);
    Success((related, written.1))
  }

  /** `writeArrayOfObjects(modelClass, jsonArray)` from element `i` on: each
      element is fetched as an object and written before the next one. */
  function WriteArrayFrom(env: Env, db: Db, t: JType, arr: JsonArray, i: nat): (r: Result<(Db, seq<Int64>)>)
    requires i <= |arr.items|
    decreases Size(arr), 4, |arr.items| - i
  {
    if i == |arr.items| then Success((db, []))
    else
      var obj :- GetJSONObjectAt(arr, i);
      var written :- WriteObjectInternal(env, db, t, obj);
      var rest :- WriteArrayFrom(env, written.0, t, arr, i + 1);
      Success((rest.0, [written.1] + rest.1))
  }

  /** `seen` followed by what the rest of a walk yields. */
  function PrependAll<T>(seen: seq<T>, r: Result<(Db, seq<T>)>): Result<(Db, seq<T>)>
  {
    match r
    case Success((db, rest)) => Success((db, seen + rest))
    case Failure(e) => Failure(e)
  }

  /** One element of `writeArrayOfObjects`: it is fetched and written, then
      the rest follow from the contents it leaves. */
  lemma WriteArrayStep(env: Env, db: Db, t: JType, arr: JsonArray, i: nat)
    requires i < |arr.items|
    ensures WriteArrayFrom(env, db, t, arr, i) ==
      match GetJSONObjectAt(arr, i)
      case Failure(e) => Failure(e)
      case Success(obj) =>
        match WriteObjectInternal(env, db, t, obj)
        case Failure(e) => Failure(e)
        case Success(written) => PrependAll([written.1], WriteArrayFrom(env, written.0, t, arr, i + 1))
  {
  }

  /** `writeArrayOfBaseTypes(...)` over `items[i..]`: one row per element,
      holding its text in the target column. */
  function InsertBaseValues(db: Db, table: string, column: string, items: seq<Json>, i: nat): (r: Result<(Db, seq<Value>)>)
    requires i <= |items|
    ensures r.Success? ==> |r.value.1| == |items| - i && forall k | 0 <= k < |r.value.1| :: r.value.1[k].LongV?
    decreases |items| - i
  {
    if i == |items| then Success((db, []))
    else
      var inserted :- InsertStatement(db, table, Some(column), map[column := CharSeqV(ToText(items[i]))]);
      var rest :- InsertBaseValues(inserted.0, table, column, items, i + 1);
      Success((rest.0, [LongV(inserted.1)] + rest.1))
  }

  /** One element of `writeArrayOfBaseTypes`: its row is inserted, then the
      rest follow from the contents it leaves. */
  lemma InsertBaseStep(db: Db, table: string, column: string, items: seq<Json>, i: nat)
    requires i < |items|
    ensures InsertBaseValues(db, table, column, items, i) ==
      match InsertStatement(db, table, Some(column), map[column := CharSeqV(ToText(items[i]))])
      case Failure(e) => Failure(e)
      case Success(inserted) => PrependAll([LongV(inserted.1)], InsertBaseValues(inserted.0, table, column, items, i + 1))
  {
  }

  function WriteArrayOfBaseTypes(env: Env, db: Db, t: JType, arr: JsonArray, targetField: string): (r: Result<(Db, seq<Value>)>)
  {
    var tableName :- TableNameOrThrow(env.schema, t);
    InsertBaseValues(db, tableName, targetField, arr.items, 0)
  }

  /** `writeArrayOfObjects` with the iterator as written (the pre-increment of
      `JsonArrayJsonObjectIterator.next()`): the `i`-th call fetches element
      `i + 1`, and each object is written as soon as it is fetched. */
  function WriteArrayAsWrittenFrom(env: Env, db: Db, t: JType, arr: JsonArray, i: nat): (r: Result<(Db, seq<Int64>)>)
    decreases |arr.items| - i
  {
    if i < |arr.items| then
      var obj :- GetJSONObjectAt(arr, i + 1);
      var written :- WriteObjectInternal(env, db, t, obj);
      PrependAll([written.1], WriteArrayAsWrittenFrom(env, written.0, t, arr, i + 1))
    else Success((db, []))
  }

  /** As written, `writeArrayOfObjects` succeeds only on the empty array: from
      any position inside a non-empty array it ends by fetching one past the
      last element. */
  lemma {:induction false} WriteArrayAsWrittenFails(env: Env, db: Db, t: JType, arr: JsonArray, i: nat)
    requires i < |arr.items|
    ensures WriteArrayAsWrittenFrom(env, db, t, arr, i).Failure?
    decreases |arr.items| - i
  {
    WriteArrayAsWrittenStep(env, db, t, arr, i);
    var obj := GetJSONObjectAt(arr, i + 1);
    if obj.Success? {
      var written := WriteObjectInternal(env, db, t, obj.value);
      if written.Success? {
        WriteArrayAsWrittenFails(env, written.value.0, t, arr, i + 1);
      }
    }
  }

  lemma WriteArrayAsWrittenStep(env: Env, db: Db, t: JType, arr: JsonArray, i: nat)
    requires i < |arr.items|
    ensures WriteArrayAsWrittenFrom(env, db, t, arr, i) ==
      match GetJSONObjectAt(arr, i + 1)
      case Failure(e) => Failure(e)
      case Success(obj) =>
        match WriteObjectInternal(env, db, t, obj)
        case Failure(e) => Failure(e)
        case Success(written) => PrependAll([written.1], WriteArrayAsWrittenFrom(env, written.0, t, arr, i + 1))
  {
  }

  /** `writeArrayOfBaseTypes` with the iterator as written: the eager
      `map { it.toString() }` drains `toIterable()` before any row is
      inserted. */
  function WriteArrayOfBaseTypesAsWritten(env: Env, db: Db, t: JType, arr: JsonArray, targetField: string): (r: Result<(Db, seq<Value>)>)
  {
    var tableName :- TableNameOrThrow(env.schema, t);
    var items :- JsonUtils.AsWrittenFrom(arr, 0);
    InsertBaseValues(db, tableName, targetField, items, 0)
  }

  /** As written, `writeArrayOfBaseTypes` on a non-empty array throws a
      JSONException before touching the database (or fails on the table name
      first); on the empty array it inserts nothing, as the corrected one. */
  lemma BaseTypesAsWrittenFail(env: Env, db: Db, t: JType, arr: JsonArray, targetField: string)
    ensures |arr.items| > 0 ==> WriteArrayOfBaseTypesAsWritten(env, db, t, arr, targetField).Failure?
    ensures |arr.items| > 0 && TableNameOrThrow(env.schema, t).Success? ==>
      WriteArrayOfBaseTypesAsWritten(env, db, t, arr, targetField).error.JSONException?
    ensures |arr.items| == 0 ==>
      WriteArrayOfBaseTypesAsWritten(env, db, t, arr, targetField) == WriteArrayOfBaseTypes(env, db, t, arr, targetField)
  {
    if |arr.items| > 0 {
      JsonUtils.AsWrittenIterationFails(arr);
    }
  }

  /** `processManyToMany(entry, parentId)`. */
  function ProcessManyToMany(env: Env, db: Db, entry: Entry, parentId: Value): (r: Result<Db>)
    requires entry.ManyToManyEntry?
    decreases Size(entry.jsonArray), 5
  {
    var targetClass :- ForeignCollectionParameterType(entry.field);
    var targetForeignField :- FindForeignFieldOrThrow(env.schema, targetClass, ModelType(entry.ModelClass()));
    var targetTargetField :- FieldLookup.FindFirstFieldOfTypeOrThrow(env.schema, targetClass, JavaObjectType(entry.targetType));
    var written :- WriteArrayFrom(env, db, targetTargetField.fieldType, entry.jsonArray, 0);
    ReplaceJunction(env, written.0, targetClass, targetForeignField, targetTargetField, written.1, parentId)
  }

  /** What the junction `delete` of `processManyToMany` needs: the junction
      table, its column for the parent and the parent id spliced in as text. */
  function JunctionClear(env: Env, targetClass: JType, targetForeignField: Field, parentId: Value): (r: Result<(string, string, string)>)
  {
    var targetTableName :- TableNameOrThrow(env.schema, targetClass);
    var foreignInfo :- DatabaseFieldNotNull(targetForeignField);
    var parentText :- QueryUtils.ParseAttribute(parentId);
    Success((targetTableName, ColumnNameForField(targetForeignField, foreignInfo), parentText))
  }

  /** The rest of `processManyToMany`, once the targets are written: the
      parent's junction rows are deleted and one is inserted per target. */
  function ReplaceJunction(env: Env, db: Db, targetClass: JType, targetForeignField: Field, targetTargetField: Field,
                           targetIds: seq<Int64>, parentId: Value): (r: Result<Db>)
  {
    var clear :- JunctionClear(env, targetClass, targetForeignField, parentId);
    var cleared :- Store.Delete(db, clear.0, ColumnEqualsLiteral(clear.1, clear.2));
    InsertJunction(cleared, targetTargetField, clear.0, clear.1, parentId, targetIds)
  }

  /** The inserts of `processManyToMany`, after the delete: the target column
      is looked up, then one junction row per target. */
  function InsertJunction(db: Db, targetTargetField: Field, table: string, fkColumn: string, parentId: Value, targetIds: seq<Int64>): (r: Result<Db>)
  {
    var targetInfo :- DatabaseFieldNotNull(targetTargetField);
    InsertJunctionRows(db, table, fkColumn, parentId, ColumnNameForField(targetTargetField, targetInfo), targetIds, 0)
  }

  /** `processManyToOne(entry, parentId)`. */
  function ProcessManyToOne(env: Env, db: Db, entry: Entry, parentId: Value): (r: Result<Db>)
    requires entry.ManyToOneEntry?
    decreases Size(entry.jsonArray), 5
  {
    var targetClass :- ForeignCollectionParameterType(entry.field);
    var targetIdField :- FindIdFieldOrThrow(env.schema, targetClass);
    var targetForeignField :- FindForeignFieldOrThrow(env.schema, targetClass, ModelType(entry.ModelClass()));
    var written :- WriteChildren(env, db, entry, targetClass);
    LinkChildren(env, written.0, written.1, targetClass, targetIdField, targetForeignField, parentId)
  }

  /** The children of a `processManyToOne`: whole objects, answering their
      rowids, or, with a `@ManyToManySingleTarget` annotation, base values in
      the annotated column, answering the rowids as the target ids. */
  function WriteChildren(env: Env, db: Db, entry: Entry, targetClass: JType): (r: Result<(Db, seq<Value>)>)
    requires entry.ManyToOneEntry?
    decreases Size(entry.jsonArray), 5, 0
  {
    match FieldAnnotation(entry.field, SingleTargetType)
    case None =>
      var objects :- WriteArrayFrom(env, db, targetClass, entry.jsonArray, 0);
      Success((objects.0, LongIds(objects.1)))
    case Some(singleTarget) =>
      WriteArrayOfBaseTypes(env, db, targetClass, entry.jsonArray, singleTarget.targetField)
  }

  /** The foreign column of the children and the ContentValues that sets it
      to the parent id. */
  function ForeignColumn(targetForeignField: Field, parentId: Value): (r: Result<(string, map<string, Value>)>)
  {
    var foreignInfo :- DatabaseFieldOrThrow(targetForeignField);
    var fkColumn := ColumnNameForField(targetForeignField, foreignInfo);
    var values := PutResult(map[], fkColumn, parentId);
    if !values.0 then Failure(UnsupportedType(fkColumn, parentId.className))
    else Success((fkColumn, values.1))
  }

  /** The IN clause's arguments, the children's table and their id column,
      looked up in that order. */
  function TargetQuery(env: Env, targetIds: seq<Value>, targetClass: JType, targetIdField: Field): (r: Result<(seq<string>, string, string)>)
  {
    var args :- InClauseArgs(targetIds);
    var targetTableName :- TableNameOrThrow(env.schema, targetClass);
    var idColumn :- ColumnNameForFieldOrThrow(targetIdField);
    Success((args, targetTableName, idColumn))
  }

  /** What `processManyToOne` works out before its statements: the children's
      table, their foreign column and the ContentValues holding the parent id,
      their id column and the IN clause's arguments. */
  datatype LinkPlan = LinkPlan(table: string, fkColumn: string, values: map<string, Value>, idColumn: string, args: seq<string>)

  function PlanLink(env: Env, targetIds: seq<Value>, targetClass: JType, targetIdField: Field, targetForeignField: Field, parentId: Value): (r: Result<LinkPlan>)
  {
    var foreign :- ForeignColumn(targetForeignField, parentId);
    var query :- TargetQuery(env, targetIds, targetClass, targetIdField);
    Success(LinkPlan(query.1, foreign.0, foreign.1, query.2, query.0))
  }

  /** The rest of `processManyToOne`: the children just written get the
      parent's id in their foreign column. */
  function LinkChildren(env: Env, db: Db, targetIds: seq<Value>, targetClass: JType, targetIdField: Field, targetForeignField: Field, parentId: Value): (r: Result<Db>)
  {
    var plan :- PlanLink(env, targetIds, targetClass, targetIdField, targetForeignField, parentId);
    LinkTargets(db, plan.table, plan.fkColumn, parentId, plan.values, plan.idColumn, plan.args,
                !IsEnabled(env.options, DISABLE_FOREIGN_COLLECTION_CLEANUP))
  }

  // ---------------------------------------------------------------------
  // Properties

  /** Without a `@DatabaseTable` the write fails with the lookup's exception
      before any statement runs. */
  lemma MissingTableFailsFirst(env: Env, db: Db, t: JType, obj: JsonObject)
    requires ClassAnnotation(env.schema, t, DatabaseTableType).None?
    ensures WriteObjectInternal(env, db, t, obj) == Failure(TableNameOrThrow(env.schema, t).error)
    ensures WriteObjectInternal(env, db, t, obj).error.RuntimeException?
  {
  }

  /** Every column entry reaches the ContentValues under its column name,
      and nothing put earlier is lost. */
  lemma {:induction false} FoldColumnsPutsEveryColumn(env: Env, db: Db, obj: JsonObject, entries: seq<Entry>, i: nat, values: map<string, Value>)
    requires i <= |entries|
    requires forall e | e in entries :: EntryOf(obj, e)
    requires FoldColumns(env, db, obj, entries, i, values).Success?
    ensures values.Keys <= FoldColumns(env, db, obj, entries, i, values).value.1.Keys
    ensures forall k | i <= k < |entries| && entries[k].FieldEntry? ::
      ColumnNameForField(entries[k].field, entries[k].databaseField) in FoldColumns(env, db, obj, entries, i, values).value.1
    decreases |entries| - i
  {
    if i < |entries| {
      if !entries[i].FieldEntry? {
        FoldColumnsPutsEveryColumn(env, db, obj, entries, i + 1, values);
      } else {
        var entry := entries[i];
        assert entry in entries;
        var column := ColumnNameForField(entry.field, entry.databaseField);
        var processed := ProcessDatabaseField(env, db, entry, obj).value;
        var put := PutResult(values, column, processed.1);
        FoldColumnsPutsEveryColumn(env, processed.0, obj, entries, i + 1, put.1);
      }
    }
  }

  /** Every answer of an id lookup is the rowid of a stored row. */
  lemma {:induction false} IdLookupsFindStoredRows(db: Db, table: string, obj: JsonObject, entries: seq<Entry>, i: nat)
    requires i <= |entries|
    requires IdLookups(db, table, obj, entries, i).Success?
    ensures forall k | 0 <= k < |IdLookups(db, table, obj, entries, i).value| ::
      IdLookups(db, table, obj, entries, i).value[k].Some? ==>
        table in db.tables && HasRowid(db.tables[table].rows, IdLookups(db, table, obj, entries, i).value[k].value)
    decreases |entries| - i
  {
    if i < |entries| {
      IdLookupsFindStoredRows(db, table, obj, entries, i + 1);
      if entries[i].FieldEntry? && IsId(entries[i].databaseField) {
        var entry := entries[i];
        var column := ColumnNameForField(entry.field, entry.databaseField);
        var idValue := JsonUtils.GetValue(obj, entry.jsonKey, entry.field.fieldType).value;
        var found := IdLookup(db, table, obj, entry).value;
        if found.Some? {
          var row :| row in db.tables[table].rows && row.rowid == found.value && Selects(db.tables[table], row, ColumnEquals(column, Text(idValue)));
          var n :| 0 <= n < |db.tables[table].rows| && db.tables[table].rows[n] == row;
        }
      }
    }
  }

  /** An object without an id entry is never looked up; one the lookup finds
      is a stored row. */
  lemma ExistingIdIsStoredRow(db: Db, table: string, obj: JsonObject, entries: seq<Entry>)
    ensures (forall e | e in entries :: !(e.FieldEntry? && IsId(e.databaseField))) ==>
      ExistingId(db, table, obj, entries) == Success(None)
    ensures ExistingId(db, table, obj, entries).Success? && ExistingId(db, table, obj, entries).value.Some? ==>
      table in db.tables && HasRowid(db.tables[table].rows, ExistingId(db, table, obj, entries).value.value)
  {
    if forall e | e in entries :: !(e.FieldEntry? && IsId(e.databaseField)) {
      NoIdNoLookups(db, table, obj, entries, 0);
    }
    if ExistingId(db, table, obj, entries).Success? {
      IdLookupsFindStoredRows(db, table, obj, entries, 0);
    }
  }

  lemma {:induction false} NoIdNoLookups(db: Db, table: string, obj: JsonObject, entries: seq<Entry>, i: nat)
    requires i <= |entries|
    requires forall e | e in entries :: !(e.FieldEntry? && IsId(e.databaseField))
    ensures IdLookups(db, table, obj, entries, i) == Success([])
    decreases |entries| - i
  {
    if i < |entries| {
      assert entries[i] in entries;
      NoIdNoLookups(db, table, obj, entries, i + 1);
    }
  }

  /** An object found by id is updated in place, the row with that rowid and
      no other, and keeps its id; one not found is inserted as exactly one
      new row under a fresh rowid. Other tables are left alone. */
  lemma WriteRowTargetsOneRow(db: Db, table: string, values: map<string, Value>, id: Option<Int64>)
    requires Valid(db)
    requires WriteRow(db, table, values, id).Success?
    ensures table in db.tables && table in WriteRow(db, table, values, id).value.0.tables
    ensures forall name | name in db.tables && name != table ::
      name in WriteRow(db, table, values, id).value.0.tables &&
      WriteRow(db, table, values, id).value.0.tables[name] == db.tables[name]
    ensures id.Some? ==>
      var t := db.tables[table];
      var rows' := WriteRow(db, table, values, id).value.0.tables[table].rows;
      WriteRow(db, table, values, id).value.1 == id.value &&
      |rows'| == |t.rows| &&
      forall k | 0 <= k < |t.rows| :: rows'[k] == if t.rows[k].rowid == id.value then UpdatedRow(t, t.rows[k], values) else t.rows[k]
    ensures id.None? ==>
      var t := db.tables[table];
      var rowid := WriteRow(db, table, values, id).value.1;
      WriteRow(db, table, values, id).value.0.tables[table].rows == t.rows + [Row(rowid, CellsOf(t, values))] &&
      !HasRowid(t.rows, rowid)
  {
    match id
    case Some(rowid) =>
      var t := db.tables[table];
      forall k | 0 <= k < |t.rows|
        ensures Selects(t, t.rows[k], ColumnEquals("ROWID", DecimalText(rowid))) <==> t.rows[k].rowid == rowid
      {
        RowidEqualsSelectsThatRow(t, t.rows[k], rowid);
      }
    case None =>
      InsertedRowidIsFresh(db, table, values);
  }

  // ---------------------------------------------------------------------
  // Junction rows

  /** The target cells of the rows whose foreign column reads `parentText`,
      in row order: the targets a parent is linked to. */
  function Linked(t: Table, rows: seq<Row>, fkColumn: string, parentText: string, targetColumn: string): (r: seq<Option<Value>>)
    ensures |r| <= |rows|
  {
    if rows == [] then []
    else
      (if CellText(t, rows[0], fkColumn) == Some(parentText)
       then [if targetColumn in rows[0].cells then Some(rows[0].cells[targetColumn]) else None]
       else []) +
      Linked(t, rows[1..], fkColumn, parentText, targetColumn)
  }

  lemma {:induction false} LinkedAppend(t: Table, rows: seq<Row>, row: Row, fkColumn: string, parentText: string, targetColumn: string)
    ensures Linked(t, rows + [row], fkColumn, parentText, targetColumn) ==
      Linked(t, rows, fkColumn, parentText, targetColumn) + Linked(t, [row], fkColumn, parentText, targetColumn)
    decreases |rows|
  {
    if rows == [] {
      assert rows + [row] == [row];
    } else {
      assert (rows + [row])[1..] == rows[1..] + [row];
      LinkedAppend(t, rows[1..], row, fkColumn, parentText, targetColumn);
    }
  }

  /** The same rows read the same through tables that agree on the alias. */
  lemma {:induction false} LinkedSameAlias(t: Table, t': Table, rows: seq<Row>, fkColumn: string, parentText: string, targetColumn: string)
    requires t.rowidAlias == t'.rowidAlias
    ensures Linked(t, rows, fkColumn, parentText, targetColumn) == Linked(t', rows, fkColumn, parentText, targetColumn)
    decreases |rows|
  {
    if rows != [] {
      LinkedSameAlias(t, t', rows[1..], fkColumn, parentText, targetColumn);
    }
  }

  /** No row is linked when none selects on the foreign column. */
  lemma {:induction false} NothingLinked(t: Table, rows: seq<Row>, fkColumn: string, parent: Int64, targetColumn: string)
    requires forall row | row in rows :: !Selects(t, row, ColumnEqualsLiteral(fkColumn, DecimalText(parent)))
    ensures Linked(t, rows, fkColumn, DecimalText(parent), targetColumn) == []
    decreases |rows|
  {
    ParseDecimalText(parent);
    if rows != [] {
      assert rows[0] in rows;
      NothingLinked(t, rows[1..], fkColumn, parent, targetColumn);
    }
  }

  /** The rows whose foreign column does not read `parentText`, in row
      order: the rows of other parents, or of none. */
  function Unlinked(t: Table, rows: seq<Row>, fkColumn: string, parentText: string): (r: seq<Row>)
    ensures |r| <= |rows|
  {
    if rows == [] then []
    else
      (if CellText(t, rows[0], fkColumn) == Some(parentText) then [] else [rows[0]]) +
      Unlinked(t, rows[1..], fkColumn, parentText)
  }

  lemma {:induction false} UnlinkedAppend(t: Table, rows: seq<Row>, row: Row, fkColumn: string, parentText: string)
    ensures Unlinked(t, rows + [row], fkColumn, parentText) ==
      Unlinked(t, rows, fkColumn, parentText) + Unlinked(t, [row], fkColumn, parentText)
    decreases |rows|
  {
    if rows == [] {
      assert rows + [row] == [row];
    } else {
      assert (rows + [row])[1..] == rows[1..] + [row];
      UnlinkedAppend(t, rows[1..], row, fkColumn, parentText);
    }
  }

  lemma {:induction false} UnlinkedSameAlias(t: Table, t': Table, rows: seq<Row>, fkColumn: string, parentText: string)
    requires t.rowidAlias == t'.rowidAlias
    ensures Unlinked(t, rows, fkColumn, parentText) == Unlinked(t', rows, fkColumn, parentText)
    decreases |rows|
  {
    if rows != [] {
      UnlinkedSameAlias(t, t', rows[1..], fkColumn, parentText);
    }
  }

  /** The junction `DELETE ... WHERE fk = <parent>` removes the parent's rows
      and no other: the rows of other parents are left as they were, in
      order. */
  lemma {:induction false} ClearKeepsUnlinked(t: Table, rows: seq<Row>, fkColumn: string, parentText: string)
    requires LiteralText(parentText) == Some(Some(parentText))
    ensures Unlinked(t, DeleteRows(t, rows, ColumnEqualsLiteral(fkColumn, parentText)), fkColumn, parentText) ==
      Unlinked(t, rows, fkColumn, parentText)
    decreases |rows|
  {
    if rows != [] {
      var p := ColumnEqualsLiteral(fkColumn, parentText);
      assert Selects(t, rows[0], p) <==> CellText(t, rows[0], fkColumn) == Some(parentText);
      ClearKeepsUnlinked(t, rows[1..], fkColumn, parentText);
      var rest := DeleteRows(t, rows[1..], p);
      if Selects(t, rows[0], p) {
        assert DeleteRows(t, rows, p) == rest;
      } else {
        var kept := [rows[0]] + rest;
        assert DeleteRows(t, rows, p) == kept;
        assert kept[0] == rows[0] && kept[1..] == rest;
      }
    }
  }

  function TargetCells(ids: seq<Int64>): (r: seq<Option<Value>>)
    ensures |r| == |ids| && forall k | 0 <= k < |ids| :: r[k] == Some(LongV(ids[k]))
  {
    seq(|ids|, k requires 0 <= k < |ids| => Some(LongV(ids[k])))
  }

  /** One junction insert links the parent to one more target. */
  lemma JunctionInsertLinks(db: Db, table: string, fkColumn: string, parent: Int64, targetColumn: string, id: Int64, parentText: string)
    requires table in db.tables && fkColumn != targetColumn
    requires parentText == DecimalText(parent)
    requires !IsRowidColumn(db.tables[table], fkColumn) && !IsRowidColumn(db.tables[table], targetColumn)
    requires InsertStatement(db, table, None, map[fkColumn := LongV(parent), targetColumn := LongV(id)]).Success?
    ensures var db1 := InsertStatement(db, table, None, map[fkColumn := LongV(parent), targetColumn := LongV(id)]).value.0;
      table in db1.tables && db1.tables[table].rowidAlias == db.tables[table].rowidAlias &&
      Linked(db1.tables[table], db1.tables[table].rows, fkColumn, parentText, targetColumn) ==
        Linked(db.tables[table], db.tables[table].rows, fkColumn, parentText, targetColumn) + [Some(LongV(id))]
    ensures var db1 := InsertStatement(db, table, None, map[fkColumn := LongV(parent), targetColumn := LongV(id)]).value.0;
      Unlinked(db1.tables[table], db1.tables[table].rows, fkColumn, parentText) ==
        Unlinked(db.tables[table], db.tables[table].rows, fkColumn, parentText) &&
      forall name | name in db.tables && name != table :: name in db1.tables && db1.tables[name] == db.tables[name]
  {
    var t := db.tables[table];
    var values := map[fkColumn := LongV(parent), targetColumn := LongV(id)];
    assert |values| > 0 by { assert fkColumn in values; }
    var inserted := Insert(db, table, values).value;
    var t1 := inserted.0.tables[table];
    var row := Row(inserted.1, CellsOf(t, values));
    assert CellsOf(t, values) == values;
    LinkedAppend(t1, t.rows, row, fkColumn, parentText, targetColumn);
    LinkedSameAlias(t, t1, t.rows, fkColumn, parentText, targetColumn);
    assert Linked(t1, [row], fkColumn, parentText, targetColumn) == [Some(LongV(id))];
    UnlinkedAppend(t1, t.rows, row, fkColumn, parentText);
    UnlinkedSameAlias(t, t1, t.rows, fkColumn, parentText);
    assert Unlinked(t1, [row], fkColumn, parentText) == [];
  }

  /** The first junction insert of `ids[i..]` leaves `db1`, linked to one
      more target, and the rest continue from there. */
  lemma JunctionRowsStep(db: Db, table: string, fkColumn: string, parent: Int64, targetColumn: string, ids: seq<Int64>, i: nat, parentText: string)
      returns (db1: Db)
    requires i < |ids|
    requires table in db.tables && fkColumn != targetColumn
    requires parentText == DecimalText(parent)
    requires !IsRowidColumn(db.tables[table], fkColumn) && !IsRowidColumn(db.tables[table], targetColumn)
    requires InsertJunctionRows(db, table, fkColumn, LongV(parent), targetColumn, ids, i).Success?
    ensures InsertJunctionRows(db, table, fkColumn, LongV(parent), targetColumn, ids, i) ==
      InsertJunctionRows(db1, table, fkColumn, LongV(parent), targetColumn, ids, i + 1)
    ensures table in db1.tables && db1.tables[table].rowidAlias == db.tables[table].rowidAlias
    ensures Linked(db1.tables[table], db1.tables[table].rows, fkColumn, parentText, targetColumn) ==
      Linked(db.tables[table], db.tables[table].rows, fkColumn, parentText, targetColumn) + [Some(LongV(ids[i]))]
    ensures Unlinked(db1.tables[table], db1.tables[table].rows, fkColumn, parentText) ==
      Unlinked(db.tables[table], db.tables[table].rows, fkColumn, parentText)
    ensures forall name | name in db.tables && name != table :: name in db1.tables && db1.tables[name] == db.tables[name]
  {
    var values := map[fkColumn := LongV(parent), targetColumn := LongV(ids[i])];
    assert PutResult(PutResult(map[], fkColumn, LongV(parent)).1, targetColumn, LongV(ids[i])).1 == values;
    db1 := InsertStatement(db, table, None, values).value.0;
    JunctionInsertLinks(db, table, fkColumn, parent, targetColumn, ids[i], parentText);
  }

  lemma TargetCellsCons(ids: seq<Int64>, i: nat)
    requires i < |ids|
    ensures TargetCells(ids[i..]) == [Some(LongV(ids[i]))] + TargetCells(ids[i + 1..])
  {
    var l := TargetCells(ids[i..]);
    var r := [Some(LongV(ids[i]))] + TargetCells(ids[i + 1..]);
    assert |l| == |r|;
    forall k | 0 <= k < |l| ensures l[k] == r[k] {
      if k > 0 { assert ids[i..][k] == ids[i + 1..][k - 1]; }
    }
  }

  /** Links gained one step at a time add up to the links of `ids[i..]`. */
  lemma TargetCellsAfter(before: seq<Option<Value>>, middle: seq<Option<Value>>, after: seq<Option<Value>>, ids: seq<Int64>, i: nat)
    requires i < |ids|
    requires middle == before + [Some(LongV(ids[i]))]
    requires after == middle + TargetCells(ids[i + 1..])
    ensures after == before + TargetCells(ids[i..])
  {
    TargetCellsCons(ids, i);
    assert (before + [Some(LongV(ids[i]))]) + TargetCells(ids[i + 1..]) == before + ([Some(LongV(ids[i]))] + TargetCells(ids[i + 1..]));
  }

  /** The junction inserts of `ids[i..]` link the parent to those targets in
      order after the ones it had. */
  lemma {:induction false} JunctionRowsFrom(db: Db, table: string, fkColumn: string, parent: Int64, targetColumn: string, ids: seq<Int64>, i: nat, parentText: string, db': Db)
    requires i <= |ids|
    requires table in db.tables && fkColumn != targetColumn
    requires parentText == DecimalText(parent)
    requires !IsRowidColumn(db.tables[table], fkColumn) && !IsRowidColumn(db.tables[table], targetColumn)
    requires InsertJunctionRows(db, table, fkColumn, LongV(parent), targetColumn, ids, i) == Success(db')
    ensures table in db'.tables
    ensures Linked(db'.tables[table], db'.tables[table].rows, fkColumn, parentText, targetColumn) ==
      Linked(db.tables[table], db.tables[table].rows, fkColumn, parentText, targetColumn) + TargetCells(ids[i..])
    ensures Unlinked(db'.tables[table], db'.tables[table].rows, fkColumn, parentText) ==
      Unlinked(db.tables[table], db.tables[table].rows, fkColumn, parentText)
    ensures forall name | name in db.tables && name != table :: name in db'.tables && db'.tables[name] == db.tables[name]
    decreases |ids| - i
  {
    if i < |ids| {
      var db1 := JunctionRowsStep(db, table, fkColumn, parent, targetColumn, ids, i, parentText);
      JunctionRowsFrom(db1, table, fkColumn, parent, targetColumn, ids, i + 1, parentText, db');
      TargetCellsAfter(Linked(db.tables[table], db.tables[table].rows, fkColumn, parentText, targetColumn),
        Linked(db1.tables[table], db1.tables[table].rows, fkColumn, parentText, targetColumn),
        Linked(db'.tables[table], db'.tables[table].rows, fkColumn, parentText, targetColumn), ids, i);
    } else {
      assert TargetCells(ids[i..]) == [];
    }
  }

  /** `processManyToMany` after writing the targets: deleting the parent's
      junction rows and inserting one per target id leaves the parent linked
      to exactly those ids, in order. */
  lemma JunctionRowsAreTheIds(db: Db, table: string, fkColumn: string, parent: Int64, targetColumn: string, ids: seq<Int64>)
    requires table in db.tables && fkColumn != targetColumn
    requires !IsRowidColumn(db.tables[table], fkColumn) && !IsRowidColumn(db.tables[table], targetColumn)
    requires Store.Delete(db, table, ColumnEqualsLiteral(fkColumn, DecimalText(parent))).Success?
    requires InsertJunctionRows(Store.Delete(db, table, ColumnEqualsLiteral(fkColumn, DecimalText(parent))).value,
                                table, fkColumn, LongV(parent), targetColumn, ids, 0).Success?
    ensures var db' := InsertJunctionRows(Store.Delete(db, table, ColumnEqualsLiteral(fkColumn, DecimalText(parent))).value,
                                          table, fkColumn, LongV(parent), targetColumn, ids, 0).value;
      table in db'.tables &&
      Linked(db'.tables[table], db'.tables[table].rows, fkColumn, DecimalText(parent), targetColumn) == TargetCells(ids)
    ensures var db' := InsertJunctionRows(Store.Delete(db, table, ColumnEqualsLiteral(fkColumn, DecimalText(parent))).value,
                                          table, fkColumn, LongV(parent), targetColumn, ids, 0).value;
      Unlinked(db'.tables[table], db'.tables[table].rows, fkColumn, DecimalText(parent)) ==
        Unlinked(db.tables[table], db.tables[table].rows, fkColumn, DecimalText(parent)) &&
      forall name | name in db.tables && name != table :: name in db'.tables && db'.tables[name] == db.tables[name]
  {
    var p := ColumnEqualsLiteral(fkColumn, DecimalText(parent));
    var cleared := Store.Delete(db, table, p).value;
    var t := cleared.tables[table];
    ParseDecimalText(parent);
    ClearKeepsUnlinked(db.tables[table], db.tables[table].rows, fkColumn, DecimalText(parent));
    UnlinkedSameAlias(db.tables[table], t, t.rows, fkColumn, DecimalText(parent));
    NothingLinked(t, t.rows, fkColumn, parent, targetColumn);
    JunctionRowsFrom(cleared, table, fkColumn, parent, targetColumn, ids, 0, DecimalText(parent),
      InsertJunctionRows(cleared, table, fkColumn, LongV(parent), targetColumn, ids, 0).value);
    assert ids[0..] == ids;
  }

  // ---------------------------------------------------------------------
  // Linking one-to-many targets

  /** Setting one column that is not the rowid leaves the other columns as
      they read. */
  lemma SetColumnReads(t: Table, row: Row, fkColumn: string, v: Value, column: string)
    requires !IsRowidColumn(t, fkColumn) && Stored(v) == Some(v)
    ensures CellText(t, UpdatedRow(t, row, map[fkColumn := v]), fkColumn) == StoredText(v)
    ensures column != fkColumn ==> CellText(t, UpdatedRow(t, row, map[fkColumn := v]), column) == CellText(t, row, column)
  {
    assert CellsOf(t, map[fkColumn := v]) == map[fkColumn := v];
  }

  /** A row `column IN (args)` does not select has no listed value there. */
  lemma NotSelectedNotListed(t: Table, row: Row, column: string, args: seq<string>)
    requires !Selects(t, row, ColumnIn(column, args))
    ensures CellText(t, row, column).Some? ==> CellText(t, row, column).value !in args
  {
  }

  /** The update of `processManyToOne` sets the foreign column of exactly the
      listed rows: a row whose id is listed reads the parent afterwards. */
  lemma LinkedRowsReadParent(db: Db, table: string, fkColumn: string, parentId: Value, parentText: string,
                             idColumn: string, args: seq<string>)
    requires StoredText(parentId) == Some(parentText) && Stored(parentId) == Some(parentId)
    requires table in db.tables && fkColumn != idColumn && !IsRowidColumn(db.tables[table], fkColumn)
    requires Store.Update(db, table, map[fkColumn := parentId], ColumnIn(idColumn, args)).Success?
    ensures var u := Store.Update(db, table, map[fkColumn := parentId], ColumnIn(idColumn, args)).value.tables[table];
      forall row | row in u.rows && CellText(u, row, idColumn).Some? && CellText(u, row, idColumn).value in args ::
        CellText(u, row, fkColumn) == Some(parentText)
  {
    var t := db.tables[table];
    var values := map[fkColumn := parentId];
    var p := ColumnIn(idColumn, args);
    var u := Store.Update(db, table, values, p).value.tables[table];
    assert u.rowidAlias == t.rowidAlias;
    forall row | row in u.rows && CellText(u, row, idColumn).Some? && CellText(u, row, idColumn).value in args
      ensures CellText(u, row, fkColumn) == Some(parentText)
    {
      var k :| 0 <= k < |u.rows| && u.rows[k] == row;
      var before := t.rows[k];
      SetColumnReads(t, before, fkColumn, parentId, idColumn);
      if !Selects(t, before, p) {
        NotSelectedNotListed(t, before, idColumn, args);
      }
    }
  }

  /** A row `processManyToOne` has no business with: its id is not listed and
      its foreign column does not read the parent. */
  predicate Bystander(t: Table, row: Row, fkColumn: string, parentText: string, idColumn: string, args: seq<string>)
  {
    CellText(t, row, fkColumn) != Some(parentText) &&
    !(CellText(t, row, idColumn).Some? && CellText(t, row, idColumn).value in args)
  }

  /** The bystander rows of a table, in row order. */
  function Bystanders(t: Table, rows: seq<Row>, fkColumn: string, parentText: string, idColumn: string, args: seq<string>): (r: seq<Row>)
    ensures |r| <= |rows|
  {
    if rows == [] then []
    else
      (if Bystander(t, rows[0], fkColumn, parentText, idColumn, args) then [rows[0]] else []) +
      Bystanders(t, rows[1..], fkColumn, parentText, idColumn, args)
  }

  lemma {:induction false} BystandersSameAlias(t: Table, t': Table, rows: seq<Row>, fkColumn: string, parentText: string,
                                               idColumn: string, args: seq<string>)
    requires t.rowidAlias == t'.rowidAlias
    ensures Bystanders(t, rows, fkColumn, parentText, idColumn, args) == Bystanders(t', rows, fkColumn, parentText, idColumn, args)
    decreases |rows|
  {
    if rows != [] {
      BystandersSameAlias(t, t', rows[1..], fkColumn, parentText, idColumn, args);
    }
  }

  /** The update of `processManyToOne` rewrites only listed rows, and a
      listed row stays listed: the bystanders are the same rows, in order. */
  lemma {:induction false} LinkUpdateKeepsBystanders(t: Table, rows: seq<Row>, fkColumn: string, parentId: Value, parentText: string,
                                                     idColumn: string, args: seq<string>)
    requires Stored(parentId) == Some(parentId) && fkColumn != idColumn && !IsRowidColumn(t, fkColumn)
    ensures Bystanders(t, UpdateRows(t, rows, map[fkColumn := parentId], ColumnIn(idColumn, args)), fkColumn, parentText, idColumn, args) ==
      Bystanders(t, rows, fkColumn, parentText, idColumn, args)
    decreases |rows|
  {
    if rows != [] {
      var p := ColumnIn(idColumn, args);
      var values := map[fkColumn := parentId];
      var updated := UpdateRows(t, rows, values, p);
      var rest := UpdateRows(t, rows[1..], values, p);
      LinkUpdateKeepsBystanders(t, rows[1..], fkColumn, parentId, parentText, idColumn, args);
      assert updated == [updated[0]] + rest;
      if Selects(t, rows[0], p) {
        SetColumnReads(t, rows[0], fkColumn, parentId, idColumn);
        assert !Bystander(t, rows[0], fkColumn, parentText, idColumn, args);
        assert !Bystander(t, updated[0], fkColumn, parentText, idColumn, args);
      }
    }
  }

  /** A row the cleanup selects reads the parent. */
  lemma CleanupSelectsParentRows(t: Table, row: Row, fkColumn: string, parentText: string, idColumn: string, args: seq<string>)
    requires LiteralText(parentText) == Some(Some(parentText))
    ensures Compiles(And(ColumnNotIn(idColumn, args), ColumnEqualsLiteral(fkColumn, parentText)))
    ensures Selects(t, row, And(ColumnNotIn(idColumn, args), ColumnEqualsLiteral(fkColumn, parentText))) ==>
      CellText(t, row, fkColumn) == Some(parentText)
  {
    var eq := ColumnEqualsLiteral(fkColumn, parentText);
    assert Compiles(eq);
    var q := And(ColumnNotIn(idColumn, args), eq);
    if Selects(t, row, q) {
      assert Eval(t, row, eq) == Some(true);
    }
  }

  /** The cleanup `DELETE ... WHERE id NOT IN (...) AND fk = <parent>` only
      removes rows reading the parent: the bystanders are the same rows. */
  lemma {:induction false} CleanupKeepsBystanders(t: Table, rows: seq<Row>, fkColumn: string, parentText: string,
                                                  idColumn: string, args: seq<string>)
    requires LiteralText(parentText) == Some(Some(parentText))
    ensures Compiles(And(ColumnNotIn(idColumn, args), ColumnEqualsLiteral(fkColumn, parentText)))
    ensures Bystanders(t, DeleteRows(t, rows, And(ColumnNotIn(idColumn, args), ColumnEqualsLiteral(fkColumn, parentText))),
                       fkColumn, parentText, idColumn, args) ==
      Bystanders(t, rows, fkColumn, parentText, idColumn, args)
    decreases |rows|
  {
    assert Compiles(ColumnEqualsLiteral(fkColumn, parentText));
    if rows != [] {
      var q := And(ColumnNotIn(idColumn, args), ColumnEqualsLiteral(fkColumn, parentText));
      CleanupSelectsParentRows(t, rows[0], fkColumn, parentText, idColumn, args);
      CleanupKeepsBystanders(t, rows[1..], fkColumn, parentText, idColumn, args);
      var rest := DeleteRows(t, rows[1..], q);
      if Selects(t, rows[0], q) {
        assert DeleteRows(t, rows, q) == rest;
      } else {
        var kept := [rows[0]] + rest;
        assert DeleteRows(t, rows, q) == kept;
        assert kept[0] == rows[0] && kept[1..] == rest;
      }
    }
  }

  /** `processManyToOne` after writing the targets: every listed target reads
      the parent in its foreign column; with the cleanup, a row left reading
      the parent is a listed one (or has no id to compare, which SQL's NULL
      keeps); without it, no row is removed. Stated for a parent id whose
      spliced literal reads back as its stored text, as a Long does. */
  lemma LinkTargetsLinksExactlyTheTargets(db: Db, table: string, fkColumn: string, parentId: Value, parentText: string,
                                          idColumn: string, args: seq<string>, cleanup: bool)
    requires StoredText(parentId) == Some(parentText) && Stored(parentId) == Some(parentId)
    requires QueryUtils.ParseAttribute(parentId) == Success(parentText) && LiteralText(parentText) == Some(Some(parentText))
    requires table in db.tables && fkColumn != idColumn && !IsRowidColumn(db.tables[table], fkColumn)
    requires LinkTargets(db, table, fkColumn, parentId, map[fkColumn := parentId], idColumn, args, cleanup).Success?
    ensures table in LinkTargets(db, table, fkColumn, parentId, map[fkColumn := parentId], idColumn, args, cleanup).value.tables
    ensures var t' := LinkTargets(db, table, fkColumn, parentId, map[fkColumn := parentId], idColumn, args, cleanup).value.tables[table];
      forall row | row in t'.rows && CellText(t', row, idColumn).Some? && CellText(t', row, idColumn).value in args ::
        CellText(t', row, fkColumn) == Some(parentText)
    ensures var t' := LinkTargets(db, table, fkColumn, parentId, map[fkColumn := parentId], idColumn, args, cleanup).value.tables[table];
      cleanup ==>
        forall row | row in t'.rows && CellText(t', row, fkColumn) == Some(parentText) && CellText(t', row, idColumn).Some? ::
          CellText(t', row, idColumn).value in args
    ensures var t' := LinkTargets(db, table, fkColumn, parentId, map[fkColumn := parentId], idColumn, args, cleanup).value.tables[table];
      !cleanup ==> |t'.rows| == |db.tables[table].rows|
    ensures var db' := LinkTargets(db, table, fkColumn, parentId, map[fkColumn := parentId], idColumn, args, cleanup).value;
      Bystanders(db'.tables[table], db'.tables[table].rows, fkColumn, parentText, idColumn, args) ==
        Bystanders(db.tables[table], db.tables[table].rows, fkColumn, parentText, idColumn, args) &&
      forall name | name in db.tables && name != table :: name in db'.tables && db'.tables[name] == db.tables[name]
  {
    var values := map[fkColumn := parentId];
    var updated := Store.Update(db, table, values, ColumnIn(idColumn, args)).value;
    var u := updated.tables[table];
    LinkedRowsReadParent(db, table, fkColumn, parentId, parentText, idColumn, args);
    LinkUpdateKeepsBystanders(db.tables[table], db.tables[table].rows, fkColumn, parentId, parentText, idColumn, args);
    BystandersSameAlias(db.tables[table], u, u.rows, fkColumn, parentText, idColumn, args);
    if cleanup {
      CleanupKeepsBystanders(u, u.rows, fkColumn, parentText, idColumn, args);
      BystandersSameAlias(u, Store.Delete(updated, table, And(ColumnNotIn(idColumn, args), ColumnEqualsLiteral(fkColumn, parentText))).value.tables[table],
        DeleteRows(u, u.rows, And(ColumnNotIn(idColumn, args), ColumnEqualsLiteral(fkColumn, parentText))), fkColumn, parentText, idColumn, args);
      var q := And(ColumnNotIn(idColumn, args), ColumnEqualsLiteral(fkColumn, parentText));
      var t' := Store.Delete(updated, table, q).value.tables[table];
      forall row | row in t'.rows && CellText(t', row, fkColumn) == Some(parentText) && CellText(t', row, idColumn).Some?
        ensures CellText(t', row, idColumn).value in args
      {
        CleanupKeepsListedRows(u, row, fkColumn, parentText, idColumn, args);
      }
    }
  }

  /** A row the cleanup's `DELETE` spares while it reads the parent is one
      whose id is listed, or NULL. */
  lemma CleanupKeepsListedRows(t: Table, row: Row, fkColumn: string, parentText: string, idColumn: string, args: seq<string>)
    requires LiteralText(parentText) == Some(Some(parentText))
    requires Compiles(ColumnEqualsLiteral(fkColumn, parentText))
    requires !Selects(t, row, And(ColumnNotIn(idColumn, args), ColumnEqualsLiteral(fkColumn, parentText)))
    requires CellText(t, row, fkColumn) == Some(parentText)
    ensures CellText(t, row, idColumn).Some? ==> CellText(t, row, idColumn).value in args
  {
    var notListed := Eval(t, row, ColumnNotIn(idColumn, args));
    assert Eval(t, row, ColumnEqualsLiteral(fkColumn, parentText)) == Some(true);
    assert notListed != Some(true);
  }

  /** A Long parent id reads back: its stored text, its spliced literal and
      the literal's value are the same decimal text. */
  lemma LongParentReadsBack(parent: Int64)
    ensures StoredText(LongV(parent)) == Some(DecimalText(parent)) && Stored(LongV(parent)) == Some(LongV(parent))
    ensures QueryUtils.ParseAttribute(LongV(parent)) == Success(DecimalText(parent))
    ensures LiteralText(DecimalText(parent)) == Some(Some(DecimalText(parent)))
  {
    ParseDecimalText(parent);
  }
}
