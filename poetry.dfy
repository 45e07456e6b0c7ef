/** The Kotlin persister (Poetry.kt) as the object it is: every write goes
    through the database handle, statement by statement, and each method is
    proved to leave what the matching function of PoetrySpec describes. */
module PoetryWriter {
  import opened Wrappers
  import opened JavaInts
  import opened Decimal
  import opened JsonModel
  import opened Values
  import opened Metadata
  import opened FieldAnnotations
  import opened Store
  import opened Entries
  import opened ContentValuesExt
  import opened Databases
  import opened PoetrySpec
  import FieldLookup
  import JsonUtils
  import QueryUtils
  import Options

  /** A statement sequence that answers nothing, with the contents it leaves. */
  function Done(r: Result<()>, db: Db): Result<Db>
  {
    match r
    case Success(_) => Success(db)
    case Failure(e) => Failure(e)
  }

  lemma PrependNothing<T>(r: Result<(Db, seq<T>)>)
    ensures PrependAll([], r) == r
  {
    match r {
      case Success((db, rest)) => assert [] + rest == rest;
      case Failure(_) =>
    }
  }

  lemma PrependAllTwice<T>(seen: seq<T>, more: seq<T>, r: Result<(Db, seq<T>)>)
    ensures PrependAll(seen, PrependAll(more, r)) == PrependAll(seen + more, r)
  {
    match r {
      case Success((db, rest)) => assert seen + (more + rest) == (seen + more) + rest;
      case Failure(_) =>
    }
  }

  lemma PrependNothingFound(r: Result<seq<Option<Int64>>>)
    ensures PrependFound([], r) == r
  {
    match r {
      case Success(rest) => assert [] + rest == rest;
      case Failure(_) =>
    }
  }

  lemma PrependFoundTwice(seen: seq<Option<Int64>>, more: seq<Option<Int64>>, r: Result<seq<Option<Int64>>>)
    ensures PrependFound(seen, PrependFound(more, r)) == PrependFound(seen + more, r)
  {
    match r {
      case Success(rest) => assert seen + (more + rest) == (seen + more) + rest;
      case Failure(_) =>
    }
  }

  class Poetry {
    const database: Database
    const env: Env

    /** `Poetry(database, options)`; `schema` stands for the model classes
        the persister reflects on. */
    constructor (database: Database, schema: Schema, options: bv32)
      ensures this.database == database && env == Env(schema, options)
    {
      this.database := database;
      env := Env(schema, options);
    }

    /** `writeObject(modelClass, jsonObject)`: the object's rowid, written in
        one transaction; outside any other transaction a failure leaves the
        contents as they were. */
    method WriteObject(t: JType, obj: JsonObject) returns (r: Result<Int64>)
      modifies database
      ensures var s := PoetrySpec.WriteObjectInternal(env, old(database.state), t, obj);
        (r.Success? <==> s.Success?) && (s.Success? ==> r.value == s.value.1) && (s.Failure? ==> r.error == s.error)
      ensures var s := PoetrySpec.WriteObjectInternal(env, old(database.state), t, obj);
        old(database.levels) == [] ==>
          database.levels == [] && database.state == if s.Success? then s.value.0 else old(database.state)
    {
      database.BeginTransaction();
      var written := WriteObjectInternal(t, obj);
      r := database.FinishTransaction(written);
    }

    /** `writeArray(modelClass, jsonArray)`: the rowids of the elements, in
        order, written in one transaction. */
    method WriteArray(t: JType, arr: JsonArray) returns (r: Result<seq<Int64>>)
      modifies database
      ensures var s := PoetrySpec.WriteArrayFrom(env, old(database.state), t, arr, 0);
        (r.Success? <==> s.Success?) && (s.Success? ==> r.value == s.value.1) && (s.Failure? ==> r.error == s.error)
      ensures var s := PoetrySpec.WriteArrayFrom(env, old(database.state), t, arr, 0);
        old(database.levels) == [] ==>
          database.levels == [] && database.state == if s.Success? then s.value.0 else old(database.state)
    {
      database.BeginTransaction();
      var written := WriteArrayOfObjects(t, arr);
      r := database.FinishTransaction(written);
    }

    /** `writeArray(modelClass, jsonArray)` with the iterator as written: a
        non-empty array always ends in an exception, and outside any other
        transaction the rows written before it are rolled back. */
    method WriteArrayAsWritten(t: JType, arr: JsonArray) returns (r: Result<seq<Int64>>)
      modifies database
      ensures var s := PoetrySpec.WriteArrayAsWrittenFrom(env, old(database.state), t, arr, 0);
        (r.Success? <==> s.Success?) && (s.Success? ==> r.value == s.value.1) && (s.Failure? ==> r.error == s.error)
      ensures |arr.items| > 0 ==> r.Failure?
      ensures old(database.levels) == [] && |arr.items| > 0 ==>
        database.levels == [] && database.state == old(database.state)
    {
      if |arr.items| > 0 {
        PoetrySpec.WriteArrayAsWrittenFails(env, database.state, t, arr, 0);
      }
      database.BeginTransaction();
      var written := WriteArrayOfObjectsAsWritten(t, arr);
      r := database.FinishTransaction(written);
    }

    /** `writeArrayOfObjects` driven by `JsonArrayJsonObjectIterator` as
        written: `hasNext()`, `next()`, then the object is written. */
    method WriteArrayOfObjectsAsWritten(t: JType, arr: JsonArray) returns (r: Result<seq<Int64>>)
      modifies database`state
      ensures Outcome(r, database.state) == PoetrySpec.WriteArrayAsWrittenFrom(env, old(database.state), t, arr, 0)
    {
      var it := new JsonUtils.JsonArrayJsonObjectIterator(arr);
      var ids: seq<Int64> := [];
      PrependNothing(PoetrySpec.WriteArrayAsWrittenFrom(env, database.state, t, arr, 0));
      while it.HasNext()
        invariant fresh(it) && it.jsonArray == arr && 0 <= it.currentIndex <= |arr.items|
        invariant PoetrySpec.WriteArrayAsWrittenFrom(env, old(database.state), t, arr, 0) ==
          PrependAll(ids, PoetrySpec.WriteArrayAsWrittenFrom(env, database.state, t, arr, it.currentIndex))
        decreases |arr.items| - it.currentIndex
      {
        var id := WriteNextAsWritten(t, arr, it);
        if id.Failure? {
          return Failure(id.error);
        }
        PrependAllTwice(ids, [id.value], PoetrySpec.WriteArrayAsWrittenFrom(env, database.state, t, arr, it.currentIndex));
        ids := ids + [id.value];
      }
      assert ids + [] == ids;
      return Success(ids);
    }

    /** One round of that loop: `next()` fetches the element after the
        current index, which is then written. */
    method WriteNextAsWritten(t: JType, arr: JsonArray, it: JsonUtils.JsonArrayJsonObjectIterator) returns (r: Result<Int64>)
      requires it.jsonArray == arr && 0 <= it.currentIndex < |arr.items|
      modifies database`state, it
      ensures it.currentIndex == old(it.currentIndex) + 1
      ensures PoetrySpec.WriteArrayAsWrittenFrom(env, old(database.state), t, arr, old(it.currentIndex)) ==
        match r
        case Failure(e) => Failure(e)
        case Success(id) => PrependAll([id], PoetrySpec.WriteArrayAsWrittenFrom(env, database.state, t, arr, it.currentIndex))
    {
      PoetrySpec.WriteArrayAsWrittenStep(env, database.state, t, arr, it.currentIndex);
      var obj := it.Next();
      if obj.Failure? {
        return Failure(obj.error);
      }
      r := WriteObjectInternal(t, obj.value);
    }

    /** `writeObjectInternal(modelClass, jsonObject)`. */
    method WriteObjectInternal(t: JType, obj: JsonObject) returns (r: Result<Int64>)
      modifies database`state
      ensures Outcome(r, database.state) == PoetrySpec.WriteObjectInternal(env, old(database.state), t, obj)
      decreases Size(obj), 3
    {
      var tableName :- TableNameOrThrow(env.schema, t);
      var entries :- EntriesOf(env.schema, t, obj);
      var values :- ColumnValues(obj, entries);
      var id :- FindExistingId(tableName, obj, entries);
      var resultingId :- WriteRow(tableName, values, id);
      var related :- ProcessRelations(obj, entries, resultingId);
      return Success(resultingId);
    }

    /** The fold that fills the ContentValues of the object's row. */
    method ColumnValues(obj: JsonObject, entries: seq<Entry>) returns (r: Result<ContentValues>)
      requires forall e | e in entries :: EntryOf(obj, e)
      modifies database`state
      ensures r.Success? ==> fresh(r.value)
      ensures var s := PoetrySpec.FoldColumns(env, old(database.state), obj, entries, 0, map[]);
        (r.Success? <==> s.Success?) &&
        (s.Success? ==> database.state == s.value.0 && r.value.values == s.value.1) &&
        (s.Failure? ==> r.error == s.error)
      decreases Size(obj), 2
    {
      var contentValues := new ContentValues();
      var i := 0;
      while i < |entries|
        invariant 0 <= i <= |entries|
        invariant PoetrySpec.FoldColumns(env, old(database.state), obj, entries, 0, map[]) ==
          PoetrySpec.FoldColumns(env, database.state, obj, entries, i, contentValues.values)
      {
        if entries[i].FieldEntry? {
          var entry := entries[i];
          assert entry in entries;
          var column := ColumnNameForField(entry.field, entry.databaseField);
          var value :- ProcessDatabaseField(entry, obj);
          var put := contentValues.PutOrThrow(column, value);
          if put.Failure? {
            return Failure(put.error);
          }
        }
        i := i + 1;
      }
      return Success(contentValues);
    }

    /** The id lookups and `firstOrNull()`. */
    method FindExistingId(table: string, obj: JsonObject, entries: seq<Entry>) returns (r: Result<Option<Int64>>)
      ensures r == PoetrySpec.ExistingId(database.state, table, obj, entries)
    {
      var found: seq<Option<Int64>> := [];
      var i := 0;
      PrependNothingFound(PoetrySpec.IdLookups(database.state, table, obj, entries, 0));
      while i < |entries|
        invariant 0 <= i <= |entries|
        invariant PoetrySpec.IdLookups(database.state, table, obj, entries, 0) ==
          PrependFound(found, PoetrySpec.IdLookups(database.state, table, obj, entries, i))
      {
        ghost var tail := PoetrySpec.IdLookups(database.state, table, obj, entries, i + 1);
        PoetrySpec.IdLookupsStep(database.state, table, obj, entries, i);
        if entries[i].FieldEntry? && IsId(entries[i].databaseField) {
          var rowid :- LookupId(table, obj, entries[i]);
          PrependFoundTwice(found, [rowid], tail);
          found := found + [rowid];
        }
        i := i + 1;
      }
      assert found + [] == found;
      return Success(if found == [] then None else found[0]);
    }

    /** One id lookup: `getValue` of the JSON id, then `queryFirst`. */
    method LookupId(table: string, obj: JsonObject, entry: Entry) returns (r: Result<Option<Int64>>)
      requires entry.FieldEntry?
      ensures r == PoetrySpec.IdLookup(database.state, table, obj, entry)
    {
      var idColumnName := ColumnNameForField(entry.field, entry.databaseField);
      var idValue :- JsonUtils.GetValue(obj, entry.jsonKey, entry.field.fieldType);
      r := database.QueryFirst(table, idColumnName, Text(idValue));
    }

    /** `update(... "ROWID = ?", id)` of the row found, else `insertOrThrow`. */
    method WriteRow(table: string, values: ContentValues, id: Option<Int64>) returns (r: Result<Int64>)
      modifies database`state
      ensures Outcome(r, database.state) == PoetrySpec.WriteRow(old(database.state), table, values.values, id)
    {
      match id {
        case Some(rowid) =>
          var changed :- database.Update(table, values, ColumnEquals("ROWID", DecimalText(rowid)));
          return Success(rowid);
        case None =>
          r := database.InsertOrThrow(table, values, None);
      }
    }

    /** `processDatabaseField(entry, jsonParentObject)`. */
    method ProcessDatabaseField(entry: Entry, obj: JsonObject) returns (r: Result<Value>)
      requires entry.FieldEntry? && entry.jsonKey in Keys(obj)
      modifies database`state
      ensures Outcome(r, database.state) == PoetrySpec.ProcessDatabaseField(env, old(database.state), entry, obj)
      decreases Size(obj), 1
    {
      if IsNull(obj, entry.jsonKey) {
        return Success(Null);
      }
      if IsForeign(entry.databaseField) {
        match OptJSONObject(obj, entry.jsonKey) {
          case Some(foreignObject) =>
            var id :- WriteObjectInternal(entry.field.fieldType, foreignObject);
            r := Success(LongV(id));
          case None =>
            var idField :- FindIdFieldOrThrow(env.schema, entry.field.fieldType);
            r := JsonUtils.GetValue(obj, entry.jsonKey, idField.fieldType);
        }
      } else {
        // the key is one of the object's, so `get` finds it
        r := Success(FromJson(Get(obj, entry.jsonKey).value));
      }
    }

    /** `entries.forEach { when (it) { ... } }`: the relations, each written
        with the parent's rowid. */
    method ProcessRelations(obj: JsonObject, entries: seq<Entry>, parentId: Int64) returns (r: Result<()>)
      requires forall e | e in entries :: EntryOf(obj, e)
      modifies database`state
      ensures Done(r, database.state) == PoetrySpec.ProcessRelations(env, old(database.state), obj, entries, 0, parentId)
      decreases Size(obj), 2
    {
      var i := 0;
      while i < |entries|
        invariant 0 <= i <= |entries|
        invariant PoetrySpec.ProcessRelations(env, old(database.state), obj, entries, 0, parentId) ==
          PoetrySpec.ProcessRelations(env, database.state, obj, entries, i, parentId)
      {
        var done :- ProcessRelation(obj, entries, i, parentId);
        i := i + 1;
      }
      return Success(());
    }

    /** One entry of the relations loop: a many-to-many or many-to-one entry
        is processed, any other is passed over. */
    method ProcessRelation(obj: JsonObject, entries: seq<Entry>, i: nat, parentId: Int64) returns (r: Result<()>)
      requires i < |entries|
      requires forall e | e in entries :: EntryOf(obj, e)
      modifies database`state
      ensures PoetrySpec.ProcessRelations(env, old(database.state), obj, entries, i, parentId) ==
        match r
        case Failure(e) => Failure(e)
        case Success(_) => PoetrySpec.ProcessRelations(env, database.state, obj, entries, i + 1, parentId)
      decreases Size(obj), 2, 0
    {
      var entry := entries[i];
      assert entry in entries;
      assert EntryOf(obj, entry);
      if entry.ManyToManyEntry? {
        r := ProcessManyToMany(entry, LongV(parentId));
      } else if entry.ManyToOneEntry? {
        r := ProcessManyToOne(entry, LongV(parentId));
      } else {
        r := Success(());
      }
    }

    /** `writeArrayOfObjects(modelClass, jsonArray)`, reading the elements in
        order. */
    method WriteArrayOfObjects(t: JType, arr: JsonArray) returns (r: Result<seq<Int64>>)
      modifies database`state
      ensures Outcome(r, database.state) == PoetrySpec.WriteArrayFrom(env, old(database.state), t, arr, 0)
      decreases Size(arr), 4
    {
      var ids: seq<Int64> := [];
      var i := 0;
      PrependNothing(PoetrySpec.WriteArrayFrom(env, database.state, t, arr, 0));
      while i < |arr.items|
        invariant 0 <= i <= |arr.items|
        invariant PoetrySpec.WriteArrayFrom(env, old(database.state), t, arr, 0) ==
          PrependAll(ids, PoetrySpec.WriteArrayFrom(env, database.state, t, arr, i))
      {
        var id := WriteElement(t, arr, i);
        if id.Failure? {
          return Failure(id.error);
        }
        PrependAllTwice(ids, [id.value], PoetrySpec.WriteArrayFrom(env, database.state, t, arr, i + 1));
        ids := ids + [id.value];
        i := i + 1;
      }
      assert ids + [] == ids;
      return Success(ids);
    }

    /** One element of `writeArrayOfObjects`: fetched as an object and
        written; the rest of the array continues from the new contents. */
    method WriteElement(t: JType, arr: JsonArray, i: nat) returns (r: Result<Int64>)
      requires i < |arr.items|
      modifies database`state
      ensures PoetrySpec.WriteArrayFrom(env, old(database.state), t, arr, i) ==
        match r
        case Failure(e) => Failure(e)
        case Success(id) => PrependAll([id], PoetrySpec.WriteArrayFrom(env, database.state, t, arr, i + 1))
      decreases Size(arr), 3
    {
      PoetrySpec.WriteArrayStep(env, database.state, t, arr, i);
      var obj := GetJSONObjectAt(arr, i);
      if obj.Failure? {
        return Failure(obj.error);
      }
      r := WriteObjectInternal(t, obj.value);
    }

    /** `writeArrayOfBaseTypes(...)`: one row per element, its text in the
        target column. */
    method WriteArrayOfBaseTypes(t: JType, arr: JsonArray, targetField: string) returns (r: Result<seq<Value>>)
      modifies database`state
      ensures Outcome(r, database.state) == PoetrySpec.WriteArrayOfBaseTypes(env, old(database.state), t, arr, targetField)
    {
      var tableName :- TableNameOrThrow(env.schema, t);
      var ids: seq<Value> := [];
      var i := 0;
      PrependNothing(PoetrySpec.InsertBaseValues(database.state, tableName, targetField, arr.items, 0));
      while i < |arr.items|
        invariant 0 <= i <= |arr.items|
        invariant PoetrySpec.InsertBaseValues(old(database.state), tableName, targetField, arr.items, 0) ==
          PrependAll(ids, PoetrySpec.InsertBaseValues(database.state, tableName, targetField, arr.items, i))
      {
        var id := InsertBaseValue(tableName, targetField, arr.items, i);
        if id.Failure? {
          return Failure(id.error);
        }
        PrependAllTwice(ids, [LongV(id.value)], PoetrySpec.InsertBaseValues(database.state, tableName, targetField, arr.items, i + 1));
        ids := ids + [LongV(id.value)];
        i := i + 1;
      }
      assert ids + [] == ids;
      return Success(ids);
    }

    /** One element of `writeArrayOfBaseTypes`: its text in a fresh
        ContentValues, inserted with the target column as the null-column
        hack. */
    method InsertBaseValue(tableName: string, targetField: string, items: seq<Json>, i: nat) returns (r: Result<Int64>)
      requires i < |items|
      modifies database`state
      ensures PoetrySpec.InsertBaseValues(old(database.state), tableName, targetField, items, i) ==
        match r
        case Failure(e) => Failure(e)
        case Success(id) => PrependAll([LongV(id)], PoetrySpec.InsertBaseValues(database.state, tableName, targetField, items, i + 1))
    {
      PoetrySpec.InsertBaseStep(database.state, tableName, targetField, items, i);
      var values := new ContentValues();
      values.PutString(targetField, ToText(items[i]));
      assert values.values == map[targetField := CharSeqV(ToText(items[i]))];
      r := database.InsertOrThrow(tableName, values, Some(targetField));
    }

    /** `processManyToMany(entry, parentId)`. */
    method ProcessManyToMany(entry: Entry, parentId: Value) returns (r: Result<()>)
      requires entry.ManyToManyEntry?
      modifies database`state
      ensures Done(r, database.state) == PoetrySpec.ProcessManyToMany(env, old(database.state), entry, parentId)
      decreases Size(entry.jsonArray), 5
    {
      var targetClass :- ForeignCollectionParameterType(entry.field);
      var targetForeignField :- FindForeignFieldOrThrow(env.schema, targetClass, ModelType(entry.ModelClass()));
      var targetTargetField :- FieldLookup.FindFirstFieldOfTypeOrThrow(env.schema, targetClass, JavaObjectType(entry.targetType));
      var targetTargetIds :- WriteArrayOfObjects(targetTargetField.fieldType, entry.jsonArray);
      r := ReplaceJunction(targetClass, targetForeignField, targetTargetField, targetTargetIds, parentId);
    }

    /** The rest of `processManyToMany`: the `delete` of the parent's junction
        rows and one `insertOrThrow` per target. */
    method ReplaceJunction(targetClass: JType, targetForeignField: Field, targetTargetField: Field,
                           targetTargetIds: seq<Int64>, parentId: Value) returns (r: Result<()>)
      modifies database`state
      ensures Done(r, database.state) ==
        PoetrySpec.ReplaceJunction(env, old(database.state), targetClass, targetForeignField, targetTargetField, targetTargetIds, parentId)
    {
      var clear :- PoetrySpec.JunctionClear(env, targetClass, targetForeignField, parentId);
      var (targetTableName, targetForeignFieldName, targetForeignFieldValue) := clear;
      var deleted :- database.Delete(targetTableName, ColumnEqualsLiteral(targetForeignFieldName, targetForeignFieldValue));
      r := InsertJunction(targetTargetField, targetTableName, targetForeignFieldName, parentId, targetTargetIds);
    }

    /** The inserts after the delete: the target column, then one row per
        target. */
    method InsertJunction(targetTargetField: Field, table: string, fkColumn: string, parentId: Value, targetTargetIds: seq<Int64>)
        returns (r: Result<()>)
      modifies database`state
      ensures Done(r, database.state) ==
        PoetrySpec.InsertJunction(old(database.state), targetTargetField, table, fkColumn, parentId, targetTargetIds)
    {
      var targetInfo :- DatabaseFieldNotNull(targetTargetField);
      var targetTargetFieldName := ColumnNameForField(targetTargetField, targetInfo);
      r := InsertJunctionRows(table, fkColumn, parentId, targetTargetFieldName, targetTargetIds);
    }

    /** `targetTargetIds.indices.forEach { ... insertOrThrow(...) }`. */
    method InsertJunctionRows(table: string, fkColumn: string, parentId: Value, targetColumn: string, ids: seq<Int64>)
        returns (r: Result<()>)
      modifies database`state
      ensures Done(r, database.state) ==
        PoetrySpec.InsertJunctionRows(old(database.state), table, fkColumn, parentId, targetColumn, ids, 0)
    {
      var index := 0;
      while index < |ids|
        invariant 0 <= index <= |ids|
        invariant PoetrySpec.InsertJunctionRows(old(database.state), table, fkColumn, parentId, targetColumn, ids, 0) ==
          PoetrySpec.InsertJunctionRows(database.state, table, fkColumn, parentId, targetColumn, ids, index)
      {
        var done :- InsertJunctionRow(table, fkColumn, parentId, targetColumn, ids, index);
        index := index + 1;
      }
      return Success(());
    }

    /** One `insertOrThrow` of the junction loop. */
    method InsertJunctionRow(table: string, fkColumn: string, parentId: Value, targetColumn: string, ids: seq<Int64>, index: nat)
        returns (r: Result<()>)
      requires index < |ids|
      modifies database`state
      ensures PoetrySpec.InsertJunctionRows(old(database.state), table, fkColumn, parentId, targetColumn, ids, index) ==
        match r
        case Failure(e) => Failure(e)
        case Success(_) => PoetrySpec.InsertJunctionRows(database.state, table, fkColumn, parentId, targetColumn, ids, index + 1)
    {
      PoetrySpec.InsertJunctionStep(database.state, table, fkColumn, parentId, targetColumn, ids, index);
      var values := new ContentValues();
      var put :- values.PutOrThrow(fkColumn, parentId);
      // a Long is always stored
      var stored := values.PutOrThrow(targetColumn, LongV(ids[index]));
      var rowid :- database.InsertOrThrow(table, values, None);
      return Success(());
    }

    /** `processManyToOne(entry, parentId)`: the children are written, then
        linked to the parent. */
    method ProcessManyToOne(entry: Entry, parentId: Value) returns (r: Result<()>)
      requires entry.ManyToOneEntry?
      modifies database`state
      ensures Done(r, database.state) == PoetrySpec.ProcessManyToOne(env, old(database.state), entry, parentId)
      decreases Size(entry.jsonArray), 5
    {
      var targetClass :- ForeignCollectionParameterType(entry.field);
      var targetIdField :- FindIdFieldOrThrow(env.schema, targetClass);
      var targetForeignField :- FindForeignFieldOrThrow(env.schema, targetClass, ModelType(entry.ModelClass()));
      var targetIds :- WriteChildren(entry, targetClass);
      r := LinkChildren(targetIds, targetClass, targetIdField, targetForeignField, parentId);
    }

    /** The children of `processManyToOne`, as objects or, with a
        `@ManyToManySingleTarget`, as base values. */
    method WriteChildren(entry: Entry, targetClass: JType) returns (r: Result<seq<Value>>)
      requires entry.ManyToOneEntry?
      modifies database`state
      ensures Outcome(r, database.state) == PoetrySpec.WriteChildren(env, old(database.state), entry, targetClass)
      decreases Size(entry.jsonArray), 5, 0
    {
      match FieldAnnotation(entry.field, SingleTargetType) {
        case None =>
          var ids :- WriteArrayOfObjects(targetClass, entry.jsonArray);
          r := Success(LongIds(ids));
        case Some(singleTarget) =>
          r := WriteArrayOfBaseTypes(targetClass, entry.jsonArray, singleTarget.targetField);
      }
    }

    /** The children's foreign column, and the ContentValues that sets it
        to the parent id. */
    method ForeignColumn(targetForeignField: Field, parentId: Value) returns (r: Result<string>, values: ContentValues)
      ensures fresh(values)
      ensures r.Success? <==> PoetrySpec.ForeignColumn(targetForeignField, parentId).Success?
      ensures r.Success? ==> PoetrySpec.ForeignColumn(targetForeignField, parentId).value == (r.value, values.values)
      ensures r.Failure? ==> PoetrySpec.ForeignColumn(targetForeignField, parentId).error == r.error
    {
      values := new ContentValues();
      var foreignInfo := DatabaseFieldOrThrow(targetForeignField);
      if foreignInfo.Failure? {
        return Failure(foreignInfo.error), values;
      }
      var targetForeignFieldName := ColumnNameForField(targetForeignField, foreignInfo.value);
      var put := values.PutOrThrow(targetForeignFieldName, parentId);
      if put.Failure? {
        return Failure(put.error), values;
      }
      r := Success(targetForeignFieldName);
    }

    /** The lookups of `processManyToOne` before its statements, with the
        ContentValues that carries the parent id. */
    method PlanLink(targetIds: seq<Value>, targetClass: JType, targetIdField: Field, targetForeignField: Field, parentId: Value)
        returns (r: Result<LinkPlan>, values: ContentValues)
      ensures r == PoetrySpec.PlanLink(env, targetIds, targetClass, targetIdField, targetForeignField, parentId)
      ensures fresh(values) && (r.Success? ==> values.values == r.value.values)
    {
      var fkColumn;
      fkColumn, values := ForeignColumn(targetForeignField, parentId);
      if fkColumn.Failure? {
        return Failure(fkColumn.error), values;
      }
      var query := PoetrySpec.TargetQuery(env, targetIds, targetClass, targetIdField);
      if query.Failure? {
        return Failure(query.error), values;
      }
      r := Success(LinkPlan(query.value.1, fkColumn.value, values.values, query.value.2, query.value.0));
    }

    /** The rest of `processManyToOne`: the update of the children's foreign
        column and, unless disabled, the cleanup. */
    method LinkChildren(targetIds: seq<Value>, targetClass: JType, targetIdField: Field, targetForeignField: Field, parentId: Value)
        returns (r: Result<()>)
      modifies database`state
      ensures Done(r, database.state) ==
        PoetrySpec.LinkChildren(env, old(database.state), targetIds, targetClass, targetIdField, targetForeignField, parentId)
    {
      var plan, values := PlanLink(targetIds, targetClass, targetIdField, targetForeignField, parentId);
      if plan.Failure? {
        return Failure(plan.error);
      }
      r := LinkTargets(plan.value.table, plan.value.fkColumn, parentId, values, plan.value.idColumn, plan.value.args,
                       !Options.IsEnabled(env.options, Options.DISABLE_FOREIGN_COLLECTION_CLEANUP));
    }

    /** The `update` of the listed children and the optional cleanup. */
    method LinkTargets(table: string, fkColumn: string, parentId: Value, values: ContentValues,
                       idColumn: string, args: seq<string>, cleanup: bool) returns (r: Result<()>)
      modifies database`state
      ensures Done(r, database.state) ==
        PoetrySpec.LinkTargets(old(database.state), table, fkColumn, parentId, values.values, idColumn, args, cleanup)
    {
      var updated :- database.Update(table, values, ColumnIn(idColumn, args));
      if cleanup {
        var idToCleanUp :- QueryUtils.ParseAttribute(parentId);
        var deleted :- database.Delete(table, And(ColumnNotIn(idColumn, args), ColumnEqualsLiteral(fkColumn, idToCleanUp)));
      }
      return Success(());
    }
  }
}
