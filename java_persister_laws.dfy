/** What the Java JSON persister promises, proved about JavaPersisterSpec,
    and where it departs from the Kotlin persister: an id member met twice is
    not refused, the last one wins; the id row is made as
    `createRowIfNotExists` makes it; base values, junction rows and the
    linking of children are the statements the newer persisters issue. */
module JavaPersisterLaws {
  import opened Wrappers
  import opened JavaInts
  import opened Decimal
  import opened JsonModel
  import opened Values
  import opened Metadata
  import opened Store
  import opened ContentValuesExt
  import opened Options
  import opened JavaPersisterSpec
  import Databases
  import FieldAnnotations
  import FieldLookup
  import OrmliteReflection
  import LegacyJsonUtils
  import LegacyQueryUtils
  import PoetrySpec
  import JsonPersisterSpec
  import JsonPersisterLaws

  // ---------------------------------------------------------------------
  // The id

  /** `processIdField` makes the row `createRowIfNotExists` makes, and
      answers the id as read from the JSON; a member that does not read as
      the id field's type is a RuntimeException, and where
      `createRowIfNotExists` succeeds it can fail only with the
      SQLiteException of a rowid of -1. For an id that reads back from its
      column, a row holds it afterwards. */
  lemma IdFieldCreatesTheRow(db: Db, df: DatabaseFieldInfo, field: Field, obj: JsonObject, key: string, tableName: string)
    requires LegacyJsonUtils.GetValue(obj, key, field.fieldType).Success?
    ensures var got := LegacyJsonUtils.GetValue(obj, key, field.fieldType).value;
      var r := ProcessIdField(db, df, field, obj, key, tableName);
      got.None? ==> r.Failure? && r.error.RuntimeException?
    ensures var got := LegacyJsonUtils.GetValue(obj, key, field.fieldType).value;
      var r := ProcessIdField(db, df, field, obj, key, tableName);
      var name := OrmliteReflection.FieldName(field, df);
      got.Some? ==>
        (r.Success? ==> r.value == (Databases.CreateRow(db, tableName, name, got.value).value, got.value)) &&
        (Databases.CreateRow(db, tableName, name, got.value).Success? && r.Failure? ==> r.error.SQLiteException?)
    ensures var got := LegacyJsonUtils.GetValue(obj, key, field.fieldType).value;
      var r := ProcessIdField(db, df, field, obj, key, tableName);
      var name := OrmliteReflection.FieldName(field, df);
      r.Success? && Databases.ReadsBack(db, tableName, name, r.value.1) ==>
        Store.HasRow(r.value.0, tableName, name, Text(r.value.1)) == Success(true)
  {
    var got := LegacyJsonUtils.GetValue(obj, key, field.fieldType).value;
    var name := OrmliteReflection.FieldName(field, df);
    if got.Some? && Databases.ReadsBack(db, tableName, name, got.value) && Databases.CreateRow(db, tableName, name, got.value).Success? {
      Databases.CreateRowEnsuresRow(db, tableName, name, got.value);
    }
  }

  /** The value of `key` read as the id it names, when `key` names an id
      field and reads as that field's type. */
  function IdMember(env: PoetrySpec.Env, t: JType, obj: JsonObject, key: string): Option<IdDescriptor>
  {
    match FieldLookup.FindField(env.schema, t, key)
    case None => None
    case Some(field) =>
      match DatabaseFieldOf(field)
      case None => None
      case Some(df) =>
        if !OrmliteReflection.IsId(df) then None
        else
          match LegacyJsonUtils.GetValue(obj, key, field.fieldType)
          case Success(Some(id)) => Some(JsonPersisterSpec.IdDescriptor(OrmliteReflection.FieldName(field, df), id))
          case _ => None
  }

  /** An id member sets the id to its value, whatever it was before. */
  lemma IdKeySetsId(env: PoetrySpec.Env, db: Db, t: JType, tableName: string, obj: JsonObject, key: string, st: KeyState)
    requires key in Keys(obj) && IsIdKey(env, t, key)
    requires ProcessKey(env, db, t, tableName, obj, key, st).Success?
    ensures var st' := ProcessKey(env, db, t, tableName, obj, key, st).value.1;
      st'.id.Some? && IdMember(env, t, obj, key) == st'.id
  {
    var f := FieldLookup.FindField(env.schema, t, key).value;
    var df := DatabaseFieldOf(f).value;
    var processed := ProcessIdField(db, df, f, obj, key, tableName);
    assert processed.Success?;
    assert LegacyJsonUtils.GetValue(obj, key, f.fieldType).Success?;
    assert ProcessKey(env, db, t, tableName, obj, key, st).value.1.id ==
      Some(JsonPersisterSpec.IdDescriptor(OrmliteReflection.FieldName(f, df), processed.value.1));
  }

  /** Any other key leaves the id as it was. */
  lemma OtherKeyKeepsId(env: PoetrySpec.Env, db: Db, t: JType, tableName: string, obj: JsonObject, key: string, st: KeyState)
    requires key in Keys(obj) && !IsIdKey(env, t, key)
    requires ProcessKey(env, db, t, tableName, obj, key, st).Success?
    ensures ProcessKey(env, db, t, tableName, obj, key, st).value.1.id == st.id
  {
    var field := FieldLookup.FindField(env.schema, t, key);
    if field.Some? && DatabaseFieldOf(field.value).Some? {
      var f := field.value;
      var processed := ProcessDatabaseField(env, db, DatabaseFieldOf(f).value, f, obj, key, st.values).value;
      assert ProcessKey(env, db, t, tableName, obj, key, st).value.1 == st.(values := processed.1);
    }
  }

  /** One key changes the id only when it is an id member, and then sets it
      to that member's value whatever it was before. */
  lemma ProcessKeyId(env: PoetrySpec.Env, db: Db, t: JType, tableName: string, obj: JsonObject, key: string, st: KeyState)
    requires key in Keys(obj)
    requires ProcessKey(env, db, t, tableName, obj, key, st).Success?
    ensures var st' := ProcessKey(env, db, t, tableName, obj, key, st).value.1;
      if IsIdKey(env, t, key) then st'.id.Some? && IdMember(env, t, obj, key) == st'.id
      else st'.id == st.id
  {
    if IsIdKey(env, t, key) {
      IdKeySetsId(env, db, t, tableName, obj, key, st);
    } else {
      OtherKeyKeepsId(env, db, t, tableName, obj, key, st);
    }
  }

  /** No key of `obj` from the `lo`-th to before the `hi`-th is an id member. */
  predicate NoIdKeyIn(env: PoetrySpec.Env, t: JType, obj: JsonObject, lo: nat, hi: nat)
    requires lo <= hi <= |Keys(obj)|
  {
    forall k | lo <= k < hi :: !IsIdKey(env, t, Keys(obj)[k])
  }

  /** How the id before the keys from the `i`-th on relates to the id after
      them: without an id member among them it is unchanged; otherwise it is
      the value of the last id member. */
  predicate LastIdWins(env: PoetrySpec.Env, t: JType, obj: JsonObject, i: nat, before: Option<IdDescriptor>, after: Option<IdDescriptor>)
    requires i <= |Keys(obj)|
  {
    (NoIdKeyIn(env, t, obj, i, |Keys(obj)|) ==> after == before) &&
    (forall k | i <= k < |Keys(obj)| && IsIdKey(env, t, Keys(obj)[k]) && NoIdKeyIn(env, t, obj, k + 1, |Keys(obj)|) ::
      after.Some? && IdMember(env, t, obj, Keys(obj)[k]) == after)
  }

  /** One key followed by the rest keeps `LastIdWins`. */
  lemma LastIdWinsStep(env: PoetrySpec.Env, t: JType, obj: JsonObject, i: nat,
                       before: Option<IdDescriptor>, mid: Option<IdDescriptor>, after: Option<IdDescriptor>)
    requires i < |Keys(obj)|
    requires IsIdKey(env, t, Keys(obj)[i]) ==> mid.Some? && IdMember(env, t, obj, Keys(obj)[i]) == mid
    requires !IsIdKey(env, t, Keys(obj)[i]) ==> mid == before
    requires LastIdWins(env, t, obj, i + 1, mid, after)
    ensures LastIdWins(env, t, obj, i, before, after)
  {
    var n := |Keys(obj)|;
    if IsIdKey(env, t, Keys(obj)[i]) {
      assert !NoIdKeyIn(env, t, obj, i, n);
    } else {
      assert NoIdKeyIn(env, t, obj, i, n) ==> NoIdKeyIn(env, t, obj, i + 1, n);
    }
  }

  /** The key loop leaves the id of the last id member (`LastIdWins`). */
  lemma {:induction false} KeysKeepLastId(env: PoetrySpec.Env, db: Db, t: JType, tableName: string, obj: JsonObject, i: nat, st: KeyState)
    requires i <= |Keys(obj)|
    requires ProcessKeys(env, db, t, tableName, obj, i, st).Success?
    ensures LastIdWins(env, t, obj, i, st.id, ProcessKeys(env, db, t, tableName, obj, i, st).value.1.id)
    decreases |Keys(obj)| - i
  {
    if i < |Keys(obj)| {
      ProcessKeysStep(env, db, t, tableName, obj, i, st);
      var p := ProcessKey(env, db, t, tableName, obj, Keys(obj)[i], st).value;
      ProcessKeyId(env, db, t, tableName, obj, Keys(obj)[i], st);
      KeysKeepLastId(env, p.0, t, tableName, obj, i + 1, p.1);
      LastIdWinsStep(env, t, obj, i, st.id, p.1.id, ProcessKeys(env, p.0, t, tableName, obj, i + 1, p.1).value.1.id);
    }
  }

  /** The id `persistObjectInternal` returns: with id members, the value of
      the last one (an earlier one is overwritten, not refused); without
      one, the rowid of the row it inserted, a Long. */
  lemma PersistedIdIsTheLastIdMember(env: PoetrySpec.Env, db: Db, t: JType, obj: JsonObject)
    requires PersistObjectInternal(env, db, t, obj).Success?
    ensures var id := PersistObjectInternal(env, db, t, obj).value.1;
      forall k | 0 <= k < |Keys(obj)| && IsIdKey(env, t, Keys(obj)[k]) && NoIdKeyIn(env, t, obj, k + 1, |Keys(obj)|) ::
        IdMember(env, t, obj, Keys(obj)[k]).Some? && IdMember(env, t, obj, Keys(obj)[k]).value.id == id
    ensures var id := PersistObjectInternal(env, db, t, obj).value.1;
      NoIdKeyIn(env, t, obj, 0, |Keys(obj)|) ==> id.LongV?
  {
    var tableName := OrmliteReflection.TableNameOrThrow(env.schema, t).value;
    var st := KeyState(map[], None, []);
    var keys := ProcessKeys(env, db, t, tableName, obj, 0, st).value;
    var resolved := ResolveId(env, keys.0, tableName, t, keys.1.id).value;
    assert PersistObjectInternal(env, db, t, obj).value.1 == resolved.1.id;
    KeysKeepLastId(env, db, t, tableName, obj, 0, st);
  }

  /** Where the generations part: an object with two id members, which the
      Kotlin persister refuses, is written by the Java persister under the
      second one's value. */
  lemma SecondIdMemberWins(env: PoetrySpec.Env, db: Db, t: JType, obj: JsonObject, a: nat, b: nat)
    requires a < b < |Keys(obj)|
    requires IsIdKey(env, t, Keys(obj)[a]) && IsIdKey(env, t, Keys(obj)[b])
    requires NoIdKeyIn(env, t, obj, b + 1, |Keys(obj)|)
    requires PersistObjectInternal(env, db, t, obj).Success?
    ensures IdMember(env, t, obj, Keys(obj)[b]).Some? &&
      IdMember(env, t, obj, Keys(obj)[b]).value.id == PersistObjectInternal(env, db, t, obj).value.1
  {
    PersistedIdIsTheLastIdMember(env, db, t, obj);
  }

  // ---------------------------------------------------------------------
  // Arrays

  /** Where `persistArrayOfBaseTypes` succeeds it inserts the rows
      `writeArrayOfBaseTypes` inserts, and its ids are their rowids as Longs. */
  lemma {:induction false} BaseRowsAgree(db: Db, table: string, column: string, items: seq<Json>, i: nat)
    requires i <= |items|
    requires InsertBaseRows(db, table, column, items, i).Success?
    ensures var j := InsertBaseRows(db, table, column, items, i).value;
      PoetrySpec.InsertBaseValues(db, table, column, items, i) == Success((j.0, PoetrySpec.LongIds(j.1)))
    decreases |items| - i
  {
    if i < |items| {
      BaseRowsStep(db, table, column, items, i);
      PoetrySpec.InsertBaseStep(db, table, column, items, i);
      var inserted := InsertStatement(db, table, Some(column), map[column := CharSeqV(ToText(items[i]))]).value;
      BaseRowsAgree(inserted.0, table, column, items, i + 1);
      var rest := InsertBaseRows(inserted.0, table, column, items, i + 1).value;
      assert PoetrySpec.LongIds([inserted.1] + rest.1) == [LongV(inserted.1)] + PoetrySpec.LongIds(rest.1);
    }
  }

  /** Where `writeArrayOfBaseTypes` succeeds and no rowid is -1,
      `persistArrayOfBaseTypes` succeeds too: reading -1 as a failure is the
      only way the two part. */
  lemma {:induction false} BaseRowsFailOnlyOnMinusOne(db: Db, table: string, column: string, items: seq<Json>, i: nat)
    requires i <= |items|
    requires PoetrySpec.InsertBaseValues(db, table, column, items, i).Success?
    requires LongV(-1) !in PoetrySpec.InsertBaseValues(db, table, column, items, i).value.1
    ensures InsertBaseRows(db, table, column, items, i).Success?
    decreases |items| - i
  {
    if i < |items| {
      BaseRowsStep(db, table, column, items, i);
      PoetrySpec.InsertBaseStep(db, table, column, items, i);
      var inserted := InsertStatement(db, table, Some(column), map[column := CharSeqV(ToText(items[i]))]).value;
      var p := PoetrySpec.InsertBaseValues(db, table, column, items, i).value.1;
      var later := PoetrySpec.InsertBaseValues(inserted.0, table, column, items, i + 1).value;
      assert p == [LongV(inserted.1)] + later.1;
      assert p[0] == LongV(inserted.1);
      assert forall x | x in later.1 :: x in p;
      BaseRowsFailOnlyOnMinusOne(inserted.0, table, column, items, i + 1);
    }
  }

  // ---------------------------------------------------------------------
  // Many-to-many

  /** Where the Java junction inserts succeed, the Kotlin ones do and leave
      the same contents; where only the Kotlin ones succeed, an insert
      answered a rowid of -1. */
  lemma {:induction false} JunctionRowsGenerationsAgree(db: Db, table: string, fkColumn: string, parentId: Value, targetColumn: string,
                                                        ids: seq<ObjectId>, i: nat)
    requires i <= |ids|
    ensures var j := InsertJunctionRows(db, table, fkColumn, parentId, targetColumn, ids, i);
      var k := JsonPersisterSpec.InsertJunctionRows(db, table, fkColumn, parentId, targetColumn, ids, i);
      (j.Success? ==> j == k) && (k.Success? && j.Failure? ==> j.error == RuntimeException("failed to insert item in " + table))
    decreases |ids| - i
  {
    if i < |ids| {
      JunctionRowsStep(db, table, fkColumn, parentId, targetColumn, ids, i);
      JsonPersisterSpec.JunctionRowsStep(db, table, fkColumn, parentId, targetColumn, ids, i);
      var j := InsertJunctionRows(db, table, fkColumn, parentId, targetColumn, ids, i);
      var k := JsonPersisterSpec.InsertJunctionRows(db, table, fkColumn, parentId, targetColumn, ids, i);
      var withParent := PutResult(map[], fkColumn, parentId);
      var values := PutResult(withParent.1, targetColumn, ids[i]);
      var inserted := InsertStatement(db, table, None, values.1);
      if !withParent.0 || !values.0 || inserted.Failure? {
        assert j.Failure? && k.Failure?;
      } else if inserted.value.1 == -1 {
        assert j == Failure(RuntimeException("failed to insert item in " + table));
      } else {
        assert j == InsertJunctionRows(inserted.value.0, table, fkColumn, parentId, targetColumn, ids, i + 1);
        assert k == JsonPersisterSpec.InsertJunctionRows(inserted.value.0, table, fkColumn, parentId, targetColumn, ids, i + 1);
        JunctionRowsGenerationsAgree(inserted.value.0, table, fkColumn, parentId, targetColumn, ids, i + 1);
      }
    }
  }

  /** Where the Java replacement of a parent's junction rows succeeds, the
      Kotlin one does and leaves the same contents; where only the Kotlin one
      succeeds, an insert answered a rowid of -1. */
  lemma ReplaceJunctionGenerationsAgree(env: PoetrySpec.Env, db: Db, targetClass: JType, targetForeignField: Field, targetTargetField: Field,
                                        targetIds: seq<ObjectId>, parentId: ObjectId)
    ensures var j := ReplaceJunction(env, db, targetClass, targetForeignField, targetTargetField, targetIds, parentId);
      var k := JsonPersisterSpec.ReplaceJunction(env, db, targetClass, targetForeignField, targetTargetField, targetIds, parentId);
      (j.Success? ==> j == k) && (k.Success? && j.Failure? ==> j.error.RuntimeException?)
  {
    LegacyQueryUtils.ParseAttributeGenerationsAgree(parentId);
    var j := ReplaceJunction(env, db, targetClass, targetForeignField, targetTargetField, targetIds, parentId);
    var k := JsonPersisterSpec.ReplaceJunction(env, db, targetClass, targetForeignField, targetTargetField, targetIds, parentId);
    var clear := PoetrySpec.JunctionClear(env, targetClass, targetForeignField, parentId);
    if clear.Failure? {
      assert j.Failure? && k.Failure?;
    } else {
      var cleared := Store.Delete(db, clear.value.0, ColumnEqualsLiteral(clear.value.1, clear.value.2));
      if cleared.Failure? || DatabaseFieldOf(targetTargetField).None? {
        assert j.Failure? && k.Failure?;
      } else {
        var targetColumn := FieldAnnotations.ColumnNameForField(targetTargetField, DatabaseFieldOf(targetTargetField).value);
        assert j == InsertJunctionRows(cleared.value, clear.value.0, clear.value.1, parentId, targetColumn, targetIds, 0);
        assert k == JsonPersisterSpec.InsertJunctionRows(cleared.value, clear.value.0, clear.value.1, parentId, targetColumn, targetIds, 0);
        JunctionRowsGenerationsAgree(cleared.value, clear.value.0, clear.value.1, parentId, targetColumn, targetIds, 0);
      }
    }
  }

  /** After the Java persister replaces the junction rows, the Long parent
      is linked to exactly the Long targets, in order. */
  lemma JunctionLinksExactlyTheTargets(env: PoetrySpec.Env, db: Db, targetClass: JType, targetForeignField: Field,
                                       targetTargetField: Field, ids: seq<Int64>, parent: Int64)
    requires JsonPersisterLaws.JunctionColumns(env, targetClass, targetForeignField, targetTargetField).Some?
    requires var (table, fkColumn, targetColumn) := JsonPersisterLaws.JunctionColumns(env, targetClass, targetForeignField, targetTargetField).value;
      table in db.tables && fkColumn != targetColumn &&
      !IsRowidColumn(db.tables[table], fkColumn) && !IsRowidColumn(db.tables[table], targetColumn)
    requires ReplaceJunction(env, db, targetClass, targetForeignField, targetTargetField, PoetrySpec.LongIds(ids), LongV(parent)).Success?
    ensures var (table, fkColumn, targetColumn) := JsonPersisterLaws.JunctionColumns(env, targetClass, targetForeignField, targetTargetField).value;
      var db' := ReplaceJunction(env, db, targetClass, targetForeignField, targetTargetField, PoetrySpec.LongIds(ids), LongV(parent)).value;
      table in db'.tables &&
      PoetrySpec.Linked(db'.tables[table], db'.tables[table].rows, fkColumn, DecimalText(parent), targetColumn) == PoetrySpec.TargetCells(ids)
    ensures var (table, fkColumn, targetColumn) := JsonPersisterLaws.JunctionColumns(env, targetClass, targetForeignField, targetTargetField).value;
      var db' := ReplaceJunction(env, db, targetClass, targetForeignField, targetTargetField, PoetrySpec.LongIds(ids), LongV(parent)).value;
      PoetrySpec.Unlinked(db'.tables[table], db'.tables[table].rows, fkColumn, DecimalText(parent)) ==
        PoetrySpec.Unlinked(db.tables[table], db.tables[table].rows, fkColumn, DecimalText(parent)) &&
      forall name | name in db.tables && name != table :: name in db'.tables && db'.tables[name] == db.tables[name]
  {
    ReplaceJunctionGenerationsAgree(env, db, targetClass, targetForeignField, targetTargetField, PoetrySpec.LongIds(ids), LongV(parent));
    JsonPersisterLaws.JunctionLinksExactlyTheTargets(env, db, targetClass, targetForeignField, targetTargetField, ids, parent);
  }

  // ---------------------------------------------------------------------
  // One-to-many

  /** The foreign column and its ContentValues are found exactly when the
      Kotlin persister finds them, and are the same. */
  lemma ForeignKeyGenerationsAgree(targetForeignField: Field, parentId: ObjectId)
    ensures var j := ForeignKey(targetForeignField, parentId);
      var k := JsonPersisterSpec.ForeignColumn(targetForeignField, parentId);
      (j.Success? <==> k.Success?) && (j.Success? ==> j == k)
  {
  }

  /** The IN clause's arguments, the table and the id column are found
      exactly when the Kotlin persister finds them, and are the same. */
  lemma TargetQueryGenerationsAgree(env: PoetrySpec.Env, targetIds: seq<ObjectId>, targetClass: JType, targetIdField: Field)
    ensures var j := TargetQuery(env, targetIds, targetClass, targetIdField);
      var k := PoetrySpec.TargetQuery(env, targetIds, targetClass, targetIdField);
      (j.Success? <==> k.Success?) && (j.Success? ==> j == k)
  {
  }

  /** The Java plan of `processManyToOne` is found exactly when the Kotlin
      one is, and is the same. */
  lemma PlanLinkGenerationsAgree(env: PoetrySpec.Env, targetIds: seq<ObjectId>, targetClass: JType, targetIdField: Field,
                                 targetForeignField: Field, parentId: ObjectId)
    ensures var j := PlanLink(env, targetIds, targetClass, targetIdField, targetForeignField, parentId);
      var k := JsonPersisterSpec.PlanLink(env, targetIds, targetClass, targetIdField, targetForeignField, parentId);
      (j.Success? <==> k.Success?) && (j.Success? ==> j == k)
  {
    ForeignKeyGenerationsAgree(targetForeignField, parentId);
    TargetQueryGenerationsAgree(env, targetIds, targetClass, targetIdField);
  }

  /** The Java linking of children issues the Kotlin statements: it succeeds
      exactly when they do and leaves the same contents, so the children it
      lists read the parent and, unless disabled, no other child does. */
  lemma LinkChildrenGenerationsAgree(env: PoetrySpec.Env, db: Db, targetIds: seq<ObjectId>, targetClass: JType, targetIdField: Field,
                                     targetForeignField: Field, parentId: ObjectId)
    ensures var j := LinkChildren(env, db, targetIds, targetClass, targetIdField, targetForeignField, parentId);
      var k := JsonPersisterSpec.LinkChildren(env, db, targetIds, targetClass, targetIdField, targetForeignField, parentId);
      (j.Success? <==> k.Success?) && (j.Success? ==> j == k)
  {
    PlanLinkGenerationsAgree(env, targetIds, targetClass, targetIdField, targetForeignField, parentId);
  }
}
