/** What the Kotlin JSON persister promises, proved about JsonPersisterSpec:
    an object's id comes from its one id member or, without one, from the
    rowid of the row made for it; the id is set at most once; a many-to-many
    collection leaves the parent linked to exactly its targets; a one-to-many
    collection links its children and, unless disabled, cleans up the rest. */
module JsonPersisterLaws {
  import opened Wrappers
  import opened JavaInts
  import opened Decimal
  import opened JsonModel
  import opened Values
  import opened Metadata
  import opened FieldAnnotations
  import opened Store
  import opened ContentValuesExt
  import opened Options
  import opened JsonPersisterSpec
  import Databases
  import FieldLookup
  import JsonUtils
  import QueryUtils
  import PoetrySpec

  // ---------------------------------------------------------------------
  // The id

  /** The value of `key` read as the id it names, when `key` names an id
      field and reads as that field's type. */
  function IdMember(env: PoetrySpec.Env, t: JType, obj: JsonObject, key: string): Option<IdDescriptor>
  {
    match FieldLookup.FindField(env.schema, t, key)
    case None => None
    case Some(field) =>
      match DatabaseFieldOf(field)
      case None => None
      case Some(df) =>
        if !IsId(df) then None
        else
          match JsonUtils.GetValue(obj, key, field.fieldType)
          case Failure(_) => None
          case Success(id) => Some(IdDescriptor(ColumnNameForField(field, df), id))
  }

  /** One key changes the id only when it is an id member, which is
      refused once the id is set; the id it sets is that member's value. */
  lemma ProcessKeyId(env: PoetrySpec.Env, db: Db, t: JType, tableName: string, obj: JsonObject, key: string, st: KeyState)
    requires key in Keys(obj)
    requires ProcessKey(env, db, t, tableName, obj, key, st).Success?
    ensures var st' := ProcessKey(env, db, t, tableName, obj, key, st).value.1;
      if IsIdKey(env, t, key) then st.id.None? && st'.id.Some? && IdMember(env, t, obj, key) == st'.id
      else st'.id == st.id
  {
    var field := FieldLookup.FindField(env.schema, t, key);
    if field.Some? && DatabaseFieldOf(field.value).Some? && IsId(DatabaseFieldOf(field.value).value) {
      var f := field.value;
      var df := DatabaseFieldOf(f).value;
      assert st.id.None?;
      assert CreateRowIfNotExists(db, obj, key, f, df, tableName).Success?;
      assert JsonUtils.GetValue(obj, key, f.fieldType).Success?;
    }
  }

  /** No flag from the `lo`-th to before the `hi`-th is set. */
  predicate NoneSet(flags: seq<bool>, lo: nat, hi: nat)
    requires lo <= hi <= |flags|
  {
    forall k | lo <= k < hi :: !flags[k]
  }

  /** How a value set at most once by a walk over flagged positions relates
      before and after the positions from the `i`-th on: a value already set
      stays and no later position may be flagged; an unset value comes out set
      exactly when some later position is flagged, there is only one such
      position, and the value is the one given there. */
  predicate SetOnce(flags: seq<bool>, values: seq<Option<IdDescriptor>>, i: nat, before: Option<IdDescriptor>, after: Option<IdDescriptor>)
    requires |values| == |flags| && i <= |flags|
  {
    (before.Some? ==> after == before && NoneSet(flags, i, |flags|)) &&
    (before.None? && NoneSet(flags, i, |flags|) ==> after.None?) &&
    (before.None? ==> forall k | i <= k < |flags| && flags[k] ::
      after.Some? && values[k] == after && NoneSet(flags, i, k) && NoneSet(flags, k + 1, |flags|))
  }

  /** One position followed by the rest keeps `SetOnce`. */
  lemma SetOnceStep(flags: seq<bool>, values: seq<Option<IdDescriptor>>, i: nat,
                    before: Option<IdDescriptor>, mid: Option<IdDescriptor>, after: Option<IdDescriptor>)
    requires |values| == |flags| && i < |flags|
    requires flags[i] ==> before.None? && mid.Some? && values[i] == mid
    requires !flags[i] ==> mid == before
    requires SetOnce(flags, values, i + 1, mid, after)
    ensures SetOnce(flags, values, i, before, after)
  {
    var n := |flags|;
    if flags[i] {
      assert after == mid && NoneSet(flags, i + 1, n);
      assert NoneSet(flags, i, i);
    } else {
      assert NoneSet(flags, i + 1, n) ==> NoneSet(flags, i, n);
      if before.None? {
        forall k | i < k < n && flags[k]
          ensures NoneSet(flags, i, k)
        {
          assert NoneSet(flags, i + 1, k);
        }
      }
    }
  }

  /** Which keys of `obj` are id members, key by key. */
  function IdFlags(env: PoetrySpec.Env, t: JType, obj: JsonObject): (r: seq<bool>)
    ensures |r| == |Keys(obj)| && forall k | 0 <= k < |r| :: r[k] == IsIdKey(env, t, Keys(obj)[k])
  {
    seq(|Keys(obj)|, k requires 0 <= k < |Keys(obj)| => IsIdKey(env, t, Keys(obj)[k]))
  }

  /** The id each key of `obj` reads as, key by key. */
  function IdMembers(env: PoetrySpec.Env, t: JType, obj: JsonObject): (r: seq<Option<IdDescriptor>>)
    ensures |r| == |Keys(obj)| && forall k | 0 <= k < |r| :: r[k] == IdMember(env, t, obj, Keys(obj)[k])
  {
    seq(|Keys(obj)|, k requires 0 <= k < |Keys(obj)| => IdMember(env, t, obj, Keys(obj)[k]))
  }

  /** No key of `obj` from the `lo`-th to before the `hi`-th is an id member. */
  predicate NoIdKeyIn(env: PoetrySpec.Env, t: JType, obj: JsonObject, lo: nat, hi: nat)
    requires lo <= hi <= |Keys(obj)|
  {
    NoneSet(IdFlags(env, t, obj), lo, hi)
  }

  /** The id before the keys from the `i`-th on and the id after them, as
      `SetOnce` relates them for the id members of `obj`. */
  predicate IdSetOnce(env: PoetrySpec.Env, t: JType, obj: JsonObject, i: nat, before: Option<IdDescriptor>, after: Option<IdDescriptor>)
    requires i <= |Keys(obj)|
  {
    SetOnce(IdFlags(env, t, obj), IdMembers(env, t, obj), i, before, after)
  }

  /** One key followed by the rest keeps `IdSetOnce`. */
  lemma IdSetOnceStep(env: PoetrySpec.Env, t: JType, obj: JsonObject, i: nat,
                      before: Option<IdDescriptor>, mid: Option<IdDescriptor>, after: Option<IdDescriptor>)
    requires i < |Keys(obj)|
    requires IsIdKey(env, t, Keys(obj)[i]) ==> before.None? && mid.Some? && IdMember(env, t, obj, Keys(obj)[i]) == mid
    requires !IsIdKey(env, t, Keys(obj)[i]) ==> mid == before
    requires IdSetOnce(env, t, obj, i + 1, mid, after)
    ensures IdSetOnce(env, t, obj, i, before, after)
  {
    SetOnceStep(IdFlags(env, t, obj), IdMembers(env, t, obj), i, before, mid, after);
  }

  /** The key loop sets the id at most once (`IdSetOnce`). */
  lemma {:induction false} KeysSetIdOnce(env: PoetrySpec.Env, db: Db, t: JType, tableName: string, obj: JsonObject, i: nat, st: KeyState)
    requires i <= |Keys(obj)|
    requires ProcessKeys(env, db, t, tableName, obj, i, st).Success?
    ensures IdSetOnce(env, t, obj, i, st.id, ProcessKeys(env, db, t, tableName, obj, i, st).value.1.id)
    decreases |Keys(obj)| - i
  {
    if i < |Keys(obj)| {
      ProcessKeysStep(env, db, t, tableName, obj, i, st);
      var p := ProcessKey(env, db, t, tableName, obj, Keys(obj)[i], st).value;
      ProcessKeyId(env, db, t, tableName, obj, Keys(obj)[i], st);
      KeysSetIdOnce(env, p.0, t, tableName, obj, i + 1, p.1);
      IdSetOnceStep(env, t, obj, i, st.id, p.1.id, ProcessKeys(env, p.0, t, tableName, obj, i + 1, p.1).value.1.id);
    }
  }

  /** An object with two id members is refused (`Trying to set id twice`,
      unless an earlier key already failed). */
  lemma TwoIdMembersRefused(env: PoetrySpec.Env, db: Db, t: JType, obj: JsonObject, a: nat, b: nat)
    requires a < b < |Keys(obj)|
    requires IsIdKey(env, t, Keys(obj)[a]) && IsIdKey(env, t, Keys(obj)[b])
    ensures PersistObjectInternal(env, db, t, obj).Failure?
  {
    var tableName := TableNameOrThrow(env.schema, t);
    if tableName.Success? {
      var keys := ProcessKeys(env, db, t, tableName.value, obj, 0, KeyState(map[], None, []));
      if keys.Success? {
        KeysSetIdOnce(env, db, t, tableName.value, obj, 0, KeyState(map[], None, []));
        assert false;
      }
    }
  }

  /** The id `persistObjectInternal` returns: with an id member, that
      member's value read as the id field's type; without one, the rowid of
      the row it inserted, a Long. */
  lemma PersistedIdIsTheJsonId(env: PoetrySpec.Env, db: Db, t: JType, obj: JsonObject)
    requires PersistObjectInternal(env, db, t, obj).Success?
    ensures var id := PersistObjectInternal(env, db, t, obj).value.1;
      forall k | 0 <= k < |Keys(obj)| && IsIdKey(env, t, Keys(obj)[k]) ::
        IdMember(env, t, obj, Keys(obj)[k]).Some? && IdMember(env, t, obj, Keys(obj)[k]).value.id == id
    ensures var id := PersistObjectInternal(env, db, t, obj).value.1;
      (forall k | 0 <= k < |Keys(obj)| :: !IsIdKey(env, t, Keys(obj)[k])) ==> id.LongV?
  {
    var tableName := TableNameOrThrow(env.schema, t).value;
    var st := KeyState(map[], None, []);
    var keys := ProcessKeys(env, db, t, tableName, obj, 0, st).value;
    var resolved := ResolveId(env, keys.0, tableName, t, keys.1.id).value;
    assert PersistObjectInternal(env, db, t, obj).value.1 == resolved.1.id;
    KeysSetIdOnce(env, db, t, tableName, obj, 0, st);
  }

  /** `createRowIfNotExists` leaves a row whose id column reads the id (for
      an id whose text reads back from that column), adding at most one. */
  lemma CreatedRowHoldsTheId(db: Db, obj: JsonObject, key: string, field: Field, df: DatabaseFieldInfo, tableName: string)
    requires CreateRowIfNotExists(db, obj, key, field, df, tableName).Success?
    requires Databases.ReadsBack(db, tableName, ColumnNameForField(field, df), JsonUtils.GetValue(obj, key, field.fieldType).value)
    ensures var created := CreateRowIfNotExists(db, obj, key, field, df, tableName).value;
      Store.HasRow(created.0, tableName, created.1.columnName, Text(created.1.id)) == Success(true)
    ensures var created := CreateRowIfNotExists(db, obj, key, field, df, tableName).value;
      tableName in db.tables && tableName in created.0.tables &&
      |db.tables[tableName].rows| <= |created.0.tables[tableName].rows| <= |db.tables[tableName].rows| + 1
  {
    var id := JsonUtils.GetValue(obj, key, field.fieldType).value;
    Databases.CreateRowEnsuresRow(db, tableName, ColumnNameForField(field, df), id);
  }

  /** `insertRowFromModelClass` appends one row, under a rowid no row of the
      table had, and that rowid is the id. */
  lemma ModelClassRowIsNew(env: PoetrySpec.Env, db: Db, tableName: string, t: JType)
    requires Valid(db)
    requires InsertRowFromModelClass(env, db, tableName, t).Success?
    ensures var r := InsertRowFromModelClass(env, db, tableName, t).value;
      var rows := db.tables[tableName].rows;
      tableName in db.tables && r.1.id.LongV? &&
      r.0.tables[tableName].rows == rows + [Row(r.1.id.l, CellsOf(db.tables[tableName], map[r.1.columnName := Null]))] &&
      !HasRowid(rows, r.1.id.l)
  {
    var idField := FindIdField(env.schema, t).value;
    var column := ColumnNameForField(idField, DatabaseFieldOf(idField).value);
    InsertedRowidIsFresh(db, tableName, map[column := Null]);
  }

  // ---------------------------------------------------------------------
  // Arrays

  // ---------------------------------------------------------------------
  // Many-to-many

  /** For Long ids the junction inserts are the same statements the object
      persister issues. */
  lemma {:induction false} JunctionRowsAgree(db: Db, table: string, fkColumn: string, parentId: Value, targetColumn: string, ids: seq<Int64>, i: nat)
    requires i <= |ids|
    ensures JsonPersisterSpec.InsertJunctionRows(db, table, fkColumn, parentId, targetColumn, PoetrySpec.LongIds(ids), i) ==
      PoetrySpec.InsertJunctionRows(db, table, fkColumn, parentId, targetColumn, ids, i)
    decreases |ids| - i
  {
    if i < |ids| {
      JsonPersisterSpec.JunctionRowsStep(db, table, fkColumn, parentId, targetColumn, PoetrySpec.LongIds(ids), i);
      PoetrySpec.InsertJunctionStep(db, table, fkColumn, parentId, targetColumn, ids, i);
      assert PoetrySpec.LongIds(ids)[i] == LongV(ids[i]);
      assert Stored(LongV(ids[i])).Some?;
      var withParent := PutResult(map[], fkColumn, parentId);
      if withParent.0 {
        var values := PutResult(withParent.1, targetColumn, LongV(ids[i]));
        assert values.0;
        var inserted := InsertStatement(db, table, None, values.1);
        if inserted.Success? {
          JunctionRowsAgree(inserted.value.0, table, fkColumn, parentId, targetColumn, ids, i + 1);
        }
      }
    }
  }

  /** The junction table, its column for the parent and its column for the
      target, as `processManyToMany` names them. */
  function JunctionColumns(env: PoetrySpec.Env, targetClass: JType, targetForeignField: Field, targetTargetField: Field): Option<(string, string, string)>
  {
    match TableNameOrThrow(env.schema, targetClass)
    case Failure(_) => None
    case Success(table) =>
      match (DatabaseFieldOf(targetForeignField), DatabaseFieldOf(targetTargetField))
      case (Some(fk), Some(target)) =>
        Some((table, ColumnNameForField(targetForeignField, fk), ColumnNameForField(targetTargetField, target)))
      case _ => None
  }

  /** After the junction rows are replaced, the Long parent is linked to
      exactly the Long targets, in order, and to nothing else. */
  lemma JunctionLinksExactlyTheTargets(env: PoetrySpec.Env, db: Db, targetClass: JType, targetForeignField: Field,
                                       targetTargetField: Field, ids: seq<Int64>, parent: Int64)
    requires JunctionColumns(env, targetClass, targetForeignField, targetTargetField).Some?
    requires var (table, fkColumn, targetColumn) := JunctionColumns(env, targetClass, targetForeignField, targetTargetField).value;
      table in db.tables && fkColumn != targetColumn &&
      !IsRowidColumn(db.tables[table], fkColumn) && !IsRowidColumn(db.tables[table], targetColumn)
    requires ReplaceJunction(env, db, targetClass, targetForeignField, targetTargetField, PoetrySpec.LongIds(ids), LongV(parent)).Success?
    ensures var (table, fkColumn, targetColumn) := JunctionColumns(env, targetClass, targetForeignField, targetTargetField).value;
      var db' := ReplaceJunction(env, db, targetClass, targetForeignField, targetTargetField, PoetrySpec.LongIds(ids), LongV(parent)).value;
      table in db'.tables &&
      PoetrySpec.Linked(db'.tables[table], db'.tables[table].rows, fkColumn, DecimalText(parent), targetColumn) == PoetrySpec.TargetCells(ids)
    ensures var (table, fkColumn, targetColumn) := JunctionColumns(env, targetClass, targetForeignField, targetTargetField).value;
      var db' := ReplaceJunction(env, db, targetClass, targetForeignField, targetTargetField, PoetrySpec.LongIds(ids), LongV(parent)).value;
      PoetrySpec.Unlinked(db'.tables[table], db'.tables[table].rows, fkColumn, DecimalText(parent)) ==
        PoetrySpec.Unlinked(db.tables[table], db.tables[table].rows, fkColumn, DecimalText(parent)) &&
      forall name | name in db.tables && name != table :: name in db'.tables && db'.tables[name] == db.tables[name]
  {
    var (table, fkColumn, targetColumn) := JunctionColumns(env, targetClass, targetForeignField, targetTargetField).value;
    PoetrySpec.LongParentReadsBack(parent);
    var cleared := Store.Delete(db, table, ColumnEqualsLiteral(fkColumn, DecimalText(parent))).value;
    JunctionRowsAgree(cleared, table, fkColumn, LongV(parent), targetColumn, ids, 0);
    PoetrySpec.JunctionRowsAreTheIds(db, table, fkColumn, parent, targetColumn, ids);
  }

  // ---------------------------------------------------------------------
  // One-to-many

  /** After `processManyToOne` links the children of a Long parent, every
      child whose id is among the written ids reads the parent; unless the
      cleanup is disabled, every other child that reads the parent and has an
      id was removed; with it disabled, no child is removed. */
  lemma ChildrenLinkedToParent(env: PoetrySpec.Env, db: Db, targetIds: seq<ObjectId>, targetClass: JType, targetIdField: Field,
                               targetForeignField: Field, parent: Int64)
    requires PlanLink(env, targetIds, targetClass, targetIdField, targetForeignField, LongV(parent)).Success?
    requires var plan := PlanLink(env, targetIds, targetClass, targetIdField, targetForeignField, LongV(parent)).value;
      plan.table in db.tables && plan.fkColumn != plan.idColumn && !IsRowidColumn(db.tables[plan.table], plan.fkColumn)
    requires LinkChildren(env, db, targetIds, targetClass, targetIdField, targetForeignField, LongV(parent)).Success?
    ensures var plan := PlanLink(env, targetIds, targetClass, targetIdField, targetForeignField, LongV(parent)).value;
      var db' := LinkChildren(env, db, targetIds, targetClass, targetIdField, targetForeignField, LongV(parent)).value;
      plan.args == QueryUtils.ArgumentTexts(targetIds) && plan.table in db'.tables
    ensures var plan := PlanLink(env, targetIds, targetClass, targetIdField, targetForeignField, LongV(parent)).value;
      var t' := LinkChildren(env, db, targetIds, targetClass, targetIdField, targetForeignField, LongV(parent)).value.tables[plan.table];
      forall row | row in t'.rows && CellText(t', row, plan.idColumn).Some? && CellText(t', row, plan.idColumn).value in plan.args ::
        CellText(t', row, plan.fkColumn) == Some(DecimalText(parent))
    ensures var plan := PlanLink(env, targetIds, targetClass, targetIdField, targetForeignField, LongV(parent)).value;
      var t' := LinkChildren(env, db, targetIds, targetClass, targetIdField, targetForeignField, LongV(parent)).value.tables[plan.table];
      !IsEnabled(env.options, DISABLE_FOREIGN_COLLECTION_CLEANUP) ==>
        forall row | row in t'.rows && CellText(t', row, plan.fkColumn) == Some(DecimalText(parent)) && CellText(t', row, plan.idColumn).Some? ::
          CellText(t', row, plan.idColumn).value in plan.args
    ensures var plan := PlanLink(env, targetIds, targetClass, targetIdField, targetForeignField, LongV(parent)).value;
      var t' := LinkChildren(env, db, targetIds, targetClass, targetIdField, targetForeignField, LongV(parent)).value.tables[plan.table];
      IsEnabled(env.options, DISABLE_FOREIGN_COLLECTION_CLEANUP) ==> |t'.rows| == |db.tables[plan.table].rows|
    ensures var plan := PlanLink(env, targetIds, targetClass, targetIdField, targetForeignField, LongV(parent)).value;
      var db' := LinkChildren(env, db, targetIds, targetClass, targetIdField, targetForeignField, LongV(parent)).value;
      PoetrySpec.Bystanders(db'.tables[plan.table], db'.tables[plan.table].rows, plan.fkColumn, DecimalText(parent), plan.idColumn, plan.args) ==
        PoetrySpec.Bystanders(db.tables[plan.table], db.tables[plan.table].rows, plan.fkColumn, DecimalText(parent), plan.idColumn, plan.args) &&
      forall name | name in db.tables && name != plan.table :: name in db'.tables && db'.tables[name] == db.tables[name]
  {
    var plan := PlanLink(env, targetIds, targetClass, targetIdField, targetForeignField, LongV(parent)).value;
    PoetrySpec.LongParentReadsBack(parent);
    LinkChildrenFollowsPlan(env, db, targetIds, targetClass, targetIdField, targetForeignField, parent);
    PoetrySpec.LinkTargetsLinksExactlyTheTargets(db, plan.table, plan.fkColumn, LongV(parent), DecimalText(parent),
      plan.idColumn, plan.args, !IsEnabled(env.options, DISABLE_FOREIGN_COLLECTION_CLEANUP));
  }

  /** For a Long parent the update puts just the parent id in the foreign
      column, and `LinkChildren` is the update and cleanup its plan names. */
  lemma LinkChildrenFollowsPlan(env: PoetrySpec.Env, db: Db, targetIds: seq<ObjectId>, targetClass: JType, targetIdField: Field,
                                targetForeignField: Field, parent: Int64)
    requires PlanLink(env, targetIds, targetClass, targetIdField, targetForeignField, LongV(parent)).Success?
    ensures var plan := PlanLink(env, targetIds, targetClass, targetIdField, targetForeignField, LongV(parent)).value;
      plan.values == map[plan.fkColumn := LongV(parent)] &&
      plan.args == QueryUtils.ArgumentTexts(targetIds) &&
      LinkChildren(env, db, targetIds, targetClass, targetIdField, targetForeignField, LongV(parent)) ==
        PoetrySpec.LinkTargets(db, plan.table, plan.fkColumn, LongV(parent), map[plan.fkColumn := LongV(parent)], plan.idColumn, plan.args,
                               !IsEnabled(env.options, DISABLE_FOREIGN_COLLECTION_CLEANUP))
  {
    PoetrySpec.LongParentReadsBack(parent);
  }
}
