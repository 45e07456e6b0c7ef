/** The database handle the persisters write through (internal/database/
    Database.kt, Android's SQLiteDatabase as SQLiteDatabaseExtensions.kt uses
    it): the store's contents, changed by one statement at a time, inside
    transactions that commit or roll back as a whole. */
module Databases {
  import opened Wrappers
  import opened JavaInts
  import opened Values
  import opened Store
  import opened ContentValuesExt

  /** One open transaction level: whether it was marked successful, and
      whether a level nested in it ended without being so. */
  datatype Level = Level(successful: bool, childFailed: bool)

  /** A level whose end keeps its changes. */
  predicate Commits(l: Level)
  {
    l.successful && !l.childFailed
  }

  /** The levels left by `endTransaction()`: the innermost is closed, and an
      unsuccessful one dooms the level around it. */
  function EndLevels(levels: seq<Level>): (r: seq<Level>)
    requires |levels| > 0
    ensures |r| == |levels| - 1
    ensures |levels| > 1 ==>
      r[..|r| - 1] == levels[..|levels| - 2] &&
      r[|r| - 1].successful == levels[|levels| - 2].successful &&
      (r[|r| - 1].childFailed <==> levels[|levels| - 2].childFailed || !Commits(levels[|levels| - 1]))
  {
    var n := |levels|;
    if n == 1 then []
    else
      var parent := levels[n - 2];
      levels[..n - 2] + [parent.(childFailed := parent.childFailed || !Commits(levels[n - 1]))]
  }

  /** A statement's outcome with the contents it leaves. */
  function Outcome<X>(r: Result<X>, db: Db): Result<(Db, X)>
  {
    match r
    case Success(x) => Success((db, x))
    case Failure(e) => Failure(e)
  }

  class Database {
    /** The contents as statements of this connection see them. */
    var state: Db
    /** The contents when the outermost open transaction began. */
    var snapshot: Db
    /** The open transaction levels, outermost first. */
    var levels: seq<Level>

    constructor (initial: Db)
      ensures state == initial && levels == []
    {
      state := initial;
      snapshot := initial;
      levels := [];
    }

    predicate InTransaction()
      reads this
    {
      levels != []
    }

    /** `beginTransaction()` / `beginTransactionNonExclusive()`: the lock mode
        makes no difference to one connection's contents. */
    method BeginTransaction()
      modifies this`snapshot, this`levels
      ensures levels == old(levels) + [Level(false, false)]
      ensures snapshot == if old(levels) == [] then state else old(snapshot)
    {
      if levels == [] {
        snapshot := state;
      }
      levels := levels + [Level(false, false)];
    }

    /** `setTransactionSuccessful()`: marks the innermost level; Android
        refuses when there is none or it is marked already. */
    method SetTransactionSuccessful() returns (r: Result<()>)
      modifies this`levels
      ensures r.Success? <==> old(levels) != [] && !old(levels)[|old(levels)| - 1].successful
      ensures r.Success? ==> levels == old(levels)[|old(levels)| - 1 := Level(true, old(levels)[|old(levels)| - 1].childFailed)]
      ensures r.Failure? ==> r.error.IllegalStateException? && levels == old(levels)
    {
      if levels == [] {
        return Failure(IllegalStateException("no transaction pending"));
      }
      var top := levels[|levels| - 1];
      if top.successful {
        return Failure(IllegalStateException("transaction already marked successful"));
      }
      levels := levels[|levels| - 1 := Level(true, top.childFailed)];
      return Success(());
    }

    /** `endTransaction()`: closing the outermost level commits when it
        commits and rolls back to the snapshot otherwise. */
    method EndTransaction() returns (r: Result<()>)
      modifies this`levels, this`state
      ensures r.Success? <==> old(levels) != []
      ensures r.Failure? ==> r.error.IllegalStateException? && levels == old(levels) && state == old(state)
      ensures r.Success? ==> levels == EndLevels(old(levels))
      ensures r.Success? ==> state == if |old(levels)| == 1 && !Commits(old(levels)[0]) then snapshot else old(state)
    {
      if levels == [] {
        return Failure(IllegalStateException("no transaction pending"));
      }
      if |levels| == 1 && !Commits(levels[0]) {
        state := snapshot;
      }
      levels := EndLevels(levels);
      return Success(());
    }

    /** `endTransactionSafely()`: ends a transaction only when one is open. */
    method EndTransactionSafely()
      modifies this`levels, this`state
      ensures levels == if old(levels) == [] then [] else EndLevels(old(levels))
      ensures state == if |old(levels)| == 1 && !Commits(old(levels)[0]) then snapshot else old(state)
    {
      if InTransaction() {
        var _ := EndTransaction();
      }
    }

    /** What follows the block of `transaction { }` (Database.kt) and
        `transactionNonExclusive { }` (SQLiteDatabaseExtensions.kt): a block
        that returned marks the transaction successful, and the transaction
        is ended whatever happened, the block's exception passing through. */
    method FinishTransaction<T>(outcome: Result<T>) returns (r: Result<T>)
      modifies this`levels, this`state
      ensures outcome.Failure? ==> r == outcome
      ensures old(levels) != [] && !old(levels)[|old(levels)| - 1].successful ==> r == outcome
      ensures old(levels) == [] ==> levels == [] && state == old(state)
      ensures old(levels) == [] && outcome.Success? ==> r.Failure? && r.error.IllegalStateException?
      ensures old(levels) == [Level(false, false)] ==>
        r == outcome && levels == [] &&
        state == if outcome.Success? then old(state) else snapshot
    {
      r := outcome;
      if outcome.Success? {
        var marked := SetTransactionSuccessful();
        if marked.Failure? {
          r := Failure(marked.error);
        }
      }
      EndTransactionSafely();
    }

    /** `queryFirst(table, column, value)`. */
    method QueryFirst(table: string, column: string, value: string) returns (r: Result<Option<Int64>>)
      ensures r == Store.QueryFirst(state, table, column, value)
    {
      r := Store.QueryFirst(state, table, column, value);
    }

    /** `SELECT * FROM table WHERE column = ? LIMIT 1` has a row. */
    method HasRow(table: string, column: string, value: string) returns (r: Result<bool>)
      ensures r == Store.HasRow(state, table, column, value)
    {
      r := Store.HasRow(state, table, column, value);
    }

    /** `insert(...)`: the new rowid, or -1 when the statement failed. */
    method Insert(table: string, values: ContentValues, columnHack: Option<string>) returns (rowid: int)
      modifies this`state
      ensures var s := InsertStatement(old(state), table, columnHack, values.values);
        if s.Success? then state == s.value.0 && rowid == s.value.1
        else state == old(state) && rowid == -1
    {
      var s := InsertStatement(state, table, columnHack, values.values);
      if s.Success? {
        state := s.value.0;
        rowid := s.value.1;
      } else {
        rowid := -1;
      }
    }

    /** `insertOrThrow(...)`: the new rowid, or the statement's exception. */
    method InsertOrThrow(table: string, values: ContentValues, columnHack: Option<string>) returns (r: Result<Int64>)
      modifies this`state
      ensures Outcome(r, state) == InsertStatement(old(state), table, columnHack, values.values)
      ensures r.Failure? ==> state == old(state)
    {
      var s := InsertStatement(state, table, columnHack, values.values);
      if s.Success? {
        state := s.value.0;
        r := Success(s.value.1);
      } else {
        r := Failure(s.error);
      }
    }

    /** `update(table, values, whereClause, whereArgs)`: the number of rows
        changed. */
    method Update(table: string, values: ContentValues, where: Predicate) returns (r: Result<nat>)
      modifies this`state
      ensures var s := Store.Update(old(state), table, values.values, where);
        (r.Success? <==> s.Success?) &&
        (s.Success? ==> state == s.value &&
                        r.value == CountSelected(old(state).tables[table], old(state).tables[table].rows, where)) &&
        (s.Failure? ==> state == old(state) && r.error == s.error)
    {
      var s := Store.Update(state, table, values.values, where);
      if s.Success? {
        r := Success(CountSelected(state.tables[table], state.tables[table].rows, where));
        state := s.value;
      } else {
        r := Failure(s.error);
      }
    }

    /** `delete(table, whereClause, whereArgs)`: the number of rows removed. */
    method Delete(table: string, where: Predicate) returns (r: Result<nat>)
      modifies this`state
      ensures var s := Store.Delete(old(state), table, where);
        (r.Success? <==> s.Success?) &&
        (s.Success? ==> state == s.value &&
                        r.value == CountSelected(old(state).tables[table], old(state).tables[table].rows, where)) &&
        (s.Failure? ==> state == old(state) && r.error == s.error)
    {
      var s := Store.Delete(state, table, where);
      if s.Success? {
        r := Success(CountSelected(state.tables[table], state.tables[table].rows, where));
        state := s.value;
      } else {
        r := Failure(s.error);
      }
    }

    /** `createRowIfNotExists(tableName, idColumnName, id)`. */
    method CreateRowIfNotExists(table: string, idColumn: string, id: Value) returns (r: Result<()>)
      requires !id.Null?
      modifies this`state
      ensures var s := CreateRow(old(state), table, idColumn, id);
        (r.Success? <==> s.Success?) &&
        (s.Success? ==> state == s.value) &&
        (s.Failure? ==> state == old(state) && r.error == s.error)
    {
      var found :- HasRow(table, idColumn, Text(id));
      if !found {
        var values := new ContentValues();
        var put := values.PutOrThrow(idColumn, id);
        if put.Failure? {
          return Failure(put.error);
        }
        var inserted := InsertOrThrow(table, values, None);
        if inserted.Failure? {
          return Failure(inserted.error);
        }
      }
      return Success(());
    }
  }

  /** The contents after `createRowIfNotExists`: unchanged when a row has the
      id, else with one row holding just the id. */
  function CreateRow(db: Db, table: string, idColumn: string, id: Value): (r: Result<Db>)
  {
    var found :- Store.HasRow(db, table, idColumn, Text(id));
    if found then Success(db)
    else
      var put := PutResult(map[], idColumn, id);
      if !put.0 then Failure(UnsupportedType(idColumn, id.className))
      else
        var inserted :- InsertStatement(db, table, None, put.1);
        Success(inserted.0)
  }

  /** An id whose text a WHERE clause reads back from the column it is
      written to: a Java int or long, or a string in a column that is not
      the rowid. */
  predicate ReadsBack(db: Db, table: string, idColumn: string, id: Value)
  {
    idColumn != "ROWID" &&
    (id.IntV? || id.LongV? ||
     (id.CharSeqV? && table in db.tables && db.tables[table].rowidAlias != Some(idColumn)))
  }

  /** `createRowIfNotExists` leaves a row that `idColumn = id` selects, and
      leaves the contents alone when there was one: at most one row is added,
      holding just the id. */
  lemma CreateRowEnsuresRow(db: Db, table: string, idColumn: string, id: Value)
    requires ReadsBack(db, table, idColumn, id)
    requires CreateRow(db, table, idColumn, id).Success?
    ensures Store.HasRow(CreateRow(db, table, idColumn, id).value, table, idColumn, Text(id)) == Success(true)
    ensures Store.HasRow(db, table, idColumn, Text(id)) == Success(true) ==> CreateRow(db, table, idColumn, id).value == db
    ensures Store.HasRow(db, table, idColumn, Text(id)) == Success(false) ==>
      var t := db.tables[table];
      var t' := CreateRow(db, table, idColumn, id).value.tables[table];
      |t'.rows| == |t.rows| + 1 && t'.rows[..|t.rows|] == t.rows &&
      t'.rows[|t.rows|].cells == CellsOf(t, map[idColumn := id])
  {
    if Store.HasRow(db, table, idColumn, Text(id)) == Success(false) {
      var ins := Insert(db, table, map[idColumn := id]).value;
      assert CreateRow(db, table, idColumn, id).value == ins.0;
      InsertedIdReadsBack(db, table, idColumn, id);
    }
  }

  /** The row an insert of just the id appends is one that `idColumn = id`
      selects. */
  lemma InsertedIdReadsBack(db: Db, table: string, idColumn: string, id: Value)
    requires ReadsBack(db, table, idColumn, id)
    requires Insert(db, table, map[idColumn := id]).Success?
    ensures var ins := Insert(db, table, map[idColumn := id]).value;
      var t := db.tables[table];
      var t' := ins.0.tables[table];
      Store.HasRow(ins.0, table, idColumn, Text(id)) == Success(true) &&
      |t'.rows| == |t.rows| + 1 && t'.rows[..|t.rows|] == t.rows &&
      t'.rows[|t.rows|].cells == CellsOf(t, map[idColumn := id])
  {
    var t := db.tables[table];
    var ins := Insert(db, table, map[idColumn := id]).value;
    var t' := ins.0.tables[table];
    var row := t'.rows[|t.rows|];
    assert row == Row(ins.1, CellsOf(t, map[idColumn := id]));
    assert CellText(t', row, idColumn) == Some(Text(id)) by {
      if t.rowidAlias == Some(idColumn) {
        assert IntegerOf(id) == Some(ins.1 as int);
      }
    }
    assert row in t'.rows;
  }
}
