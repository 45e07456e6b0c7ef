/** The SQLite tables the persister writes, reduced to what its statements
    observe: each table is a sequence of rows in insertion order, each row a
    rowid and its column values. A table created with an INTEGER PRIMARY KEY
    (OrmLite's generatedId) has that column as an alias of the rowid. WHERE
    clauses are the few shapes the persister builds, evaluated with SQL's
    three-valued logic. */
module Store {
  import opened Wrappers
  import opened Decimal
  import opened Values
  import opened JsonModel
  import opened JavaInts

  datatype Row = Row(rowid: Int64, cells: map<string, Value>)

  datatype Table = Table(rowidAlias: Option<string>, rows: seq<Row>, nextRowId: int)

  datatype Db = Db(tables: map<string, Table>)

  /** Rowids are unique within a table and below the table's counter. */
  predicate TableValid(t: Table)
  {
    (forall i, j | 0 <= i < j < |t.rows| :: t.rows[i].rowid != t.rows[j].rowid) &&
    (forall i | 0 <= i < |t.rows| :: t.rows[i].rowid < t.nextRowId)
  }

  predicate Valid(db: Db)
  {
    forall name | name in db.tables :: TableValid(db.tables[name])
  }

  // ---------------------------------------------------------------------
  // Values as the WHERE clause compares them

  /** The text a stored value compares as; None is SQL NULL. Integers and
      booleans (stored as 1/0) compare by their decimal text. */
  function StoredText(v: Value): Option<string>
  {
    match v
    case Null => None
    case IntV(i) => Some(DecimalText(i))
    case LongV(l) => Some(DecimalText(l))
    case ShortV(s) => Some(DecimalText(s))
    case ByteV(b) => Some(DecimalText(b))
    case BoolV(b) => Some(if b then "1" else "0")
    case FloatV(f) => Some(f.text)
    case DoubleV(d) => Some(d.text)
    case CharSeqV(s) => Some(s)
    case DateV(t) => Some(t)
    case OtherV(_, t) => Some(t)
  }

  predicate IsRowidColumn(t: Table, column: string)
  {
    column == "ROWID" || t.rowidAlias == Some(column)
  }

  /** A column of a row as a WHERE clause reads it: ROWID and the alias read the
      rowid, a column never written reads NULL. */
  function CellText(t: Table, row: Row, column: string): Option<string>
  {
    if IsRowidColumn(t, column) then Some(DecimalText(row.rowid))
    else if column in row.cells then StoredText(row.cells[column])
    else None
  }

  /** The integer a value is when written to the rowid alias, if it is one. */
  function IntegerOf(v: Value): Option<int>
  {
    match v
    case IntV(i) => Some(i)
    case LongV(l) => Some(l)
    case ShortV(s) => Some(s)
    case ByteV(b) => Some(b)
    case BoolV(b) => Some(if b then 1 else 0)
    case CharSeqV(s) => ParseDecimal(s)
    case _ => None
  }

  /** The rowid a value gives when written to the rowid alias: an integer in
      SQLite's 64-bit range. */
  function RowidOf(v: Value): (r: Option<Int64>)
    ensures r.Some? ==> IntegerOf(v) == Some(r.value as int)
  {
    match IntegerOf(v)
    case Some(n) => if -0x8000_0000_0000_0000 <= n < 0x8000_0000_0000_0000 then Some(n) else None
    case None => None
  }

  // ---------------------------------------------------------------------
  // WHERE clauses

  datatype Predicate =
      /** `column = ?` bound to `arg` */
    | ColumnEquals(column: string, arg: string)
      /** `column IN (?,...)` bound to `args` */
    | ColumnIn(column: string, args: seq<string>)
      /** `column NOT IN (?,...)` bound to `args` */
    | ColumnNotIn(column: string, args: seq<string>)
      /** `column = <literal>` with the literal spliced into the SQL text */
    | ColumnEqualsLiteral(column: string, literal: string)
    | And(left: Predicate, right: Predicate)

  /** `digits` or `digits.digits`. */
  predicate Mantissa(s: string)
  {
    (|s| > 0 && AllDigits(s)) ||
    exists i | 0 < i < |s| - 1 :: s[i] == '.' && AllDigits(s[..i]) && AllDigits(s[i + 1..])
  }

  /** A real number as `Double.toString` writes one (`1.5`, `1.0E10`,
      `1.0E-5`), which SQL reads as a numeric literal: a mantissa, then
      optionally `E` and a signed exponent; the whole optionally signed. */
  predicate RealLiteral(s: string)
  {
    var unsigned := if |s| >= 2 && (s[0] == '-' || s[0] == '+') then s[1..] else s;
    Mantissa(unsigned) ||
    exists i | 0 < i < |unsigned| ::
      (unsigned[i] == 'E' || unsigned[i] == 'e') && Mantissa(unsigned[..i]) && ParseDecimal(unsigned[i + 1..]).Some?
  }

  /** What SQLite makes of text spliced in as a literal: an integer, a real
      number (compared by its text, like every value here), NULL or a boolean
      keyword. Anything else names no column (or is not SQL), and the
      statement fails to compile. */
  function LiteralText(literal: string): (r: Option<Option<string>>)
  {
    match ParseDecimal(literal)
    case Some(n) => Some(Some(DecimalText(n)))
    case None =>
      if RealLiteral(literal) then Some(Some(literal))
      else if EqualsIgnoreCase(literal, "NULL") then Some(None)
      else if EqualsIgnoreCase(literal, "true") then Some(Some("1"))
      else if EqualsIgnoreCase(literal, "false") then Some(Some("0"))
      else None
  }

  /** The text `Double.toString` gives a Double id, `a.b` or `a.bE<n>`,
      compiles when spliced into a WHERE clause and compares as itself. */
  lemma RealTextReadsBack(a: string, b: string, exponent: Option<int>)
    requires |a| > 0 && |b| > 0 && AllDigits(a) && AllDigits(b)
    ensures var s := a + "." + b + (if exponent.Some? then "E" + DecimalText(exponent.value) else "");
      LiteralText(s) == Some(Some(s))
  {
    var m := a + "." + b;
    assert m[|a|] == '.' && m[..|a|] == a && m[|a| + 1..] == b;
    assert Mantissa(m);
    var s := m + (if exponent.Some? then "E" + DecimalText(exponent.value) else "");
    assert s[0] == a[0] && IsDigit(s[0]) && s[|a|] == '.';
    assert ParseDecimal(s).None?;
    if exponent.Some? {
      ParseDecimalText(exponent.value);
      assert s[|m|] == 'E' && s[..|m|] == m && s[|m| + 1..] == DecimalText(exponent.value);
    }
    assert RealLiteral(s);
  }

  predicate Compiles(p: Predicate)
  {
    match p
    case ColumnEqualsLiteral(_, literal) => LiteralText(literal).Some?
    case And(l, r) => Compiles(l) && Compiles(r)
    case _ => true
  }

  function Not3(b: Option<bool>): Option<bool>
  {
    match b
    case Some(x) => Some(!x)
    case None => None
  }

  function And3(a: Option<bool>, b: Option<bool>): Option<bool>
  {
    if a == Some(false) || b == Some(false) then Some(false)
    else if a == Some(true) && b == Some(true) then Some(true)
    else None
  }

  /** `x IN (args)`: false for an empty list even when x is NULL. */
  function In3(x: Option<string>, args: seq<string>): Option<bool>
  {
    if args == [] then Some(false)
    else match x
      case Some(s) => Some(s in args)
      case None => None
  }

  /** SQL truth value of a WHERE clause on a row; None is NULL. */
  function Eval(t: Table, row: Row, p: Predicate): Option<bool>
    requires Compiles(p)
  {
    match p
    case ColumnEquals(column, arg) =>
      (match CellText(t, row, column)
       case Some(s) => Some(s == arg)
       case None => None)
    case ColumnIn(column, args) => In3(CellText(t, row, column), args)
    case ColumnNotIn(column, args) => Not3(In3(CellText(t, row, column), args))
    case ColumnEqualsLiteral(column, literal) =>
      (match (CellText(t, row, column), LiteralText(literal).value)
       case (Some(s), Some(l)) => Some(s == l)
       case _ => None)
    case And(l, r) => And3(Eval(t, row, l), Eval(t, row, r))
  }

  /** The rows a statement with this WHERE clause acts on. */
  predicate Selects(t: Table, row: Row, p: Predicate)
    requires Compiles(p)
  {
    Eval(t, row, p) == Some(true)
  }

  // ---------------------------------------------------------------------
  // Statements

  function NoSuchTable<T>(table: string): Result<T>
  {
    Failure(SQLiteException("no such table: " + table))
  }

  function MaxInt(a: int, b: int): int { if a < b then b else a }

  predicate HasRowid(rows: seq<Row>, rowid: int)
  {
    exists i | 0 <= i < |rows| :: rows[i].rowid == rowid
  }

  /** Column values as stored: the rowid alias lives in the rowid. */
  function CellsOf(t: Table, values: map<string, Value>): map<string, Value>
  {
    match t.rowidAlias
    case Some(a) => values - {a}
    case None => values
  }

  /** The rowid a new row takes: the value given for the alias column, else the
      next one of the counter; fails on a non-integer or taken rowid. */
  function NewRowid(t: Table, values: map<string, Value>): Result<Int64>
  {
    if t.rowidAlias.Some? && t.rowidAlias.value in values && !values[t.rowidAlias.value].Null? then
      match RowidOf(values[t.rowidAlias.value])
      case None => Failure(SQLiteException("datatype mismatch"))
      case Some(n) =>
        if HasRowid(t.rows, n) then Failure(SQLiteException("UNIQUE constraint failed"))
        else Success(n)
    else if t.nextRowId < -0x8000_0000_0000_0000 || 0x8000_0000_0000_0000 <= t.nextRowId then
      Failure(SQLiteException("database or disk is full"))
    else Success(t.nextRowId)
  }

  /** INSERT: appends one row and answers its rowid. */
  function Insert(db: Db, table: string, values: map<string, Value>): (r: Result<(Db, Int64)>)
    ensures r.Success? ==> table in db.tables && r.value.0.tables.Keys == db.tables.Keys
    ensures r.Success? ==> r.value.0.tables[table].rows == db.tables[table].rows + [Row(r.value.1, CellsOf(db.tables[table], values))]
    ensures r.Success? ==> r.value.0.tables[table].rowidAlias == db.tables[table].rowidAlias
    ensures r.Success? ==> forall name | name in db.tables && name != table :: r.value.0.tables[name] == db.tables[name]
    ensures table !in db.tables ==> r.Failure?
    ensures r.Failure? ==> r.error.SQLiteException?
  {
    if table !in db.tables then NoSuchTable(table)
    else
      var t := db.tables[table];
      var rowid :- NewRowid(t, values);
      var t' := Table(t.rowidAlias, t.rows + [Row(rowid, CellsOf(t, values))], MaxInt(t.nextRowId, rowid + 1));
      Success((Db(db.tables[table := t']), rowid))
  }

  /** `insert(table, nullColumnHack, values)`: with no values the row is
      written with the hack column set to NULL; with neither, the statement
      (`INSERT INTO t(null) VALUES (NULL)`) is not SQL. */
  function InsertStatement(db: Db, table: string, nullColumnHack: Option<string>, values: map<string, Value>): (r: Result<(Db, Int64)>)
    ensures |values| > 0 ==> r == Insert(db, table, values)
    ensures |values| == 0 && nullColumnHack.None? ==> r.Failure?
    ensures |values| == 0 && nullColumnHack.Some? ==> r == Insert(db, table, map[nullColumnHack.value := Null])
    ensures r.Failure? ==> r.error.SQLiteException?
  {
    if |values| > 0 then Insert(db, table, values)
    else match nullColumnHack
      case None => Failure(SQLiteException("near \"null\": syntax error"))
      case Some(column) => Insert(db, table, map[column := Null])
  }

  /** A row after UPDATE sets `values` on it. */
  function UpdatedRow(t: Table, row: Row, values: map<string, Value>): Row
  {
    var rowid :=
      if t.rowidAlias.Some? && t.rowidAlias.value in values && RowidOf(values[t.rowidAlias.value]).Some?
      then RowidOf(values[t.rowidAlias.value]).value else row.rowid;
    Row(rowid, row.cells + CellsOf(t, values))
  }

  function UpdateRows(t: Table, rows: seq<Row>, values: map<string, Value>, p: Predicate): (r: seq<Row>)
    requires Compiles(p)
    ensures |r| == |rows|
    ensures forall i | 0 <= i < |rows| :: r[i] == if Selects(t, rows[i], p) then UpdatedRow(t, rows[i], values) else rows[i]
  {
    if rows == [] then []
    else [if Selects(t, rows[0], p) then UpdatedRow(t, rows[0], values) else rows[0]] + UpdateRows(t, rows[1..], values, p)
  }

  predicate DistinctRowids(rows: seq<Row>)
  {
    forall i, j | 0 <= i < j < |rows| :: rows[i].rowid != rows[j].rowid
  }

  function MaxRowid(rows: seq<Row>, floor: int): (m: int)
    ensures m >= floor
    ensures forall i | 0 <= i < |rows| :: rows[i].rowid < m
  {
    if rows == [] then floor else MaxRowid(rows[1..], MaxInt(floor, rows[0].rowid + 1))
  }

  /** UPDATE: sets `values` on every selected row; the rows keep their order.
      Android refuses an empty set of values. */
  function Update(db: Db, table: string, values: map<string, Value>, p: Predicate): (r: Result<Db>)
    ensures r.Success? ==> table in db.tables && Compiles(p) && |values| > 0
    ensures r.Success? ==> r.value.tables.Keys == db.tables.Keys
    ensures r.Success? ==> r.value.tables[table].rows == UpdateRows(db.tables[table], db.tables[table].rows, values, p)
    ensures r.Success? ==> r.value.tables[table].rowidAlias == db.tables[table].rowidAlias
    ensures r.Success? ==> forall name | name in db.tables && name != table :: r.value.tables[name] == db.tables[name]
  {
    if |values| == 0 then Failure(IllegalArgumentException("Empty values"))
    else if table !in db.tables then NoSuchTable(table)
    else if !Compiles(p) then Failure(SQLiteException("no such column"))
    else
      var t := db.tables[table];
      var alias := t.rowidAlias;
      if alias.Some? && alias.value in values && RowidOf(values[alias.value]).None? then
        Failure(SQLiteException("datatype mismatch"))
      else
        var rows := UpdateRows(t, t.rows, values, p);
        if !DistinctRowids(rows) then Failure(SQLiteException("UNIQUE constraint failed"))
        else Success(Db(db.tables[table := Table(alias, rows, MaxRowid(rows, t.nextRowId))]))
  }

  /** The number of rows a statement with this WHERE clause acts on. */
  function CountSelected(t: Table, rows: seq<Row>, p: Predicate): (n: nat)
    requires Compiles(p)
    ensures n <= |rows|
    ensures n == 0 <==> forall row | row in rows :: !Selects(t, row, p)
  {
    if rows == [] then 0
    else (if Selects(t, rows[0], p) then 1 else 0) + CountSelected(t, rows[1..], p)
  }

  function DeleteRows(t: Table, rows: seq<Row>, p: Predicate): (r: seq<Row>)
    requires Compiles(p)
    ensures forall row | row in r :: row in rows && !Selects(t, row, p)
    ensures forall row | row in rows && !Selects(t, row, p) :: row in r
    ensures |r| <= |rows|
  {
    if rows == [] then []
    else (if Selects(t, rows[0], p) then [] else [rows[0]]) + DeleteRows(t, rows[1..], p)
  }

  /** DELETE: removes every selected row, keeping the others in order. */
  function Delete(db: Db, table: string, p: Predicate): (r: Result<Db>)
    ensures r.Success? <==> table in db.tables && Compiles(p)
    ensures r.Success? ==> r.value.tables.Keys == db.tables.Keys
    ensures r.Success? ==> r.value.tables[table] == db.tables[table].(rows := DeleteRows(db.tables[table], db.tables[table].rows, p))
    ensures r.Success? ==> forall name | name in db.tables && name != table :: r.value.tables[name] == db.tables[name]
    ensures r.Failure? ==> r.error.SQLiteException?
  {
    if table !in db.tables then NoSuchTable(table)
    else if !Compiles(p) then Failure(SQLiteException("no such column"))
    else
      var t := db.tables[table];
      Success(Db(db.tables[table := t.(rows := DeleteRows(t, t.rows, p))]))
  }

  function FirstSelected(t: Table, rows: seq<Row>, p: Predicate): (r: Option<Row>)
    requires Compiles(p)
    ensures r.Some? ==> r.value in rows && Selects(t, r.value, p)
    ensures r.None? ==> forall row | row in rows :: !Selects(t, row, p)
  {
    if rows == [] then None
    else if Selects(t, rows[0], p) then Some(rows[0])
    else FirstSelected(t, rows[1..], p)
  }

  /** `SELECT * FROM table WHERE column = ?` has at least one row. */
  function HasRow(db: Db, table: string, column: string, arg: string): (r: Result<bool>)
    ensures r.Success? <==> table in db.tables
    ensures r.Success? ==> (r.value <==> exists row | row in db.tables[table].rows :: Selects(db.tables[table], row, ColumnEquals(column, arg)))
    ensures r.Failure? ==> r.error.SQLiteException?
  {
    if table !in db.tables then NoSuchTable(table)
    else Success(FirstSelected(db.tables[table], db.tables[table].rows, ColumnEquals(column, arg)).Some?)
  }

  /** The rowid of the first row whose `column` equals `arg`, if any. */
  function QueryFirst(db: Db, table: string, column: string, arg: string): (r: Result<Option<Int64>>)
    ensures r.Success? <==> table in db.tables
    ensures r.Success? && r.value.Some? ==> exists row | row in db.tables[table].rows :: row.rowid == r.value.value && Selects(db.tables[table], row, ColumnEquals(column, arg))
    ensures r.Success? && r.value.None? ==> forall row | row in db.tables[table].rows :: !Selects(db.tables[table], row, ColumnEquals(column, arg))
    ensures r.Failure? ==> r.error.SQLiteException?
  {
    if table !in db.tables then NoSuchTable(table)
    else
      match FirstSelected(db.tables[table], db.tables[table].rows, ColumnEquals(column, arg))
      case Some(row) => Success(Some(row.rowid))
      case None => Success(None)
  }

  // ---------------------------------------------------------------------
  // Properties

  /** A new row never reuses a rowid the table holds. */
  lemma InsertedRowidIsFresh(db: Db, table: string, values: map<string, Value>)
    requires Valid(db)
    requires Insert(db, table, values).Success?
    ensures !HasRowid(db.tables[table].rows, Insert(db, table, values).value.1)
  {
    var t := db.tables[table];
    assert TableValid(t);
    var rowid := Insert(db, table, values).value.1;
    if !(t.rowidAlias.Some? && t.rowidAlias.value in values && !values[t.rowidAlias.value].Null?) {
      assert rowid == t.nextRowId;
    }
  }

  lemma InsertKeepsValid(db: Db, table: string, values: map<string, Value>)
    requires Valid(db)
    ensures Insert(db, table, values).Success? ==> Valid(Insert(db, table, values).value.0)
  {
    var r := Insert(db, table, values);
    if r.Success? {
      InsertedRowidIsFresh(db, table, values);
      var t := db.tables[table];
      var t' := r.value.0.tables[table];
      assert TableValid(t);
      assert TableValid(t') by {
        forall i, j | 0 <= i < j < |t'.rows| ensures t'.rows[i].rowid != t'.rows[j].rowid {
          if j == |t.rows| {
            assert t'.rows[i] == t.rows[i];
          }
        }
      }
    }
  }

  lemma UpdateKeepsValid(db: Db, table: string, values: map<string, Value>, p: Predicate)
    requires Valid(db)
    ensures Update(db, table, values, p).Success? ==> Valid(Update(db, table, values, p).value)
  {
    var r := Update(db, table, values, p);
    if r.Success? {
      var t := db.tables[table];
      var rows := UpdateRows(t, t.rows, values, p);
      assert r.value == Db(db.tables[table := Table(t.rowidAlias, rows, MaxRowid(rows, t.nextRowId))]);
      forall name | name in r.value.tables ensures TableValid(r.value.tables[name]) {
        if name != table {
          assert TableValid(db.tables[name]);
        }
      }
    }
  }

  lemma DeleteRowsSubsequence(t: Table, rows: seq<Row>, p: Predicate)
    requires Compiles(p)
    requires DistinctRowids(rows)
    ensures DistinctRowids(DeleteRows(t, rows, p))
  {
    if rows != [] {
      DeleteRowsSubsequence(t, rows[1..], p);
      var rest := DeleteRows(t, rows[1..], p);
      forall row | row in rest ensures row.rowid != rows[0].rowid {
        var k :| 0 <= k < |rows[1..]| && rows[1..][k] == row;
        assert rows[k + 1] == row;
      }
    }
  }

  lemma DeleteKeepsValid(db: Db, table: string, p: Predicate)
    requires Valid(db)
    ensures Delete(db, table, p).Success? ==> Valid(Delete(db, table, p).value)
  {
    if Delete(db, table, p).Success? {
      var t := db.tables[table];
      assert TableValid(t);
      DeleteRowsSubsequence(t, t.rows, p);
      var t' := Delete(db, table, p).value.tables[table];
      forall i | 0 <= i < |t'.rows| ensures t'.rows[i].rowid < t'.nextRowId {
        assert t'.rows[i] in t.rows;
      }
      assert TableValid(t');
    }
  }

  /** `ROWID = ?` bound to the decimal text of an id selects exactly the row
      with that rowid. */
  lemma RowidEqualsSelectsThatRow(t: Table, row: Row, id: int)
    ensures Selects(t, row, ColumnEquals("ROWID", DecimalText(id))) <==> row.rowid == id
  {
    if DecimalText(row.rowid) == DecimalText(id) {
      DecimalTextInjective(row.rowid, id);
    }
  }
}
