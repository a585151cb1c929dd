/**
 * The database behind a connection, held in memory: named tables of rows,
 * each table with its columns, an optional auto-increment column and the
 * counter that feeds it. Statements are structured data (the table, the
 * columns bound to `?` placeholders, the parameters in placeholder order)
 * instead of SQL text.
 */
module Storage {
  import opened Wrappers
  import opened PhpArrays
  import opened Values

  /** A stored row; a column the row lacks reads as NULL. */
  type Row = map<string, Value>

  function Cell(row: Row, column: string): Value
  {
    if column in row then row[column] else Null
  }

  datatype Table = Table(columns: set<string>, auto: Option<string>, rows: seq<Row>, nextId: int)

  /** All tables, and what `lastInsertId` reports for the latest INSERT. */
  datatype Db = Db(tables: map<string, Table>, lastInsertId: int)

  /** A prepared statement: one placeholder per named column, in this order. */
  datatype Statement =
    | Insert(table: string, columns: seq<string>)
    | Update(table: string, setColumns: seq<string>, filter: seq<string>)
    | Delete(table: string, filter: seq<string>)
    | Select(table: string, filter: seq<string>)
  {
    /** The columns bound to placeholders: the SET or VALUES list, then the WHERE list. */
    function Named(): seq<string>
    {
      match this
      case Insert(_, columns) => columns
      case Update(_, setColumns, filter) => setColumns + filter
      case Delete(_, filter) => filter
      case Select(_, filter) => filter
    }
  }

  /** A statement with the parameters it is executed with. */
  datatype Sql = Sql(stmt: Statement, params: seq<Value>)

  function FirstUnknown(cs: seq<string>, known: set<string>): (r: Option<string>)
    ensures r.None? <==> forall c :: c in cs ==> c in known
    ensures r.Some? ==> r.value in cs && r.value !in known
  {
    if cs == [] then None
    else if cs[0] !in known then Some(cs[0])
    else
      assert forall c :: c in cs <==> c == cs[0] || c in cs[1..];
      FirstUnknown(cs[1..], known)
  }

  /** Preparing a statement: the table must exist and have every column the statement names. */
  function Check(db: Db, stmt: Statement): (r: Outcome)
    ensures r.Pass? <==> stmt.table in db.tables && forall c :: c in stmt.Named() ==> c in db.tables[stmt.table].columns
    ensures stmt.table !in db.tables ==> r == Fail(NoSuchTable(stmt.table))
    ensures r.Fail? && stmt.table in db.tables ==>
      r.error.UnknownColumn? && r.error.column in stmt.Named() && r.error.column !in db.tables[stmt.table].columns
  {
    if stmt.table !in db.tables then Fail(NoSuchTable(stmt.table))
    else match FirstUnknown(stmt.Named(), db.tables[stmt.table].columns)
      case None => Pass
      case Some(c) => Fail(UnknownColumn(stmt.table, c))
  }

  /** The row satisfies `f1 = ? AND f2 = ? AND ...` bound to `vals`. */
  predicate Matches(row: Row, filter: seq<string>, vals: seq<Value>)
    requires |filter| == |vals|
  {
    forall j :: 0 <= j < |filter| ==> SqlEquals(Cell(row, filter[j]), vals[j])
  }

  /** The rows a WHERE clause selects, in storage order. */
  function Selected(rows: seq<Row>, filter: seq<string>, vals: seq<Value>): (r: seq<Row>)
    requires |filter| == |vals|
    ensures forall j :: 0 <= j < |r| ==> r[j] in rows && Matches(r[j], filter, vals)
    ensures forall j :: 0 <= j < |rows| && Matches(rows[j], filter, vals) ==> rows[j] in r
    ensures |r| <= |rows|
  {
    if rows == [] then []
    else
      assert forall j :: 0 < j < |rows| ==> rows[j] == rows[1..][j - 1];
      (if Matches(rows[0], filter, vals) then [rows[0]] else []) + Selected(rows[1..], filter, vals)
  }

  /** A SELECT without WHERE returns every row. */
  lemma {:induction false} SelectedAll(rows: seq<Row>)
    ensures Selected(rows, [], []) == rows
  {
    if rows != [] {
      SelectedAll(rows[1..]);
    }
  }

  /** The rows a DELETE leaves, in storage order. */
  function Kept(rows: seq<Row>, filter: seq<string>, vals: seq<Value>): (r: seq<Row>)
    requires |filter| == |vals|
    ensures forall j :: 0 <= j < |r| ==> r[j] in rows && !Matches(r[j], filter, vals)
    ensures forall j :: 0 <= j < |rows| && !Matches(rows[j], filter, vals) ==> rows[j] in r
  {
    if rows == [] then []
    else
      assert forall j :: 0 < j < |rows| ==> rows[j] == rows[1..][j - 1];
      (if Matches(rows[0], filter, vals) then [] else [rows[0]]) + Kept(rows[1..], filter, vals)
  }

  /** A DELETE keeps the surviving rows in their storage order. */
  lemma {:induction false} KeptInOrder(rows: seq<Row>, filter: seq<string>, vals: seq<Value>)
    requires |filter| == |vals|
    ensures SubSeq(Kept(rows, filter, vals), rows)
  {
    if rows != [] {
      KeptInOrder(rows[1..], filter, vals);
      var rest := Kept(rows[1..], filter, vals);
      SubSeqSkip(rest, rows);
      if Matches(rows[0], filter, vals) {
        assert Kept(rows, filter, vals) == rest;
      } else {
        assert Kept(rows, filter, vals) == [rows[0]] + rest;
      }
    }
  }

  /** What a DELETE removes is exactly what a SELECT with the same WHERE finds. */
  lemma {:induction false} SelectedKeptSplit(rows: seq<Row>, filter: seq<string>, vals: seq<Value>)
    requires |filter| == |vals|
    ensures |Selected(rows, filter, vals)| + |Kept(rows, filter, vals)| == |rows|
  {
    if rows != [] {
      SelectedKeptSplit(rows[1..], filter, vals);
    }
  }

  /** The first row found is the first matching row in storage order. */
  lemma {:induction false} SelectedFirst(rows: seq<Row>, filter: seq<string>, vals: seq<Value>)
    requires |filter| == |vals|
    requires Selected(rows, filter, vals) != []
    ensures exists k :: 0 <= k < |rows| && rows[k] == Selected(rows, filter, vals)[0] &&
                        Matches(rows[k], filter, vals) && forall j :: 0 <= j < k ==> !Matches(rows[j], filter, vals)
  {
    if !Matches(rows[0], filter, vals) {
      SelectedFirst(rows[1..], filter, vals);
      var k :| 0 <= k < |rows[1..]| && rows[1..][k] == Selected(rows[1..], filter, vals)[0] &&
        Matches(rows[1..][k], filter, vals) && forall j :: 0 <= j < k ==> !Matches(rows[1..][j], filter, vals);
      assert rows[k + 1] == rows[1..][k];
      assert forall j :: 1 <= j < k + 1 ==> rows[j] == rows[1..][j - 1];
    } else {
      assert rows[0] == Selected(rows, filter, vals)[0];
    }
  }

  /** The row with `columns[j] := vals[j]`, left to right. */
  function Assign(row: Row, columns: seq<string>, vals: seq<Value>): (r: Row)
    requires |columns| == |vals|
    decreases |columns|
    ensures forall c :: c !in columns ==> Cell(r, c) == Cell(row, c)
    ensures Distinct(columns) ==> forall j :: 0 <= j < |columns| ==> Cell(r, columns[j]) == vals[j]
  {
    if columns == [] then row
    else
      var r := Assign(row[columns[0] := vals[0]], columns[1..], vals[1..]);
      assert forall c :: c in columns <==> c == columns[0] || c in columns[1..];
      assert Distinct(columns) ==> Distinct(columns[1..]) && columns[0] !in columns[1..];
      assert forall j :: 0 < j < |columns| ==> columns[j] == columns[1..][j - 1] && vals[j] == vals[1..][j - 1];
      r
  }

  /** An UPDATE's effect on the stored rows. */
  function Updated(rows: seq<Row>, setColumns: seq<string>, newVals: seq<Value>, filter: seq<string>, vals: seq<Value>): seq<Row>
    requires |setColumns| == |newVals| && |filter| == |vals|
  {
    seq(|rows|, j requires 0 <= j < |rows| =>
      if Matches(rows[j], filter, vals) then Assign(rows[j], setColumns, newVals) else rows[j])
  }

  /** The table fills in its auto-increment column when an INSERT leaves it out. */
  predicate Generates(t: Table, columns: seq<string>)
  {
    t.auto.Some? && t.auto.value !in columns
  }

  /**
   * Executing a statement: the prepare-time checks, then the number of
   * parameters, then the effect on the named table. An INSERT reports the
   * generated id, or 0 when nothing was generated.
   */
  function Run(db: Db, sql: Sql): (r: Result<Db>)
    ensures r.Err? <==> Check(db, sql.stmt).Fail? || |sql.params| != |sql.stmt.Named()|
    ensures Check(db, sql.stmt).Fail? ==> r == Err(Check(db, sql.stmt).error)
    ensures r.Ok? ==> r.value.tables.Keys == db.tables.Keys
    ensures r.Ok? ==> forall n :: n in db.tables ==>
      r.value.tables[n].columns == db.tables[n].columns && r.value.tables[n].auto == db.tables[n].auto
    ensures r.Ok? ==> forall n :: n in db.tables && n != sql.stmt.table ==> r.value.tables[n] == db.tables[n]
  {
    match Check(db, sql.stmt)
    case Fail(e) => Err(e)
    case Pass =>
      var ps := sql.params;
      if |ps| != |sql.stmt.Named()| then Err(ParameterCount(|sql.stmt.Named()|, |ps|))
      else
        var t := db.tables[sql.stmt.table];
        match sql.stmt
        case Insert(name, columns) =>
          var row := Assign(map[], columns, ps);
          if Generates(t, columns) then
            var t' := t.(rows := t.rows + [row[t.auto.value := Int(t.nextId)]], nextId := t.nextId + 1);
            Ok(Db(db.tables[name := t'], t.nextId))
          else
            Ok(Db(db.tables[name := t.(rows := t.rows + [row])], 0))
        case Update(name, setColumns, filter) =>
          var rows := Updated(t.rows, setColumns, ps[..|setColumns|], filter, ps[|setColumns|..]);
          Ok(db.(tables := db.tables[name := t.(rows := rows)]))
        case Delete(name, filter) =>
          Ok(db.(tables := db.tables[name := t.(rows := Kept(t.rows, filter, ps))]))
        case Select(_, _) => Ok(db)
  }

  /** The rows a SELECT returns: every matching row, in storage order. */
  function Fetch(db: Db, sql: Sql): (r: Result<seq<Row>>)
    requires sql.stmt.Select?
    ensures r.Err? <==> Run(db, sql).Err?
    ensures r.Err? ==> r.error == Run(db, sql).error
    ensures r.Ok? ==> r.value == Selected(db.tables[sql.stmt.table].rows, sql.stmt.filter, sql.params)
  {
    var _ :- Run(db, sql);
    Ok(Selected(db.tables[sql.stmt.table].rows, sql.stmt.filter, sql.params))
  }

  /**
   * An INSERT appends one row holding the parameters under their columns,
   * plus the generated id when the table generates one, which is also what
   * `lastInsertId` then reports.
   */
  lemma InsertEffect(db: Db, table: string, columns: seq<string>, ps: seq<Value>)
    requires Distinct(columns)
    requires Run(db, Sql(Insert(table, columns), ps)).Ok?
    ensures var t := db.tables[table];
      var t' := Run(db, Sql(Insert(table, columns), ps)).value.tables[table];
      var last := Run(db, Sql(Insert(table, columns), ps)).value.lastInsertId;
      && |t'.rows| == |t.rows| + 1 && t'.rows[..|t.rows|] == t.rows
      && (forall j :: 0 <= j < |columns| ==> Cell(t'.rows[|t.rows|], columns[j]) == ps[j])
      && (Generates(t, columns) ==>
            Cell(t'.rows[|t.rows|], t.auto.value) == Int(t.nextId) && last == t.nextId && t'.nextId == t.nextId + 1)
      && (!Generates(t, columns) ==> last == 0 && t'.nextId == t.nextId)
  {
    var t := db.tables[table];
    var row := Assign(map[], columns, ps);
    if Generates(t, columns) {
      forall j | 0 <= j < |columns|
        ensures Cell(row[t.auto.value := Int(t.nextId)], columns[j]) == ps[j]
      {
        assert columns[j] != t.auto.value;
      }
    }
  }

  /**
   * rows' is rows after an UPDATE: the setColumns columns of exactly the
   * matching rows are rewritten, every other row and every other column is
   * as it was.
   */
  ghost predicate UpdateApplied(rows: seq<Row>, rows': seq<Row>, setColumns: seq<string>, filter: seq<string>, ps: seq<Value>)
  {
    && |rows'| == |rows| && |ps| == |setColumns| + |filter|
    && (forall j :: 0 <= j < |rows| && !Matches(rows[j], filter, ps[|setColumns|..]) ==> rows'[j] == rows[j])
    && (forall j, k :: 0 <= j < |rows| && Matches(rows[j], filter, ps[|setColumns|..]) && 0 <= k < |setColumns| ==>
          Cell(rows'[j], setColumns[k]) == ps[k])
    && (forall j, c :: 0 <= j < |rows| && c !in setColumns ==> Cell(rows'[j], c) == Cell(rows[j], c))
  }

  /** What an UPDATE that runs does to its table. */
  lemma UpdateEffect(db: Db, table: string, setColumns: seq<string>, filter: seq<string>, ps: seq<Value>)
    requires Distinct(setColumns)
    requires Run(db, Sql(Update(table, setColumns, filter), ps)).Ok?
    ensures table in db.tables
    ensures UpdateApplied(db.tables[table].rows, Run(db, Sql(Update(table, setColumns, filter), ps)).value.tables[table].rows,
                          setColumns, filter, ps)
  {
    assert Update(table, setColumns, filter).Named() == setColumns + filter;
  }

  /** After a DELETE no row matches its WHERE clause, and every other row is still there, in order. */
  lemma DeleteEffect(db: Db, table: string, filter: seq<string>, ps: seq<Value>)
    requires Run(db, Sql(Delete(table, filter), ps)).Ok?
    ensures var rows := db.tables[table].rows;
      var rows' := Run(db, Sql(Delete(table, filter), ps)).value.tables[table].rows;
      && |ps| == |filter|
      && (forall j :: 0 <= j < |rows'| ==> !Matches(rows'[j], filter, ps))
      && (forall j :: 0 <= j < |rows| && !Matches(rows[j], filter, ps) ==> rows[j] in rows')
      && |rows'| == |rows| - |Selected(rows, filter, ps)|
      && SubSeq(rows', rows)
  {
    SelectedKeptSplit(db.tables[table].rows, filter, ps);
    KeptInOrder(db.tables[table].rows, filter, ps);
  }

  /** The connection: a handle on the database, shared by every persister. */
  class Connection {
    var db: Db

    constructor (db: Db)
      ensures this.db == db
    {
      this.db := db;
    }

    method Prepare(stmt: Statement) returns (r: Outcome)
      ensures r == Check(db, stmt)
    {
      r := Check(db, stmt);
    }

    method Execute(sql: Sql) returns (r: Outcome)
      modifies this
      ensures Run(old(db), sql).Ok? ==> r == Pass && db == Run(old(db), sql).value
      ensures Run(old(db), sql).Err? ==> r == Fail(Run(old(db), sql).error) && db == old(db)
    {
      match Run(db, sql)
      case Ok(next) =>
        db := next;
        r := Pass;
      case Err(e) =>
        r := Fail(e);
    }

    method Query(sql: Sql) returns (r: Result<seq<Row>>)
      requires sql.stmt.Select?
      ensures r == Fetch(db, sql)
    {
      r := Fetch(db, sql);
    }
  }
}
