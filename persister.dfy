/**
 * EntityPersister: the statements one entity class needs (INSERT, UPDATE,
 * DELETE, SELECT) built from its metadata, the queue of pending inserts,
 * and the operations that run them against the connection.
 */
module Persister {
  import opened Wrappers
  import opened PhpArrays
  import opened Values
  import opened Entities
  import opened Meta
  import opened Storage

  // ---------------------------------------------------------------------
  // Statement builders: getInsertSql, getUpdateSql, getDeleteSql
  // ---------------------------------------------------------------------

  /** getInsertSql: an INSERT naming every column that is not a primary-key column. */
  function InsertStatement(d: EntityClass, table: string): (r: Result<Statement>)
    ensures r.Ok? <==> PrimaryKeyColumns(d).Ok?
    ensures r.Err? ==> r.error == PrimaryKeyColumns(d).error
    ensures r.Ok? ==> r.value.Insert? && r.value.table == table
    ensures r.Ok? ==> forall c :: c in r.value.columns <==> c in DefaultColumns(d) && c !in Keys(PrimaryKeyColumns(d).value)
  {
    var pk :- PrimaryKeyColumns(d);
    Ok(Insert(table, Exclude(DefaultColumns(d), Keys(pk))))
  }

  /** The INSERT columns keep the declaration order and name no column twice. */
  lemma InsertColumnsInOrder(d: EntityClass, table: string)
    requires InsertStatement(d, table).Ok?
    ensures SubSeq(InsertStatement(d, table).value.columns, DefaultColumns(d))
    ensures Distinct(InsertStatement(d, table).value.columns)
  {
    var pk := PrimaryKeyColumns(d).value;
    var cols := ColumnsWithValues(d, map[]);
    KeysWithout(cols, Keys(pk));
    WithoutInOrder(cols, Keys(pk));
    WithoutKeepsDistinct(cols, Keys(pk));
  }

  /** One entity's INSERT parameters: its column values without the primary-key columns. */
  function InsertParams(cols: PhpArray<Value>, pk: PhpArray<bool>): seq<Value>
  {
    ValuesOf(Without(cols, Keys(pk)))
  }

  /** Entries taken from an entity's columns still carry the entity's values. */
  lemma EntriesHoldProps(cols: seq<(string, Value)>, part: seq<(string, Value)>, props: map<string, Value>)
    requires forall j :: 0 <= j < |cols| ==> cols[j].1 == Prop(props, cols[j].0)
    requires forall j :: 0 <= j < |part| ==> part[j] in cols
    ensures forall j :: 0 <= j < |part| ==> part[j].1 == Prop(props, part[j].0)
  {
    forall j | 0 <= j < |part|
      ensures part[j].1 == Prop(props, part[j].0)
    {
      var i :| 0 <= i < |cols| && cols[i] == part[j];
    }
  }

  /**
   * The parameters executeInserts binds line up with the placeholders of
   * getInsertSql: one per INSERT column, each that column's current value.
   */
  lemma InsertParamsLineUp(d: EntityClass, table: string, pk: PhpArray<bool>, props: map<string, Value>)
    requires PrimaryKeyColumns(d) == Ok(pk)
    ensures var columns := InsertStatement(d, table).value.columns;
      var ps := InsertParams(ColumnsWithValues(d, props), pk);
      |ps| == |columns| && forall j :: 0 <= j < |columns| ==> ps[j] == Prop(props, columns[j])
  {
    var cols := ColumnsWithValues(d, props);
    KeysWithout(cols, Keys(pk));
    EntriesHoldProps(cols, Without(cols, Keys(pk)), props);
  }

  /**
   * getUpdateSql: SET every non-primary column, WHERE every primary column
   * equals its value; the parameters are the SET values, then the key values.
   * The key definition is read first, then the instance.
   */
  function UpdateSql(d: EntityClass, table: string, cls: string, props: map<string, Value>): (r: Result<Sql>)
    ensures PrimaryKeyColumns(d).Err? ==> r == Err(PrimaryKeyColumns(d).error)
    ensures PrimaryKeyColumns(d).Ok? ==> (r.Err? <==> ReadColumns(d, cls, props).Err?)
    ensures PrimaryKeyColumns(d).Ok? && r.Err? ==> r.error == WrongObject(cls, d.name)
    ensures r.Ok? ==> r.value.stmt.Update? && r.value.stmt.table == table
  {
    var pk :- PrimaryKeyColumns(d);
    var cols :- ReadColumns(d, cls, props);
    var assigns := Without(cols, Keys(pk));
    var keys := Only(cols, Keys(pk));
    Ok(Sql(Update(table, Keys(assigns), Keys(keys)), ValuesOf(assigns) + ValuesOf(keys)))
  }

  /** getDeleteSql: WHERE every primary column equals its value; no other parameter. */
  function DeleteSql(d: EntityClass, table: string, cls: string, props: map<string, Value>): (r: Result<Sql>)
    ensures PrimaryKeyColumns(d).Err? ==> r == Err(PrimaryKeyColumns(d).error)
    ensures PrimaryKeyColumns(d).Ok? ==> (r.Err? <==> ReadColumns(d, cls, props).Err?)
    ensures PrimaryKeyColumns(d).Ok? && r.Err? ==> r.error == WrongObject(cls, d.name)
    ensures r.Ok? ==> r.value.stmt.Delete? && r.value.stmt.table == table
  {
    var pk :- PrimaryKeyColumns(d);
    var cols :- ReadColumns(d, cls, props);
    var keys := Only(cols, Keys(pk));
    Ok(Sql(Delete(table, Keys(keys)), ValuesOf(keys)))
  }

  /**
   * The UPDATE splits the columns: SET names exactly the non-primary ones
   * and WHERE exactly the primary ones, both in declaration order.
   */
  lemma UpdateSqlColumns(d: EntityClass, table: string, cls: string, props: map<string, Value>)
    requires UpdateSql(d, table, cls, props).Ok?
    ensures var pk := Keys(PrimaryKeyColumns(d).value);
      var s := UpdateSql(d, table, cls, props).value.stmt;
      && (forall c :: c in s.setColumns <==> c in DefaultColumns(d) && c !in pk)
      && (forall c :: c in s.filter <==> c in DefaultColumns(d) && c in pk)
      && SubSeq(s.setColumns, DefaultColumns(d)) && SubSeq(s.filter, DefaultColumns(d))
  {
    var pk := Keys(PrimaryKeyColumns(d).value);
    var cols := ColumnsWithValues(d, props);
    KeysWithout(cols, pk);
    KeysOnlyMembership(cols, pk);
    WithoutInOrder(cols, pk);
    OnlyInOrder(cols, pk);
  }

  /** Each UPDATE placeholder, SET ones first, is bound to its column's current value. */
  lemma UpdateSqlParams(d: EntityClass, table: string, cls: string, props: map<string, Value>)
    requires UpdateSql(d, table, cls, props).Ok?
    ensures var s := UpdateSql(d, table, cls, props).value.stmt;
      var ps := UpdateSql(d, table, cls, props).value.params;
      && |ps| == |s.setColumns| + |s.filter|
      && (forall j :: 0 <= j < |s.setColumns| ==> ps[j] == Prop(props, s.setColumns[j]))
      && (forall j :: 0 <= j < |s.filter| ==> ps[|s.setColumns| + j] == Prop(props, s.filter[j]))
  {
    var pk := Keys(PrimaryKeyColumns(d).value);
    var cols := ColumnsWithValues(d, props);
    var assigns := Without(cols, pk);
    var keys := Only(cols, pk);
    EntriesHoldProps(cols, assigns, props);
    EntriesHoldProps(cols, keys, props);
    var ps := ValuesOf(assigns) + ValuesOf(keys);
    forall j | 0 <= j < |keys|
      ensures ps[|assigns| + j] == Prop(props, Keys(keys)[j])
    {
      assert ps[|assigns| + j] == ValuesOf(keys)[j];
    }
  }

  /** The DELETE's WHERE names exactly the primary columns, in declaration order. */
  lemma DeleteSqlColumns(d: EntityClass, table: string, cls: string, props: map<string, Value>)
    requires DeleteSql(d, table, cls, props).Ok?
    ensures var pk := Keys(PrimaryKeyColumns(d).value);
      var s := DeleteSql(d, table, cls, props).value.stmt;
      && (forall c :: c in s.filter <==> c in DefaultColumns(d) && c in pk)
      && SubSeq(s.filter, DefaultColumns(d))
  {
    var pk := Keys(PrimaryKeyColumns(d).value);
    var cols := ColumnsWithValues(d, props);
    KeysOnlyMembership(cols, pk);
    OnlyInOrder(cols, pk);
  }

  /** Each DELETE placeholder is bound to its key column's current value. */
  lemma DeleteSqlParams(d: EntityClass, table: string, cls: string, props: map<string, Value>)
    requires DeleteSql(d, table, cls, props).Ok?
    ensures var s := DeleteSql(d, table, cls, props).value.stmt;
      var ps := DeleteSql(d, table, cls, props).value.params;
      && |ps| == |s.filter|
      && (forall j :: 0 <= j < |s.filter| ==> ps[j] == Prop(props, s.filter[j]))
  {
    var pk := Keys(PrimaryKeyColumns(d).value);
    var cols := ColumnsWithValues(d, props);
    EntriesHoldProps(cols, Only(cols, pk), props);
  }

  /** Every key column of the row holds, as `=` compares, the entity's value. */
  predicate KeyMatches(row: Row, d: EntityClass, pk: seq<string>, props: map<string, Value>)
  {
    forall c :: c in DefaultColumns(d) && c in pk ==> SqlEquals(Cell(row, c), Prop(props, c))
  }

  /** A WHERE over exactly the key columns, bound to the entity's values, selects the rows KeyMatches. */
  lemma WhereKeyMatches(row: Row, filter: seq<string>, vals: seq<Value>, d: EntityClass, pk: seq<string>, props: map<string, Value>)
    requires |filter| == |vals|
    requires forall j :: 0 <= j < |filter| ==> vals[j] == Prop(props, filter[j])
    requires forall c :: c in filter <==> c in DefaultColumns(d) && c in pk
    ensures Matches(row, filter, vals) <==> KeyMatches(row, d, pk, props)
  {
    if Matches(row, filter, vals) {
      forall c | c in DefaultColumns(d) && c in pk
        ensures SqlEquals(Cell(row, c), Prop(props, c))
      {
        var j :| 0 <= j < |filter| && filter[j] == c;
      }
    }
    if KeyMatches(row, d, pk, props) {
      forall j | 0 <= j < |filter|
        ensures SqlEquals(Cell(row, filter[j]), vals[j])
      {
        assert filter[j] in filter;
      }
    }
  }

  /** The UPDATE's SET and WHERE columns split the entity's columns, each bound to the entity's value. */
  ghost predicate UpdateShape(setColumns: seq<string>, filter: seq<string>, ps: seq<Value>,
                        d: EntityClass, pk: seq<string>, props: map<string, Value>)
  {
    && |ps| == |setColumns| + |filter| && Distinct(setColumns)
    && (forall c :: c in setColumns <==> c in DefaultColumns(d) && c !in pk)
    && (forall c :: c in filter <==> c in DefaultColumns(d) && c in pk)
    && (forall j :: 0 <= j < |setColumns| ==> ps[j] == Prop(props, setColumns[j]))
    && (forall j :: 0 <= j < |filter| ==> ps[|setColumns| + j] == Prop(props, filter[j]))
  }

  lemma UpdateSqlShape(d: EntityClass, table: string, cls: string, props: map<string, Value>)
    requires UpdateSql(d, table, cls, props).Ok?
    ensures var sql := UpdateSql(d, table, cls, props).value;
      && sql == Sql(Update(table, sql.stmt.setColumns, sql.stmt.filter), sql.params)
      && UpdateShape(sql.stmt.setColumns, sql.stmt.filter, sql.params, d, Keys(PrimaryKeyColumns(d).value), props)
  {
    var pk := Keys(PrimaryKeyColumns(d).value);
    UpdateSqlColumns(d, table, cls, props);
    UpdateSqlParams(d, table, cls, props);
    var assigns := Without(ColumnsWithValues(d, props), pk);
    WithoutKeepsDistinct(ColumnsWithValues(d, props), pk);
    KeysDistinct(assigns);
  }

  /**
   * update: the rows whose key columns hold the entity's key get every
   * non-key column set to the entity's value; every other row, and every
   * key or unmapped column, is left as it was.
   */
  lemma UpdateWritesEntity(db: Db, d: EntityClass, table: string, cls: string, props: map<string, Value>)
    requires UpdateSql(d, table, cls, props).Ok?
    requires Run(db, UpdateSql(d, table, cls, props).value).Ok?
    ensures table in db.tables
    ensures var pk := Keys(PrimaryKeyColumns(d).value);
      var rows := db.tables[table].rows;
      var rows' := Run(db, UpdateSql(d, table, cls, props).value).value.tables[table].rows;
      && |rows'| == |rows|
      && (forall j :: 0 <= j < |rows| && !KeyMatches(rows[j], d, pk, props) ==> rows'[j] == rows[j])
      && (forall j, c :: 0 <= j < |rows| && KeyMatches(rows[j], d, pk, props) && c in DefaultColumns(d) && c !in pk ==>
            Cell(rows'[j], c) == Prop(props, c))
      && (forall j, c :: 0 <= j < |rows| && (c !in DefaultColumns(d) || c in pk) ==> Cell(rows'[j], c) == Cell(rows[j], c))
  {
    var sql := UpdateSql(d, table, cls, props).value;
    UpdateSqlShape(d, table, cls, props);
    UpdateEffect(db, table, sql.stmt.setColumns, sql.stmt.filter, sql.params);
    UpdatedRows(db.tables[table].rows, Run(db, sql).value.tables[table].rows,
                sql.stmt.setColumns, sql.stmt.filter, sql.params, d, Keys(PrimaryKeyColumns(d).value), props);
  }

  /** UpdateWritesEntity over the rows alone, away from the statement machinery. */
  lemma UpdatedRows(rows: seq<Row>, rows': seq<Row>, setColumns: seq<string>, filter: seq<string>, ps: seq<Value>,
                    d: EntityClass, pk: seq<string>, props: map<string, Value>)
    requires UpdateShape(setColumns, filter, ps, d, pk, props)
    requires UpdateApplied(rows, rows', setColumns, filter, ps)
    ensures |rows'| == |rows|
    ensures forall j :: 0 <= j < |rows| && !KeyMatches(rows[j], d, pk, props) ==> rows'[j] == rows[j]
    ensures forall j, c :: 0 <= j < |rows| && KeyMatches(rows[j], d, pk, props) && c in DefaultColumns(d) && c !in pk ==>
      Cell(rows'[j], c) == Prop(props, c)
    ensures forall j, c :: 0 <= j < |rows| && (c !in DefaultColumns(d) || c in pk) ==> Cell(rows'[j], c) == Cell(rows[j], c)
  {
    var vals := ps[|setColumns|..];
    assert forall j :: 0 <= j < |filter| ==> vals[j] == Prop(props, filter[j]) by {
      forall j | 0 <= j < |filter| ensures vals[j] == Prop(props, filter[j]) {
        assert vals[j] == ps[|setColumns| + j];
      }
    }
    forall j | 0 <= j < |rows|
      ensures Matches(rows[j], filter, vals) <==> KeyMatches(rows[j], d, pk, props)
    {
      WhereKeyMatches(rows[j], filter, vals, d, pk, props);
    }
    forall j, c | 0 <= j < |rows| && KeyMatches(rows[j], d, pk, props) && c in DefaultColumns(d) && c !in pk
      ensures Cell(rows'[j], c) == Prop(props, c)
    {
      var k :| 0 <= k < |setColumns| && setColumns[k] == c;
    }
  }

  /**
   * delete: afterwards no row holds the entity's key, and every row that
   * did not is still there.
   */
  lemma DeleteRemovesEntity(db: Db, d: EntityClass, table: string, cls: string, props: map<string, Value>)
    requires DeleteSql(d, table, cls, props).Ok?
    requires Run(db, DeleteSql(d, table, cls, props).value).Ok?
    ensures table in db.tables
    ensures var pk := Keys(PrimaryKeyColumns(d).value);
      var rows := db.tables[table].rows;
      var rows' := Run(db, DeleteSql(d, table, cls, props).value).value.tables[table].rows;
      && (forall j :: 0 <= j < |rows'| ==> !KeyMatches(rows'[j], d, pk, props))
      && (forall j :: 0 <= j < |rows| && !KeyMatches(rows[j], d, pk, props) ==> rows[j] in rows')
      && SubSeq(rows', rows)
  {
    var pk := Keys(PrimaryKeyColumns(d).value);
    var sql := DeleteSql(d, table, cls, props).value;
    var s := sql.stmt;
    var ps := sql.params;
    DeleteSqlColumns(d, table, cls, props);
    DeleteSqlParams(d, table, cls, props);
    assert sql == Sql(Delete(table, s.filter), ps);
    DeleteEffect(db, table, s.filter, ps);
    var rows := db.tables[table].rows;
    var rows' := Run(db, sql).value.tables[table].rows;
    forall j | 0 <= j < |rows'|
      ensures !KeyMatches(rows'[j], d, pk, props)
    {
      WhereKeyMatches(rows'[j], s.filter, ps, d, pk, props);
    }
    forall j | 0 <= j < |rows| && !KeyMatches(rows[j], d, pk, props)
      ensures rows[j] in rows'
    {
      WhereKeyMatches(rows[j], s.filter, ps, d, pk, props);
    }
  }

  /** A SELECT with one `column = ?` per criterion, in the criteria's order. */
  function SelectSql(table: string, criteria: PhpArray<Value>): Sql
  {
    Sql(Select(table, Keys(criteria)), ValuesOf(criteria))
  }

  /** The row meets every criterion. */
  predicate Satisfies(row: Row, criteria: seq<(string, Value)>)
  {
    forall k :: 0 <= k < |criteria| ==> SqlEquals(Cell(row, criteria[k].0), criteria[k].1)
  }

  lemma CriteriaMatch(row: Row, criteria: seq<(string, Value)>)
    ensures Matches(row, Keys(criteria), ValuesOf(criteria)) <==> Satisfies(row, criteria)
  {
    assert forall k :: 0 <= k < |criteria| ==> Keys(criteria)[k] == criteria[k].0 && ValuesOf(criteria)[k] == criteria[k].1;
  }

  /** The rows of a table; none when the database has no such table. */
  function TableRows(db: Db, table: string): seq<Row>
  {
    if table in db.tables then db.tables[table].rows else []
  }

  // ---------------------------------------------------------------------
  // executeInserts
  // ---------------------------------------------------------------------

  /** A queued entity as the insert loop reads it: its class and its properties. */
  type Pending = (string, map<string, Value>)

  /** Where the insert loop ends: the database, the ids reported after each INSERT, and how it ended. */
  datatype Batch = Batch(db: Db, ids: seq<int>, outcome: Outcome)

  /**
   * The insert loop from database `db` on: read each entity's values
   * (failing on an entity of another class), run the INSERT, collect the
   * reported id. It stops at the first failure; rows already inserted stay.
   */
  function InsertBatch(db: Db, d: EntityClass, pk: PhpArray<bool>, stmt: Statement, items: seq<Pending>): (r: Batch)
    ensures r.db.tables.Keys == db.tables.Keys
    ensures forall n :: n in db.tables ==>
      r.db.tables[n].columns == db.tables[n].columns && r.db.tables[n].auto == db.tables[n].auto
    decreases |items|
  {
    if items == [] then Batch(db, [], Pass)
    else match Step(db, d, pk, stmt, items[0])
      case Err(e) => Batch(db, [], Fail(e))
      case Ok(next) => Then([next.lastInsertId], InsertBatch(next, d, pk, stmt, items[1..]))
  }

  /** One turn of the insert loop: read the entity's values, then run the INSERT on them. */
  function Step(db: Db, d: EntityClass, pk: PhpArray<bool>, stmt: Statement, item: Pending): Result<Db>
  {
    var cols :- ReadColumns(d, item.0, item.1);
    Run(db, Sql(stmt, InsertParams(cols, pk)))
  }

  /** The row holds the entity's property values in the given columns. */
  predicate Holds(row: Row, cols: seq<string>, props: map<string, Value>)
  {
    forall c :: c in cols ==> Cell(row, c) == Prop(props, c)
  }

  /** The ids so far, followed by where the rest of the loop ends. */
  function Then(done: seq<int>, b: Batch): Batch
  {
    Batch(b.db, done + b.ids, b.outcome)
  }

  /** One turn of InsertBatch, unfolded. */
  lemma BatchHead(db: Db, d: EntityClass, pk: PhpArray<bool>, stmt: Statement, items: seq<Pending>)
    requires items != []
    ensures var b := InsertBatch(db, d, pk, stmt, items);
      var step := Step(db, d, pk, stmt, items[0]);
      && (step.Err? ==> b == Batch(db, [], Fail(step.error)))
      && (step.Ok? ==> b == Then([step.value.lastInsertId], InsertBatch(step.value, d, pk, stmt, items[1..])))
  {
  }

  lemma ThenThen(first: seq<int>, second: seq<int>, b: Batch)
    ensures Then(first, Then(second, b)) == Then(first + second, b)
  {
    assert first + (second + b.ids) == (first + second) + b.ids;
  }

  /**
   * The states the loop went through: from `dbs[j]` the j-th entity's turn
   * succeeded, reached `dbs[j + 1]` and reported `done[j]`.
   */
  ghost predicate Traced(dbs: seq<Db>, done: seq<int>, d: EntityClass, pk: PhpArray<bool>, stmt: Statement, items: seq<Pending>)
  {
    && |dbs| == |done| + 1 && |done| <= |items|
    && forall j {:trigger done[j]} :: 0 <= j < |done| ==>
         Step(dbs[j], d, pk, stmt, items[j]) == Ok(dbs[j + 1]) && done[j] == dbs[j + 1].lastInsertId
  }

  /** One more successful turn extends the trace. */
  lemma TracedExtend(dbs: seq<Db>, done: seq<int>, d: EntityClass, pk: PhpArray<bool>, stmt: Statement, items: seq<Pending>, next: Db)
    requires Traced(dbs, done, d, pk, stmt, items)
    requires |done| < |items| && Step(dbs[|done|], d, pk, stmt, items[|done|]) == Ok(next)
    ensures Traced(dbs + [next], done + [next.lastInsertId], d, pk, stmt, items)
  {
    var dbs', done' := dbs + [next], done + [next.lastInsertId];
    forall j | 0 <= j < |done'|
      ensures Step(dbs'[j], d, pk, stmt, items[j]) == Ok(dbs'[j + 1]) && done'[j] == dbs'[j + 1].lastInsertId
    {
      if j < |done| {
        assert dbs'[j] == dbs[j] && dbs'[j + 1] == dbs[j + 1] && done'[j] == done[j];
      }
    }
  }

  /** A trace without its first turn is a trace of the remaining entities. */
  lemma TracedTail(dbs: seq<Db>, done: seq<int>, d: EntityClass, pk: PhpArray<bool>, stmt: Statement, items: seq<Pending>)
    requires Traced(dbs, done, d, pk, stmt, items) && done != []
    ensures Traced(dbs[1..], done[1..], d, pk, stmt, items[1..])
  {
    forall j | 0 <= j < |done[1..]|
      ensures Step(dbs[1..][j], d, pk, stmt, items[1..][j]) == Ok(dbs[1..][j + 1])
      ensures done[1..][j] == dbs[1..][j + 1].lastInsertId
    {
      assert done[1..][j] == done[j + 1];
      assert dbs[1..][j] == dbs[j + 1] && dbs[1..][j + 1] == dbs[j + 2] && items[1..][j] == items[j + 1];
    }
  }

  /** After a traced prefix, the loop goes on from the last state with the remaining entities. */
  lemma {:induction false} TracedResumes(dbs: seq<Db>, done: seq<int>, d: EntityClass, pk: PhpArray<bool>, stmt: Statement, items: seq<Pending>)
    requires Traced(dbs, done, d, pk, stmt, items)
    ensures InsertBatch(dbs[0], d, pk, stmt, items) == Then(done, InsertBatch(dbs[|done|], d, pk, stmt, items[|done|..]))
    decreases |done|
  {
    if done == [] {
      assert items[0..] == items;
      assert [] + InsertBatch(dbs[0], d, pk, stmt, items).ids == InsertBatch(dbs[0], d, pk, stmt, items).ids;
    } else {
      var n := |done|;
      var y := InsertBatch(dbs[n], d, pk, stmt, items[n..]);
      TracedTail(dbs, done, d, pk, stmt, items);
      TracedResumes(dbs[1..], done[1..], d, pk, stmt, items[1..]);
      assert items[1..][|done[1..]|..] == items[n..] && dbs[1..][|done[1..]|] == dbs[n];
      assert done[0] == dbs[1].lastInsertId;
      FirstTurn(dbs[0], dbs[1], done, d, pk, stmt, items, y);
    }
  }

  /** A successful first turn, in front of the rest of the loop. */
  lemma FirstTurn(db: Db, next: Db, done: seq<int>, d: EntityClass, pk: PhpArray<bool>, stmt: Statement, items: seq<Pending>, y: Batch)
    requires items != [] && done != []
    requires Step(db, d, pk, stmt, items[0]) == Ok(next) && done[0] == next.lastInsertId
    requires InsertBatch(next, d, pk, stmt, items[1..]) == Then(done[1..], y)
    ensures InsertBatch(db, d, pk, stmt, items) == Then(done, y)
  {
    BatchHead(db, d, pk, stmt, items);
    ThenSplit(done, y);
  }

  lemma ThenSplit(done: seq<int>, y: Batch)
    requires done != []
    ensures Then([done[0]], Then(done[1..], y)) == Then(done, y)
  {
    ThenThen([done[0]], done[1..], y);
    assert [done[0]] + done[1..] == done;
  }

  /** Where a traced loop ends: at the end of the queue, or at a turn that fails. */
  lemma TracedEnds(dbs: seq<Db>, done: seq<int>, d: EntityClass, pk: PhpArray<bool>, stmt: Statement, items: seq<Pending>)
    requires Traced(dbs, done, d, pk, stmt, items)
    requires |done| == |items| || Step(dbs[|done|], d, pk, stmt, items[|done|]).Err?
    ensures InsertBatch(dbs[0], d, pk, stmt, items) ==
      if |done| == |items| then Batch(dbs[|done|], done, Pass)
      else Batch(dbs[|done|], done, Fail(Step(dbs[|done|], d, pk, stmt, items[|done|]).error))
  {
    TracedResumes(dbs, done, d, pk, stmt, items);
    if |done| < |items| {
      BatchHead(dbs[|done|], d, pk, stmt, items[|done|..]);
    }
  }

  /** The position of the first queued entity whose values cannot be read. */
  function FirstUnreadable(d: EntityClass, items: seq<Pending>): (r: nat)
    ensures r <= |items|
    ensures forall j :: 0 <= j < r ==> ReadColumns(d, items[j].0, items[j].1).Ok?
    ensures r < |items| ==> ReadColumns(d, items[r].0, items[r].1).Err?
  {
    if items == [] then 0
    else if ReadColumns(d, items[0].0, items[0].1).Err? then 0
    else 1 + FirstUnreadable(d, items[1..])
  }

  /**
   * One turn of the loop on an entity whose values can be read, with the
   * INSERT prepared: the execution succeeds, appends one row holding the
   * entity's values and reports the generated id (or 0).
   */
  lemma BatchStep(db: Db, d: EntityClass, pk: PhpArray<bool>, table: string, items: seq<Pending>)
    requires PrimaryKeyColumns(d) == Ok(pk)
    requires Check(db, InsertStatement(d, table).value).Pass?
    requires items != [] && ReadColumns(d, items[0].0, items[0].1).Ok?
    ensures Run(db, Sql(InsertStatement(d, table).value, InsertParams(ColumnsWithValues(d, items[0].1), pk))).Ok?
    ensures var stmt := InsertStatement(d, table).value;
      var next := Run(db, Sql(stmt, InsertParams(ColumnsWithValues(d, items[0].1), pk))).value;
      var t := db.tables[table];
      var tn := next.tables[table];
      && Check(next, stmt).Pass?
      && InsertBatch(db, d, pk, stmt, items) == Then([next.lastInsertId], InsertBatch(next, d, pk, stmt, items[1..]))
      && |tn.rows| == |t.rows| + 1 && tn.rows[..|t.rows|] == t.rows
      && tn.columns == t.columns && tn.auto == t.auto
      && Holds(tn.rows[|t.rows|], stmt.columns, items[0].1)
      && next.lastInsertId == (if Generates(t, stmt.columns) then t.nextId else 0)
      && tn.nextId == (if Generates(t, stmt.columns) then t.nextId + 1 else t.nextId)
      && (Generates(t, stmt.columns) ==> Cell(tn.rows[|t.rows|], t.auto.value) == Int(t.nextId))
  {
    var stmt := InsertStatement(d, table).value;
    var props := items[0].1;
    var ps := InsertParams(ColumnsWithValues(d, props), pk);
    InsertParamsLineUp(d, table, pk, props);
    InsertColumnsInOrder(d, table);
    InsertEffect(db, table, stmt.columns, ps);
    var next := Run(db, Sql(stmt, ps)).value;
    var t := db.tables[table];
    forall c | c in stmt.columns
      ensures Cell(next.tables[table].rows[|t.rows|], c) == Prop(props, c)
    {
      var i :| 0 <= i < |stmt.columns| && stmt.columns[i] == c;
    }
  }

  /**
   * The loop ran `k` times and stopped at the entity of another class at
   * position `k`, or ran to the end of the queue.
   */
  predicate StopsAt(b: Batch, k: nat, items: seq<Pending>, name: string)
  {
    && |b.ids| == k
    && b.outcome == if k < |items| then Fail(WrongObject(items[k].0, name)) else Pass
  }

  /** One more successful turn in front of the rest. */
  lemma StopsAtStep(b: Batch, rest: Batch, id: int, k: nat, items: seq<Pending>, name: string)
    requires items != [] && b == Then([id], rest)
    requires StopsAt(rest, k, items[1..], name)
    ensures StopsAt(b, k + 1, items, name)
  {
    if k < |items[1..]| {
      assert items[1..][k] == items[k + 1];
    }
  }

  /**
   * The loop, with the INSERT prepared, executes once per entity up to the
   * first one of another class, where it stops with that reflection error.
   */
  lemma {:induction false} BatchOutcome(db: Db, d: EntityClass, pk: PhpArray<bool>, table: string, items: seq<Pending>)
    requires PrimaryKeyColumns(d) == Ok(pk)
    requires Check(db, InsertStatement(d, table).value).Pass?
    ensures StopsAt(InsertBatch(db, d, pk, InsertStatement(d, table).value, items), FirstUnreadable(d, items), items, d.name)
    decreases |items|
  {
    if items != [] && ReadColumns(d, items[0].0, items[0].1).Ok? {
      BatchStep(db, d, pk, table, items);
      var stmt := InsertStatement(d, table).value;
      var next := Run(db, Sql(stmt, InsertParams(ColumnsWithValues(d, items[0].1), pk))).value;
      BatchOutcome(next, d, pk, table, items[1..]);
      StopsAtStep(InsertBatch(db, d, pk, stmt, items), InsertBatch(next, d, pk, stmt, items[1..]),
                  next.lastInsertId, FirstUnreadable(d, items[1..]), items, d.name);
    }
  }

  /**
   * Table `t'` is table `t` with one row appended per reported id, the
   * j-th holding the values of the j-th queued entity.
   */
  predicate Appended(t: Table, t': Table, ids: seq<int>, cols: seq<string>, items: seq<Pending>)
  {
    && |ids| <= |items|
    && |t'.rows| == |t.rows| + |ids| && t'.rows[..|t.rows|] == t.rows
    && forall j :: 0 <= j < |ids| ==> Holds(t'.rows[|t.rows| + j], cols, items[j].1)
  }

  /**
   * The ids follow the key counter of `t` when the table generates the key
   * (and the j-th appended row holds the j-th id), and are all 0 otherwise.
   */
  predicate Numbered(t: Table, t': Table, ids: seq<int>, cols: seq<string>)
  {
    && (forall j :: 0 <= j < |ids| ==> ids[j] == if Generates(t, cols) then t.nextId + j else 0)
    && (Generates(t, cols) && |t.rows| + |ids| <= |t'.rows| ==>
          forall j :: 0 <= j < |ids| ==> Cell(t'.rows[|t.rows| + j], t.auto.value) == Int(ids[j]))
  }

  /** One appended row in front of the rest. */
  lemma AppendedStep(t: Table, tn: Table, t': Table, id: int, ids: seq<int>, cols: seq<string>, items: seq<Pending>)
    requires items != []
    requires |tn.rows| == |t.rows| + 1 && tn.rows[..|t.rows|] == t.rows
    requires Holds(tn.rows[|t.rows|], cols, items[0].1)
    requires Appended(tn, t', ids, cols, items[1..])
    ensures Appended(t, t', [id] + ids, cols, items)
  {
    var n := |t.rows|;
    assert t'.rows[..n + 1][..n] == t'.rows[..n];
    assert t'.rows[..n + 1][n] == t'.rows[n];
    forall j | 0 <= j < |ids| + 1
      ensures Holds(t'.rows[n + j], cols, items[j].1)
    {
      if j > 0 {
        assert items[j] == items[1..][j - 1];
        assert n + j == (n + 1) + (j - 1);
      }
    }
  }

  /** One reported id in front of the rest. */
  lemma NumberedStep(t: Table, tn: Table, t': Table, id: int, ids: seq<int>, cols: seq<string>)
    requires |tn.rows| == |t.rows| + 1 && tn.auto == t.auto
    requires |tn.rows| + |ids| <= |t'.rows| && t'.rows[..|tn.rows|] == tn.rows
    requires id == if Generates(t, cols) then t.nextId else 0
    requires tn.nextId == if Generates(t, cols) then t.nextId + 1 else t.nextId
    requires Generates(t, cols) ==> Cell(tn.rows[|t.rows|], t.auto.value) == Int(t.nextId)
    requires Numbered(tn, t', ids, cols)
    ensures Numbered(t, t', [id] + ids, cols)
  {
    var n := |t.rows|;
    assert Generates(tn, cols) == Generates(t, cols);
    assert t'.rows[..n + 1][n] == t'.rows[n];
    forall j | 0 <= j < |ids| + 1
      ensures ([id] + ids)[j] == if Generates(t, cols) then t.nextId + j else 0
    {
      if j > 0 {
        assert ([id] + ids)[j] == ids[j - 1];
      }
    }
    if Generates(t, cols) {
      forall j | 0 <= j < |ids| + 1
        ensures Cell(t'.rows[n + j], t.auto.value) == Int(([id] + ids)[j])
      {
        if j > 0 {
          assert ([id] + ids)[j] == ids[j - 1];
          assert n + j == (n + 1) + (j - 1);
        }
      }
    }
  }

  /**
   * Each execution appends one row holding that entity's values; the rows
   * that were there are kept, in order.
   */
  lemma {:induction false} BatchRows(db: Db, d: EntityClass, pk: PhpArray<bool>, table: string, items: seq<Pending>)
    requires PrimaryKeyColumns(d) == Ok(pk)
    requires Check(db, InsertStatement(d, table).value).Pass?
    ensures var stmt := InsertStatement(d, table).value;
      var b := InsertBatch(db, d, pk, stmt, items);
      Appended(db.tables[table], b.db.tables[table], b.ids, stmt.columns, items)
    decreases |items|
  {
    if items != [] && ReadColumns(d, items[0].0, items[0].1).Ok? {
      BatchStep(db, d, pk, table, items);
      var stmt := InsertStatement(d, table).value;
      var next := Run(db, Sql(stmt, InsertParams(ColumnsWithValues(d, items[0].1), pk))).value;
      BatchRows(next, d, pk, table, items[1..]);
      var rest := InsertBatch(next, d, pk, stmt, items[1..]);
      AppendedStep(db.tables[table], next.tables[table], rest.db.tables[table], next.lastInsertId, rest.ids, stmt.columns, items);
    }
  }

  /**
   * When the table generates the key, the j-th execution reports the
   * counter's value plus j, and that id is stored in the j-th new row;
   * otherwise every execution reports 0.
   */
  lemma {:induction false} BatchIds(db: Db, d: EntityClass, pk: PhpArray<bool>, table: string, items: seq<Pending>)
    requires PrimaryKeyColumns(d) == Ok(pk)
    requires Check(db, InsertStatement(d, table).value).Pass?
    ensures var stmt := InsertStatement(d, table).value;
      var b := InsertBatch(db, d, pk, stmt, items);
      Numbered(db.tables[table], b.db.tables[table], b.ids, stmt.columns)
    decreases |items|
  {
    if items != [] && ReadColumns(d, items[0].0, items[0].1).Ok? {
      BatchStep(db, d, pk, table, items);
      var stmt := InsertStatement(d, table).value;
      var next := Run(db, Sql(stmt, InsertParams(ColumnsWithValues(d, items[0].1), pk))).value;
      BatchIds(next, d, pk, table, items[1..]);
      BatchRows(next, d, pk, table, items[1..]);
      var rest := InsertBatch(next, d, pk, stmt, items[1..]);
      NumberedStep(db.tables[table], next.tables[table], rest.db.tables[table], next.lastInsertId, rest.ids, stmt.columns);
    }
  }

  /** A snapshot of the queued entities' classes and properties. */
  function Snapshot(q: seq<Entity>): (r: seq<Pending>)
    reads q
    ensures |r| == |q|
    ensures forall j :: 0 <= j < |q| ==> r[j] == (q[j].cls, q[j].props)
  {
    seq(|q|, j reads q requires 0 <= j < |q| => (q[j].cls, q[j].props))
  }

  /**
   * The map executeInserts builds when the key has an auto-increment
   * column: each queued entity, in queue order, mapped to the id reported
   * after its INSERT.
   */
  function IdMap(q: seq<Entity>, reported: seq<int>): map<Entity, int>
    requires |q| == |reported|
    decreases |q|
  {
    if q == [] then map[]
    else IdMap(q[..|q| - 1], reported[..|q| - 1])[q[|q| - 1] := reported[|q| - 1]]
  }

  /** Recording the next entity's id extends the map by that one entry. */
  lemma IdMapExtend(q: seq<Entity>, done: seq<int>, id: int)
    requires |done| < |q|
    ensures IdMap(q[..|done| + 1], done + [id]) == IdMap(q[..|done|], done)[q[|done|] := id]
  {
    assert q[..|done| + 1][..|done|] == q[..|done|] && (done + [id])[..|done|] == done;
  }

  /** Every queued entity is a key of the map, mapped to the id reported for it. */
  lemma {:induction false} IdMapLookup(q: seq<Entity>, reported: seq<int>)
    requires |q| == |reported|
    requires forall i, j :: 0 <= i < j < |q| ==> q[i] != q[j]
    ensures IdMap(q, reported).Keys == set e | e in q
    ensures forall j :: 0 <= j < |q| ==> IdMap(q, reported)[q[j]] == reported[j]
    decreases |q|
  {
    if q != [] {
      var n := |q| - 1;
      IdMapLookup(q[..n], reported[..n]);
      assert forall e :: e in q <==> e in q[..n] || e == q[n] by {
        assert q == q[..n] + [q[n]];
      }
      forall j | 0 <= j < n
        ensures IdMap(q, reported)[q[j]] == reported[j]
      {
        assert q[j] == q[..n][j] && q[j] != q[n];
      }
    }
  }


  // ---------------------------------------------------------------------
  // The persister
  // ---------------------------------------------------------------------

  class EntityPersister {
    const meta: EntityMeta
    const conn: Connection
    /** `queued_inserts`, in the order the entities were first added. */
    var queued: seq<Entity>

    /** The queue is keyed by object identity: no entity is queued twice. */
    predicate Valid()
      reads this
    {
      forall i, j :: 0 <= i < j < |queued| ==> queued[i] != queued[j]
    }

    constructor (meta: EntityMeta, conn: Connection)
      ensures this.meta == meta && this.conn == conn
      ensures queued == [] && Valid()
    {
      this.meta := meta;
      this.conn := conn;
      this.queued := [];
    }

    /** Queues an entity; queuing the same object again leaves the queue as it was. */
    method AddInsert(e: Entity)
      requires Valid()
      modifies this
      ensures Valid()
      ensures queued == if e in old(queued) then old(queued) else old(queued) + [e]
    {
      if e !in queued {
        queued := queued + [e];
      }
    }

    /**
     * Runs one INSERT per queued entity, in queue order, and empties the
     * queue. The result maps each entity to the id reported after its
     * INSERT when the key definition has an auto-increment column, and is
     * empty otherwise. A failure leaves the queue as it was, and the rows
     * inserted before it in the table.
     */
    method ExecuteInserts() returns (r: Result<map<Entity, int>>)
      requires Valid()
      modifies this, conn
      ensures Valid()
      ensures old(queued) == [] ==> r == Ok(map[]) && conn.db == old(conn.db) && queued == []
      ensures old(queued) != [] && PrimaryKeyColumns(meta.decl).Err? ==>
        r == Err(PrimaryKeyColumns(meta.decl).error) && conn.db == old(conn.db) && queued == old(queued)
      ensures old(queued) != [] && PrimaryKeyColumns(meta.decl).Ok? ==>
        var stmt := InsertStatement(meta.decl, meta.tableName).value;
        Check(old(conn.db), stmt).Fail? ==>
          r == Err(Check(old(conn.db), stmt).error) && conn.db == old(conn.db) && queued == old(queued)
      ensures old(queued) != [] && PrimaryKeyColumns(meta.decl).Ok? ==>
        var pk := PrimaryKeyColumns(meta.decl).value;
        var stmt := InsertStatement(meta.decl, meta.tableName).value;
        var b := InsertBatch(old(conn.db), meta.decl, pk, stmt, old(Snapshot(queued)));
        Check(old(conn.db), stmt).Pass? ==>
          && conn.db == b.db
          && (b.outcome.Fail? ==> r == Err(b.outcome.error) && queued == old(queued))
          && (b.outcome.Pass? ==>
                && r.Ok? && queued == [] && |b.ids| == |old(queued)|
                && r.value == if AnyAutoIncrement(pk) then IdMap(old(queued), b.ids) else map[])
    {
      if queued == [] {
        return Ok(map[]);
      }
      var pkr := PrimaryKeyColumns(meta.decl);
      if pkr.Err? {
        return Err(pkr.error);
      }
      var pk := pkr.value;
      var stmt := Insert(meta.tableName, Exclude(DefaultColumns(meta.decl), Keys(pk)));
      var prepared := conn.Prepare(stmt);
      if prepared.Fail? {
        return Err(prepared.error);
      }
      var hasAuto := AnyAutoIncrement(pk);
      var ids, outcome := InsertEach(pk, stmt, hasAuto);
      if outcome.Fail? {
        return Err(outcome.error);
      }
      queued := [];
      return Ok(ids);
    }

    /**
     * The loop of executeInserts: one INSERT per queued entity, collecting
     * the reported ids when `hasAuto`. It ends where InsertBatch ends.
     */
    method InsertEach(pk: PhpArray<bool>, stmt: Statement, hasAuto: bool) returns (ids: map<Entity, int>, outcome: Outcome)
      requires Valid()
      modifies conn
      ensures var b := InsertBatch(old(conn.db), meta.decl, pk, stmt, old(Snapshot(queued)));
        && conn.db == b.db && outcome == b.outcome
        && (outcome.Pass? ==> |b.ids| == |queued| && ids == if hasAuto then IdMap(queued, b.ids) else map[])
    {
      var items := Snapshot(queued);
      var q := queued;
      ghost var dbs: seq<Db> := [conn.db];
      ghost var done: seq<int> := [];
      ids := map[];
      var i := 0;
      while i < |items|
        invariant 0 <= i <= |items| && |items| == |q|
        invariant Traced(dbs, done, meta.decl, pk, stmt, items) && |done| == i && dbs[i] == conn.db
        invariant dbs[0] == old(conn.db)
        invariant ids == if hasAuto then IdMap(q[..i], done) else map[]
      {
        outcome := InsertOne(pk, stmt, items[i]);
        if outcome.Fail? {
          TracedEnds(dbs, done, meta.decl, pk, stmt, items);
          return;
        }
        TracedExtend(dbs, done, meta.decl, pk, stmt, items, conn.db);
        if hasAuto {
          ids := ids[q[i] := conn.db.lastInsertId];
        }
        IdMapExtend(q, done, conn.db.lastInsertId);
        dbs := dbs + [conn.db];
        done := done + [conn.db.lastInsertId];
        i := i + 1;
      }
      TracedEnds(dbs, done, meta.decl, pk, stmt, items);
      assert q[..i] == q;
      outcome := Pass;
    }

    /** One turn of the loop of executeInserts: the entity's values, then the prepared INSERT on them. */
    method InsertOne(pk: PhpArray<bool>, stmt: Statement, item: Pending) returns (outcome: Outcome)
      modifies conn
      ensures var step := Step(old(conn.db), meta.decl, pk, stmt, item);
        && (step.Err? ==> outcome == Fail(step.error) && conn.db == old(conn.db))
        && (step.Ok? ==> outcome == Pass && conn.db == step.value)
    {
      var cols := ReadColumns(meta.decl, item.0, item.1);
      if cols.Err? {
        return Fail(cols.error);
      }
      outcome := conn.Execute(Sql(stmt, InsertParams(cols.value, pk)));
    }

    /** Runs the UPDATE getUpdateSql builds for the entity. */
    method Update(e: Entity) returns (r: Outcome)
      modifies conn
      ensures var sql := UpdateSql(meta.decl, meta.tableName, e.cls, e.props);
        && (sql.Err? ==> r == Fail(sql.error) && conn.db == old(conn.db))
        && (sql.Ok? && Run(old(conn.db), sql.value).Ok? ==> r == Pass && conn.db == Run(old(conn.db), sql.value).value)
        && (sql.Ok? && Run(old(conn.db), sql.value).Err? ==>
              r == Fail(Run(old(conn.db), sql.value).error) && conn.db == old(conn.db))
    {
      var sql := UpdateSql(meta.decl, meta.tableName, e.cls, e.props);
      if sql.Err? {
        return Fail(sql.error);
      }
      r := conn.Execute(sql.value);
    }

    /** Runs the DELETE getDeleteSql builds for the entity. */
    method Delete(e: Entity) returns (r: Outcome)
      modifies conn
      ensures var sql := DeleteSql(meta.decl, meta.tableName, e.cls, e.props);
        && (sql.Err? ==> r == Fail(sql.error) && conn.db == old(conn.db))
        && (sql.Ok? && Run(old(conn.db), sql.value).Ok? ==> r == Pass && conn.db == Run(old(conn.db), sql.value).value)
        && (sql.Ok? && Run(old(conn.db), sql.value).Err? ==>
              r == Fail(Run(old(conn.db), sql.value).error) && conn.db == old(conn.db))
    {
      var sql := DeleteSql(meta.decl, meta.tableName, e.cls, e.props);
      if sql.Err? {
        return Fail(sql.error);
      }
      r := conn.Execute(sql.value);
    }

    /** Whether some row of the table meets every criterion. */
    method Exists(criteria: PhpArray<Value>) returns (r: Result<bool>)
      ensures var sql := SelectSql(meta.tableName, criteria);
        var rows := TableRows(conn.db, meta.tableName);
        && (Run(conn.db, sql).Err? ==> r == Err(Run(conn.db, sql).error))
        && (Run(conn.db, sql).Ok? ==> r.Ok? && (r.value <==> exists j :: 0 <= j < |rows| && Satisfies(rows[j], criteria)))
    {
      var sql := SelectSql(meta.tableName, criteria);
      var rows := conn.Query(sql);
      if rows.Err? {
        return Err(rows.error);
      }
      var all := conn.db.tables[meta.tableName].rows;
      assert TableRows(conn.db, meta.tableName) == all;
      if rows.value != [] {
        var j :| 0 <= j < |all| && all[j] == rows.value[0];
        assert Matches(all[j], Keys(criteria), ValuesOf(criteria));
        CriteriaMatch(all[j], criteria);
        assert Satisfies(all[j], criteria);
      } else {
        forall j | 0 <= j < |all|
          ensures !Satisfies(all[j], criteria)
        {
          CriteriaMatch(all[j], criteria);
        }
      }
      r := Ok(rows.value != []);
    }

    /**
     * The first row meeting every criterion, as a new instance of the
     * class whose properties are that row's columns; none when no row does.
     */
    method Load(criteria: PhpArray<Value>) returns (r: Result<Option<Entity>>)
      ensures var sql := SelectSql(meta.tableName, criteria);
        var rows := TableRows(conn.db, meta.tableName);
        && (Run(conn.db, sql).Err? ==> r == Err(Run(conn.db, sql).error))
        && (Run(conn.db, sql).Ok? ==> r.Ok?)
        && (r.Ok? ==> (r.value.None? <==> forall j :: 0 <= j < |rows| ==> !Satisfies(rows[j], criteria)))
        && (r.Ok? && r.value.Some? ==>
              && fresh(r.value.value) && r.value.value.cls == meta.decl.name
              && exists k :: 0 <= k < |rows| && r.value.value.props == rows[k] && Satisfies(rows[k], criteria) &&
                             forall j :: 0 <= j < k ==> !Satisfies(rows[j], criteria))
    {
      var sql := SelectSql(meta.tableName, criteria);
      var found := conn.Query(sql);
      if found.Err? {
        return Err(found.error);
      }
      var all := conn.db.tables[meta.tableName].rows;
      forall row: Row ensures Matches(row, Keys(criteria), ValuesOf(criteria)) <==> Satisfies(row, criteria) {
        CriteriaMatch(row, criteria);
      }
      if found.value == [] {
        return Ok(None);
      }
      SelectedFirst(all, Keys(criteria), ValuesOf(criteria));
      var e := new Entity(meta.decl.name, found.value[0]);
      r := Ok(Some(e));
    }

    /** Every row of the table, in storage order, each as a new instance of the class. */
    method LoadAll() returns (r: Result<seq<Entity>>)
      ensures var sql := SelectSql(meta.tableName, []);
        var rows := TableRows(conn.db, meta.tableName);
        && (Run(conn.db, sql).Err? ==> r == Err(Run(conn.db, sql).error))
        && (Run(conn.db, sql).Ok? ==> r.Ok? && |r.value| == |rows|)
        && (r.Ok? ==> forall j :: 0 <= j < |r.value| ==>
              fresh(r.value[j]) && r.value[j].cls == meta.decl.name && r.value[j].props == rows[j])
        && (r.Ok? ==> forall j, k :: 0 <= j < k < |r.value| ==> r.value[j] != r.value[k])
    {
      var sql := SelectSql(meta.tableName, []);
      var found := conn.Query(sql);
      if found.Err? {
        return Err(found.error);
      }
      SelectedAll(conn.db.tables[meta.tableName].rows);
      var es := Materialize(found.value);
      r := Ok(es);
    }

    /** `fetchAll(FETCH_CLASS)`: one new instance of the class per row, properties from its columns. */
    method Materialize(rows: seq<Row>) returns (es: seq<Entity>)
      ensures |es| == |rows|
      ensures forall j :: 0 <= j < |es| ==> fresh(es[j]) && es[j].cls == meta.decl.name && es[j].props == rows[j]
      ensures forall j, k :: 0 <= j < k < |es| ==> es[j] != es[k]
    {
      es := [];
      var i := 0;
      while i < |rows|
        invariant 0 <= i <= |rows|
        invariant |es| == i
        invariant forall j :: 0 <= j < i ==> fresh(es[j]) && es[j].cls == meta.decl.name && es[j].props == rows[j]
        invariant forall j, k :: 0 <= j < k < i ==> es[j] != es[k]
      {
        var e := new Entity(meta.decl.name, rows[i]);
        es := es + [e];
        i := i + 1;
      }
    }
  }
}
