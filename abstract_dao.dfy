/** The generic data-access object: CREATE TABLE, batch INSERT, lookup by
    key, listing, UPDATE and DELETE of the entities of one annotated type.

    Each operation is specified by a function of the entity type and the
    store's state (its outcome and the new state), and implemented by a
    method over the store that builds the statement text and its parameter
    list step by step, as the data-access object does. */
module AbstractDao {
  import opened Common
  import opened Annotations
  import opened Store
  import opened DaoUtils
  import opened Statements

  // ---------------------------------------------------------------------
  // Row mapping

  /** `field.set(obj, rs.getObject(name))` for each field in turn; a column
      missing from the result row makes the lookup fail. */
  function FillFields(obj: Obj, fs: seq<Field>, row: Row): (r: Result<Obj>)
    requires AllAnnotated(fs)
    ensures r.Err? ==> r.error.SqlError? && r.error.state.UndefinedColumn?
    ensures r.Ok? ==> obj.Keys <= r.value.Keys
    decreases |fs|
  {
    if fs == [] then Ok(obj)
    else
      var name := fs[0].column.value.name;
      if name !in row then Err(SqlError(UndefinedColumn(name)))
      else FillFields(obj[fs[0].javaName := row[name]], fs[1..], row)
  }

  /** A fresh instance of `t` filled from one result row. */
  function FromRow(t: EntityType, row: Row): Result<Obj>
  {
    if !t.hasNoArgConstructor then Err(NoDefaultConstructor(t.className))
    else FillFields(NewInstance(t), GetFields(t), row)
  }

  /** The mapping of every row in order; the first failure ends it. */
  function FromRows(t: EntityType, rows: seq<Row>): Result<seq<Obj>>
  {
    if rows == [] then Ok([])
    else
      var o := FromRow(t, rows[0]);
      if o.Err? then Err(o.error)
      else
        var rest := FromRows(t, rows[1..]);
        if rest.Err? then rest else Ok([o.value] + rest.value)
  }

  /** No two annotated fields share a Java name or a column name. */
  predicate DistinctNames(fs: seq<Field>)
    requires AllAnnotated(fs)
  {
    forall i, j :: 0 <= i < j < |fs| ==>
      fs[i].javaName != fs[j].javaName && fs[i].column.value.name != fs[j].column.value.name
  }

  // ---------------------------------------------------------------------
  // Specifications of the operations

  /** `createTableIfNotExists`: the names are looked up first, then the
      CREATE statement is sent and, only when it succeeds, the guards are
      installed. */
  function CreateTableResult(t: EntityType, s: DbState): (r: (Outcome, DbState))
    ensures t.table.None? ==> r == (Fail(MissingTable(t.className)), s)
    ensures !s.connectable ==> r.0.Fail? && r.1 == s
    ensures GetPrimaryKeyName(t).Err? ==> r.0.Fail? && r.1 == s
    ensures t.table.Some? && GetPrimaryKeyName(t).Ok? && !s.connectable ==> r == (Fail(NullConnection), s)
  {
    var name := GetTableName(t);
    if name.Err? then (Fail(name.error), s)
    else
      var pk := GetPrimaryKeyName(t);
      if pk.Err? then (Fail(pk.error), s)
      else if Connect(s).Fail? then (Connect(s), s)
      else
        var sql := CreateTableSql(name.value, Columns(t), pk.value);
        var created := Exec(s, sql, CreateTable(name.value, pk.value), map[]);
        if created.0.Fail? then created else ImmutabilityTriggers(t, created.1)
  }

  function InsertFields(t: EntityType): (r: seq<Field>)
    ensures AllAnnotated(r)
  {
    NonKeyFields(GetFields(t))
  }

  /** `insertList`: one statement for the whole batch, its parameters bound
      from 1 in order, then one commit. */
  function InsertListResult(t: EntityType, s: DbState, objs: seq<Obj>): (r: (Outcome, DbState))
    ensures t.table.None? ==> r == (Fail(MissingTable(t.className)), s)
    ensures !s.connectable ==> r.0.Fail? && r.1 == s
    ensures t.table.Some? && !s.connectable ==> r == (Fail(NullConnection), s)
  {
    var name := GetTableName(t);
    if name.Err? then (Fail(name.error), s)
    else if Connect(s).Fail? then (Connect(s), s)
    else
      var fs := InsertFields(t);
      var sql := InsertSql(name.value, FieldNames(fs), |objs|);
      var sent := Exec(s, sql, InsertValues(name.value, FieldNames(fs), |objs|), Positional(InsertParams(objs, fs)));
      if sent.0.Fail? then sent else (Pass, sent.1.(log := sent.1.log + [Committed]))
  }

  /** `findById`: `None` when no row has that key. */
  function FindByIdResult(t: EntityType, s: DbState, id: Value): (r: Result<Option<Obj>>)
    ensures t.table.None? ==> r == Err(MissingTable(t.className))
    ensures !s.connectable ==> r.Err?
    ensures GetPrimaryKeyField(t).Err? ==> r.Err?
    ensures t.table.Some? && GetPrimaryKeyField(t).Ok? && !s.connectable ==> r == Err(NullConnection)
  {
    var name := GetTableName(t);
    if name.Err? then Err(name.error)
    else
      var pk := GetPrimaryKeyField(t);
      if pk.Err? then Err(pk.error)
      else if Connect(s).Fail? then Err(Connect(s).error)
      else
        var rows := Eval(s, SelectWhere(name.value, pk.value.column.value.name), map[1 := id]);
        if rows.Err? then Err(rows.error)
        else if rows.value == [] then Ok(None)
        else
          var o := FromRow(t, rows.value[0]);
          if o.Err? then Err(o.error) else Ok(Some(o.value))
  }

  /** `findAll`: every row, ordered by the column literally named `id`. */
  function FindAllResult(t: EntityType, s: DbState): (r: Result<seq<Obj>>)
    ensures t.table.None? ==> r == Err(MissingTable(t.className))
    ensures !s.connectable ==> r.Err?
    ensures t.table.Some? && !s.connectable ==> r == Err(NullConnection)
  {
    var name := GetTableName(t);
    if name.Err? then Err(name.error)
    else if Connect(s).Fail? then Err(Connect(s).error)
    else
      var rows := Eval(s, SelectOrdered(name.value, "id", false), map[]);
      if rows.Err? then Err(rows.error) else FromRows(t, rows.value)
  }

  /** The SET list: column `k` takes parameter `k + 1`. */
  function SetAssigns(names: seq<string>): (r: seq<Assign>)
    ensures |r| == |names| && forall k :: 0 <= k < |names| ==> r[k] == SetTo(names[k], k + 1)
  {
    seq(|names|, k requires 0 <= k < |names| => SetTo(names[k], k + 1))
  }

  /** `update`: every field but the key field is set, the key is the last
      parameter; the statement is not followed by a commit (auto-commit). */
  function UpdateResult(t: EntityType, s: DbState, obj: Obj): (r: (Outcome, DbState))
    ensures t.table.None? ==> r == (Fail(MissingTable(t.className)), s)
    ensures !s.connectable ==> r.0.Fail? && r.1 == s
    ensures GetPrimaryKeyField(t).Err? ==> r.0.Fail? && r.1 == s
    ensures t.table.Some? && GetPrimaryKeyField(t).Ok? && !s.connectable ==> r == (Fail(NullConnection), s)
  {
    var name := GetTableName(t);
    if name.Err? then (Fail(name.error), s)
    else
      var pk := GetPrimaryKeyField(t);
      if pk.Err? then (Fail(pk.error), s)
      else
        var others := OtherFields(GetFields(t), pk.value);
        var names := FieldNames(others);
        var key := pk.value.column.value.name;
        if Connect(s).Fail? then (Connect(s), s)
        else
          Exec(s, UpdateSql(name.value, names, key),
               UpdateWhere(name.value, SetAssigns(names), key, |names| + 1),
               Positional(UpdateParams(obj, others, pk.value)))
  }

  /** `delete`: the key value is parameter 1. */
  function DeleteResult(t: EntityType, s: DbState, id: Value): (r: (Outcome, DbState))
    ensures t.table.None? ==> r == (Fail(MissingTable(t.className)), s)
    ensures !s.connectable ==> r.0.Fail? && r.1 == s
    ensures GetPrimaryKeyField(t).Err? ==> r.0.Fail? && r.1 == s
    ensures t.table.Some? && GetPrimaryKeyField(t).Ok? && !s.connectable ==> r == (Fail(NullConnection), s)
  {
    var name := GetTableName(t);
    if name.Err? then (Fail(name.error), s)
    else
      var pk := GetPrimaryKeyField(t);
      if pk.Err? then (Fail(pk.error), s)
      else if Connect(s).Fail? then (Connect(s), s)
      else
        var key := pk.value.column.value.name;
        Exec(s, DeleteSql(name.value, key), DeleteWhere(name.value, key), map[1 := id])
  }

  // ---------------------------------------------------------------------
  // The operations over the store

  /** Builds the INSERT text and collects, object by object and field by
      field, the values of the non-key fields. */
  method PrepareInsertQueryAndParams(table: string, fields: seq<Field>, objs: seq<Obj>)
    returns (sql: string, params: seq<Value>)
    requires AllAnnotated(fields)
    ensures sql == InsertSql(table, FieldNames(NonKeyFields(fields)), |objs|)
    ensures params == InsertParams(objs, NonKeyFields(fields))
    ensures |params| == |objs| * |NonKeyFields(fields)|
  {
    sql := InsertSql(table, FieldNames(NonKeyFields(fields)), |objs|);
    params := [];
    var i := 0;
    while i < |objs|
      invariant 0 <= i <= |objs|
      invariant params == InsertParams(objs[..i], NonKeyFields(fields))
    {
      var values := NonKeyValues(objs[i], fields);
      params := params + values;
      InsertParamsSnoc(objs, i, NonKeyFields(fields));
      i := i + 1;
    }
    assert objs[..i] == objs;
    InsertParamsLength(objs, NonKeyFields(fields));
  }

  /** The values of one object's non-key fields, in field order. */
  method NonKeyValues(obj: Obj, fields: seq<Field>) returns (values: seq<Value>)
    requires AllAnnotated(fields)
    ensures values == ValuesOf(obj, NonKeyFields(fields))
  {
    values := [];
    var j := 0;
    while j < |fields|
      invariant 0 <= j <= |fields|
      invariant values == ValuesOf(obj, NonKeyFields(fields[..j]))
    {
      NonKeyFieldsSnoc(fields, j);
      if !fields[j].column.value.primaryKey {
        ValuesOfSnoc(obj, NonKeyFields(fields[..j]), fields[j]);
        values := values + [FieldValue(obj, fields[j])];
      } else {
        assert NonKeyFields(fields[..j + 1]) == NonKeyFields(fields[..j]);
      }
      j := j + 1;
    }
    assert fields[..j] == fields;
  }

  /** The values of one object's fields other than `pk`, in field order. */
  method OtherValues(obj: Obj, fields: seq<Field>, pk: Field) returns (values: seq<Value>)
    ensures values == ValuesOf(obj, OtherFields(fields, pk))
  {
    values := [];
    var j := 0;
    while j < |fields|
      invariant 0 <= j <= |fields|
      invariant values == ValuesOf(obj, OtherFields(fields[..j], pk))
    {
      OtherFieldsSnoc(fields, j, pk);
      if fields[j] != pk {
        ValuesOfSnoc(obj, OtherFields(fields[..j], pk), fields[j]);
        values := values + [FieldValue(obj, fields[j])];
      } else {
        assert OtherFields(fields[..j + 1], pk) == OtherFields(fields[..j], pk);
      }
      j := j + 1;
    }
    assert fields[..j] == fields;
  }

  /** `ps.setObject(index++, param)` for every parameter in order. */
  method BindParams(params: seq<Value>) returns (bound: map<int, Value>)
    ensures bound == Positional(params)
    ensures forall i :: i in bound <==> 1 <= i <= |params|
  {
    bound := map[];
    var index := 1;
    while index <= |params|
      invariant 1 <= index <= |params| + 1
      invariant bound == Positional(params[..index - 1])
    {
      assert params[..index][..index - 1] == params[..index - 1];
      bound := bound[index := params[index - 1]];
      index := index + 1;
    }
    assert params[..index - 1] == params;
  }

  /** Fills a fresh instance from one row, field by field. */
  method MapRow(t: EntityType, row: Row) returns (r: Result<Obj>)
    ensures r == FromRow(t, row)
  {
    if !t.hasNoArgConstructor {
      return Err(NoDefaultConstructor(t.className));
    }
    var fields := GetFields(t);
    var obj := NewInstance(t);
    var i := 0;
    while i < |fields|
      invariant 0 <= i <= |fields|
      invariant FillFields(NewInstance(t), fields, row) == FillFields(obj, fields[i..], row)
    {
      var name := fields[i].column.value.name;
      if name !in row {
        return Err(SqlError(UndefinedColumn(name)));
      }
      assert fields[i..][1..] == fields[i + 1..];
      obj := obj[fields[i].javaName := row[name]];
      i := i + 1;
    }
    r := Ok(obj);
  }

  method CreateTableIfNotExists(t: EntityType, db: Database) returns (r: Outcome)
    requires db.Valid()
    modifies db
    ensures db.Valid()
    ensures (r, db.State()) == CreateTableResult(t, old(db.State()))
  {
    var name := GetTableName(t);
    if name.Err? {
      return Fail(name.error);
    }
    var fields := GetFields(t);
    var pk := GetPrimaryKeyName(t);
    if pk.Err? {
      return Fail(pk.error);
    }
    var sql := CreateTableSql(name.value, ColumnsOf(fields), pk.value);
    r := db.GetConnection();
    if r.Fail? {
      return;
    }
    r := db.Execute(sql, CreateTable(name.value, pk.value), map[]);
    if r.Fail? {
      return;
    }
    r := SetImmutabilityTriggers(t, db);
  }

  method InsertList(t: EntityType, db: Database, objs: seq<Obj>) returns (r: Outcome)
    requires db.Valid()
    modifies db
    ensures db.Valid()
    ensures (r, db.State()) == InsertListResult(t, old(db.State()), objs)
  {
    var name := GetTableName(t);
    if name.Err? {
      return Fail(name.error);
    }
    var fields := GetFields(t);
    var sql, params := PrepareInsertQueryAndParams(name.value, fields, objs);
    r := db.GetConnection();
    if r.Fail? {
      return;
    }
    var bound := BindParams(params);
    r := db.Execute(sql, InsertValues(name.value, FieldNames(NonKeyFields(fields)), |objs|), bound);
    if r.Fail? {
      return;
    }
    db.Commit();
  }

  /** `insert(obj)` is `insertList([obj])`. */
  method Insert(t: EntityType, db: Database, obj: Obj) returns (r: Outcome)
    requires db.Valid()
    modifies db
    ensures db.Valid()
    ensures (r, db.State()) == InsertListResult(t, old(db.State()), [obj])
  {
    r := InsertList(t, db, [obj]);
  }

  method FindById(t: EntityType, db: Database, id: Value) returns (r: Result<Option<Obj>>)
    ensures r == FindByIdResult(t, db.State(), id)
  {
    var name := GetTableName(t);
    if name.Err? {
      return Err(name.error);
    }
    var pk := GetPrimaryKeyField(t);
    if pk.Err? {
      return Err(pk.error);
    }
    var key := pk.value.column.value.name;
    var conn := db.GetConnection();
    if conn.Fail? {
      return Err(conn.error);
    }
    var rows := db.Query(SelectByKeySql(name.value, key), SelectWhere(name.value, key), map[1 := id]);
    if rows.Err? {
      return Err(rows.error);
    }
    if rows.value == [] {
      return Ok(None);
    }
    var o := MapRow(t, rows.value[0]);
    if o.Err? {
      return Err(o.error);
    }
    r := Ok(Some(o.value));
  }

  method FindAll(t: EntityType, db: Database) returns (r: Result<seq<Obj>>)
    ensures r == FindAllResult(t, db.State())
  {
    var name := GetTableName(t);
    if name.Err? {
      return Err(name.error);
    }
    var conn := db.GetConnection();
    if conn.Fail? {
      return Err(conn.error);
    }
    var rows := db.Query(SelectAllSql(name.value), SelectOrdered(name.value, "id", false), map[]);
    if rows.Err? {
      return Err(rows.error);
    }
    var list := [];
    var i := 0;
    while i < |rows.value|
      invariant 0 <= i <= |rows.value|
      invariant FromRows(t, rows.value[..i]) == Ok(list)
    {
      var o := MapRow(t, rows.value[i]);
      FromRowsSnoc(t, rows.value, i);
      if o.Err? {
        FromRowsStops(t, rows.value, i + 1);
        return Err(o.error);
      }
      list := list + [o.value];
      i := i + 1;
    }
    assert rows.value[..i] == rows.value;
    r := Ok(list);
  }

  method Update(t: EntityType, db: Database, obj: Obj) returns (r: Outcome)
    requires db.Valid()
    modifies db
    ensures db.Valid()
    ensures (r, db.State()) == UpdateResult(t, old(db.State()), obj)
  {
    var name := GetTableName(t);
    if name.Err? {
      return Fail(name.error);
    }
    var fields := GetFields(t);
    var pk := GetPrimaryKeyField(t);
    if pk.Err? {
      return Fail(pk.error);
    }
    var pkField := pk.value;
    var params := OtherValues(obj, fields, pkField);
    params := params + [FieldValue(obj, pkField)];
    var others := OtherFields(fields, pkField);
    var names := FieldNames(others);
    var key := pkField.column.value.name;
    var sql := UpdateSql(name.value, names, key);
    r := db.GetConnection();
    if r.Fail? {
      return;
    }
    var bound := BindParams(params);
    r := db.Execute(sql, UpdateWhere(name.value, SetAssigns(names), key, |names| + 1), bound);
  }

  method Delete(t: EntityType, db: Database, id: Value) returns (r: Outcome)
    requires db.Valid()
    modifies db
    ensures db.Valid()
    ensures (r, db.State()) == DeleteResult(t, old(db.State()), id)
  {
    var name := GetTableName(t);
    if name.Err? {
      return Fail(name.error);
    }
    var pk := GetPrimaryKeyField(t);
    if pk.Err? {
      return Fail(pk.error);
    }
    var key := pk.value.column.value.name;
    r := db.GetConnection();
    if r.Fail? {
      return;
    }
    r := db.Execute(DeleteSql(name.value, key), DeleteWhere(name.value, key), map[1 := id]);
  }

  // ---------------------------------------------------------------------
  // Order of the collected parameters and mapped rows

  lemma {:induction false} NonKeyFieldsAppend(a: seq<Field>, b: seq<Field>)
    requires AllAnnotated(a) && AllAnnotated(b)
    ensures AllAnnotated(a + b)
    ensures NonKeyFields(a + b) == NonKeyFields(a) + NonKeyFields(b)
  {
    if a == [] {
      assert a + b == b;
    } else {
      assert (a + b)[1..] == a[1..] + b;
      NonKeyFieldsAppend(a[1..], b);
    }
  }

  lemma NonKeyFieldsSnoc(fs: seq<Field>, j: nat)
    requires AllAnnotated(fs) && j < |fs|
    ensures AllAnnotated(fs[..j]) && AllAnnotated(fs[..j + 1])
    ensures NonKeyFields(fs[..j + 1]) ==
      NonKeyFields(fs[..j]) + (if !fs[j].column.value.primaryKey then [fs[j]] else [])
  {
    assert fs[..j + 1] == fs[..j] + [fs[j]];
    NonKeyFieldsAppend(fs[..j], [fs[j]]);
  }

  lemma {:induction false} OtherFieldsAppend(a: seq<Field>, b: seq<Field>, pk: Field)
    ensures OtherFields(a + b, pk) == OtherFields(a, pk) + OtherFields(b, pk)
  {
    if a == [] {
      assert a + b == b;
    } else {
      assert (a + b)[1..] == a[1..] + b;
      OtherFieldsAppend(a[1..], b, pk);
    }
  }

  lemma OtherFieldsSnoc(fs: seq<Field>, j: nat, pk: Field)
    requires j < |fs|
    ensures OtherFields(fs[..j + 1], pk) == OtherFields(fs[..j], pk) + (if fs[j] != pk then [fs[j]] else [])
  {
    assert fs[..j + 1] == fs[..j] + [fs[j]];
    OtherFieldsAppend(fs[..j], [fs[j]], pk);
  }

  lemma InsertParamsSnoc(objs: seq<Obj>, i: nat, fs: seq<Field>)
    requires i < |objs|
    ensures InsertParams(objs[..i + 1], fs) == InsertParams(objs[..i], fs) + ValuesOf(objs[i], fs)
  {
    assert objs[..i + 1] == objs[..i] + [objs[i]];
    InsertParamsAppend(objs[..i], [objs[i]], fs);
    assert InsertParams([objs[i]], fs) == ValuesOf(objs[i], fs) + InsertParams([], fs);
  }

  /** The first failure of `a` then `b`, or both lists of objects. */
  function AppendResults(a: Result<seq<Obj>>, b: Result<seq<Obj>>): Result<seq<Obj>>
  {
    if a.Err? then a else if b.Err? then b else Ok(a.value + b.value)
  }

  lemma {:induction false} FromRowsAppend(t: EntityType, a: seq<Row>, b: seq<Row>)
    ensures FromRows(t, a + b) == AppendResults(FromRows(t, a), FromRows(t, b))
  {
    if a == [] {
      assert a + b == b;
      if FromRows(t, b).Ok? {
        assert [] + FromRows(t, b).value == FromRows(t, b).value;
      }
    } else {
      assert (a + b)[0] == a[0];
      assert (a + b)[1..] == a[1..] + b;
      FromRowsAppend(t, a[1..], b);
      var o := FromRow(t, a[0]);
      if o.Ok? {
        var ra, rb := FromRows(t, a[1..]), FromRows(t, b);
        if ra.Ok? && rb.Ok? {
          assert [o.value] + (ra.value + rb.value) == ([o.value] + ra.value) + rb.value;
        }
      }
    }
  }

  lemma FromRowsSnoc(t: EntityType, rows: seq<Row>, i: nat)
    requires i < |rows|
    ensures FromRows(t, rows[..i + 1]) == AppendResults(FromRows(t, rows[..i]), FromRows(t, [rows[i]]))
    ensures FromRows(t, [rows[i]]) == (if FromRow(t, rows[i]).Ok? then Ok([FromRow(t, rows[i]).value])
                                       else Err(FromRow(t, rows[i]).error))
  {
    assert rows[..i + 1] == rows[..i] + [rows[i]];
    FromRowsAppend(t, rows[..i], [rows[i]]);
    assert [rows[i]][1..] == [];
    if FromRow(t, rows[i]).Ok? {
      assert [FromRow(t, rows[i]).value] + [] == [FromRow(t, rows[i]).value];
    }
  }

  lemma FromRowsStops(t: EntityType, rows: seq<Row>, i: nat)
    requires i <= |rows| && FromRows(t, rows[..i]).Err?
    ensures FromRows(t, rows) == FromRows(t, rows[..i])
  {
    assert rows == rows[..i] + rows[i..];
    FromRowsAppend(t, rows[..i], rows[i..]);
  }

  // ---------------------------------------------------------------------
  // Properties of the operations

  /** Row mapping fails exactly when some field's column is missing from
      the row. */
  lemma {:induction false} FillFieldsFails(obj: Obj, fs: seq<Field>, row: Row)
    requires AllAnnotated(fs)
    ensures FillFields(obj, fs, row).Err? <==> exists k :: 0 <= k < |fs| && fs[k].column.value.name !in row
    decreases |fs|
  {
    if fs != [] && fs[0].column.value.name in row {
      FillFieldsFails(obj[fs[0].javaName := row[fs[0].column.value.name]], fs[1..], row) by {
        assert AllAnnotated(fs[1..]);
      }
      {
        if exists k :: 0 <= k < |fs| && fs[k].column.value.name !in row {
          var k :| 0 <= k < |fs| && fs[k].column.value.name !in row;
          assert fs[1..][k - 1] == fs[k];
        }
        if exists k :: 0 <= k < |fs[1..]| && fs[1..][k].column.value.name !in row {
          var k :| 0 <= k < |fs[1..]| && fs[1..][k].column.value.name !in row;
          assert fs[k + 1] == fs[1..][k];
        }
      }
    }
  }

  /** When every column is present, each field takes the value of its
      column, and no field the object had is lost. */
  lemma {:induction false} FillFieldsReads(obj: Obj, fs: seq<Field>, row: Row)
    requires AllAnnotated(fs) && DistinctNames(fs)
    requires forall k :: 0 <= k < |fs| ==> fs[k].column.value.name in row
    ensures FillFields(obj, fs, row).Ok?
    ensures forall x :: x in obj ==> x in FillFields(obj, fs, row).value
    ensures forall k :: 0 <= k < |fs| ==>
      fs[k].javaName in FillFields(obj, fs, row).value &&
      FillFields(obj, fs, row).value[fs[k].javaName] == row[fs[k].column.value.name]
    decreases |fs|
  {
    if fs != [] {
      var obj' := obj[fs[0].javaName := row[fs[0].column.value.name]];
      var rest := fs[1..];
      assert AllAnnotated(rest);
      assert DistinctNames(rest) by {
        forall i, j | 0 <= i < j < |rest|
          ensures rest[i].javaName != rest[j].javaName && rest[i].column.value.name != rest[j].column.value.name
        {
          assert rest[i] == fs[i + 1] && rest[j] == fs[j + 1];
        }
      }
      FillFieldsReads(obj', rest, row);
      var r := FillFields(obj', rest, row).value;
      FillFieldsKeeps(obj', rest, row, fs[0].javaName);
      forall k | 1 <= k < |fs|
        ensures fs[k].javaName in r && r[fs[k].javaName] == row[fs[k].column.value.name]
      {
        assert fs[k] == rest[k - 1];
      }
    }
  }

  /** A key no field writes keeps its value. */
  lemma {:induction false} FillFieldsKeeps(obj: Obj, fs: seq<Field>, row: Row, x: string)
    requires AllAnnotated(fs) && x in obj
    requires forall k :: 0 <= k < |fs| ==> fs[k].javaName != x
    requires FillFields(obj, fs, row).Ok?
    ensures x in FillFields(obj, fs, row).value && FillFields(obj, fs, row).value[x] == obj[x]
    decreases |fs|
  {
    if fs != [] {
      var rest := fs[1..];
      assert AllAnnotated(rest);
      assert forall k :: 0 <= k < |rest| ==> rest[k].javaName != x by {
        forall k | 0 <= k < |rest| ensures rest[k].javaName != x {
          assert rest[k] == fs[k + 1];
        }
      }
      FillFieldsKeeps(obj[fs[0].javaName := row[fs[0].column.value.name]], rest, row, x);
    }
  }

  /** The table of `t` exists in the store, keyed by the primary-key column. */
  predicate TableReady(t: EntityType, s: DbState)
  {
    && t.table.Some?
    && GetPrimaryKeyField(t).Ok?
    && s.connectable
    && TableKey(t.table.value.name) in s.tables
    && s.tables[TableKey(t.table.value.name)].key == GetPrimaryKeyField(t).value.column.value.name
  }

  function TableOf(t: EntityType, s: DbState): Table
    requires TableReady(t, s)
  {
    s.tables[TableKey(t.table.value.name)]
  }

  /** `findById` returns nothing when no row carries the key value, and
      otherwise maps the row stored under it. */
  lemma FindByIdFinds(t: EntityType, s: DbState, id: Value)
    requires StateValid(s) && TableReady(t, s)
    ensures var rows := TableOf(t, s).rows;
      FindByIdResult(t, s, id) ==
        if id.Int? && id.i in rows then
          (var o := FromRow(t, rows[id.i]); if o.Ok? then Ok(Some(o.value)) else Err(o.error))
        else Ok(None)
  {
    RowsWhereKey(TableOf(t, s), id);
  }

  /** Mapping rows succeeds exactly when every row maps, and then yields one
      object per row, in row order. */
  lemma {:induction false} FromRowsEach(t: EntityType, rows: seq<Row>)
    ensures FromRows(t, rows).Ok? <==> forall j :: 0 <= j < |rows| ==> FromRow(t, rows[j]).Ok?
    ensures FromRows(t, rows).Ok? ==>
      && |FromRows(t, rows).value| == |rows|
      && forall j :: 0 <= j < |rows| ==> FromRows(t, rows).value[j] == FromRow(t, rows[j]).value
  {
    if rows != [] {
      FromRowsEach(t, rows[1..]);
      assert forall j :: 1 <= j < |rows| ==> rows[j] == rows[1..][j - 1];
    }
  }

  /** `findAll` orders by the column literally named `id`: on a table keyed
      by `id` it maps the stored rows in ascending key order; on a table
      whose key column has another name it fails. */
  lemma FindAllUnfold(t: EntityType, s: DbState)
    requires TableReady(t, s)
    ensures var tb := TableOf(t, s);
      FindAllResult(t, s) ==
        if tb.key == "id" then FromRows(t, RowsAt(tb, Keys(tb))) else Err(SqlError(UndefinedColumn("id")))
  {
  }

  /** On a table keyed by `id`, `findAll` succeeds exactly when every stored
      row maps, and then returns one object per row, in ascending key order. */
  lemma FindAllInKeyOrder(t: EntityType, s: DbState)
    requires TableReady(t, s) && TableOf(t, s).key == "id"
    ensures var tb, r := TableOf(t, s), FindAllResult(t, s);
      && (r.Ok? <==> forall j :: 0 <= j < |Keys(tb)| ==> FromRow(t, tb.rows[Keys(tb)[j]]).Ok?)
      && (r.Ok? ==> |r.value| == |Keys(tb)|)
      && (r.Ok? ==> forall j :: 0 <= j < |Keys(tb)| ==> r.value[j] == FromRow(t, tb.rows[Keys(tb)[j]]).value)
  {
    var tb := TableOf(t, s);
    FindAllUnfold(t, s);
    FromRowsEach(t, RowsAt(tb, Keys(tb)));
  }

  /** An empty batch is a malformed statement: it is rejected and no row is
      added. */
  lemma EmptyBatchRejected(t: EntityType, s: DbState)
    requires t.table.Some? && s.connectable
    ensures InsertListResult(t, s, []).0 == Fail(SqlError(SyntaxError))
    ensures InsertListResult(t, s, []).1.tables == s.tables
  {
  }

  /** A batch inserts one row per object, each with the next identity value,
      as one statement followed by one commit. */
  lemma InsertListAppends(t: EntityType, s: DbState, objs: seq<Obj>)
    requires StateValid(s) && TableReady(t, s)
    requires |objs| > 0 && |InsertFields(t)| > 0
    ensures var r := InsertListResult(t, s, objs);
      var fs := InsertFields(t);
      var old_ := TableOf(t, s);
      && r.0 == Pass
      && GroupsBound(FieldNames(fs), |objs|, Positional(InsertParams(objs, fs)))
      && r.1.tables == s.tables[TableKey(t.table.value.name) :=
           AppendRows(old_, FieldNames(fs), |objs|, Positional(InsertParams(objs, fs)))]
      && r.1.log == s.log + [Executed(InsertSql(t.table.value.name, FieldNames(fs), |objs|),
                                      Positional(InsertParams(objs, fs)))] + [Committed]
      && r.1.catalog == s.catalog && r.1.connectable == s.connectable
  {
    InsertListUnfold(t, s, objs);
    var fs := InsertFields(t);
    var cols := FieldNames(fs);
    var params := Positional(InsertParams(objs, fs));
    InsertParamsLength(objs, fs);
    assert GroupsBound(cols, |objs|, params);
    var name := t.table.value.name;
    InsertExec(s, InsertSql(name, cols, |objs|), name, cols, |objs|, params);
  }

  lemma InsertListUnfold(t: EntityType, s: DbState, objs: seq<Obj>)
    requires t.table.Some? && s.connectable
    ensures InsertListResult(t, s, objs) ==
      (var fs := InsertFields(t);
       var sql := InsertSql(t.table.value.name, FieldNames(fs), |objs|);
       var sent := Exec(s, sql, InsertValues(t.table.value.name, FieldNames(fs), |objs|), Positional(InsertParams(objs, fs)));
       if sent.0.Fail? then sent else (Pass, sent.1.(log := sent.1.log + [Committed])))
  {
  }

  lemma InsertExec(s: DbState, sql: string, table: string, cols: seq<string>, groups: nat, params: map<int, Value>)
    requires TableKey(table) in s.tables && groups > 0 && cols != [] && GroupsBound(cols, groups, params)
    ensures Exec(s, sql, InsertValues(table, cols, groups), params) ==
      (Pass, s.(log := s.log + [Executed(sql, params)],
                tables := s.tables[TableKey(table) := AppendRows(s.tables[TableKey(table)], cols, groups, params)]))
  {
  }

  /** Exactly one annotated field is marked as key. */
  predicate SingleKey(t: EntityType)
  {
    && GetPrimaryKeyField(t).Ok?
    && forall f :: f in GetFields(t) && f.column.value.primaryKey ==> f == GetPrimaryKeyField(t).value
  }

  lemma {:induction false} NonKeyFieldsDistinct(fs: seq<Field>)
    requires AllAnnotated(fs) && DistinctNames(fs)
    ensures DistinctNames(NonKeyFields(fs))
  {
    if fs != [] {
      var rest := fs[1..];
      DistinctTail(fs);
      NonKeyFieldsDistinct(rest);
      var tail := NonKeyFields(rest);
      forall g | g in tail
        ensures g.javaName != fs[0].javaName && g.column.value.name != fs[0].column.value.name
      {
        var j :| 0 <= j < |rest| && rest[j] == g;
        assert fs[j + 1] == g;
      }
      if !fs[0].column.value.primaryKey {
        DistinctCons(fs[0], tail);
      }
    }
  }

  /** Dropping the first field keeps the names distinct. */
  lemma DistinctTail(fs: seq<Field>)
    requires fs != [] && AllAnnotated(fs) && DistinctNames(fs)
    ensures AllAnnotated(fs[1..]) && DistinctNames(fs[1..])
  {
    var rest := fs[1..];
    forall i, j | 0 <= i < j < |rest|
      ensures rest[i].javaName != rest[j].javaName && rest[i].column.value.name != rest[j].column.value.name
    {
      assert rest[i] == fs[i + 1] && rest[j] == fs[j + 1];
    }
  }

  /** A field whose names no later field shares keeps the names distinct. */
  lemma DistinctCons(f: Field, tail: seq<Field>)
    requires f.column.Some? && AllAnnotated(tail) && DistinctNames(tail)
    requires forall g :: g in tail ==> g.javaName != f.javaName && g.column.value.name != f.column.value.name
    ensures AllAnnotated([f] + tail) && DistinctNames([f] + tail)
  {
    var r := [f] + tail;
    forall i, j | 0 <= i < j < |r|
      ensures r[i].javaName != r[j].javaName && r[i].column.value.name != r[j].column.value.name
    {
      assert r[j] == tail[j - 1];
      if i > 0 {
        assert r[i] == tail[i - 1];
      } else {
        assert r[j] in tail;
      }
    }
  }

  /** The row a single insert adds holds the object's value under every
      non-key column and the new identity value under the key. */
  lemma InsertedRowReads(t: EntityType, obj: Obj, id: int)
    requires SingleKey(t) && DistinctNames(GetFields(t))
    ensures var nf := InsertFields(t);
      var cols := FieldNames(nf);
      var params := Positional(InsertParams([obj], nf));
      var fs := GetFields(t);
      var pk := GetPrimaryKeyField(t).value;
      && Bound(params, 0, |cols|)
      && var row := NewRow(pk.column.value.name, id, cols, params, 0);
         forall k :: 0 <= k < |fs| ==> (fs[k].column.value.name in row &&
           row[fs[k].column.value.name] == (if fs[k] == pk then Int(id) else FieldValue(obj, fs[k])))
  {
    var nf := InsertFields(t);
    var p0 := InsertParams([obj], nf);
    assert [obj][1..] == [];
    assert InsertParams([obj][1..], nf) == [];
    assert p0 == ValuesOf(obj, nf) + [];
    assert p0 == ValuesOf(obj, nf);
    var fs := GetFields(t);
    var pk := GetPrimaryKeyField(t).value;
    var key := pk.column.value.name;
    NonKeyFieldsDistinct(fs);
    NewRowReads(obj, nf, key, id);
    var row := NewRow(key, id, FieldNames(nf), Positional(p0), 0);
    var p :| 0 <= p < |fs| && fs[p] == pk;
    forall k | 0 <= k < |fs|
      ensures fs[k].column.value.name in row &&
        row[fs[k].column.value.name] == (if fs[k] == pk then Int(id) else FieldValue(obj, fs[k]))
    {
      if fs[k] != pk {
        assert fs[k] in fs;
        assert !fs[k].column.value.primaryKey;
        assert fs[k] in nf;
        assert k != p;
      }
    }
  }

  /** The row built from one object's values holds its value under every
      column of `nf` and the identity value under the key. */
  lemma NewRowReads(obj: Obj, nf: seq<Field>, key: string, id: int)
    requires AllAnnotated(nf) && DistinctNames(nf)
    ensures var cols := FieldNames(nf);
      var params := Positional(ValuesOf(obj, nf));
      && Bound(params, 0, |cols|)
      && var row := NewRow(key, id, cols, params, 0);
         && key in row && row[key] == Int(id)
         && forall f :: f in nf && f.column.value.name != key ==>
              f.column.value.name in row && row[f.column.value.name] == FieldValue(obj, f)
  {
    var cols := FieldNames(nf);
    var values := ValuesOf(obj, nf);
    var params := Positional(values);
    FieldNamesDistinct(nf);
    assert Bound(params, 0, |cols|);
    forall f | f in nf && f.column.value.name != key
      ensures f.column.value.name in NewRow(key, id, cols, params, 0)
      ensures NewRow(key, id, cols, params, 0)[f.column.value.name] == FieldValue(obj, f)
    {
      var m :| 0 <= m < |nf| && nf[m] == f;
      assert cols[m] == f.column.value.name;
      ColumnsRowAt(cols, params, m);
      assert params[m + 1] == values[m];
    }
  }

  /** Fields with distinct names give distinct column names. */
  lemma FieldNamesDistinct(fs: seq<Field>)
    requires AllAnnotated(fs) && DistinctNames(fs)
    ensures forall i, j :: 0 <= i < j < |fs| ==> FieldNames(fs)[i] != FieldNames(fs)[j]
  {
  }

  /** The row built from the columns holds parameter `m + 1` under column `m`. */
  lemma ColumnsRowAt(cols: seq<string>, params: map<int, Value>, m: nat)
    requires Bound(params, 0, |cols|) && m < |cols|
    requires forall i, j :: 0 <= i < j < |cols| ==> cols[i] != cols[j]
    ensures cols[m] in ColumnsRow(cols, params, 0) && ColumnsRow(cols, params, 0)[cols[m]] == params[m + 1]
  {
    ColumnsRowValues(cols, params, 0);
  }

  /** A single insert adds the row under the next identity value and keeps
      the store valid and the table ready. */
  lemma InsertedRow(t: EntityType, s: DbState, obj: Obj)
    requires StateValid(s) && TableReady(t, s) && |InsertFields(t)| > 0
    ensures var r := InsertListResult(t, s, [obj]);
      var nf := InsertFields(t);
      var cols := FieldNames(nf);
      var params := Positional(InsertParams([obj], nf));
      var old_ := TableOf(t, s);
      && r.0 == Pass
      && StateValid(r.1) && TableReady(t, r.1)
      && Bound(params, 0, |cols|)
      && TableOf(t, r.1).rows == old_.rows[old_.nextId := NewRow(old_.key, old_.nextId, cols, params, 0)]
  {
    InsertListAppends(t, s, [obj]);
    var nf := InsertFields(t);
    var cols := FieldNames(nf);
    var params := Positional(InsertParams([obj], nf));
    InsertParamsLength([obj], nf);
    var old_ := TableOf(t, s);
    assert GroupsBound(cols, 1, params);
    AppendRowsValid(old_, cols, 1, params);
    assert AppendRows(old_, cols, 0, params) == old_;
  }

  /** Round trip: the object a single insert stores is found again under
      the identity value the store handed out, with every non-key field as
      inserted and the key field holding that identity value. */
  lemma InsertThenFindById(t: EntityType, s: DbState, obj: Obj)
    requires StateValid(s) && TableReady(t, s) && SingleKey(t)
    requires DistinctNames(GetFields(t)) && t.hasNoArgConstructor && |InsertFields(t)| > 0
    ensures var id := TableOf(t, s).nextId;
      var r := InsertListResult(t, s, [obj]);
      var fs := GetFields(t);
      var pk := GetPrimaryKeyField(t).value;
      && r.0 == Pass
      && var found := FindByIdResult(t, r.1, Int(id));
         && found.Ok? && found.value.Some?
         && forall k :: 0 <= k < |fs| ==> (fs[k].javaName in found.value.value &&
              found.value.value[fs[k].javaName] == (if fs[k] == pk then Int(id) else FieldValue(obj, fs[k])))
  {
    var id := TableOf(t, s).nextId;
    var r := InsertListResult(t, s, [obj]);
    InsertedRow(t, s, obj);
    InsertedRowReads(t, obj, id);
    FindByIdFinds(t, r.1, Int(id));
    var nf := InsertFields(t);
    var row := NewRow(TableOf(t, s).key, id, FieldNames(nf), Positional(InsertParams([obj], nf)), 0);
    assert TableOf(t, r.1).rows[id] == row;
    FillFieldsReads(NewInstance(t), GetFields(t), row);
  }

  lemma UpdateUnfold(t: EntityType, s: DbState, obj: Obj)
    requires t.table.Some? && GetPrimaryKeyField(t).Ok? && s.connectable
    ensures var pk := GetPrimaryKeyField(t).value;
      var others := OtherFields(GetFields(t), pk);
      var names := FieldNames(others);
      var key := pk.column.value.name;
      UpdateResult(t, s, obj) ==
        Exec(s, UpdateSql(t.table.value.name, names, key),
             UpdateWhere(t.table.value.name, SetAssigns(names), key, |names| + 1),
             Positional(UpdateParams(obj, others, pk)))
  {
  }

  /** The key value is the last parameter of the UPDATE. */
  lemma UpdateKeyParam(obj: Obj, others: seq<Field>, pk: Field)
    ensures var params := Positional(UpdateParams(obj, others, pk));
      |others| + 1 in params && params[|others| + 1] == FieldValue(obj, pk)
  {
  }

  /** `update` changes no table but that of `t` and, in it, no row but the
      one stored under the object's key value; no table, row key or trigger
      appears or disappears. Without a table or a key it changes nothing. */
  lemma UpdateChangesOnlyTarget(t: EntityType, s: DbState, obj: Obj)
    ensures var s1 := UpdateResult(t, s, obj).1;
      && SameShape(s, s1)
      && (t.table.Some? && GetPrimaryKeyField(t).Ok? ==>
            ChangedAtMost(s, s1, TableKey(t.table.value.name), FieldValue(obj, GetPrimaryKeyField(t).value)))
      && (t.table.None? || GetPrimaryKeyField(t).Err? ==> s1 == s)
  {
    if t.table.Some? && GetPrimaryKeyField(t).Ok? && s.connectable {
      UpdateFrameConnected(t, s, obj);
    }
  }

  lemma UpdateFrameConnected(t: EntityType, s: DbState, obj: Obj)
    requires t.table.Some? && GetPrimaryKeyField(t).Ok? && s.connectable
    ensures var s1 := UpdateResult(t, s, obj).1;
      && SameShape(s, s1)
      && ChangedAtMost(s, s1, TableKey(t.table.value.name), FieldValue(obj, GetPrimaryKeyField(t).value))
  {
    UpdateUnfold(t, s, obj);
    var pk := GetPrimaryKeyField(t).value;
    var others := OtherFields(GetFields(t), pk);
    var names := FieldNames(others);
    var key := pk.column.value.name;
    var params := Positional(UpdateParams(obj, others, pk));
    UpdateKeyParam(obj, others, pk);
    UpdateWhereFrameAt(s, UpdateSql(t.table.value.name, names, key), t.table.value.name, SetAssigns(names),
                       key, |names| + 1, params, FieldValue(obj, pk), UpdateResult(t, s, obj).1);
  }

  /** When the object's key names a stored row, `update` either rewrites
      every non-key column of that row with the object's values or is
      rejected by an immutability guard, changing nothing. */
  lemma UpdateWritesFields(t: EntityType, s: DbState, obj: Obj, i: int)
    requires TableReady(t, s) && SingleKey(t) && DistinctNames(GetFields(t))
    requires |OtherFields(GetFields(t), GetPrimaryKeyField(t).value)| > 0
    requires FieldValue(obj, GetPrimaryKeyField(t).value) == Int(i) && i in TableOf(t, s).rows
    ensures var r := UpdateResult(t, s, obj);
      var others := OtherFields(GetFields(t), GetPrimaryKeyField(t).value);
      && (r.0 == Pass || r.0 == Fail(SqlError(GuardRejected)))
      && (r.0.Fail? ==> r.1.tables == s.tables)
      && (r.0 == Pass ==>
            && TableReady(t, r.1) && i in TableOf(t, r.1).rows
            && var row := TableOf(t, r.1).rows[i];
               forall k :: 0 <= k < |others| ==>
                 others[k].column.value.name in row && row[others[k].column.value.name] == FieldValue(obj, others[k]))
      && (OnlyGuarded(s.catalog, TableKey(t.table.value.name), GetPrimaryKeyField(t).value.column.value.name) ==>
            r.0 == Pass)
  {
    UpdateUnfold(t, s, obj);
    var pk := GetPrimaryKeyField(t).value;
    var others := OtherFields(GetFields(t), pk);
    UpdateAssignsReady(t, obj);
    UpdateWritesOthers(s, t.table.value.name, others, pk, obj, i);
    if OnlyGuarded(s.catalog, TableKey(t.table.value.name), pk.column.value.name) {
      UpdateOthersPasses(s, t.table.value.name, others, pk, obj, i);
    }
  }

  /** Leaving out a field that is not there changes nothing. */
  lemma {:induction false} OtherFieldsAbsent(fs: seq<Field>, pk: Field)
    requires pk !in fs
    ensures OtherFields(fs, pk) == fs
  {
    if fs != [] {
      assert fs[0] != pk;
      OtherFieldsAbsent(fs[1..], pk);
      assert fs == [fs[0]] + fs[1..];
    }
  }

  /** When the first field is the key and no later field equals it, UPDATE
      sets exactly the later fields. */
  lemma OtherFieldsOfFirst(fs: seq<Field>)
    requires |fs| > 0 && fs[0] !in fs[1..]
    ensures OtherFields(fs, fs[0]) == fs[1..]
  {
    OtherFieldsAbsent(fs[1..], fs[0]);
  }

  /** With only the key column guarded, `update` of a stored row followed by
      `findById` of its key gives back an object that agrees with the updated
      one on every annotated field. */
  lemma UpdateThenFindById(t: EntityType, s: DbState, obj: Obj, i: int)
    requires StateValid(s) && TableReady(t, s) && SingleKey(t) && DistinctNames(GetFields(t))
    requires t.hasNoArgConstructor && |OtherFields(GetFields(t), GetPrimaryKeyField(t).value)| > 0
    requires FieldValue(obj, GetPrimaryKeyField(t).value) == Int(i) && i in TableOf(t, s).rows
    requires OnlyGuarded(s.catalog, TableKey(t.table.value.name), GetPrimaryKeyField(t).value.column.value.name)
    ensures var r := UpdateResult(t, s, obj);
      var fs := GetFields(t);
      && r.0 == Pass
      && var found := FindByIdResult(t, r.1, Int(i));
         && found.Ok? && found.value.Some?
         && forall k :: 0 <= k < |fs| ==>
              fs[k].javaName in found.value.value && found.value.value[fs[k].javaName] == FieldValue(obj, fs[k])
  {
    var r := UpdateResult(t, s, obj);
    var fs := GetFields(t);
    var pk := GetPrimaryKeyField(t).value;
    var others := OtherFields(fs, pk);
    UpdateWritesFields(t, s, obj, i);
    UpdatedRowValid(t, s, obj);
    FindByIdFinds(t, r.1, Int(i));
    var row := TableOf(t, r.1).rows[i];
    assert pk.column.value.name in row && row[pk.column.value.name] == Int(i) by {
      assert TableValid(TableOf(t, r.1));
    }
    forall k | 0 <= k < |fs| ensures fs[k].column.value.name in row && row[fs[k].column.value.name] == FieldValue(obj, fs[k]) {
      if fs[k] != pk {
        assert fs[k] in others;
      }
    }
    FillFieldsReads(NewInstance(t), fs, row);
  }

  /** `update` keeps the store well formed. */
  lemma UpdatedRowValid(t: EntityType, s: DbState, obj: Obj)
    requires StateValid(s) && TableReady(t, s)
    ensures StateValid(UpdateResult(t, s, obj).1)
  {
    var pk := GetPrimaryKeyField(t).value;
    var names := FieldNames(OtherFields(GetFields(t), pk));
    UpdateUnfold(t, s, obj);
    ExecPreservesValid(s, UpdateSql(t.table.value.name, names, pk.column.value.name),
                       UpdateWhere(t.table.value.name, SetAssigns(names), pk.column.value.name, |names| + 1),
                       Positional(UpdateParams(obj, OtherFields(GetFields(t), pk), pk)));
  }

  /** With only the key column guarded, the UPDATE of a stored row passes. */
  lemma UpdateOthersPasses(s: DbState, table: string, others: seq<Field>, pk: Field, obj: Obj, i: int)
    requires AllAnnotated(others) && pk.column.Some?
    requires TableKey(table) in s.tables && s.tables[TableKey(table)].key == pk.column.value.name
    requires FieldValue(obj, pk) == Int(i) && i in s.tables[TableKey(table)].rows
    requires OnlyGuarded(s.catalog, TableKey(table), pk.column.value.name)
    requires var assigns := SetAssigns(FieldNames(others));
      var params := Positional(UpdateParams(obj, others, pk));
      && assigns != [] && AssignsBound(assigns, params) && AllSetTo(assigns)
      && !AssignsColumn(assigns, pk.column.value.name)
      && forall a, b :: 0 <= a < b < |assigns| ==> assigns[a].column != assigns[b].column
    ensures var names := FieldNames(others);
      var key := pk.column.value.name;
      Exec(s, UpdateSql(table, names, key), UpdateWhere(table, SetAssigns(names), key, |names| + 1),
           Positional(UpdateParams(obj, others, pk))).0 == Pass
  {
    var names := FieldNames(others);
    var key := pk.column.value.name;
    var params := Positional(UpdateParams(obj, others, pk));
    UpdateKeyParam(obj, others, pk);
    UpdateWherePasses(s, UpdateSql(table, names, key), table, SetAssigns(names), key, |names| + 1, params);
  }

  /** The UPDATE of `others` under key `pk`, on a row that exists. */
  lemma UpdateWritesOthers(s: DbState, table: string, others: seq<Field>, pk: Field, obj: Obj, i: int)
    requires AllAnnotated(others) && pk.column.Some?
    requires TableKey(table) in s.tables && s.tables[TableKey(table)].key == pk.column.value.name
    requires FieldValue(obj, pk) == Int(i) && i in s.tables[TableKey(table)].rows
    requires var assigns := SetAssigns(FieldNames(others));
      var params := Positional(UpdateParams(obj, others, pk));
      && assigns != [] && AssignsBound(assigns, params) && AllSetTo(assigns)
      && !AssignsColumn(assigns, pk.column.value.name)
      && forall a, b :: 0 <= a < b < |assigns| ==> assigns[a].column != assigns[b].column
    ensures var names := FieldNames(others);
      var key := pk.column.value.name;
      var r := Exec(s, UpdateSql(table, names, key), UpdateWhere(table, SetAssigns(names), key, |names| + 1),
                    Positional(UpdateParams(obj, others, pk)));
      && SameShape(s, r.1)
      && (r.0 == Pass || r.0 == Fail(SqlError(GuardRejected)))
      && (r.0.Fail? ==> r.1.tables == s.tables)
      && (r.0 == Pass ==>
            && TableKey(table) in r.1.tables && i in r.1.tables[TableKey(table)].rows
            && var row := r.1.tables[TableKey(table)].rows[i];
               forall k :: 0 <= k < |others| ==>
                 others[k].column.value.name in row && row[others[k].column.value.name] == FieldValue(obj, others[k]))
  {
    var names := FieldNames(others);
    var key := pk.column.value.name;
    var assigns := SetAssigns(names);
    var params := Positional(UpdateParams(obj, others, pk));
    UpdateKeyParam(obj, others, pk);
    UpdateWhereWrites(s, UpdateSql(table, names, key), table, assigns, key, |names| + 1, params);
    UpdateWhereFrame(s, UpdateSql(table, names, key), table, assigns, key, |names| + 1, params);
    UpdateSetsValues(obj, others, pk);
  }

  /** The `k`-th assignment of the SET list takes the `k`-th field's value. */
  lemma UpdateSetsValues(obj: Obj, others: seq<Field>, pk: Field)
    requires AllAnnotated(others)
    requires AssignsBound(SetAssigns(FieldNames(others)), Positional(UpdateParams(obj, others, pk)))
    ensures var assigns := SetAssigns(FieldNames(others));
      var params := Positional(UpdateParams(obj, others, pk));
      forall k :: 0 <= k < |others| ==> params[assigns[k].param] == FieldValue(obj, others[k])
  {
    var assigns := SetAssigns(FieldNames(others));
    var params := Positional(UpdateParams(obj, others, pk));
    forall k | 0 <= k < |others| ensures params[assigns[k].param] == FieldValue(obj, others[k]) {
      assert assigns[k].param == k + 1;
    }
  }

  /** The assignments of an UPDATE of a single-key type set distinct,
      non-key columns, each from a bound parameter. */
  lemma UpdateAssignsReady(t: EntityType, obj: Obj)
    requires t.table.Some? && GetPrimaryKeyField(t).Ok? && SingleKey(t) && DistinctNames(GetFields(t))
    requires |OtherFields(GetFields(t), GetPrimaryKeyField(t).value)| > 0
    ensures var pk := GetPrimaryKeyField(t).value;
      var others := OtherFields(GetFields(t), pk);
      var assigns := SetAssigns(FieldNames(others));
      var params := Positional(UpdateParams(obj, others, pk));
      && assigns != [] && AssignsBound(assigns, params) && AllSetTo(assigns)
      && !AssignsColumn(assigns, pk.column.value.name)
      && forall a, b :: 0 <= a < b < |assigns| ==> assigns[a].column != assigns[b].column
  {
    var pk := GetPrimaryKeyField(t).value;
    var fs := GetFields(t);
    var others := OtherFields(fs, pk);
    var names := FieldNames(others);
    var assigns := SetAssigns(names);
    var params := Positional(UpdateParams(obj, others, pk));
    assert AssignsBound(assigns, params);
    assert AllSetTo(assigns);
    var p :| 0 <= p < |fs| && fs[p] == pk;
    OtherFieldsSkipKey(fs, p);
    OtherFieldsAllDistinct(fs, pk);
    assert !AssignsColumn(assigns, pk.column.value.name) by {
      forall k | 0 <= k < |assigns| ensures assigns[k].column != pk.column.value.name {
        assert assigns[k].column == names[k] == others[k].column.value.name;
      }
    }
    forall a, b | 0 <= a < b < |assigns| ensures assigns[a].column != assigns[b].column {
      assert assigns[a].column == others[a].column.value.name;
      assert assigns[b].column == others[b].column.value.name;
    }
  }

  /** No field UPDATE sets shares its column name with the key field. */
  lemma OtherFieldsSkipKey(fs: seq<Field>, p: nat)
    requires AllAnnotated(fs) && DistinctNames(fs) && p < |fs|
    ensures forall k :: 0 <= k < |OtherFields(fs, fs[p])| ==>
      OtherFields(fs, fs[p])[k].column.value.name != fs[p].column.value.name
  {
    var others := OtherFields(fs, fs[p]);
    forall k | 0 <= k < |others| ensures others[k].column.value.name != fs[p].column.value.name {
      assert others[k] in others;
      var q :| 0 <= q < |fs| && fs[q] == others[k];
      assert q != p;
    }
  }

  /** The fields UPDATE sets keep the distinct names of the fields. */
  lemma OtherFieldsDistinct(fs: seq<Field>, pk: Field, a: nat, b: nat)
    requires AllAnnotated(fs) && DistinctNames(fs)
    requires a < b < |OtherFields(fs, pk)|
    ensures OtherFields(fs, pk)[a].column.value.name != OtherFields(fs, pk)[b].column.value.name
    ensures OtherFields(fs, pk)[a].javaName != OtherFields(fs, pk)[b].javaName
  {
    OtherFieldsAllDistinct(fs, pk);
  }

  lemma {:induction false} OtherFieldsAllDistinct(fs: seq<Field>, pk: Field)
    requires AllAnnotated(fs) && DistinctNames(fs)
    ensures DistinctNames(OtherFields(fs, pk))
  {
    if fs != [] {
      var rest := fs[1..];
      DistinctTail(fs);
      OtherFieldsAllDistinct(rest, pk);
      var tail := OtherFields(rest, pk);
      forall g | g in tail
        ensures g.javaName != fs[0].javaName && g.column.value.name != fs[0].column.value.name
      {
        var j :| 0 <= j < |rest| && rest[j] == g;
        assert fs[j + 1] == g;
      }
      if fs[0] != pk {
        DistinctCons(fs[0], tail);
      }
    }
  }

  lemma DeleteUnfold(t: EntityType, s: DbState, id: Value)
    requires t.table.Some? && GetPrimaryKeyField(t).Ok? && s.connectable
    ensures var key := GetPrimaryKeyField(t).value.column.value.name;
      DeleteResult(t, s, id) ==
        Exec(s, DeleteSql(t.table.value.name, key), DeleteWhere(t.table.value.name, key), map[1 := id])
  {
  }

  /** `delete` removes the row stored under the key value, if any, and
      changes nothing else. */
  lemma DeleteRemovesOnlyRow(t: EntityType, s: DbState, id: Value)
    requires TableReady(t, s)
    ensures var r := DeleteResult(t, s, id);
      var old_ := TableOf(t, s);
      && r.0 == Pass
      && r.1.tables == s.tables[TableKey(t.table.value.name) :=
           old_.(rows := if id.Int? then old_.rows - {id.i} else old_.rows)]
      && r.1.catalog == s.catalog && r.1.connectable == s.connectable
  {
    DeleteUnfold(t, s, id);
    var old_ := TableOf(t, s);
    if !id.Int? {
      assert s.tables[TableKey(t.table.value.name) := old_] == s.tables;
    }
  }

  /** After `delete(id)`, `findById(id)` finds nothing. */
  lemma DeleteThenFindNone(t: EntityType, s: DbState, id: Value)
    requires StateValid(s) && TableReady(t, s)
    ensures FindByIdResult(t, DeleteResult(t, s, id).1, id) == Ok(None)
  {
    DeleteRemovesOnlyRow(t, s, id);
    var s1 := DeleteResult(t, s, id).1;
    var old_ := TableOf(t, s);
    assert TableValid(old_.(rows := if id.Int? then old_.rows - {id.i} else old_.rows));
    assert StateValid(s1);
    FindByIdFinds(t, s1, id);
  }

  lemma CreateTableUnfold(t: EntityType, s: DbState)
    requires t.table.Some? && GetPrimaryKeyName(t).Ok? && s.connectable
    ensures var name := t.table.value.name;
      var pk := GetPrimaryKeyName(t).value;
      var created := Exec(s, CreateTableSql(name, Columns(t), pk), CreateTable(name, pk), map[]);
      && created.0 == Pass
      && created.1.tables == (if TableKey(name) in s.tables then s.tables else s.tables[TableKey(name) := Store.Table.Table(pk, map[], 1)])
      && created.1.catalog == s.catalog && created.1.connectable
      && CreateTableResult(t, s) == ImmutabilityTriggers(t, created.1)
  {
  }

  /** An entity whose only immutable column is its key leaves its table
      guarded on the key alone, if it was before: CREATE touches no trigger,
      and every guard installed is one of the key. */
  lemma CreateTableGuardsOnlyKey(t: EntityType, s: DbState)
    requires t.table.Some? && GetPrimaryKeyName(t).Ok?
    requires forall c :: c in Columns(t) && !c.updatable ==> c.name == GetPrimaryKeyName(t).value
    requires OnlyGuarded(s.catalog, TableKey(t.table.value.name), GetPrimaryKeyName(t).value)
    ensures OnlyGuarded(CreateTableResult(t, s).1.catalog, TableKey(t.table.value.name), GetPrimaryKeyName(t).value)
  {
    if s.connectable {
      CreateTableUnfold(t, s);
      var name := t.table.value.name;
      var pk := GetPrimaryKeyName(t).value;
      var created := Exec(s, CreateTableSql(name, Columns(t), pk), CreateTable(name, pk), map[]).1;
      ImmutabilityTriggersKeepOnly(t, created, pk);
    }
  }

  /** The same, for an entity whose only required guard is its key's. */
  lemma CreateTableSoleGuard(t: EntityType, s: DbState)
    requires t.table.Some? && GetPrimaryKeyName(t).Ok?
    requires RequiredGuards(t.table.value.name, Columns(t)) == [GuardFor(t.table.value.name, GetPrimaryKeyName(t).value)]
    requires OnlyGuarded(s.catalog, TableKey(t.table.value.name), GetPrimaryKeyName(t).value)
    ensures OnlyGuarded(CreateTableResult(t, s).1.catalog, TableKey(t.table.value.name), GetPrimaryKeyName(t).value)
  {
    SoleGuardOnlyKey(t.table.value.name, Columns(t), GetPrimaryKeyName(t).value);
    CreateTableGuardsOnlyKey(t, s);
  }

  /** A successful `createTableIfNotExists` leaves the table in the store
      and the trigger of every guard the type needs in the catalog; a table
      that did not exist is created empty, keyed by the key column, with its
      identity sequence at 1. */
  lemma CreateTableInstalls(t: EntityType, s: DbState)
    requires CreateTableResult(t, s).0.Pass?
    ensures var s1 := CreateTableResult(t, s).1;
      && t.table.Some? && GetPrimaryKeyField(t).Ok? && TableKey(t.table.value.name) in s1.tables
      && s1.catalog.triggers.Keys >= s.catalog.triggers.Keys
      && (forall g :: g in RequiredGuards(t.table.value.name, Columns(t)) ==> TriggerNameTaken(s1.catalog, g.trigger))
      && (TableKey(t.table.value.name) in s.tables ==> s1.tables == s.tables)
      && (TableKey(t.table.value.name) !in s.tables ==>
            && TableReady(t, s1) && TableOf(t, s1) == Store.Table.Table(GetPrimaryKeyName(t).value, map[], 1)
            && s1.tables == s.tables[TableKey(t.table.value.name) := TableOf(t, s1)])
  {
    PrimaryKeyAgree(t);
    CreateTableUnfold(t, s);
    var name := t.table.value.name;
    var pk := GetPrimaryKeyName(t).value;
    var created := Exec(s, CreateTableSql(name, Columns(t), pk), CreateTable(name, pk), map[]).1;
    var gs := RequiredGuards(name, Columns(t));
    assert CreateTableResult(t, s) == InstallGuards(created, name, gs);
    InstallGuardsGrow(created, name, gs);
    InstallGuardsCover(created, name, gs);
  }

  /** Running `createTableIfNotExists` again after it succeeded changes
      nothing but the log, which records one more CREATE TABLE: the table
      exists and every trigger is found, so none is created twice. */
  lemma CreateTableIdempotent(t: EntityType, s: DbState)
    requires CreateTableResult(t, s).0.Pass?
    ensures var s1 := CreateTableResult(t, s).1;
      CreateTableResult(t, s1) ==
        (Pass, s1.(log := s1.log + [Executed(CreateTableSql(t.table.value.name, Columns(t), GetPrimaryKeyName(t).value), map[])]))
  {
    CreateTableInstalls(t, s);
    var name := t.table.value.name;
    var pk := GetPrimaryKeyName(t).value;
    var s1 := CreateTableResult(t, s).1;
    var sent := s1.(log := s1.log + [Executed(CreateTableSql(name, Columns(t), pk), map[])]);
    CreateTableUnfold(t, s);
    var created := Exec(s, CreateTableSql(name, Columns(t), pk), CreateTable(name, pk), map[]).1;
    InstallGuardsGrow(created, name, RequiredGuards(name, Columns(t)));
    assert s1.connectable;
    CreateTableUnfold(t, s1);
    assert Exec(s1, CreateTableSql(name, Columns(t), pk), CreateTable(name, pk), map[]).1 == sent;
    InstallGuardsSkip(sent, name, RequiredGuards(name, Columns(t)));
  }

  /** The table name and every column name are free of the characters the
      statement texts use as delimiters. */
  predicate PlainNames(t: EntityType)
  {
    && t.table.Some? && Plain(t.table.value.name)
    && forall f :: f in GetFields(t) ==> Plain(f.column.value.name)
  }

  /** The INSERT text of a batch holds exactly as many placeholders as
      `prepareInsertQueryAndParams` collects parameters, so every parameter
      is bound and every placeholder has one. */
  lemma InsertBindsEveryPlaceholder(t: EntityType, objs: seq<Obj>)
    requires PlainNames(t)
    ensures Count(InsertSql(t.table.value.name, FieldNames(InsertFields(t)), |objs|), '?') ==
            |InsertParams(objs, InsertFields(t))|
  {
    var fs := InsertFields(t);
    var names := FieldNames(fs);
    forall k | 0 <= k < |names| ensures Plain(names[k]) {
      assert fs[k] in fs;
    }
    InsertShape(t.table.value.name, names, |objs|);
    InsertParamsLength(objs, fs);
  }

  /** The UPDATE text holds exactly as many placeholders as `update` binds
      parameters: one per non-key field and one for the key. */
  lemma UpdateBindsEveryPlaceholder(t: EntityType, obj: Obj)
    requires PlainNames(t) && GetPrimaryKeyField(t).Ok?
    ensures var pk := GetPrimaryKeyField(t).value;
      var others := OtherFields(GetFields(t), pk);
      Count(UpdateSql(t.table.value.name, FieldNames(others), pk.column.value.name), '?') ==
        |UpdateParams(obj, others, pk)|
  {
    var pk := GetPrimaryKeyField(t).value;
    var others := OtherFields(GetFields(t), pk);
    var names := FieldNames(others);
    forall k | 0 <= k < |names| ensures Plain(names[k]) {
      assert others[k] in others;
    }
    UpdateShape(t.table.value.name, names, pk.column.value.name);
  }
}
