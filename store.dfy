/** The relational store behind the data-access layer, modelled by the
    meaning of the statements the layer sends rather than by SQL text.

    A table is a map from identity value to row; rows are maps from column
    name to value. Table names are folded to lower case, as the engine does
    for unquoted identifiers. Every statement sent is recorded in the log
    together with the text the caller built and the parameters it bound
    (1-based); queries are not recorded. */
module Store {
  import opened Common

  type Row = map<string, Value>

  /** A column of a row; an absent column reads as NULL. */
  function Get(r: Row, col: string): Value
  {
    if col in r then r[col] else Null
  }

  /** The engine folds unquoted identifiers to lower case. */
  function TableKey(name: string): string
  {
    ToLower(name)
  }

  const MinInt32: int := -0x8000_0000
  const MaxInt32: int := 0x7fff_ffff

  /** A table: the name of its identity key column, its rows by key value,
      and the next value the identity sequence hands out. */
  datatype Table = Table(key: string, rows: map<int, Row>, nextId: int)

  /** Identity values start at 1 and are never reused, and every row holds
      its own key in the key column. */
  ghost predicate TableValid(t: Table)
  {
    && 1 <= t.nextId
    && forall k :: k in t.rows ==> 1 <= k < t.nextId && Get(t.rows[k], t.key) == Int(k)
  }

  /** The keys of a table in ascending order. */
  function Keys(t: Table): seq<int>
  {
    KeysBetween(t.rows, 1, t.nextId)
  }

  /** Trigger names are unique per table, not across tables. */
  datatype TriggerId = TriggerId(table: string, name: string)

  /** Installed guard functions (name to the column they protect) and
      row-update triggers (table and name to the function they run). */
  datatype Catalog = Catalog(functions: map<string, string>, triggers: map<TriggerId, string>)

  datatype Event = Executed(sql: string, params: map<int, Value>) | Committed

  /** Whether a connection can be acquired, the tables, the catalog and the
      statements sent so far. */
  datatype DbState = DbState(
    connectable: bool,
    tables: map<string, Table>,
    catalog: Catalog,
    log: seq<Event>)

  ghost predicate StateValid(s: DbState)
  {
    && (forall k :: k in s.tables ==> TableValid(s.tables[k]))
    && (forall id :: id in s.catalog.triggers ==> s.catalog.triggers[id] in s.catalog.functions)
  }

  /** One item of a SET list: `column = ?p` or `column = column - ?p`. */
  datatype Assign = SetTo(column: string, param: int) | Subtract(column: string, param: int)

  /** The statements that change the store. */
  datatype Statement =
    | CreateTable(table: string, key: string)                    // CREATE TABLE IF NOT EXISTS
    | CreateFunction(name: string, column: string)               // CREATE OR REPLACE FUNCTION (a guard)
    | CreateTrigger(name: string, table: string, fname: string) // BEFORE UPDATE ... FOR EACH ROW
    | InsertValues(table: string, columns: seq<string>, groups: nat) // groups of |columns| parameters
    | UpdateWhere(table: string, assigns: seq<Assign>, keyColumn: string, keyParam: int) // key = ?keyParam
    | DeleteWhere(table: string, keyColumn: string)              // key value is parameter 1

  /** The queries: they read and change nothing. */
  datatype Query =
    | SelectWhere(table: string, column: string)                 // column = parameter 1
    | SelectOrdered(table: string, column: string, descending: bool)
    | TriggerNamed(name: string)                                 // SELECT 1 FROM pg_trigger WHERE tgname = name
    | DetailedOrders(orders: string, clients: string, products: string)

  /** Some table has a trigger of this name: the catalog query looks at
      trigger names only, whatever table they are on. */
  predicate TriggerNameTaken(cat: Catalog, name: string)
  {
    exists id :: id in cat.triggers && id.name == name
  }

  /** `DbConnection.getConnection()`: when the driver refuses, the warning is
      logged and `null` comes back. Its first use throws a
      `NullPointerException`, which is not an `SQLException`: that failure is
      `NullConnection`, whatever the operation does next. */
  function Connect(s: DbState): Outcome
  {
    if s.connectable then Pass else Fail(NullConnection)
  }

  /** `IS DISTINCT FROM`: NULL is not distinct from NULL. */
  predicate IsDistinctFrom(a: Value, b: Value)
  {
    a != b
  }

  /** The body of a guard function on `column`: raise unless the new value is
      not distinct from the old one. */
  predicate GuardAllows(column: string, oldRow: Row, newRow: Row)
  {
    !IsDistinctFrom(Get(newRow, column), Get(oldRow, column))
  }

  /** Every trigger installed on the table lets the row update through. */
  predicate GuardsAllow(cat: Catalog, table: string, oldRow: Row, newRow: Row)
  {
    forall id :: id in cat.triggers && id.table == table && cat.triggers[id] in cat.functions ==>
      GuardAllows(cat.functions[cat.triggers[id]], oldRow, newRow)
  }

  /** The columns of one VALUES group, read from parameters
      `offset + 1 .. offset + |cols|`. */
  function ColumnsRow(cols: seq<string>, params: map<int, Value>, offset: int): Row
    requires Bound(params, offset, offset + |cols|)
  {
    if cols == [] then map[]
    else ColumnsRow(cols[..|cols| - 1], params, offset)[cols[|cols| - 1] := params[offset + |cols|]]
  }

  /** A new row: the group's columns plus the generated key. */
  function NewRow(key: string, id: int, cols: seq<string>, params: map<int, Value>, offset: int): Row
    requires Bound(params, offset, offset + |cols|)
  {
    ColumnsRow(cols, params, offset)[key := Int(id)]
  }

  /** Parameters `lo + 1 .. hi` are bound. */
  predicate Bound(params: map<int, Value>, lo: int, hi: int)
  {
    forall i :: lo < i <= hi ==> i in params
  }

  predicate GroupsBound(cols: seq<string>, groups: nat, params: map<int, Value>)
  {
    Bound(params, 0, groups * |cols|)
  }

  lemma GroupBound(cols: seq<string>, groups: nat, g: nat, params: map<int, Value>)
    requires GroupsBound(cols, groups, params) && g < groups
    ensures Bound(params, g * |cols|, g * |cols| + |cols|)
    ensures GroupsBound(cols, g, params)
  {
    MulMono(g + 1, groups, |cols|);
    MulMono(g, groups, |cols|);
  }

  /** Appends one row per VALUES group, each with the next identity value. */
  function AppendRows(t: Table, cols: seq<string>, groups: nat, params: map<int, Value>): (r: Table)
    requires GroupsBound(cols, groups, params)
    ensures r.key == t.key && r.nextId == t.nextId + groups
  {
    if groups == 0 then t
    else
      GroupBound(cols, groups, groups - 1, params);
      var t' := AppendRows(t, cols, groups - 1, params);
      t'.(rows := t'.rows[t'.nextId := NewRow(t.key, t'.nextId, cols, params, (groups - 1) * |cols|)],
          nextId := t'.nextId + 1)
  }

  /** `a - b` on an INTEGER column: NULL absorbs, the result must fit in 32 bits. */
  function Subtracted(a: Value, b: Value): Result<Value>
  {
    if a.Null? || b.Null? then Ok(Null)
    else if a.Int? && b.Int? then
      if MinInt32 <= a.i - b.i <= MaxInt32 then Ok(Int(a.i - b.i)) else Err(SqlError(OutOfRange))
    else Err(SqlError(WrongType))
  }

  predicate AssignsBound(assigns: seq<Assign>, params: map<int, Value>)
  {
    forall k :: 0 <= k < |assigns| ==> assigns[k].param in params
  }

  /** Applies a SET list to `row`; right-hand sides read the old row. */
  function ApplyAssigns(oldRow: Row, row: Row, assigns: seq<Assign>, params: map<int, Value>): Result<Row>
    requires AssignsBound(assigns, params)
    decreases |assigns|
  {
    if assigns == [] then Ok(row)
    else
      match assigns[0]
      case SetTo(c, p) => ApplyAssigns(oldRow, row[c := params[p]], assigns[1..], params)
      case Subtract(c, p) =>
        var d := Subtracted(Get(oldRow, c), params[p]);
        if d.Err? then Err(d.error) else ApplyAssigns(oldRow, row[c := d.value], assigns[1..], params)
  }

  predicate AssignsColumn(assigns: seq<Assign>, col: string)
  {
    exists k :: 0 <= k < |assigns| && assigns[k].column == col
  }

  /** The effect of sending `stmt` (with text `sql` and bound `params`) over
      an acquired connection: its outcome and the new state. */
  function Exec(s: DbState, sql: string, stmt: Statement, params: map<int, Value>): (Outcome, DbState)
  {
    var sent := s.(log := s.log + [Executed(sql, params)]);
    match stmt
    case CreateTable(name, key) =>
      var k := TableKey(name);
      if k in s.tables then (Pass, sent)
      else (Pass, sent.(tables := s.tables[k := Table(key, map[], 1)]))
    case CreateFunction(fn, col) =>
      (Pass, sent.(catalog := s.catalog.(functions := s.catalog.functions[fn := col])))
    case CreateTrigger(tn, table, fn) =>
      var k := TableKey(table);
      if k !in s.tables then (Fail(SqlError(UndefinedTable)), sent)
      else if fn !in s.catalog.functions then (Fail(SqlError(UndefinedFunction)), sent)
      else if TriggerId(k, tn) in s.catalog.triggers then (Fail(SqlError(DuplicateObject)), sent)
      else (Pass, sent.(catalog := s.catalog.(triggers := s.catalog.triggers[TriggerId(k, tn) := fn])))
    case InsertValues(table, cols, groups) =>
      var k := TableKey(table);
      if groups == 0 || cols == [] then (Fail(SqlError(SyntaxError)), sent)
      else if k !in s.tables then (Fail(SqlError(UndefinedTable)), sent)
      else if !GroupsBound(cols, groups, params) then (Fail(SqlError(UnboundParameter)), sent)
      else (Pass, sent.(tables := s.tables[k := AppendRows(s.tables[k], cols, groups, params)]))
    case UpdateWhere(table, assigns, keyColumn, keyParam) =>
      var k := TableKey(table);
      if assigns == [] then (Fail(SqlError(SyntaxError)), sent)
      else if k !in s.tables then (Fail(SqlError(UndefinedTable)), sent)
      else if !AssignsBound(assigns, params) || keyParam !in params then (Fail(SqlError(UnboundParameter)), sent)
      else
        var t := s.tables[k];
        if keyColumn != t.key then (Fail(SqlError(UndefinedColumn(keyColumn))), sent)
        else if AssignsColumn(assigns, t.key) then (Fail(SqlError(IdentityColumn)), sent)
        else
          var v := params[keyParam];
          if !(v.Int? && v.i in t.rows) then (Pass, sent)
          else
            var oldRow := t.rows[v.i];
            var res := ApplyAssigns(oldRow, oldRow, assigns, params);
            if res.Err? then (Fail(res.error), sent)
            else if !GuardsAllow(s.catalog, k, oldRow, res.value) then (Fail(SqlError(GuardRejected)), sent)
            else (Pass, sent.(tables := s.tables[k := t.(rows := t.rows[v.i := res.value])]))
    case DeleteWhere(table, keyColumn) =>
      var k := TableKey(table);
      if k !in s.tables then (Fail(SqlError(UndefinedTable)), sent)
      else if 1 !in params then (Fail(SqlError(UnboundParameter)), sent)
      else
        var t := s.tables[k];
        if keyColumn != t.key then (Fail(SqlError(UndefinedColumn(keyColumn))), sent)
        else
          var v := params[1];
          if v.Int? then (Pass, sent.(tables := s.tables[k := t.(rows := t.rows - {v.i})]))
          else (Pass, sent)
  }

  /** Creating a guard function or a trigger touches only the catalog, and
      only ever adds a trigger; creating a function never fails. */
  lemma CatalogExecKeeps(s: DbState, sql: string, stmt: Statement, params: map<int, Value>)
    requires stmt.CreateFunction? || stmt.CreateTrigger?
    ensures var s1 := Exec(s, sql, stmt, params).1;
      && s1.tables == s.tables && s1.connectable == s.connectable
      && s.catalog.triggers.Keys <= s1.catalog.triggers.Keys
    ensures stmt.CreateFunction? ==> Exec(s, sql, stmt, params).0 == Pass
  {
  }

  /** The rows at the given keys, keeping those whose `col` equals `v`
      (SQL `=`: NULL equals nothing). */
  function RowsWhere(t: Table, keys: seq<int>, col: string, v: Value): (r: seq<Row>)
    requires forall k :: 0 <= k < |keys| ==> keys[k] in t.rows
    ensures |r| <= |keys|
  {
    if keys == [] then []
    else
      var row := t.rows[keys[0]];
      (if v != Null && Get(row, col) == v then [row] else []) + RowsWhere(t, keys[1..], col, v)
  }

  function RowsAt(t: Table, keys: seq<int>): (r: seq<Row>)
    requires forall k :: 0 <= k < |keys| ==> keys[k] in t.rows
    ensures |r| == |keys| && forall j :: 0 <= j < |keys| ==> r[j] == t.rows[keys[j]]
  {
    if keys == [] then [] else [t.rows[keys[0]]] + RowsAt(t, keys[1..])
  }

  /** `CONCAT` reads NULL as the empty string. */
  function ConcatText(v: Value): string
  {
    match v
    case Text(s) => s
    case _ => ""
  }

  /** One row of the order-details join, under the query's aliases. */
  function DetailRow(o: Row, c: Row, p: Row): Row
  {
    map[
      "order_id" := Get(o, "id"),
      "client_name" := Text(ConcatText(Get(c, "first_name")) + " " + ConcatText(Get(c, "last_name"))),
      "product_name" := Get(p, "name"),
      "quantity" := Get(o, "quantity"),
      "total_price" := Get(o, "total_price"),
      "order_date" := Get(o, "order_date")]
  }

  /** Every pairing of order `o` with a matching client and a matching product. */
  function Pairings(o: Row, cs: seq<Row>, ps: seq<Row>): seq<Row>
  {
    if cs == [] then [] else ProductPairings(o, cs[0], ps) + Pairings(o, cs[1..], ps)
  }

  function ProductPairings(o: Row, c: Row, ps: seq<Row>): seq<Row>
  {
    if ps == [] then [] else [DetailRow(o, c, ps[0])] + ProductPairings(o, c, ps[1..])
  }

  /** `orders o JOIN clients c ON o.client_id = c.id JOIN products p ON
      o.product_id = p.id`, for the orders at `keys`. */
  function JoinedRows(orders: Table, clients: Table, products: Table, keys: seq<int>): seq<Row>
    requires forall k :: 0 <= k < |keys| ==> keys[k] in orders.rows
  {
    if keys == [] then []
    else
      var o := orders.rows[keys[0]];
      var cs := RowsWhere(clients, Keys(clients), "id", Get(o, "client_id"));
      var ps := RowsWhere(products, Keys(products), "id", Get(o, "product_id"));
      Pairings(o, cs, ps) + JoinedRows(orders, clients, products, keys[1..])
  }

  /** The rows a query returns. Without ORDER BY the engine promises no
      order; this model returns rows in ascending key order. */
  function Eval(s: DbState, q: Query, params: map<int, Value>): Result<seq<Row>>
  {
    match q
    case SelectWhere(table, col) =>
      var k := TableKey(table);
      if k !in s.tables then Err(SqlError(UndefinedTable))
      else if 1 !in params then Err(SqlError(UnboundParameter))
      else
        var t := s.tables[k];
        Ok(RowsWhere(t, Keys(t), col, params[1]))
    case SelectOrdered(table, col, descending) =>
      var k := TableKey(table);
      if k !in s.tables then Err(SqlError(UndefinedTable))
      else
        var t := s.tables[k];
        if col != t.key then Err(SqlError(UndefinedColumn(col)))
        else if descending then Ok(Reversed(RowsAt(t, Keys(t))))
        else Ok(RowsAt(t, Keys(t)))
    case TriggerNamed(name) =>
      Ok(if TriggerNameTaken(s.catalog, name) then [map[]] else [])
    case DetailedOrders(ot, ct, pt) =>
      var ok, ck, pk := TableKey(ot), TableKey(ct), TableKey(pt);
      if ok !in s.tables || ck !in s.tables || pk !in s.tables then Err(SqlError(UndefinedTable))
      else
        var orders := s.tables[ok];
        Ok(JoinedRows(orders, s.tables[ck], s.tables[pk], Keys(orders)))
  }

  lemma {:induction false} AppendRowsValid(t: Table, cols: seq<string>, groups: nat, params: map<int, Value>)
    requires TableValid(t) && GroupsBound(cols, groups, params)
    ensures TableValid(AppendRows(t, cols, groups, params))
  {
    if groups > 0 {
      GroupBound(cols, groups, groups - 1, params);
      AppendRowsValid(t, cols, groups - 1, params);
    }
  }

  lemma {:induction false} ApplyAssignsKeeps(oldRow: Row, row: Row, assigns: seq<Assign>, params: map<int, Value>, col: string)
    requires AssignsBound(assigns, params) && !AssignsColumn(assigns, col)
    requires ApplyAssigns(oldRow, row, assigns, params).Ok?
    ensures Get(ApplyAssigns(oldRow, row, assigns, params).value, col) == Get(row, col)
    ensures col in ApplyAssigns(oldRow, row, assigns, params).value <==> col in row
    decreases |assigns|
  {
    if assigns != [] {
      assert !AssignsColumn(assigns[1..], col) by {
        forall k | 0 <= k < |assigns[1..]| ensures assigns[1..][k].column != col {
          assert assigns[1..][k] == assigns[k + 1];
        }
      }
      assert assigns[0].column != col;
      match assigns[0]
      case SetTo(c, p) =>
        ApplyAssignsKeeps(oldRow, row[c := params[p]], assigns[1..], params, col);
      case Subtract(c, p) =>
        var v := Subtracted(Get(oldRow, c), params[p]).value;
        ApplyAssignsKeeps(oldRow, row[c := v], assigns[1..], params, col);
    }
  }

  /** Every statement keeps the store's invariant. */
  lemma ExecPreservesValid(s: DbState, sql: string, stmt: Statement, params: map<int, Value>)
    requires StateValid(s)
    ensures StateValid(Exec(s, sql, stmt, params).1)
  {
    var e := Exec(s, sql, stmt, params);
    match stmt
    case InsertValues(table, cols, groups) =>
      var k := TableKey(table);
      if k in s.tables && groups != 0 && cols != [] && GroupsBound(cols, groups, params) {
        AppendRowsValid(s.tables[k], cols, groups, params);
        TableSwapValid(s, e.1, k, AppendRows(s.tables[k], cols, groups, params));
      }
    case UpdateWhere(table, assigns, keyColumn, keyParam) =>
      var k := TableKey(table);
      if assigns != [] && k in s.tables && AssignsBound(assigns, params) && keyParam in params {
        var t := s.tables[k];
        var v := params[keyParam];
        if keyColumn == t.key && !AssignsColumn(assigns, t.key) && v.Int? && v.i in t.rows {
          var oldRow := t.rows[v.i];
          var res := ApplyAssigns(oldRow, oldRow, assigns, params);
          if res.Ok? && GuardsAllow(s.catalog, k, oldRow, res.value) {
            ApplyAssignsKeeps(oldRow, oldRow, assigns, params, t.key);
            RowSwapValid(t, v.i, res.value);
            TableSwapValid(s, e.1, k, t.(rows := t.rows[v.i := res.value]));
          }
        }
      }
    case _ =>
  }

  /** Replacing one table by a consistent one keeps the state consistent. */
  lemma TableSwapValid(s: DbState, s1: DbState, k: string, t: Table)
    requires StateValid(s) && TableValid(t)
    requires s1.tables == s.tables[k := t] && s1.catalog == s.catalog
    ensures StateValid(s1)
  {
  }

  /** Rewriting a stored row without changing its key keeps the table consistent. */
  lemma RowSwapValid(t: Table, i: int, row: Row)
    requires TableValid(t) && i in t.rows && Get(row, t.key) == Get(t.rows[i], t.key)
    ensures TableValid(t.(rows := t.rows[i := row]))
  {
  }

  /** Looking a table up by its key column finds exactly the row stored
      under that key value, and nothing for a value that is not a key. */
  lemma RowsWhereKey(t: Table, v: Value)
    requires TableValid(t)
    ensures RowsWhere(t, Keys(t), t.key, v) == (if v.Int? && v.i in t.rows then [t.rows[v.i]] else [])
  {
    var keys := Keys(t);
    RowsWhereKeys(t, keys, v);
    if v.Int? && v.i in t.rows {
      assert v.i in keys;
    }
  }

  lemma {:induction false} RowsWhereKeys(t: Table, keys: seq<int>, v: Value)
    requires forall k :: 0 <= k < |keys| ==> keys[k] in t.rows && Get(t.rows[keys[k]], t.key) == Int(keys[k])
    requires forall i, j :: 0 <= i < j < |keys| ==> keys[i] < keys[j]
    ensures RowsWhere(t, keys, t.key, v) == (if v.Int? && v.i in keys then [t.rows[v.i]] else [])
  {
    if keys != [] {
      var rest := keys[1..];
      RowsWhereKeys(t, rest, v);
      if v == Int(keys[0]) {
        assert v.i !in rest by {
          forall k | 0 <= k < |rest| ensures rest[k] != v.i {
            assert rest[k] == keys[k + 1];
          }
        }
      } else {
        assert v.Int? && v.i in keys ==> v.i in rest;
      }
    }
  }

  /** The row built from a VALUES group holds exactly the group's columns,
      each with its own parameter, when the column names are distinct. */
  lemma {:induction false} ColumnsRowValues(cols: seq<string>, params: map<int, Value>, offset: int)
    requires Bound(params, offset, offset + |cols|)
    requires forall i, j :: 0 <= i < j < |cols| ==> cols[i] != cols[j]
    ensures forall c :: c in ColumnsRow(cols, params, offset) <==> c in cols
    ensures forall k :: 0 <= k < |cols| ==> ColumnsRow(cols, params, offset)[cols[k]] == params[offset + k + 1]
  {
    if cols != [] {
      var init, last := cols[..|cols| - 1], cols[|cols| - 1];
      assert forall k :: 0 <= k < |init| ==> init[k] == cols[k];
      ColumnsRowValues(init, params, offset);
      var row0 := ColumnsRow(init, params, offset);
      var row := ColumnsRow(cols, params, offset);
      assert row == row0[last := params[offset + |cols|]];
      assert forall c :: c in cols <==> c in init || c == last;
      forall k | 0 <= k < |init|
        ensures row[cols[k]] == params[offset + k + 1]
      {
        assert cols[k] != last;
        assert row[cols[k]] == row0[init[k]];
      }
    }
  }

  predicate AllSetTo(assigns: seq<Assign>)
  {
    forall k :: 0 <= k < |assigns| ==> assigns[k].SetTo?
  }

  /** A SET list of plain assignments to distinct columns always applies:
      each column takes its parameter, every other column keeps its value. */
  lemma {:induction false} ApplySetTo(oldRow: Row, row: Row, assigns: seq<Assign>, params: map<int, Value>)
    requires AssignsBound(assigns, params) && AllSetTo(assigns)
    requires forall i, j :: 0 <= i < j < |assigns| ==> assigns[i].column != assigns[j].column
    ensures ApplyAssigns(oldRow, row, assigns, params).Ok?
    ensures forall k :: 0 <= k < |assigns| ==>
      assigns[k].column in ApplyAssigns(oldRow, row, assigns, params).value &&
      ApplyAssigns(oldRow, row, assigns, params).value[assigns[k].column] == params[assigns[k].param]
    decreases |assigns|
  {
    if assigns != [] {
      var a := assigns[0];
      var row' := row[a.column := params[a.param]];
      var rest := assigns[1..];
      ApplySetTo(oldRow, row', rest, params);
      assert !AssignsColumn(rest, a.column) by {
        forall k | 0 <= k < |rest| ensures rest[k].column != a.column {
          assert rest[k] == assigns[k + 1];
        }
      }
      ApplyAssignsKeeps(oldRow, row', rest, params, a.column);
      forall k | 1 <= k < |assigns|
        ensures assigns[k].column in ApplyAssigns(oldRow, row, assigns, params).value
        ensures ApplyAssigns(oldRow, row, assigns, params).value[assigns[k].column] == params[assigns[k].param]
      {
        assert assigns[k] == rest[k - 1];
      }
    }
  }

  /** `s1` has the tables, keys, identity sequences, row keys, catalog and
      connectivity of `s`: at most the contents of existing rows differ. */
  predicate SameShape(s: DbState, s1: DbState)
  {
    && s1.tables.Keys == s.tables.Keys && s1.catalog == s.catalog && s1.connectable == s.connectable
    && forall k :: k in s.tables ==>
         && s1.tables[k].key == s.tables[k].key && s1.tables[k].nextId == s.tables[k].nextId
         && s1.tables[k].rows.Keys == s.tables[k].rows.Keys
  }

  /** Every row whose contents differ between `s` and `s1` is row `v.i` of
      table `key`. */
  predicate ChangedAtMost(s: DbState, s1: DbState, key: string, v: Value)
    requires SameShape(s, s1)
  {
    forall k, i :: k in s.tables && i in s.tables[k].rows && s1.tables[k].rows[i] != s.tables[k].rows[i] ==>
      k == key && v == Int(i)
  }

  /** An UPDATE changes at most the row of its table whose key is the value
      of its key parameter. */
  lemma UpdateWhereFrame(s: DbState, sql: string, table: string, assigns: seq<Assign>,
                         keyColumn: string, keyParam: int, params: map<int, Value>)
    ensures var s1 := Exec(s, sql, UpdateWhere(table, assigns, keyColumn, keyParam), params).1;
      && SameShape(s, s1)
      && (keyParam in params ==> ChangedAtMost(s, s1, TableKey(table), params[keyParam]))
      && (keyParam !in params ==> s1.tables == s.tables)
  {
    var sent := s.(log := s.log + [Executed(sql, params)]);
    var k := TableKey(table);
    if && assigns != [] && k in s.tables && AssignsBound(assigns, params) && keyParam in params
       && params[keyParam].Int? && params[keyParam].i in s.tables[k].rows
    {
      var t, i := s.tables[k], params[keyParam].i;
      var res := ApplyAssigns(t.rows[i], t.rows[i], assigns, params);
      if res.Ok? {
        RowSwapFrame(s, sent, k, i, res.value);
      }
    }
  }

  /** Replacing one stored row keeps the shape and changes only that row. */
  lemma RowSwapFrame(s: DbState, sent: DbState, k: string, i: int, row: Row)
    requires sent.tables == s.tables && sent.catalog == s.catalog && sent.connectable == s.connectable
    requires k in s.tables && i in s.tables[k].rows
    ensures var s1 := sent.(tables := s.tables[k := s.tables[k].(rows := s.tables[k].rows[i := row])]);
      SameShape(s, s1) && ChangedAtMost(s, s1, k, Int(i))
  {
  }

  /** The frame of an UPDATE whose key parameter is bound to `v`. */
  lemma UpdateWhereFrameAt(s: DbState, sql: string, table: string, assigns: seq<Assign>,
                           keyColumn: string, keyParam: int, params: map<int, Value>, v: Value, s1: DbState)
    requires keyParam in params && params[keyParam] == v
    requires s1 == Exec(s, sql, UpdateWhere(table, assigns, keyColumn, keyParam), params).1
    ensures SameShape(s, s1) && ChangedAtMost(s, s1, TableKey(table), v)
  {
    UpdateWhereFrame(s, sql, table, assigns, keyColumn, keyParam, params);
  }

  /** An UPDATE whose SET list evaluates on the target row and passes every
      guard stores the new row and changes nothing else. */
  lemma UpdateWhereStores(s: DbState, sql: string, table: string, assigns: seq<Assign>,
                          keyParam: int, params: map<int, Value>)
    requires TableKey(table) in s.tables && assigns != [] && AssignsBound(assigns, params)
    requires !AssignsColumn(assigns, s.tables[TableKey(table)].key)
    requires keyParam in params && params[keyParam].Int? && params[keyParam].i in s.tables[TableKey(table)].rows
    requires var row := s.tables[TableKey(table)].rows[params[keyParam].i];
      var res := ApplyAssigns(row, row, assigns, params);
      res.Ok? && GuardsAllow(s.catalog, TableKey(table), row, res.value)
    ensures var t := s.tables[TableKey(table)];
      var i := params[keyParam].i;
      var row := ApplyAssigns(t.rows[i], t.rows[i], assigns, params).value;
      Exec(s, sql, UpdateWhere(table, assigns, t.key, keyParam), params) ==
        (Pass, s.(log := s.log + [Executed(sql, params)], tables := s.tables[TableKey(table) := t.(rows := t.rows[i := row])]))
  {
  }

  /** An UPDATE whose SET list cannot be evaluated on the target row fails
      with that error and changes nothing but the log. */
  lemma UpdateWhereFails(s: DbState, sql: string, table: string, assigns: seq<Assign>,
                         keyParam: int, params: map<int, Value>)
    requires TableKey(table) in s.tables && assigns != [] && AssignsBound(assigns, params)
    requires !AssignsColumn(assigns, s.tables[TableKey(table)].key)
    requires keyParam in params && params[keyParam].Int? && params[keyParam].i in s.tables[TableKey(table)].rows
    requires var row := s.tables[TableKey(table)].rows[params[keyParam].i];
      ApplyAssigns(row, row, assigns, params).Err?
    ensures var row := s.tables[TableKey(table)].rows[params[keyParam].i];
      Exec(s, sql, UpdateWhere(table, assigns, s.tables[TableKey(table)].key, keyParam), params) ==
        (Fail(ApplyAssigns(row, row, assigns, params).error), s.(log := s.log + [Executed(sql, params)]))
  {
  }

  /** An UPDATE of an existing row that only sets columns from parameters
      either stores every assigned value or is rejected by a guard and
      changes no table. */
  lemma UpdateWhereWrites(s: DbState, sql: string, table: string, assigns: seq<Assign>,
                          keyColumn: string, keyParam: int, params: map<int, Value>)
    requires TableKey(table) in s.tables && s.tables[TableKey(table)].key == keyColumn
    requires assigns != [] && AssignsBound(assigns, params) && AllSetTo(assigns)
    requires !AssignsColumn(assigns, keyColumn)
    requires forall a, b :: 0 <= a < b < |assigns| ==> assigns[a].column != assigns[b].column
    requires keyParam in params && params[keyParam].Int?
    requires params[keyParam].i in s.tables[TableKey(table)].rows
    ensures var r := Exec(s, sql, UpdateWhere(table, assigns, keyColumn, keyParam), params);
      && (r.0 == Pass || r.0 == Fail(SqlError(GuardRejected)))
      && (r.0.Fail? ==> r.1.tables == s.tables)
      && (r.0 == Pass ==> var row := r.1.tables[TableKey(table)].rows[params[keyParam].i];
            forall k :: 0 <= k < |assigns| ==>
              assigns[k].column in row && row[assigns[k].column] == params[assigns[k].param])
  {
    var t := s.tables[TableKey(table)];
    var oldRow := t.rows[params[keyParam].i];
    ApplySetTo(oldRow, oldRow, assigns, params);
  }
  /** When only the key column is guarded, an UPDATE of an existing row that
      only sets other columns from parameters passes the guards. */
  lemma UpdateWherePasses(s: DbState, sql: string, table: string, assigns: seq<Assign>,
                          keyColumn: string, keyParam: int, params: map<int, Value>)
    requires TableKey(table) in s.tables && s.tables[TableKey(table)].key == keyColumn
    requires assigns != [] && AssignsBound(assigns, params) && AllSetTo(assigns)
    requires !AssignsColumn(assigns, keyColumn)
    requires forall a, b :: 0 <= a < b < |assigns| ==> assigns[a].column != assigns[b].column
    requires keyParam in params && params[keyParam].Int?
    requires params[keyParam].i in s.tables[TableKey(table)].rows
    requires OnlyGuarded(s.catalog, TableKey(table), keyColumn)
    ensures Exec(s, sql, UpdateWhere(table, assigns, keyColumn, keyParam), params).0 == Pass
  {
    var t := s.tables[TableKey(table)];
    var oldRow := t.rows[params[keyParam].i];
    ApplySetTo(oldRow, oldRow, assigns, params);
    ApplyAssignsKeeps(oldRow, oldRow, assigns, params, keyColumn);
    OnlyGuardedAllows(s.catalog, TableKey(table), keyColumn, oldRow, ApplyAssigns(oldRow, oldRow, assigns, params).value);
  }


  // ---------------------------------------------------------------------
  // Reading a result row: `getInt`, `getDouble`, `getString`, `getTimestamp`

  /** `getInt`: SQL NULL reads as 0; a column missing from the row, or a
      value of another type, is an error. */
  function GetInt(r: Row, col: string): Result<int>
  {
    if col !in r then Err(SqlError(UndefinedColumn(col)))
    else match r[col]
      case Null => Ok(0)
      case Int(i) => Ok(i)
      case _ => Err(SqlError(WrongType))
  }

  /** `getDouble`: SQL NULL reads as 0.0, whose bit pattern is 0. */
  function GetDouble(r: Row, col: string): Result<Value>
  {
    if col !in r then Err(SqlError(UndefinedColumn(col)))
    else match r[col]
      case Null => Ok(Double(0))
      case Double(_) => Ok(r[col])
      case _ => Err(SqlError(WrongType))
  }

  /** `getString`: SQL NULL reads as a null reference. */
  function GetString(r: Row, col: string): Result<Value>
  {
    if col !in r then Err(SqlError(UndefinedColumn(col)))
    else if r[col].Null? || r[col].Text? then Ok(r[col])
    else Err(SqlError(WrongType))
  }

  /** `getTimestamp`: SQL NULL reads as a null reference. */
  function GetTimestamp(r: Row, col: string): Result<Value>
  {
    if col !in r then Err(SqlError(UndefinedColumn(col)))
    else if r[col].Null? || r[col].Timestamp? then Ok(r[col])
    else Err(SqlError(WrongType))
  }

  /** The condition `col = v` of a WHERE clause holds on `row`. */
  predicate Matches(row: Row, col: string, v: Value)
  {
    v != Null && Get(row, col) == v
  }

  /** A filtered query is empty exactly when no row at the keys matches, and
      otherwise begins with the row of the first key that matches. */
  lemma {:induction false} RowsWhereFirst(t: Table, keys: seq<int>, col: string, v: Value)
    requires forall k :: 0 <= k < |keys| ==> keys[k] in t.rows
    ensures RowsWhere(t, keys, col, v) == [] <==> forall j :: 0 <= j < |keys| ==> !Matches(t.rows[keys[j]], col, v)
    ensures RowsWhere(t, keys, col, v) != [] ==>
      exists j :: 0 <= j < |keys| && Matches(t.rows[keys[j]], col, v) && RowsWhere(t, keys, col, v)[0] == t.rows[keys[j]] &&
        forall i :: 0 <= i < j ==> !Matches(t.rows[keys[i]], col, v)
  {
    if keys != [] {
      var rest := keys[1..];
      RowsWhereFirst(t, rest, col, v);
      if !Matches(t.rows[keys[0]], col, v) {
        assert RowsWhere(t, keys, col, v) == RowsWhere(t, rest, col, v);
        forall j | 0 <= j < |rest| ensures rest[j] == keys[j + 1] {
        }
        if RowsWhere(t, rest, col, v) != [] {
          var j :| 0 <= j < |rest| && Matches(t.rows[rest[j]], col, v) &&
            RowsWhere(t, rest, col, v)[0] == t.rows[rest[j]] &&
            forall i :: 0 <= i < j ==> !Matches(t.rows[rest[i]], col, v);
          assert forall i :: 0 <= i < j + 1 ==> !Matches(t.rows[keys[i]], col, v) by {
            forall i | 0 <= i < j + 1 ensures !Matches(t.rows[keys[i]], col, v) {
              if i > 0 {
                assert keys[i] == rest[i - 1];
              }
            }
          }
          assert Matches(t.rows[keys[j + 1]], col, v);
        } else {
          forall j | 0 <= j < |keys| ensures !Matches(t.rows[keys[j]], col, v) {
            if j > 0 {
              assert keys[j] == rest[j - 1];
            }
          }
        }
      }
    }
  }

  /** The keys `Keys` lists are those of the rows, in ascending order. */
  lemma KeysListed(t: Table)
    requires TableValid(t)
    ensures forall k :: k in t.rows ==> exists j :: 0 <= j < |Keys(t)| && Keys(t)[j] == k
    ensures forall j :: 0 <= j < |Keys(t)| ==> Keys(t)[j] in t.rows
    ensures forall i, j :: 0 <= i < j < |Keys(t)| ==> Keys(t)[i] < Keys(t)[j]
  {
    var keys := Keys(t);
    forall k | k in t.rows ensures exists j :: 0 <= j < |keys| && keys[j] == k {
      assert k in keys;
    }
  }

  /** A filtered query of a table is empty exactly when no row matches. */
  lemma NoMatchIsEmpty(t: Table, col: string, v: Value)
    requires TableValid(t)
    ensures var keys := Keys(t);
      RowsWhere(t, keys, col, v) == [] <==> forall k :: k in t.rows ==> !Matches(t.rows[k], col, v)
  {
    var keys := Keys(t);
    KeysListed(t);
    RowsWhereFirst(t, keys, col, v);
    if RowsWhere(t, keys, col, v) == [] {
      forall k | k in t.rows ensures !Matches(t.rows[k], col, v) {
        var j :| 0 <= j < |keys| && keys[j] == k;
      }
    }
  }

  /** With the keys in ascending order, the first row of a filtered query is
      the row of the least matching key. */
  lemma FirstMatchIsLeast(t: Table, col: string, v: Value)
    requires TableValid(t) && RowsWhere(t, Keys(t), col, v) != []
    ensures exists k :: && k in t.rows && Matches(t.rows[k], col, v) && RowsWhere(t, Keys(t), col, v)[0] == t.rows[k]
                        && forall k' :: k' in t.rows && k' < k ==> !Matches(t.rows[k'], col, v)
  {
    var keys := Keys(t);
    RowsWhereFirst(t, keys, col, v);
    var j :| 0 <= j < |keys| && Matches(t.rows[keys[j]], col, v) && RowsWhere(t, keys, col, v)[0] == t.rows[keys[j]] &&
      forall i :: 0 <= i < j ==> !Matches(t.rows[keys[i]], col, v);
    EarlierRowsMiss(t, j, col, v);
    assert keys[j] in t.rows;
  }

  lemma EarlierRowsMiss(t: Table, j: nat, col: string, v: Value)
    requires TableValid(t) && j < |Keys(t)|
    requires forall i :: 0 <= i < j ==> !Matches(t.rows[Keys(t)[i]], col, v)
    ensures forall k' :: k' in t.rows && k' < Keys(t)[j] ==> !Matches(t.rows[k'], col, v)
  {
    KeysListed(t);
    EarlierKeysMiss(Keys(t), t.rows, j, col, v);
  }

  /** In an ascending key list covering the rows, the keys before position
      `j` are all the row keys below `keys[j]`. */
  lemma EarlierKeysMiss(keys: seq<int>, rows: map<int, Row>, j: nat, col: string, v: Value)
    requires j < |keys|
    requires forall k :: k in rows ==> exists j :: 0 <= j < |keys| && keys[j] == k
    requires forall j :: 0 <= j < |keys| ==> keys[j] in rows
    requires forall i, j :: 0 <= i < j < |keys| ==> keys[i] < keys[j]
    requires forall i :: 0 <= i < j ==> !Matches(rows[keys[i]], col, v)
    ensures forall k' :: k' in rows && k' < keys[j] ==> !Matches(rows[k'], col, v)
  {
    forall k' | k' in rows && k' < keys[j] ensures !Matches(rows[k'], col, v) {
      var i :| 0 <= i < |keys| && keys[i] == k';
      assert i < j;
    }
  }

  /** No trigger installed on `table` runs a guard of column `col`. */
  predicate Unguarded(cat: Catalog, table: string, col: string)
  {
    forall id :: id in cat.triggers && id.table == table && cat.triggers[id] in cat.functions ==>
      cat.functions[cat.triggers[id]] != col
  }

  /** Changing only an unguarded column passes every guard of the table. */
  lemma GuardsAllowElsewhere(cat: Catalog, table: string, row: Row, col: string, v: Value)
    requires Unguarded(cat, table, col)
    ensures GuardsAllow(cat, table, row, row[col := v])
  {
  }

  /** The guards of a table let an update through exactly when it keeps the
      value of every guarded column: rewriting the same values always passes. */
  lemma GuardsAllowIff(cat: Catalog, table: string, oldRow: Row, newRow: Row)
    ensures GuardsAllow(cat, table, oldRow, newRow) <==>
      forall id :: id in cat.triggers && id.table == table && cat.triggers[id] in cat.functions ==>
        Get(newRow, cat.functions[cat.triggers[id]]) == Get(oldRow, cat.functions[cat.triggers[id]])
  {
  }

  /** Every trigger installed on `table` that runs a guard runs one of column
      `col`. */
  predicate OnlyGuarded(cat: Catalog, table: string, col: string)
  {
    forall id :: id in cat.triggers && id.table == table && cat.triggers[id] in cat.functions ==>
      cat.functions[cat.triggers[id]] == col
  }

  /** When only `col` is guarded, an update that keeps `col` passes. */
  lemma OnlyGuardedAllows(cat: Catalog, table: string, col: string, oldRow: Row, newRow: Row)
    requires OnlyGuarded(cat, table, col) && Get(newRow, col) == Get(oldRow, col)
    ensures GuardsAllow(cat, table, oldRow, newRow)
  {
    GuardsAllowIff(cat, table, oldRow, newRow);
  }

  /** Creating a guard function of `col` keeps a table guarded on `col` only. */
  lemma CreateFunctionKeepsOnly(s: DbState, sql: string, fn: string, col: string, params: map<int, Value>, k: string)
    requires OnlyGuarded(s.catalog, k, col)
    ensures var s1 := Exec(s, sql, CreateFunction(fn, col), params).1;
      OnlyGuarded(s1.catalog, k, col) && fn in s1.catalog.functions && s1.catalog.functions[fn] == col
  {
  }

  /** Creating a trigger that runs a guard of `col`, or no known function,
      keeps a table guarded on `col` only. */
  lemma CreateTriggerKeepsOnly(s: DbState, sql: string, tn: string, table: string, fn: string,
                               params: map<int, Value>, k: string, col: string)
    requires OnlyGuarded(s.catalog, k, col)
    requires fn in s.catalog.functions ==> s.catalog.functions[fn] == col
    ensures OnlyGuarded(Exec(s, sql, CreateTrigger(tn, table, fn), params).1.catalog, k, col)
  {
  }

  /** The store: a mutable holder of the state above, whose operations are
      exactly the functions above. */
  class Database {
    var connectable: bool
    var tables: map<string, Table>
    var catalog: Catalog
    var log: seq<Event>

    function State(): DbState
      reads this
    {
      DbState(connectable, tables, catalog, log)
    }

    ghost predicate Valid()
      reads this
    {
      StateValid(State())
    }

    /** An empty store; `connectable` says whether connections can be acquired. */
    constructor (connectable: bool)
      ensures Valid()
      ensures State() == DbState(connectable, map[], Catalog(map[], map[]), [])
    {
      this.connectable := connectable;
      tables := map[];
      catalog := Catalog(map[], map[]);
      log := [];
    }

    /** Acquires a connection (released when the operation ends); `null`,
        and so `NullConnection` at its first use, when none can be had. */
    method GetConnection() returns (r: Outcome)
      ensures r == Connect(State())
    {
      r := if connectable then Pass else Fail(NullConnection);
    }

    /** Sends a statement; the engine applies it and records it. */
    method Execute(sql: string, stmt: Statement, params: map<int, Value>) returns (r: Outcome)
      requires Valid()
      modifies this
      ensures Valid()
      ensures (r, State()) == Exec(old(State()), sql, stmt, params)
    {
      ExecPreservesValid(State(), sql, stmt, params);
      var res := Exec(State(), sql, stmt, params);
      r := res.0;
      connectable, tables, catalog, log := res.1.connectable, res.1.tables, res.1.catalog, res.1.log;
    }

    /** Runs a query; its text `sql` is not recorded, and what it returns is
        determined by the query it denotes. */
    method Query(sql: string, q: Query, params: map<int, Value>) returns (r: Result<seq<Row>>)
      ensures r == Eval(State(), q, params)
    {
      r := Eval(State(), q, params);
    }

    /** Commits the current transaction. */
    method Commit()
      requires Valid()
      modifies this
      ensures Valid()
      ensures State() == old(State()).(log := old(log) + [Committed])
    {
      log := log + [Committed];
    }
  }
}
