/** The bill data-access object: bills are never updated, and a bill is
    looked up by the order it belongs to. */
module BillDao {
  import opened Common
  import opened Store
  import opened Model

  const BillByOrderSql: string := "SELECT * FROM Log WHERE orderId = ?"

  /** `update(bill)` always throws `UnsupportedOperationException`, and
      sends nothing: a `Database` it is given is not touched. */
  method Update(db: Database, bill: Bill) returns (r: Outcome)
    ensures r == Fail(UnsupportedOperation)
  {
    r := Fail(UnsupportedOperation);
  }

  /** The bill built from one result row: `getInt("id")`,
      `getDouble("amount")`, `getTimestamp("timestamp")` in that order, and
      the order id the caller asked for. */
  function ReadBill(row: Row, orderId: int): Result<Bill>
  {
    var id := GetInt(row, "id");
    if id.Err? then Err(id.error)
    else
      var amount := GetDouble(row, "amount");
      if amount.Err? then Err(amount.error)
      else
        var ts := GetTimestamp(row, "timestamp");
        if ts.Err? then Err(ts.error)
        else Ok(Bill(Some(id.value), orderId, amount.value, ts.value))
  }

  /** `getBillByOrderId(orderId)`: the bill of the first row whose `orderId`
      matches, `None` (Java's `null`) when there is none; an `SQLException` is
      rethrown wrapped in a `RuntimeException`, while the
      `NullPointerException` of a missing connection escapes as it is. */
  function GetBillByOrderIdResult(s: DbState, orderId: int): (r: Result<Option<Bill>>)
    ensures !s.connectable <==> r == Err(NullConnection)
    ensures r.Err? && s.connectable ==> r.error.Wrapped?
    ensures r.Ok? && r.value.Some? ==> r.value.value.orderId == orderId && r.value.value.id.Some?
  {
    if Connect(s).Fail? then Err(Connect(s).error)
    else
      var rows := Eval(s, SelectWhere("Log", "orderId"), map[1 := Int(orderId)]);
      if rows.Err? then Err(Wrapped(rows.error))
      else if rows.value == [] then Ok(None)
      else
        var b := ReadBill(rows.value[0], orderId);
        if b.Err? then Err(Wrapped(b.error)) else Ok(Some(b.value))
  }

  method GetBillByOrderId(db: Database, orderId: int) returns (r: Result<Option<Bill>>)
    ensures r == GetBillByOrderIdResult(db.State(), orderId)
  {
    var conn := db.GetConnection();
    if conn.Fail? {
      return Err(conn.error);
    }
    var rs := db.Query(BillByOrderSql, SelectWhere("Log", "orderId"), map[1 := Int(orderId)]);
    if rs.Err? {
      return Err(Wrapped(rs.error));
    }
    if |rs.value| == 0 {
      return Ok(None);
    }
    var row := rs.value[0];
    var id := GetInt(row, "id");
    if id.Err? {
      return Err(Wrapped(id.error));
    }
    var amount := GetDouble(row, "amount");
    if amount.Err? {
      return Err(Wrapped(amount.error));
    }
    var timestamp := GetTimestamp(row, "timestamp");
    if timestamp.Err? {
      return Err(Wrapped(timestamp.error));
    }
    r := Ok(Some(Bill(Some(id.value), orderId, amount.value, timestamp.value)));
  }

  // ---------------------------------------------------------------------
  // Properties

  /** The bills table, created as "Log" and queried as "Log", exists, is
      consistent and is keyed by `id`. */
  ghost predicate LogReady(s: DbState)
  {
    && s.connectable
    && TableKey("Log") in s.tables
    && TableValid(s.tables[TableKey("Log")])
    && s.tables[TableKey("Log")].key == "id"
  }

  lemma BillQueryUnfold(s: DbState, orderId: int)
    requires LogReady(s)
    ensures var t := s.tables[TableKey("Log")];
      var rows := RowsWhere(t, Keys(t), "orderId", Int(orderId));
      GetBillByOrderIdResult(s, orderId) ==
        if rows == [] then Ok(None)
        else if ReadBill(rows[0], orderId).Err? then Err(Wrapped(ReadBill(rows[0], orderId).error))
        else Ok(Some(ReadBill(rows[0], orderId).value))
  {
  }

  /** No bill is found exactly when no stored bill belongs to the order. */
  lemma NoBillIffNoMatch(s: DbState, orderId: int)
    requires LogReady(s)
    ensures var t := s.tables[TableKey("Log")];
      GetBillByOrderIdResult(s, orderId) == Ok(None) <==>
        forall k :: k in t.rows ==> Get(t.rows[k], "orderId") != Int(orderId)
  {
    BillQueryUnfold(s, orderId);
    NoMatchIsEmpty(s.tables[TableKey("Log")], "orderId", Int(orderId));
  }

  /** When several bills belong to the order, the one with the least key is
      returned: its key, the order asked for, and its amount and timestamp
      as stored (a NULL amount reads as 0.0). */
  lemma FirstBillRead(s: DbState, orderId: int, k: int)
    requires LogReady(s)
    requires var t := s.tables[TableKey("Log")];
      && k in t.rows && Get(t.rows[k], "orderId") == Int(orderId)
      && (forall k' :: k' in t.rows && k' < k ==> Get(t.rows[k'], "orderId") != Int(orderId))
    ensures var row := s.tables[TableKey("Log")].rows[k];
      var amount, ts := GetDouble(row, "amount"), GetTimestamp(row, "timestamp");
      && (amount.Err? ==> GetBillByOrderIdResult(s, orderId) == Err(Wrapped(amount.error)))
      && (amount.Ok? && ts.Err? ==> GetBillByOrderIdResult(s, orderId) == Err(Wrapped(ts.error)))
      && (amount.Ok? && ts.Ok? ==>
            GetBillByOrderIdResult(s, orderId) == Ok(Some(Bill(Some(k), orderId, amount.value, ts.value))))
  {
    var t := s.tables[TableKey("Log")];
    BillQueryUnfold(s, orderId);
    assert Matches(t.rows[k], "orderId", Int(orderId));
    NoMatchIsEmpty(t, "orderId", Int(orderId));
    FirstMatchIsLeast(t, "orderId", Int(orderId));
    var rows := RowsWhere(t, Keys(t), "orderId", Int(orderId));
    var k0 :| && k0 in t.rows && Matches(t.rows[k0], "orderId", Int(orderId)) && rows[0] == t.rows[k0]
              && forall k' :: k' in t.rows && k' < k0 ==> !Matches(t.rows[k'], "orderId", Int(orderId));
    assert k0 == k;
    assert Get(rows[0], "id") == Int(k);
  }
}
