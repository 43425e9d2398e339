/** The order data-access object's own queries: the id of the last order,
    and the order-details report joining orders with their client and
    product. */
module OrderDao {
  import opened Common
  import opened Store
  import opened Model

  const LastIdSql: string := "SELECT id FROM orders ORDER BY id DESC LIMIT 1"
  const DetailedOrdersSql: string :=
    "SELECT o.id AS order_id, CONCAT(c.first_name, ' ', c.last_name) AS client_name, " +
    "p.name AS product_name, o.quantity, o.total_price, o.order_date " +
    "FROM Orders o " +
    "JOIN Clients c ON o.client_id = c.id " +
    "JOIN Products p ON o.product_id = p.id"

  /** The join, under the (unquoted, so folded) table names the query uses. */
  const DetailedQuery: Query := DetailedOrders("Orders", "Clients", "Products")

  // ---------------------------------------------------------------------
  // getLastId

  /** `getLastId()`: the `id` of the first row in descending `id` order, or
      -1 when there is none; a failure propagates. */
  function GetLastIdResult(s: DbState): (r: Result<int>)
    ensures !s.connectable <==> r == Err(NullConnection)
    ensures r.Err? && s.connectable ==> r.error.SqlError?
  {
    if Connect(s).Fail? then Err(Connect(s).error)
    else
      var rows := Eval(s, SelectOrdered("orders", "id", true), map[]);
      if rows.Err? then Err(rows.error)
      else if rows.value == [] then Ok(-1)
      else GetInt(rows.value[0], "id")
  }

  method GetLastId(db: Database) returns (r: Result<int>)
    ensures r == GetLastIdResult(db.State())
  {
    var conn := db.GetConnection();
    if conn.Fail? {
      return Err(conn.error);
    }
    var rs := db.Query(LastIdSql, SelectOrdered("orders", "id", true), map[]);
    if rs.Err? {
      return Err(rs.error);
    }
    if |rs.value| > 0 {
      r := GetInt(rs.value[0], "id");
    } else {
      r := Ok(-1);
    }
  }

  /** The `orders` table exists, is consistent and is keyed by `id`. */
  ghost predicate OrdersReady(s: DbState)
  {
    && s.connectable
    && "orders" in s.tables
    && TableValid(s.tables["orders"])
    && s.tables["orders"].key == "id"
  }

  lemma OrdersKey()
    ensures TableKey("orders") == "orders"
  {
  }

  /** The descending query starts with the row of the last key listed. */
  lemma LastRowFirst(t: Table)
    requires TableValid(t) && exists k :: k in t.rows
    ensures var keys := Keys(t);
      && |keys| > 0
      && Reversed(RowsAt(t, keys))[0] == t.rows[keys[|keys| - 1]]
  {
    var k0 :| k0 in t.rows;
    KeysCover(t, k0);
  }

  lemma KeysCover(t: Table, k: int)
    requires k in t.rows && TableValid(t)
    ensures k in Keys(t)
  {
  }

  /** The last key listed is the greatest key of the table. */
  lemma LastKeyGreatest(t: Table)
    requires TableValid(t) && |Keys(t)| > 0
    ensures forall k :: k in t.rows ==> k <= Keys(t)[|Keys(t)| - 1]
  {
    var keys := Keys(t);
    forall k | k in t.rows ensures k <= keys[|keys| - 1] {
      KeysCover(t, k);
      var j :| 0 <= j < |keys| && keys[j] == k;
      if j < |keys| - 1 {
        assert keys[j] < keys[|keys| - 1];
      }
    }
  }

  /** On a ready `orders` table the query lists its rows by descending key. */
  lemma LastIdUnfold(s: DbState)
    requires OrdersReady(s)
    ensures var t := s.tables["orders"];
      var rows := Reversed(RowsAt(t, Keys(t)));
      GetLastIdResult(s) == if rows == [] then Ok(-1) else GetInt(rows[0], "id")
  {
    OrdersKey();
  }

  /** `getLastId` returns -1 exactly when there is no order. */
  lemma EmptyOrdersGiveMinusOne(s: DbState)
    requires OrdersReady(s)
    ensures GetLastIdResult(s) == Ok(-1) <==> forall k :: k !in s.tables["orders"].rows
  {
    if exists k :: k in s.tables["orders"].rows {
      SomeOrderNotMinusOne(s);
    } else {
      NoOrdersMinusOne(s);
    }
  }

  lemma NoOrdersMinusOne(s: DbState)
    requires OrdersReady(s) && forall k :: k !in s.tables["orders"].rows
    ensures GetLastIdResult(s) == Ok(-1)
  {
    LastIdUnfold(s);
    var t := s.tables["orders"];
    assert Keys(t) == [];
  }

  lemma SomeOrderNotMinusOne(s: DbState)
    requires OrdersReady(s) && exists k :: k in s.tables["orders"].rows
    ensures GetLastIdResult(s) != Ok(-1)
  {
    LastIdUnfold(s);
    LastRowId(s.tables["orders"]);
  }

  /** Otherwise `getLastId` returns the greatest key of `orders`. */
  lemma LastIdIsGreatest(s: DbState)
    requires OrdersReady(s) && exists k :: k in s.tables["orders"].rows
    ensures var t := s.tables["orders"];
      exists m :: && m in t.rows && GetLastIdResult(s) == Ok(m)
                  && forall k :: k in t.rows ==> k <= m
  {
    var t := s.tables["orders"];
    var m := LastIdOf(s);
    LastKeyGreatest(t);
    assert m in t.rows && GetLastIdResult(s) == Ok(m) && forall k :: k in t.rows ==> k <= m;
  }

  /** The id `getLastId` returns on a non-empty `orders` table: its last
      listed key. */
  lemma LastIdOf(s: DbState) returns (m: int)
    requires OrdersReady(s) && exists k :: k in s.tables["orders"].rows
    ensures var keys := Keys(s.tables["orders"]);
      |keys| > 0 && m == keys[|keys| - 1] && m in s.tables["orders"].rows && GetLastIdResult(s) == Ok(m)
  {
    LastIdUnfold(s);
    LastRowId(s.tables["orders"]);
    var keys := Keys(s.tables["orders"]);
    m := keys[|keys| - 1];
  }

  /** The first row of the descending query carries the last key as `id`. */
  lemma LastRowId(t: Table)
    requires TableValid(t) && t.key == "id" && exists k :: k in t.rows
    ensures var keys, rows := Keys(t), Reversed(RowsAt(t, Keys(t)));
      && |keys| > 0 && |rows| > 0 && keys[|keys| - 1] in t.rows && keys[|keys| - 1] >= 1
      && GetInt(rows[0], "id") == Ok(keys[|keys| - 1])
  {
    LastRowFirst(t);
    var keys := Keys(t);
    var m := keys[|keys| - 1];
    assert Get(t.rows[m], "id") == Int(m);
  }

  // ---------------------------------------------------------------------
  // getDetailedOrders

  /** One report record read from a result row: `getInt("order_id")`,
      `getString("client_name")`, `getString("product_name")`,
      `getInt("quantity")`, `getDouble("total_price")`,
      `getTimestamp("order_date")`, the first failure winning. */
  function ReadDetail(row: Row): (r: Result<OrderDetails>)
    ensures r.Err? ==> r.error.SqlError?
  {
    var orderId := GetInt(row, "order_id");
    if orderId.Err? then Err(orderId.error) else
    var client := GetString(row, "client_name");
    if client.Err? then Err(client.error) else
    var product := GetString(row, "product_name");
    if product.Err? then Err(product.error) else
    var quantity := GetInt(row, "quantity");
    if quantity.Err? then Err(quantity.error) else
    var total := GetDouble(row, "total_price");
    if total.Err? then Err(total.error) else
    var date := GetTimestamp(row, "order_date");
    if date.Err? then Err(date.error) else
    Ok(OrderDetails(orderId.value, client.value, product.value, quantity.value, total.value, date.value))
  }

  /** The records of the rows in order, or the failure of the first row
      that cannot be read. */
  function DetailsOf(rows: seq<Row>): (r: Result<seq<OrderDetails>>)
    ensures r.Ok? ==> |r.value| == |rows|
    ensures r.Err? ==> r.error.SqlError?
  {
    if rows == [] then Ok([])
    else
      var init := DetailsOf(rows[..|rows| - 1]);
      if init.Err? then init
      else
        var d := ReadDetail(rows[|rows| - 1]);
        if d.Err? then Err(d.error) else Ok(init.value + [d.value])
  }

  /** `getDetailedOrders()`: the records of the joined rows; a failure is
      rethrown as it is. */
  function DetailedOrdersResult(s: DbState): (r: Result<seq<OrderDetails>>)
    ensures !s.connectable <==> r == Err(NullConnection)
    ensures r.Err? && s.connectable ==> r.error.SqlError?
  {
    if Connect(s).Fail? then Err(Connect(s).error)
    else
      var rows := Eval(s, DetailedQuery, map[]);
      if rows.Err? then Err(rows.error) else DetailsOf(rows.value)
  }

  method GetDetailedOrders(db: Database) returns (r: Result<seq<OrderDetails>>)
    ensures r == DetailedOrdersResult(db.State())
  {
    var conn := db.GetConnection();
    if conn.Fail? {
      return Err(conn.error);
    }
    var rs := db.Query(DetailedOrdersSql, DetailedQuery, map[]);
    if rs.Err? {
      return Err(rs.error);
    }
    var rows := rs.value;
    var orders: seq<OrderDetails> := [];
    var i := 0;
    while i < |rows|
      invariant 0 <= i <= |rows|
      invariant DetailsOf(rows[..i]) == Ok(orders)
    {
      var d := ReadDetail(rows[i]);
      if d.Err? {
        DetailsOfStops(rows, i);
        return Err(d.error);
      }
      DetailsOfStep(rows, i);
      orders := orders + [d.value];
      i := i + 1;
    }
    assert rows[..|rows|] == rows;
    r := Ok(orders);
  }

  /** A readable row adds its record to the report of the rows before it. */
  lemma DetailsOfStep(rows: seq<Row>, i: nat)
    requires i < |rows| && DetailsOf(rows[..i]).Ok? && ReadDetail(rows[i]).Ok?
    ensures DetailsOf(rows[..i + 1]) == Ok(DetailsOf(rows[..i]).value + [ReadDetail(rows[i]).value])
  {
    assert rows[..i + 1][..i] == rows[..i];
  }

  /** A row that cannot be read ends the report with its failure. */
  lemma {:induction false} DetailsOfStops(rows: seq<Row>, i: nat)
    requires i < |rows| && DetailsOf(rows[..i]).Ok? && ReadDetail(rows[i]).Err?
    ensures DetailsOf(rows) == Err(ReadDetail(rows[i]).error)
    decreases |rows|
  {
    var init := rows[..|rows| - 1];
    if i == |rows| - 1 {
      assert init == rows[..i];
    } else {
      assert init[..i] == rows[..i];
      assert init[i] == rows[i];
      DetailsOfStops(init, i);
    }
  }

  // ---------------------------------------------------------------------
  // The join

  /** The reference inner join: for each order at `keys`, in order, one
      record when its client and its product both exist, none otherwise. */
  function InnerJoin(orders: Table, clients: Table, products: Table, keys: seq<int>): seq<Row>
    requires forall k :: 0 <= k < |keys| ==> keys[k] in orders.rows
  {
    if keys == [] then []
    else
      var o := orders.rows[keys[0]];
      var c, p := Get(o, "client_id"), Get(o, "product_id");
      (if c.Int? && c.i in clients.rows && p.Int? && p.i in products.rows
       then [DetailRow(o, clients.rows[c.i], products.rows[p.i])] else [])
      + InnerJoin(orders, clients, products, keys[1..])
  }

  /** The pairings of an order with the client rows and product rows found
      by key: at most one of each. */
  lemma PairingsAtMostOne(o: Row, cs: seq<Row>, ps: seq<Row>)
    requires |cs| <= 1 && |ps| <= 1
    ensures Pairings(o, cs, ps) == if cs != [] && ps != [] then [DetailRow(o, cs[0], ps[0])] else []
  {
    if cs != [] {
      assert cs[1..] == [];
      assert Pairings(o, cs[1..], ps) == [];
      if ps != [] {
        assert ps[1..] == [];
        assert ProductPairings(o, cs[0], ps[1..]) == [];
      }
    }
  }

  /** Joining on the key of `clients` and of `products` yields exactly the
      reference inner join. */
  lemma {:induction false} JoinIsInner(orders: Table, clients: Table, products: Table, keys: seq<int>)
    requires forall k :: 0 <= k < |keys| ==> keys[k] in orders.rows
    requires TableValid(clients) && clients.key == "id"
    requires TableValid(products) && products.key == "id"
    ensures JoinedRows(orders, clients, products, keys) == InnerJoin(orders, clients, products, keys)
  {
    if keys != [] {
      var o := orders.rows[keys[0]];
      RowsWhereKey(clients, Get(o, "client_id"));
      RowsWhereKey(products, Get(o, "product_id"));
      PairingsAtMostOne(o, RowsWhere(clients, Keys(clients), "id", Get(o, "client_id")),
                           RowsWhere(products, Keys(products), "id", Get(o, "product_id")));
      JoinIsInner(orders, clients, products, keys[1..]);
    }
  }

  lemma TableNamesFold()
    ensures TableKey("Orders") == "orders"
    ensures TableKey("Clients") == "clients"
    ensures TableKey("Products") == "products"
  {
  }

  /** The three tables the report joins exist, are consistent, and the two
      looked up are keyed by `id`. */
  ghost predicate ReportReady(s: DbState)
  {
    && s.connectable
    && "orders" in s.tables && "clients" in s.tables && "products" in s.tables
    && TableValid(s.tables["orders"])
    && TableValid(s.tables["clients"]) && s.tables["clients"].key == "id"
    && TableValid(s.tables["products"]) && s.tables["products"].key == "id"
  }

  /** The report is read from the reference inner join of the orders in key
      order with their clients and products. */
  lemma DetailedOrdersJoin(s: DbState)
    requires ReportReady(s)
    ensures var t := s.tables["orders"];
      DetailedOrdersResult(s) == DetailsOf(InnerJoin(t, s.tables["clients"], s.tables["products"], Keys(t)))
  {
    ReportQueryUnfold(s);
    var t := s.tables["orders"];
    JoinIsInner(t, s.tables["clients"], s.tables["products"], Keys(t));
  }

  lemma ReportQueryUnfold(s: DbState)
    requires ReportReady(s)
    ensures var t := s.tables["orders"];
      DetailedOrdersResult(s) == DetailsOf(JoinedRows(t, s.tables["clients"], s.tables["products"], Keys(t)))
  {
    TableNamesFold();
  }

  /** The record of one joined order: its key, the client's first and last
      name separated by one space, the product's name, and the order's
      quantity, total price and date, when each has the type it is read as. */
  lemma DetailOfJoinedRow(o: Row, c: Row, p: Row, id: int, quantity: int)
    requires Get(o, "id") == Int(id) && Get(o, "quantity") == Int(quantity)
    requires Get(p, "name").Null? || Get(p, "name").Text?
    requires Get(o, "total_price").Null? || Get(o, "total_price").Double?
    requires Get(o, "order_date").Null? || Get(o, "order_date").Timestamp?
    ensures ReadDetail(DetailRow(o, c, p)) == Ok(OrderDetails(
      id,
      Text(ConcatText(Get(c, "first_name")) + " " + ConcatText(Get(c, "last_name"))),
      Get(p, "name"),
      quantity,
      if Get(o, "total_price").Null? then Double(0) else Get(o, "total_price"),
      Get(o, "order_date")))
  {
  }

  /** One record per joined order: the report has as many records as the
      inner join has rows. */
  lemma {:induction false} DetailsOfLength(rows: seq<Row>)
    requires forall j :: 0 <= j < |rows| ==> ReadDetail(rows[j]).Ok?
    ensures DetailsOf(rows).Ok?
    ensures forall j :: 0 <= j < |rows| ==> DetailsOf(rows).value[j] == ReadDetail(rows[j]).value
  {
    if rows != [] {
      var init := rows[..|rows| - 1];
      DetailsOfLength(init);
    }
  }
}
