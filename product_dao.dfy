/** The product data-access object's own operation: lowering the stock of
    one product, after checking that enough is left. */
module ProductDao {
  import opened Common
  import opened Store

  const CheckStockSql: string := "SELECT stock FROM products WHERE id = ?"
  const DecreaseSql: string := "UPDATE products SET stock = stock - ? WHERE id = ?"

  /** The UPDATE that lowers the stock: `stock = stock - ?1 WHERE id = ?2`. */
  const DecreaseStatement: Statement := UpdateWhere("products", [Subtract("stock", 1)], "id", 2)

  /** `decreaseStock(productId, quantity)`: read the stock of the product;
      when a row is found and its stock is below `quantity`, refuse; in every
      other case, the product missing included, run the UPDATE. The check and
      the UPDATE are separate statements under auto-commit. */
  function DecreaseStockResult(s: DbState, productId: int, quantity: int): (r: (Outcome, DbState))
    ensures !s.connectable ==> r == (Fail(NullConnection), s)
    ensures r.0 == Fail(NotEnoughStock) ==> r.1 == s
  {
    if Connect(s).Fail? then (Connect(s), s)
    else
      var rows := Eval(s, SelectWhere("products", "id"), map[1 := Int(productId)]);
      if rows.Err? then (Fail(rows.error), s)
      else
        var stock := if rows.value == [] then Ok(0) else GetInt(rows.value[0], "stock");
        if stock.Err? then (Fail(stock.error), s)
        else if rows.value != [] && stock.value < quantity then (Fail(NotEnoughStock), s)
        else Exec(s, DecreaseSql, DecreaseStatement, map[1 := Int(quantity), 2 := Int(productId)])
  }

  method DecreaseStock(db: Database, productId: int, quantity: int) returns (r: Outcome)
    requires db.Valid()
    modifies db
    ensures db.Valid()
    ensures (r, db.State()) == DecreaseStockResult(old(db.State()), productId, quantity)
  {
    var conn := db.GetConnection();
    if conn.Fail? {
      return conn;
    }
    var rs := db.Query(CheckStockSql, SelectWhere("products", "id"), map[1 := Int(productId)]);
    if rs.Err? {
      return Fail(rs.error);
    }
    if |rs.value| > 0 {
      var currentStock := GetInt(rs.value[0], "stock");
      if currentStock.Err? {
        return Fail(currentStock.error);
      }
      if currentStock.value < quantity {
        return Fail(NotEnoughStock);
      }
    }
    r := db.Execute(DecreaseSql, DecreaseStatement, map[1 := Int(quantity), 2 := Int(productId)]);
  }

  // ---------------------------------------------------------------------
  // Properties

  /** The `products` table exists, is consistent and is keyed by `id`. */
  ghost predicate ProductsReady(s: DbState)
  {
    && s.connectable
    && "products" in s.tables
    && TableValid(s.tables["products"])
    && s.tables["products"].key == "id"
  }

  lemma ProductsKey()
    ensures TableKey("products") == "products"
  {
  }

  /** The stock check finds the row stored under the product's key, or none. */
  lemma CheckFindsProduct(s: DbState, productId: int)
    requires ProductsReady(s)
    ensures var t := s.tables["products"];
      Eval(s, SelectWhere("products", "id"), map[1 := Int(productId)]) ==
        Ok(if productId in t.rows then [t.rows[productId]] else [])
  {
    ProductsKey();
    RowsWhereKey(s.tables["products"], Int(productId));
  }

  /** A product whose stock is below the quantity is refused and no
      statement is executed. */
  lemma DecreaseStockRejects(s: DbState, productId: int, quantity: int, stock: int)
    requires ProductsReady(s) && productId in s.tables["products"].rows
    requires "stock" in s.tables["products"].rows[productId]
    requires s.tables["products"].rows[productId]["stock"] == Int(stock) && stock < quantity
    ensures DecreaseStockResult(s, productId, quantity) == (Fail(NotEnoughStock), s)
  {
    CheckFindsProduct(s, productId);
  }

  /** With enough stock, the product's stock is lowered by exactly the
      quantity and every other column and row stays as it was, provided no
      installed guard protects `stock` and the result fits in 32 bits. */
  lemma DecreaseStockSubtracts(s: DbState, productId: int, quantity: int, stock: int)
    requires ProductsReady(s) && productId in s.tables["products"].rows
    requires "stock" in s.tables["products"].rows[productId]
    requires s.tables["products"].rows[productId]["stock"] == Int(stock) && quantity <= stock
    requires MinInt32 <= stock - quantity <= MaxInt32
    requires Unguarded(s.catalog, "products", "stock")
    ensures var t := s.tables["products"];
      var row := t.rows[productId];
      var params := map[1 := Int(quantity), 2 := Int(productId)];
      DecreaseStockResult(s, productId, quantity) ==
        (Pass, s.(tables := s.tables["products" := t.(rows := t.rows[productId := row["stock" := Int(stock - quantity)]])],
                  log := s.log + [Executed(DecreaseSql, params)]))
  {
    DecreaseRunsUpdate(s, productId, quantity, stock);
    UpdateStores(s, productId, quantity, stock);
  }

  lemma SubtractStock(row: Row, stock: int, params: map<int, Value>)
    requires "stock" in row && row["stock"] == Int(stock) && 1 in params && params[1].Int?
    requires MinInt32 <= stock - params[1].i <= MaxInt32
    ensures ApplyAssigns(row, row, [Subtract("stock", 1)], params) == Ok(row["stock" := Int(stock - params[1].i)])
  {
  }

  /** The UPDATE of an existing product with an unguarded stock stores the
      lowered stock. */
  lemma UpdateStores(s: DbState, productId: int, quantity: int, stock: int)
    requires ProductsReady(s) && productId in s.tables["products"].rows
    requires "stock" in s.tables["products"].rows[productId]
    requires s.tables["products"].rows[productId]["stock"] == Int(stock)
    requires MinInt32 <= stock - quantity <= MaxInt32
    requires Unguarded(s.catalog, "products", "stock")
    ensures var t := s.tables["products"];
      var row := t.rows[productId];
      var params := map[1 := Int(quantity), 2 := Int(productId)];
      Exec(s, DecreaseSql, DecreaseStatement, params) ==
        (Pass, s.(tables := s.tables["products" := t.(rows := t.rows[productId := row["stock" := Int(stock - quantity)]])],
                  log := s.log + [Executed(DecreaseSql, params)]))
  {
    ProductsKey();
    var row := s.tables["products"].rows[productId];
    var params := map[1 := Int(quantity), 2 := Int(productId)];
    SubtractStock(row, stock, params);
    GuardsAllowElsewhere(s.catalog, "products", row, "stock", Int(stock - quantity));
    UpdateWhereStores(s, DecreaseSql, "products", [Subtract("stock", 1)], 2, params);
  }

  /** A stock that would leave the 32-bit range makes the UPDATE fail and
      nothing changes but the log. */
  lemma DecreaseStockOverflows(s: DbState, productId: int, quantity: int, stock: int)
    requires ProductsReady(s) && productId in s.tables["products"].rows
    requires "stock" in s.tables["products"].rows[productId]
    requires s.tables["products"].rows[productId]["stock"] == Int(stock) && quantity <= stock
    requires !(MinInt32 <= stock - quantity <= MaxInt32)
    ensures var r := DecreaseStockResult(s, productId, quantity);
      && r.0 == Fail(SqlError(OutOfRange))
      && r.1 == s.(log := s.log + [Executed(DecreaseSql, map[1 := Int(quantity), 2 := Int(productId)])])
  {
    DecreaseRunsUpdate(s, productId, quantity, stock);
    UpdateOverflows(s, productId, quantity, stock);
  }

  lemma UpdateOverflows(s: DbState, productId: int, quantity: int, stock: int)
    requires ProductsReady(s) && productId in s.tables["products"].rows
    requires "stock" in s.tables["products"].rows[productId]
    requires s.tables["products"].rows[productId]["stock"] == Int(stock)
    requires !(MinInt32 <= stock - quantity <= MaxInt32)
    ensures var params := map[1 := Int(quantity), 2 := Int(productId)];
      Exec(s, DecreaseSql, DecreaseStatement, params) ==
        (Fail(SqlError(OutOfRange)), s.(log := s.log + [Executed(DecreaseSql, params)]))
  {
    ProductsKey();
    var row := s.tables["products"].rows[productId];
    var params := map[1 := Int(quantity), 2 := Int(productId)];
    assert ApplyAssigns(row, row, [Subtract("stock", 1)], params) == Err(SqlError(OutOfRange));
    UpdateWhereFails(s, DecreaseSql, "products", [Subtract("stock", 1)], 2, params);
  }

  /** An unknown product is not an error: the UPDATE runs, matches no row
      and leaves every table as it was. */
  lemma DecreaseStockUnknownProduct(s: DbState, productId: int, quantity: int)
    requires ProductsReady(s) && productId !in s.tables["products"].rows
    ensures var r := DecreaseStockResult(s, productId, quantity);
      && r.0 == Pass
      && r.1 == s.(log := s.log + [Executed(DecreaseSql, map[1 := Int(quantity), 2 := Int(productId)])])
  {
    CheckFindsProduct(s, productId);
    ProductsKey();
  }

  /** Whatever the state, `decreaseStock` changes at most the row of
      `products` stored under the product's key. */
  lemma DecreaseStockChangesOnlyProduct(s: DbState, productId: int, quantity: int)
    ensures var s1 := DecreaseStockResult(s, productId, quantity).1;
      SameShape(s, s1) && ChangedAtMost(s, s1, TableKey("products"), Int(productId))
  {
    var params := map[1 := Int(quantity), 2 := Int(productId)];
    var e := Exec(s, DecreaseSql, DecreaseStatement, params);
    assert DecreaseStockResult(s, productId, quantity).1 in {s, e.1};
    UpdateWhereFrame(s, DecreaseSql, "products", [Subtract("stock", 1)], "id", 2, params);
  }

  /** When the check lets the product through, the outcome is that of the
      UPDATE. */
  lemma DecreaseRunsUpdate(s: DbState, productId: int, quantity: int, stock: int)
    requires ProductsReady(s) && productId in s.tables["products"].rows
    requires "stock" in s.tables["products"].rows[productId]
    requires s.tables["products"].rows[productId]["stock"] == Int(stock) && quantity <= stock
    ensures DecreaseStockResult(s, productId, quantity) ==
      Exec(s, DecreaseSql, DecreaseStatement, map[1 := Int(quantity), 2 := Int(productId)])
  {
    CheckFindsProduct(s, productId);
  }
}
