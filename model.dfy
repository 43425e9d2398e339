/** The five entity classes as metadata: `Order`, `Client`, `Product`,
    `Bill` and `OrderDetails`, each a table name and its annotated fields
    in declaration order, plus the typed views the business layer and the
    hand-written queries build (`Client`, `Bill`, `OrderDetails`). */
module Model {
  import opened Common
  import opened Annotations
  import opened DaoUtils
  import opened Statements

  /** `@Table(name = "orders") class Order`. */
  const OrderType := EntityType("Order", Some(Table("orders")), [
    Field("id", IntType, Some(Column("id", "INT", primaryKey := true, nullable := false, updatable := false))),
    Field("clientId", IntType, Some(Column("client_id", "INT", nullable := false, fkTable := "clients", fkColumn := "id"))),
    Field("productId", IntType, Some(Column("product_id", "INT", nullable := false, fkTable := "products", fkColumn := "id"))),
    Field("quantity", IntType, Some(Column("quantity", "INT", nullable := false))),
    Field("totalPrice", DoubleType, Some(Column("total_price", "DOUBLE PRECISION", nullable := false))),
    Field("orderDate", ReferenceType, Some(Column("order_date", "TIMESTAMP", nullable := false)))
  ], true)

  /** `@Table(name = "clients") class Client`. */
  const ClientType := EntityType("Client", Some(Table("clients")), [
    Field("id", IntType, Some(Column("id", "INTEGER", primaryKey := true, nullable := false, updatable := false))),
    Field("firstName", ReferenceType, Some(Column("first_name", "VARCHAR(100)", nullable := false))),
    Field("lastName", ReferenceType, Some(Column("last_name", "VARCHAR(100)", nullable := false))),
    Field("email", ReferenceType, Some(Column("email", "VARCHAR(150)", nullable := false))),
    Field("address", ReferenceType, Some(Column("address", "VARCHAR(300)", nullable := false)))
  ], true)

  /** `@Table(name = "products") class Product`. */
  const ProductType := EntityType("Product", Some(Table("products")), [
    Field("id", IntType, Some(Column("id", "INTEGER", primaryKey := true, nullable := false, updatable := false))),
    Field("name", ReferenceType, Some(Column("name", "VARCHAR(300)", nullable := false))),
    Field("price", DoubleType, Some(Column("price", "DOUBLE PRECISION", nullable := false))),
    Field("stock", IntType, Some(Column("stock", "INTEGER", nullable := false)))
  ], true)

  /** `@Table(name = "Log") record Bill`: every column is immutable, the key
      is a boxed `Integer`, and a record has only its canonical constructor. */
  const BillType := EntityType("Bill", Some(Table("Log")), [
    Field("id", ReferenceType, Some(Column("id", "INT", primaryKey := true, nullable := false, updatable := false))),
    Field("orderId", IntType, Some(Column("orderId", "INT", nullable := false, updatable := false))),
    Field("amount", DoubleType, Some(Column("amount", "DOUBLE PRECISION", nullable := false, updatable := false))),
    Field("timestamp", ReferenceType, Some(Column("timestamp", "TIMESTAMP", nullable := false, updatable := false)))
  ], false)

  /** `@Table(name = "OrderDetails") class OrderDetails`: no key column, all
      attributes at their defaults, and only the six-argument constructor. */
  const OrderDetailsType := EntityType("OrderDetails", Some(Table("OrderDetails")), [
    Field("orderId", IntType, Some(Column("order_id", "INT"))),
    Field("clientFullName", ReferenceType, Some(Column("client_name", "VARCHAR(200)"))),
    Field("productName", ReferenceType, Some(Column("product_name", "VARCHAR(300)"))),
    Field("quantity", IntType, Some(Column("quantity", "INT"))),
    Field("totalPrice", DoubleType, Some(Column("total_price", "DOUBLE PRECISION"))),
    Field("orderDate", ReferenceType, Some(Column("order_date", "TIMESTAMP")))
  ], false)

  // ---------------------------------------------------------------------
  // Reading the metadata

  lemma {:induction false} AnnotatedKeeps(fs: seq<Field>)
    requires AllAnnotated(fs)
    ensures Annotated(fs) == fs
  {
    if fs != [] {
      AnnotatedKeeps(fs[1..]);
      assert [fs[0]] + fs[1..] == fs;
    }
  }

  lemma {:induction false} NoKeysKept(fs: seq<Field>)
    requires AllAnnotated(fs) && forall k :: 0 <= k < |fs| ==> !fs[k].column.value.primaryKey
    ensures NonKeyFields(fs) == fs
  {
    if fs != [] {
      NoKeysKept(fs[1..]);
      assert [fs[0]] + fs[1..] == fs;
    }
  }

  lemma {:induction false} NoGuards(table: string, cols: seq<ColumnDesc>)
    requires forall k :: 0 <= k < |cols| ==> cols[k].updatable
    ensures RequiredGuards(table, cols) == []
  {
    if cols != [] {
      NoGuards(table, cols[1..]);
    }
  }

  lemma {:induction false} AllGuarded(table: string, cols: seq<ColumnDesc>)
    requires forall k :: 0 <= k < |cols| ==> !cols[k].updatable
    ensures |RequiredGuards(table, cols)| == |cols|
    ensures forall k :: 0 <= k < |cols| ==> RequiredGuards(table, cols)[k] == GuardFor(table, cols[k].name)
  {
    if cols != [] {
      AllGuarded(table, cols[1..]);
    }
  }

  lemma {:induction false} NoForeignKeys(cols: seq<ColumnDesc>)
    requires forall k :: 0 <= k < |cols| ==> !HasForeignKey(cols[k])
    ensures BuildForeignKeyConstraints(cols) == []
  {
    if cols != [] {
      NoForeignKeys(cols[1..]);
    }
  }

  /** An entity whose first field is its only key column, every field being
      annotated: all fields are persisted, the rest are inserted, and the
      first names the key. */
  lemma KeyFirst(t: EntityType)
    requires AllAnnotated(t.fields) && |t.fields| > 0 && IsKeyField(t.fields[0])
    requires forall k :: 1 <= k < |t.fields| ==> !t.fields[k].column.value.primaryKey
    ensures GetFields(t) == t.fields
    ensures NonKeyFields(GetFields(t)) == t.fields[1..]
    ensures GetPrimaryKeyField(t) == Ok(t.fields[0])
    ensures GetPrimaryKeyName(t) == Ok(t.fields[0].column.value.name)
    ensures Columns(t) == ColumnsOf(t.fields)
  {
    var fs := t.fields;
    AnnotatedKeeps(fs);
    assert AllAnnotated(fs[1..]);
    NoKeysKept(fs[1..]);
    PrimaryKeyAgree(t);
  }

  /** Only the first column is immutable: the key's guard is the only one. */
  lemma KeyGuardOnly(table: string, cols: seq<ColumnDesc>)
    requires |cols| > 0 && !cols[0].updatable && forall k :: 1 <= k < |cols| ==> cols[k].updatable
    ensures RequiredGuards(table, cols) == [GuardFor(table, cols[0].name)]
  {
    assert cols == [cols[0]] + cols[1..];
    RequiredGuardsAppend(table, [cols[0]], cols[1..]);
    NoGuards(table, cols[1..]);
  }

  /** An entity whose first field alone is immutable needs one guard. */
  lemma SoleKeyGuard(t: EntityType, table: string)
    requires AllAnnotated(t.fields) && |t.fields| > 0 && !t.fields[0].column.value.updatable
    requires forall k :: 1 <= k < |t.fields| ==> t.fields[k].column.value.updatable
    ensures RequiredGuards(table, Columns(t)) == [GuardFor(table, t.fields[0].column.value.name)]
  {
    AnnotatedKeeps(t.fields);
    KeyGuardOnly(table, Columns(t));
  }

  /** An entity whose every field is immutable needs a guard per column. */
  lemma EveryColumnGuarded(t: EntityType, table: string)
    requires AllAnnotated(t.fields) && forall k :: 0 <= k < |t.fields| ==> !t.fields[k].column.value.updatable
    ensures |RequiredGuards(table, Columns(t))| == |t.fields|
    ensures forall k :: 0 <= k < |t.fields| ==>
      RequiredGuards(table, Columns(t))[k] == GuardFor(table, t.fields[k].column.value.name)
  {
    AnnotatedKeeps(t.fields);
    AllGuarded(table, Columns(t));
  }

  lemma NoForeignKeysIn(t: EntityType)
    requires AllAnnotated(t.fields) && forall k :: 0 <= k < |t.fields| ==> !HasForeignKey(t.fields[k].column.value)
    ensures BuildForeignKeyConstraints(Columns(t)) == []
  {
    AnnotatedKeeps(t.fields);
    NoForeignKeys(Columns(t));
  }

  /** Of six columns, only the second and third name a foreign key. */
  lemma {:induction false} SecondAndThirdForeign(cs: seq<ColumnDesc>)
    requires |cs| == 6 && HasForeignKey(cs[1]) && HasForeignKey(cs[2]) && !HasForeignKey(cs[0])
    requires forall k :: 3 <= k < 6 ==> !HasForeignKey(cs[k])
    ensures BuildForeignKeyConstraints(cs) == [ForeignKeyClause(cs[1]), ForeignKeyClause(cs[2])]
  {
    var c1, c2, c3 := cs[1..], cs[2..], cs[3..];
    NoForeignKeys(c3);
    assert c2[0] == cs[2] && c2[1..] == c3;
    assert BuildForeignKeyConstraints(c2) == [ForeignKeyClause(cs[2])];
    assert c1[0] == cs[1] && c1[1..] == c2;
    assert BuildForeignKeyConstraints(c1) == [ForeignKeyClause(cs[1]), ForeignKeyClause(cs[2])];
  }

  lemma TwoForeignKeys(t: EntityType)
    requires AllAnnotated(t.fields) && |t.fields| == 6
    requires HasForeignKey(t.fields[1].column.value) && HasForeignKey(t.fields[2].column.value)
    requires !HasForeignKey(t.fields[0].column.value)
    requires forall k :: 3 <= k < 6 ==> !HasForeignKey(t.fields[k].column.value)
    ensures BuildForeignKeyConstraints(Columns(t)) ==
      [ForeignKeyClause(t.fields[1].column.value), ForeignKeyClause(t.fields[2].column.value)]
  {
    AnnotatedKeeps(t.fields);
    SecondAndThirdForeign(Columns(t));
  }

  // Each entity: `...Keys` reads the key and the persisted fields, and the
  // lemmas after it state the metadata the source declares.

  lemma OrderKeys()
    ensures GetFields(OrderType) == OrderType.fields
    ensures NonKeyFields(GetFields(OrderType)) == OrderType.fields[1..]
    ensures GetPrimaryKeyName(OrderType) == Ok("id")
    ensures Columns(OrderType) == ColumnsOf(OrderType.fields)
  {
    KeyFirst(OrderType);
  }

  lemma OrderColumns()
    ensures FieldNames(OrderType.fields[1..]) == ["client_id", "product_id", "quantity", "total_price", "order_date"]
    ensures var cs := ColumnsOf(OrderType.fields); |cs| == 6 && forall k :: 1 <= k < 6 ==> !cs[k].nullable
  {
  }

  /** An `Order`: the key `id` is the only key column; five columns are
      inserted, in declaration order; every non-key column is NOT NULL. */
  lemma OrderMetadata()
    ensures GetTableName(OrderType) == Ok("orders")
    ensures GetPrimaryKeyName(OrderType) == Ok("id")
    ensures FieldNames(NonKeyFields(GetFields(OrderType))) ==
      ["client_id", "product_id", "quantity", "total_price", "order_date"]
    ensures var cs := Columns(OrderType); |cs| == 6 && forall k :: 1 <= k < 6 ==> !cs[k].nullable
  {
    OrderKeys();
    OrderColumns();
  }

  /** `Order` declares two foreign keys: `client_id` references
      `clients(id)` and `product_id` references `products(id)`. */
  lemma OrderForeignKeys()
    ensures BuildForeignKeyConstraints(Columns(OrderType)) ==
      [ForeignKeyClause(Column("client_id", "INT", nullable := false, fkTable := "clients", fkColumn := "id")),
       ForeignKeyClause(Column("product_id", "INT", nullable := false, fkTable := "products", fkColumn := "id"))]
  {
    TwoForeignKeys(OrderType);
  }

  /** The key's guard, `no_update_orders_id`, is the only one of `Order`. */
  lemma OrderGuards()
    ensures RequiredGuards("orders", Columns(OrderType)) == [GuardFor("orders", "id")]
  {
    OrderKeyGuard();
    KeyNames();
  }

  /** The trigger that protects the key of `orders` is `no_update_orders_id`. */
  lemma OrderKeyTrigger()
    ensures GuardFor("orders", "id").trigger == "no_update_orders_id"
  {
    LowerOrders();
  }

  lemma OrderKeyGuard()
    ensures RequiredGuards("orders", Columns(OrderType)) == [GuardFor("orders", OrderType.fields[0].column.value.name)]
  {
    SoleKeyGuard(OrderType, "orders");
  }

  /** The key field of each entity that has one is called `id`. */
  lemma KeyNames()
    ensures OrderType.fields[0].column.value.name == "id"
    ensures ClientType.fields[0].column.value.name == "id"
    ensures ProductType.fields[0].column.value.name == "id"
  {
  }

  lemma LowerOrders()
    ensures ToLower("orders") == "orders" && ToLower("id") == "id"
  {
  }

  lemma ClientKeys()
    ensures GetFields(ClientType) == ClientType.fields
    ensures NonKeyFields(GetFields(ClientType)) == ClientType.fields[1..]
    ensures GetPrimaryKeyName(ClientType) == Ok("id")
    ensures Columns(ClientType) == ColumnsOf(ClientType.fields)
  {
    KeyFirst(ClientType);
  }

  /** `Client` has a table and a key. */
  lemma ClientHasKey()
    ensures ClientType.table.Some?
    ensures GetPrimaryKeyField(ClientType).Ok? && GetPrimaryKeyName(ClientType).Ok?
  {
    KeyFirst(ClientType);
  }

  lemma ClientColumns()
    ensures FieldNames(ClientType.fields[1..]) == ["first_name", "last_name", "email", "address"]
    ensures var cs := ColumnsOf(ClientType.fields);
      |cs| == 5 && forall k :: 1 <= k < 5 ==> !cs[k].nullable && "VARCHAR" <= cs[k].sqlType
  {
  }

  /** A `Client`: the key `id` and four NOT NULL VARCHAR columns, inserted
      in declaration order. */
  lemma ClientMetadata()
    ensures GetTableName(ClientType) == Ok("clients")
    ensures GetPrimaryKeyName(ClientType) == Ok("id")
    ensures FieldNames(NonKeyFields(GetFields(ClientType))) == ["first_name", "last_name", "email", "address"]
    ensures var cs := Columns(ClientType);
      |cs| == 5 && forall k :: 1 <= k < 5 ==> !cs[k].nullable && "VARCHAR" <= cs[k].sqlType
  {
    ClientKeys();
    ClientColumns();
  }

  /** `Client` has no foreign key and only the key's guard. */
  lemma ClientConstraints()
    ensures BuildForeignKeyConstraints(Columns(ClientType)) == []
    ensures RequiredGuards("clients", Columns(ClientType)) == [GuardFor("clients", "id")]
  {
    NoForeignKeysIn(ClientType);
    ClientKeyGuard();
    KeyNames();
  }

  lemma ClientKeyGuard()
    ensures RequiredGuards("clients", Columns(ClientType)) == [GuardFor("clients", ClientType.fields[0].column.value.name)]
  {
    SoleKeyGuard(ClientType, "clients");
  }

  lemma ProductKeys()
    ensures GetFields(ProductType) == ProductType.fields
    ensures NonKeyFields(GetFields(ProductType)) == ProductType.fields[1..]
    ensures GetPrimaryKeyName(ProductType) == Ok("id")
    ensures Columns(ProductType) == ColumnsOf(ProductType.fields)
  {
    KeyFirst(ProductType);
  }

  lemma ProductColumns()
    ensures FieldNames(ProductType.fields[1..]) == ["name", "price", "stock"]
    ensures var cs := ColumnsOf(ProductType.fields); |cs| == 4 && forall k :: 0 <= k < 4 ==> !cs[k].nullable
  {
  }

  /** A `Product`: the key `id` and three NOT NULL columns, inserted in
      declaration order. */
  lemma ProductMetadata()
    ensures GetTableName(ProductType) == Ok("products")
    ensures GetPrimaryKeyName(ProductType) == Ok("id")
    ensures FieldNames(NonKeyFields(GetFields(ProductType))) == ["name", "price", "stock"]
    ensures var cs := Columns(ProductType); |cs| == 4 && forall k :: 0 <= k < 4 ==> !cs[k].nullable
  {
    ProductKeys();
    ProductColumns();
  }

  /** `Product` has no foreign key and only the key's guard. */
  lemma ProductConstraints()
    ensures BuildForeignKeyConstraints(Columns(ProductType)) == []
    ensures RequiredGuards("products", Columns(ProductType)) == [GuardFor("products", "id")]
  {
    NoForeignKeysIn(ProductType);
    ProductKeyGuard();
    KeyNames();
  }

  lemma ProductKeyGuard()
    ensures RequiredGuards("products", Columns(ProductType)) == [GuardFor("products", ProductType.fields[0].column.value.name)]
  {
    SoleKeyGuard(ProductType, "products");
  }

  lemma BillColumns()
    ensures var cs := ColumnsOf(BillType.fields);
      |cs| == 4 && forall k :: 0 <= k < 4 ==> !cs[k].nullable && !cs[k].updatable
  {
  }

  /** A `Bill`: table "Log", key `id`; every column is NOT NULL and
      immutable, and no object can be built by the generic mapping. */
  lemma BillMetadata()
    ensures GetTableName(BillType) == Ok("Log")
    ensures GetPrimaryKeyName(BillType) == Ok("id")
    ensures var cs := Columns(BillType); |cs| == 4 && forall k :: 0 <= k < 4 ==> !cs[k].nullable && !cs[k].updatable
    ensures !BillType.hasNoArgConstructor
  {
    KeyFirst(BillType);
    BillColumns();
  }

  /** `Bill` has four guards, one per column, the key's included. */
  lemma BillGuards()
    ensures RequiredGuards("Log", Columns(BillType)) ==
      [GuardFor("Log", "id"), GuardFor("Log", "orderId"), GuardFor("Log", "amount"), GuardFor("Log", "timestamp")]
  {
    EveryColumnGuarded(BillType, "Log");
  }

  /** `Bill` declares no foreign key. */
  lemma BillForeignKeys()
    ensures BuildForeignKeyConstraints(Columns(BillType)) == []
  {
    NoForeignKeysIn(BillType);
  }

  lemma OrderDetailsColumns()
    ensures AllAnnotated(OrderDetailsType.fields)
    ensures var cs := ColumnsOf(OrderDetailsType.fields);
      && |cs| == 6 && (forall k :: 0 <= k < 6 ==> cs[k].nullable && cs[k].updatable && !cs[k].primaryKey)
      && Names(cs) == ["order_id", "client_name", "product_name", "quantity", "total_price", "order_date"]
  {
  }

  /** `OrderDetails`: six columns named like the aliases of the order-details
      join, all nullable and updatable, none of them a key. */
  lemma OrderDetailsMetadata()
    ensures GetTableName(OrderDetailsType) == Ok("OrderDetails")
    ensures Names(Columns(OrderDetailsType)) ==
      ["order_id", "client_name", "product_name", "quantity", "total_price", "order_date"]
    ensures var cs := Columns(OrderDetailsType);
      |cs| == 6 && forall k :: 0 <= k < 6 ==> cs[k].nullable && cs[k].updatable && !cs[k].primaryKey
  {
    OrderDetailsColumns();
    AnnotatedKeeps(OrderDetailsType.fields);
  }

  /** An entity none of whose fields is a key: both key lookups fail. */
  lemma NoKeyIn(t: EntityType)
    requires forall k :: 0 <= k < |t.fields| ==> !IsKeyField(t.fields[k])
    ensures GetPrimaryKeyName(t) == Err(MissingPrimaryKey(t.className))
    ensures GetPrimaryKeyField(t) == Err(MissingPrimaryKey(t.className))
  {
    forall f | f in t.fields && f.column.Some? ensures !f.column.value.primaryKey {
      var k :| 0 <= k < |t.fields| && t.fields[k] == f;
    }
    PrimaryKeyIsFirst(t);
    PrimaryKeyAgree(t);
  }

  /** `OrderDetails` has no key, so looking one up fails. */
  lemma OrderDetailsNoKey()
    ensures GetPrimaryKeyName(OrderDetailsType) == Err(MissingPrimaryKey("OrderDetails"))
    ensures GetPrimaryKeyField(OrderDetailsType) == Err(MissingPrimaryKey("OrderDetails"))
  {
    NoKeyIn(OrderDetailsType);
  }

  /** `OrderDetails` needs no guard. */
  lemma OrderDetailsGuards()
    ensures RequiredGuards("OrderDetails", Columns(OrderDetailsType)) == []
  {
    AnnotatedKeeps(OrderDetailsType.fields);
    OrderDetailsColumns();
    NoGuards("OrderDetails", Columns(OrderDetailsType));
  }

  /** A client as the business layer sees it. Java's `equals` compares all
      five fields, which is equality of this value. */
  datatype Client = Client(id: int, firstName: string, lastName: string, email: string, address: string)

  /** `new Client(firstName, lastName, email, address)`: the id keeps its
      default 0. */
  function NewClient(firstName: string, lastName: string, email: string, address: string): (c: Client)
    ensures c.id == 0
  {
    Client(0, firstName, lastName, email, address)
  }

  /** The client's fields, by Java field name, as the generic layer reads them. */
  function ClientToObj(c: Client): (obj: Obj)
    ensures IsInstance(ClientType, obj)
  {
    map["id" := Int(c.id), "firstName" := Text(c.firstName), "lastName" := Text(c.lastName),
        "email" := Text(c.email), "address" := Text(c.address)]
  }

  /** The client an object denotes, when every field holds a value of its
      type (`field.set` rejects any other). */
  function ObjToClient(obj: Obj): Option<Client>
  {
    if && "id" in obj && obj["id"].Int?
       && "firstName" in obj && obj["firstName"].Text?
       && "lastName" in obj && obj["lastName"].Text?
       && "email" in obj && obj["email"].Text?
       && "address" in obj && obj["address"].Text?
    then Some(Client(obj["id"].i, obj["firstName"].s, obj["lastName"].s, obj["email"].s, obj["address"].s))
    else None
  }

  lemma ClientRoundTrip(c: Client)
    ensures ObjToClient(ClientToObj(c)) == Some(c)
  {
  }

  lemma {:induction false} SingleInsertParams(obj: Obj, fs: seq<Field>)
    ensures InsertParams([obj], fs) == ValuesOf(obj, fs)
  {
    assert [obj][1..] == [];
    assert ValuesOf(obj, fs) + [] == ValuesOf(obj, fs);
  }

  lemma ClientValues(c: Client)
    ensures ValuesOf(ClientToObj(c), ClientType.fields[1..]) ==
            [Text(c.firstName), Text(c.lastName), Text(c.email), Text(c.address)]
  {
  }

  /** The INSERT parameters of a client are its four non-key fields in
      declaration order; the id, which the id-less constructor leaves at 0,
      is never sent. */
  lemma ClientInsertIgnoresId(c: Client, id: int)
    ensures InsertParams([ClientToObj(c)], NonKeyFields(GetFields(ClientType))) ==
            [Text(c.firstName), Text(c.lastName), Text(c.email), Text(c.address)]
    ensures InsertParams([ClientToObj(c)], NonKeyFields(GetFields(ClientType))) ==
            InsertParams([ClientToObj(c.(id := id))], NonKeyFields(GetFields(ClientType)))
  {
    ClientKeys();
    var fs := NonKeyFields(GetFields(ClientType));
    SingleInsertParams(ClientToObj(c), fs);
    SingleInsertParams(ClientToObj(c.(id := id)), fs);
    ClientValues(c);
    ClientValues(c.(id := id));
  }

  /** A bill read back by order: the `Integer` key, the order, and the
      amount and timestamp tokens. */
  datatype Bill = Bill(id: Option<int>, orderId: int, amount: Value, timestamp: Value)

  /** One row of the order-details report. */
  datatype OrderDetails = OrderDetails(
    orderId: int,
    clientFullName: Value,
    productName: Value,
    quantity: int,
    totalPrice: Value,
    orderDate: Value)
}
