# Warehouse Orders Management — the generic data-access layer, in Dafny

The application keeps clients, products, orders and bills in PostgreSQL
through a small annotation-driven object-relational layer. Entity classes
carry `@Table` and `@Column` metadata, and `DAOUtils` reads it. From that
metadata one generic `AbstractDAO<T>` builds its statements:

- `CREATE TABLE IF NOT EXISTS`, with PostgreSQL triggers that guard the
  non-updatable columns;
- a batch `INSERT`;
- a lookup by key and a full listing;
- `UPDATE` and `DELETE`.

A few concrete DAOs add their own queries:

- the stock decrease of a product;
- the bill of an order;
- the last order id;
- the order-details report joining orders with their client and product.

The client business layer validates a client (e-mail and address regular
expressions) before it inserts or updates it. The table views turn snake_case
column names into headers.

The model has these parts:

- **Entity metadata** (`Annotations`, `Model`): an annotated class is a
  value. It has its table name and its declared fields in order, each with
  its `@Column` attributes and their declared defaults. An entity object is
  a map from Java field name to value, as reflection sees it.
- **The store** (`Store`): a model of the database the layer talks to.
  - Tables are maps from identity value to row. Their names are folded to
    lower case, as PostgreSQL folds unquoted identifiers.
  - A catalog holds the guard functions and triggers.
  - A log records every statement executed, with its text and its 1-based
    parameters; queries leave no entry.
  - `Exec` gives the meaning of each statement and `Eval` that of each
    query.
  - The class `Store.Database` holds this state and is what the DAO
    methods modify.

  The store is not code of the repository; it is the environment the code
  relies on, so it has no rows in the table below.
- **Statement texts** (`Statements`): the exact SQL strings the DAO
  builds. Lemmas show their shape: the clause list, the column list, and
  one placeholder per bound parameter.
- **Operations** (`DaoUtils`, `AbstractDao`, `ProductDao`, `BillDao`,
  `OrderDao`, `ClientBll`):
  - Each operation is a function from the state to an outcome and a new
    state, or to a result.
  - Where the source works step by step on a connection, a method over
    `Store.Database` implements it, proved equal to that function. The
    loops (parameter collection, parameter binding, row mapping, guard
    installation, report reading) keep their loop form.
  - `ClientBll.ClientBll` is a class holding its data-access object and its
    validator list.
- **Validators**: `IsValidEmail` and `IsValidAddress` are recognisers. For
  each, a lemma proves it equal to a direct reading of the regular
  expression the validator compiles.
- **Headers** (`TableView`): Java's `String.split` semantics (trailing empty
  segments dropped), ASCII capitalisation, and joining with spaces.

Exceptions are modelled as the `Error` values of an `Outcome` or a `Result`:

- `SQLException` becomes `SqlError(...)`;
- the `NullPointerException` thrown when the connection `DbConnection` returned is `null` becomes `NullConnection`;
- the missing-annotation `RuntimeException`s become `MissingTable` and `MissingPrimaryKey`;
- a missing no-argument constructor becomes `NoDefaultConstructor`;
- `UnsupportedOperationException` becomes `UnsupportedOperation`;
- `IllegalStateException` becomes `NotEnoughStock`;
- `InvalidEmailException` becomes `InvalidEmail`;
- `IllegalArgumentException` becomes `IllegalArgument`;
- the `RuntimeException` wrapper becomes `Wrapped`.

Where the code and the written description of the system disagree, the
model follows the code:

- The immutability guards are installed for every non-updatable column, the
  primary key included.
- When several fields are marked as primary key, the first one wins; no
  error is raised.
- `update` leaves out of its SET list only the field chosen as key, while
  `insert` leaves out every key column.

## Model

Paths are relative to the repository root. `AbstractDAO.java` and
`DAOUtils.java` stand for `src/main/java/app/dao/AbstractDAO.java` and
`src/main/java/app/dao/utils/DAOUtils.java`. All paths are written out in
full in the table.

| member | source | states |
|---|---|---|
| Annotations.NewInstance | src/main/java/app/dao/AbstractDAO.java:178 | a freshly constructed object has a value for every declared field of its class |
| Annotations.InitialFields | src/main/java/app/dao/AbstractDAO.java:178 | the initial object holds every field of the list |
| DaoUtils.GetTableName | src/main/java/app/dao/utils/DAOUtils.java:33-39 | the name is returned exactly when `@Table` is present, and it is the annotation's name; otherwise it fails with the missing-table error |
| DaoUtils.Annotated | src/main/java/app/dao/utils/DAOUtils.java:49-54 | keeps exactly the fields that carry `@Column`, in order |
| DaoUtils.AnnotatedAppend | src/main/java/app/dao/utils/DAOUtils.java:49-54 | the annotated-field filter distributes over concatenation |
| DaoUtils.GetFields | src/main/java/app/dao/utils/DAOUtils.java:49-54 | the persisted fields are exactly the declared fields that carry `@Column` |
| DaoUtils.ColumnsOf | src/main/java/app/dao/utils/DAOUtils.java:53-55 | one column descriptor per field, position by position |
| DaoUtils.FirstKeyField | src/main/java/app/dao/utils/DAOUtils.java:66-75 | none exactly when no field is a key; otherwise a key field before which no field is a key |
| DaoUtils.FirstKeyName | src/main/java/app/dao/utils/DAOUtils.java:84-91 | none exactly when no column is a key; otherwise the name of a key column before which no column is a key |
| DaoUtils.GetPrimaryKeyField | src/main/java/app/dao/utils/DAOUtils.java:66-75 | the result is a persisted key field, or the missing-primary-key error |
| DaoUtils.GetPrimaryKeyName | src/main/java/app/dao/utils/DAOUtils.java:84-91 | fails with the missing-primary-key error exactly when no column is a key; otherwise the name of a key column |
| DaoUtils.FirstKeyAgree | src/main/java/app/dao/utils/DAOUtils.java:66-91 | the key-field lookup and the key-name lookup find the same first key |
| DaoUtils.PrimaryKeyAgree | src/main/java/app/dao/utils/DAOUtils.java:66-91 | `getPrimaryKeyField` and `getPrimaryKeyName` fail together, with the same error; otherwise the name is that of the field's column |
| DaoUtils.PrimaryKeyIsFirst | src/main/java/app/dao/utils/DAOUtils.java:66-75 | the lookup fails exactly when no persisted field is a key; otherwise it returns the first key field in declaration order |
| DaoUtils.BuildColumnDefinition | src/main/java/app/dao/utils/DAOUtils.java:100-111 | a definition opens with the column name and a space; for a non-key column the declared type follows |
| DaoUtils.KeyDefinitionText | src/main/java/app/dao/utils/DAOUtils.java:102-103 | a key column is defined as its name followed by `INTEGER GENERATED ALWAYS AS IDENTITY`, whatever its declared type |
| DaoUtils.ColumnDefinitionWords | src/main/java/app/dao/utils/DAOUtils.java:100-111 | split at spaces, a definition is the name followed by the identity words for a key, or by the declared type's words and `NOT NULL` exactly when the column is not nullable |
| DaoUtils.NullableDefinitionWords | src/main/java/app/dao/utils/DAOUtils.java:105-109 | a nullable non-key column is its name and its type's words, no `NOT NULL` |
| DaoUtils.NotNullDefinitionWords | src/main/java/app/dao/utils/DAOUtils.java:105-109 | a non-nullable non-key column ends with `NOT NULL` |
| DaoUtils.KeyDefinitionWords | src/main/java/app/dao/utils/DAOUtils.java:102-103 | a key column's definition splits into its name and the five identity words |
| DaoUtils.BuildForeignKeyConstraints | src/main/java/app/dao/utils/DAOUtils.java:119-125 | a clause exists exactly for each column whose foreign-key table and column are both non-empty, and there are no more clauses than columns |
| DaoUtils.ForeignKeysAppend | src/main/java/app/dao/utils/DAOUtils.java:119-125 | the clauses keep column order: building them distributes over concatenation |
| DaoUtils.RequiredGuards | src/main/java/app/dao/utils/DAOUtils.java:141-146 | a guard exists exactly for each non-updatable column, named after the table and the column |
| DaoUtils.RequiredGuardsAppend | src/main/java/app/dao/utils/DAOUtils.java:141-146 | guards follow column order |
| DaoUtils.ImmutabilityTriggers | src/main/java/app/dao/utils/DAOUtils.java:134-177 | installing the triggers changes no table and no row and removes no trigger; without `@Table` it fails and changes nothing; with a table but no connection it fails with the `NullPointerException` of the null connection (`NullConnection`) and changes nothing |
| DaoUtils.ColumnDefaults | src/main/java/app/annotations/Column.java:38-70 | a column declared with only a name and a type is not a key, is nullable and updatable and has no foreign key; so its definition is `name type`, with no guard and no foreign-key clause |
| DaoUtils.SetImmutabilityTriggers | src/main/java/app/dao/utils/DAOUtils.java:134-177 | the method's outcome and the new store are those of the specification of trigger installation, and the store stays consistent |
| DaoUtils.InstallColumnGuards | src/main/java/app/dao/utils/DAOUtils.java:141-175 | the loop over the fields installs, in order, the guard of every non-updatable column and stops at the first failure |
| DaoUtils.InstallOneGuard | src/main/java/app/dao/utils/DAOUtils.java:148-172 | one guard: the trigger name is looked up in the catalog, and the function and the trigger are created only when it is absent |
| DaoUtils.InstallStep | src/main/java/app/dao/utils/DAOUtils.java:141-175 | one more field adds its guard's installation exactly when the field is not updatable |
| DaoUtils.InstallStops | src/main/java/app/dao/utils/DAOUtils.java:141-175 | a failing guard ends the installation with that failure |
| DaoUtils.InstallGuardsAppend | src/main/java/app/dao/utils/DAOUtils.java:141-175 | installing two lists is installing the first, then, if it passed, the second |
| DaoUtils.InstallGuardsGrow | src/main/java/app/dao/utils/DAOUtils.java:141-175 | installation only adds triggers; tables and connectivity do not change |
| DaoUtils.InstallGuardsCover | src/main/java/app/dao/utils/DAOUtils.java:141-175 | after a successful installation every guard's trigger name is taken |
| DaoUtils.InstallGuardsSkip | src/main/java/app/dao/utils/DAOUtils.java:148-150 | when every trigger name is already taken, no statement is executed and nothing changes |
| DaoUtils.ImmutabilityTriggersIdempotent | src/main/java/app/dao/utils/DAOUtils.java:134-177 | running the trigger installation again after it succeeded changes nothing: it is idempotent |
| DaoUtils.InstallGuardsKeep | src/main/java/app/dao/utils/DAOUtils.java:151-171 | installing other guards keeps an installed guard in place |
| DaoUtils.InstallGuardsEstablish | src/main/java/app/dao/utils/DAOUtils.java:141-175 | on fresh trigger names with distinct functions, installation succeeds and every guard ends up installed on the table |
| DaoUtils.GuardProtects | src/main/java/app/dao/utils/DAOUtils.java:155-158 | an installed guard lets a row update through only when it leaves the guarded column's value unchanged (`IS DISTINCT FROM`); when its column is the only guarded one on the table, an update passes exactly when it leaves that column unchanged |
| Store.GuardsAllowIff | src/main/java/app/dao/utils/DAOUtils.java:155-158 | the triggers of a table let an update through exactly when, for every trigger, the column its function guards keeps its value |
| DaoUtils.InstallGuardKeepsOnly | src/main/java/app/dao/utils/DAOUtils.java:148-172 | installing a guard of column `c` on a table guarded only on `c` keeps it guarded only on `c` |
| DaoUtils.InstallGuardsKeepOnly | src/main/java/app/dao/utils/DAOUtils.java:141-175 | installing guards all of column `c` keeps a table guarded only on `c` |
| DaoUtils.ImmutabilityTriggersKeepOnly | src/main/java/app/dao/utils/DAOUtils.java:134-177 | when the key is the only non-updatable column, `setImmutabilityTriggers` keeps the table guarded on the key alone |
| DaoUtils.SoleGuardOnlyKey | src/main/java/app/dao/utils/DAOUtils.java:141-146 | when the only guard a type needs is its key's, no other column is non-updatable |
| DaoUtils.GuardNamesAgree | src/main/java/app/dao/utils/DAOUtils.java:145-146 | two guards of a table share a function name exactly when they share a trigger name |
| DaoUtils.ImmutabilityGuardsHold | src/main/java/app/dao/utils/DAOUtils.java:134-177 | after installation on fresh names, no row update that passes the table's triggers changes a non-updatable column |
| Statements.Names | src/main/java/app/dao/AbstractDAO.java:90-93 | one name per column, in order |
| Statements.Definitions | src/main/java/app/dao/AbstractDAO.java:53-55 | one definition per column, in order |
| Statements.CreateTableSql | src/main/java/app/dao/AbstractDAO.java:53-63 | the CREATE text is the prefix and the table name, then the comma-joined clauses between parentheses |
| Statements.CreateTableShape | src/main/java/app/dao/AbstractDAO.java:53-63 | the CREATE text opens with the table name, and between its parentheses the comma-separated clauses are the column definitions in order, then exactly one PRIMARY KEY clause, then the foreign-key clauses |
| Statements.NonKeyFields | src/main/java/app/dao/AbstractDAO.java:90-93 | INSERT's fields are exactly the persisted fields that are not keys, in order |
| Statements.FieldNames | src/main/java/app/dao/AbstractDAO.java:92 | one column name per field, in order |
| Statements.InsertSql | src/main/java/app/dao/AbstractDAO.java:88-111 | the INSERT text is the table name, the comma-joined column names between parentheses, `) VALUES ` and the comma-joined groups, at known positions |
| Statements.InsertShape | src/main/java/app/dao/AbstractDAO.java:86-115 | the INSERT text opens with the table name; the text between its first parentheses splits at commas into exactly the non-key column names, and `) VALUES ` and the groups follow; it holds one `?` per object and column and one opening parenthesis per group plus one |
| Statements.InsertCounts | src/main/java/app/dao/AbstractDAO.java:96-111 | placeholders and groups are counted as objects times columns, and objects plus one |
| Statements.GroupCounts | src/main/java/app/dao/AbstractDAO.java:98-109 | one VALUES group holds one placeholder per column and one opening parenthesis |
| Statements.ValuesOf | src/main/java/app/dao/AbstractDAO.java:98-106 | the values of an object's fields, position by position |
| Statements.InsertParamsAppend | src/main/java/app/dao/AbstractDAO.java:96-111 | parameters are collected object after object |
| Statements.InsertParamsLength | src/main/java/app/dao/AbstractDAO.java:96-111 | there are objects times non-key fields parameters |
| Statements.InsertParamAt | src/main/java/app/dao/AbstractDAO.java:96-111 | parameter `i·n + j` is field `j` of object `i` |
| Statements.Positional | src/main/java/app/dao/AbstractDAO.java:144-147 | the binding covers exactly positions 1 to n, and position `i + 1` holds parameter `i` |
| Statements.OtherFields | src/main/java/app/dao/AbstractDAO.java:245-246 | UPDATE's fields are exactly the persisted fields other than the chosen key field |
| Statements.Assignments | src/main/java/app/dao/AbstractDAO.java:255 | each SET item is `name = ?`, in order |
| Statements.UpdateParams | src/main/java/app/dao/AbstractDAO.java:245-261 | the UPDATE parameters are the set values in field order, followed by the key's value |
| Statements.UpdateSql | src/main/java/app/dao/AbstractDAO.java:242-259 | the UPDATE text is the table name, ` SET `, the comma-joined assignments, ` WHERE ` and the key condition, at known positions |
| Statements.UpdateShape | src/main/java/app/dao/AbstractDAO.java:242-261 | the UPDATE text opens with the table name; the text between ` SET ` and ` WHERE ` splits at commas into one `name = ?` per set column, in order; the key condition follows; it holds one `?` per set column plus one for the key |
| Statements.KeyedShapes | src/main/java/app/dao/AbstractDAO.java:170-287 | the keyed SELECT, the listing and the DELETE open with the table name; the keyed ones hold one placeholder and the listing none |
| Statements.SelectByKeyCount | src/main/java/app/dao/AbstractDAO.java:170 | the lookup has exactly one placeholder |
| Statements.SelectAllCount | src/main/java/app/dao/AbstractDAO.java:206 | the listing has no placeholder |
| Statements.DeleteCount | src/main/java/app/dao/AbstractDAO.java:287 | the DELETE has exactly one placeholder |
| AbstractDao.FillFieldsFails | src/main/java/app/dao/AbstractDAO.java:179-183 | row mapping fails exactly when some field's column is missing from the row |
| AbstractDao.FillFieldsReads | src/main/java/app/dao/AbstractDAO.java:179-183 | with every column present, each field takes its column's value and no field of the object is lost |
| AbstractDao.FillFieldsKeeps | src/main/java/app/dao/AbstractDAO.java:179-183 | a field no column writes keeps its value |
| AbstractDao.FillFields | src/main/java/app/dao/AbstractDAO.java:179-183 | row mapping fails only with an undefined-column error, and a successful mapping keeps every field the object had |
| AbstractDao.FromRowsEach | src/main/java/app/dao/AbstractDAO.java:213-221 | mapping rows succeeds exactly when each row maps, and then gives one object per row, in order |
| AbstractDao.FromRowsAppend | src/main/java/app/dao/AbstractDAO.java:213-221 | mapping rows distributes over concatenation, the first failure winning |
| AbstractDao.FromRowsStops | src/main/java/app/dao/AbstractDAO.java:213-221 | a failing row ends the listing with its failure |
| AbstractDao.CreateTableResult | src/main/java/app/dao/AbstractDAO.java:49-75 | without `@Table` the missing-table error; without a key or a connection a failure; in all three cases the store is unchanged; with a table and a key but no connection the failure is the `NullPointerException` of the null connection (`NullConnection`) |
| AbstractDao.InsertListResult | src/main/java/app/dao/AbstractDAO.java:135-154 | without `@Table` the missing-table error; without a connection a failure; in both cases the store is unchanged; with a table but no connection the failure is the `NullPointerException` of the null connection (`NullConnection`) |
| AbstractDao.FindByIdResult | src/main/java/app/dao/AbstractDAO.java:165-196 | without `@Table` the missing-table error; without a key or a connection an error; with a table and a key but no connection the error is the `NullPointerException` of the null connection (`NullConnection`) |
| AbstractDao.FindAllResult | src/main/java/app/dao/AbstractDAO.java:204-227 | without `@Table` the missing-table error; without a connection an error; with a table but no connection the error is the `NullPointerException` of the null connection (`NullConnection`) |
| AbstractDao.UpdateResult | src/main/java/app/dao/AbstractDAO.java:236-274 | without `@Table` the missing-table error; without a key or a connection a failure; in all three cases the store is unchanged; with a table and a key but no connection the failure is the `NullPointerException` of the null connection (`NullConnection`) |
| AbstractDao.DeleteResult | src/main/java/app/dao/AbstractDAO.java:282-298 | without `@Table` the missing-table error; without a key or a connection a failure; in all three cases the store is unchanged; with a table and a key but no connection the failure is the `NullPointerException` of the null connection (`NullConnection`) |
| AbstractDao.PrepareInsertQueryAndParams | src/main/java/app/dao/AbstractDAO.java:86-115 | the loop returns the INSERT text and the parameters of every object's non-key fields, object by object; there are objects times fields of them |
| AbstractDao.NonKeyValues | src/main/java/app/dao/AbstractDAO.java:98-108 | the values of one object's non-key fields, in field order |
| AbstractDao.OtherValues | src/main/java/app/dao/AbstractDAO.java:245-257 | the values of one object's fields other than the key field, in field order |
| AbstractDao.BindParams | src/main/java/app/dao/AbstractDAO.java:144-147 | the loop binds parameter `i` at position `i + 1` and binds no other position |
| AbstractDao.MapRow | src/main/java/app/dao/AbstractDAO.java:178-184 | the loop builds the same object as row mapping |
| AbstractDao.CreateTableIfNotExists | src/main/java/app/dao/AbstractDAO.java:49-75 | the outcome and new store are those of the specification: names looked up, CREATE sent, then guards installed only when it passed |
| AbstractDao.InsertList | src/main/java/app/dao/AbstractDAO.java:135-154 | the outcome and new store are those of one batch INSERT with its parameters bound in order, followed by one commit |
| AbstractDao.Insert | src/main/java/app/dao/AbstractDAO.java:124-126 | `insert(obj)` is `insertList([obj])` |
| AbstractDao.FindById | src/main/java/app/dao/AbstractDAO.java:165-196 | the result is the specification's lookup: the mapped first matching row, or none |
| AbstractDao.FindAll | src/main/java/app/dao/AbstractDAO.java:204-227 | the result is the specification's listing ordered by `id` |
| AbstractDao.Update | src/main/java/app/dao/AbstractDAO.java:236-274 | the outcome and new store are those of the UPDATE of every non-key field under the key's value |
| AbstractDao.Delete | src/main/java/app/dao/AbstractDAO.java:282-298 | the outcome and new store are those of the DELETE under the given key value |
| AbstractDao.FindByIdFinds | src/main/java/app/dao/AbstractDAO.java:165-196 | `findById` returns the mapped row stored under the key value, and none (Java `null`) when no row has that key |
| AbstractDao.FindAllUnfold | src/main/java/app/dao/AbstractDAO.java:204-227 | on a table keyed by `id` the listing maps the stored rows in ascending key order; on a table keyed by another column the model reports the column `id` as undefined (see Left out) |
| AbstractDao.FindAllInKeyOrder | src/main/java/app/dao/AbstractDAO.java:204-227 | the listing succeeds exactly when every stored row maps, and returns one object per row in ascending key order |
| AbstractDao.EmptyBatchRejected | src/main/java/app/dao/AbstractDAO.java:135-154 | an empty batch is a malformed statement: it is rejected and no row is added |
| AbstractDao.InsertListAppends | src/main/java/app/dao/AbstractDAO.java:135-154 | a batch adds one row per object with consecutive identity values, sends one statement and then one commit, and keeps the catalog |
| AbstractDao.InsertedRowReads | src/main/java/app/dao/AbstractDAO.java:86-115 | the row a single insert adds holds every non-key field's value under its column and the generated id under the key |
| AbstractDao.InsertedRow | src/main/java/app/dao/AbstractDAO.java:124-154 | a single insert stores its row under the next identity value and keeps the store consistent |
| AbstractDao.InsertThenFindById | src/main/java/app/dao/AbstractDAO.java:124-196 | round trip: the object inserted is found under its new id, with every non-key field as inserted and the key holding the id |
| AbstractDao.UpdateKeyParam | src/main/java/app/dao/AbstractDAO.java:259-261 | the key's value is the last parameter, bound after all set values |
| AbstractDao.UpdateChangesOnlyTarget | src/main/java/app/dao/AbstractDAO.java:236-274 | `update` changes at most the row of its table stored under the object's key value; no table, row or trigger appears or disappears |
| AbstractDao.UpdateWritesFields | src/main/java/app/dao/AbstractDAO.java:236-274 | on a stored row, `update` either writes every non-key field's value into its column or is refused by an immutability guard and changes nothing; when only the key column is guarded it passes |
| AbstractDao.UpdateOthersPasses | src/main/java/app/dao/AbstractDAO.java:242-269 | with only the key column guarded, the UPDATE of a stored row, which sets only non-key columns, passes |
| AbstractDao.UpdateThenFindById | src/main/java/app/dao/AbstractDAO.java:165-274 | round trip: with only the key guarded, `update` of a stored row passes and `findById` of its key then gives an object agreeing with the updated one on every field |
| AbstractDao.UpdatedRowValid | src/main/java/app/dao/AbstractDAO.java:236-274 | `update` keeps the store well formed (every row holds its own key) |
| AbstractDao.OtherFieldsOfFirst | src/main/java/app/dao/AbstractDAO.java:245-246 | when the key is the first field and occurs once, the fields UPDATE sets are all the others, in order |
| AbstractDao.UpdateAssignsReady | src/main/java/app/dao/AbstractDAO.java:245-261 | the SET list assigns distinct non-key columns, each from a bound parameter |
| AbstractDao.OtherFieldsDistinct | src/main/java/app/dao/AbstractDAO.java:245-246 | the fields UPDATE sets keep the distinct names of the fields |
| AbstractDao.DeleteRemovesOnlyRow | src/main/java/app/dao/AbstractDAO.java:282-298 | `delete` removes the row under the key value, if any, and changes nothing else |
| AbstractDao.DeleteThenFindNone | src/main/java/app/dao/AbstractDAO.java:165-298 | after `delete(id)`, `findById(id)` finds nothing |
| AbstractDao.CreateTableInstalls | src/main/java/app/dao/AbstractDAO.java:49-75 | after success the table exists and every required guard's trigger is present; a new table is empty, keyed by the key column, with identity at 1; an existing one is untouched |
| AbstractDao.CreateTableGuardsOnlyKey | src/main/java/app/dao/AbstractDAO.java:49-75 | when the key is the only non-updatable column, `createTableIfNotExists` keeps the table guarded on the key alone |
| AbstractDao.CreateTableSoleGuard | src/main/java/app/dao/AbstractDAO.java:49-75 | the same, for a type whose only required guard is its key's |
| AbstractDao.CreateTableIdempotent | src/main/java/app/dao/AbstractDAO.java:49-75 | a second `createTableIfNotExists` changes nothing but the log, which gains one CREATE: no table and no trigger is created twice |
| AbstractDao.InsertBindsEveryPlaceholder | src/main/java/app/dao/AbstractDAO.java:86-147 | the INSERT text holds as many placeholders as parameters are bound |
| AbstractDao.UpdateBindsEveryPlaceholder | src/main/java/app/dao/AbstractDAO.java:242-268 | the UPDATE text holds as many placeholders as parameters are bound |
| Model.KeyFirst | src/main/java/app/dao/utils/DAOUtils.java:49-91 | for an entity whose first field is its only key, every field is persisted, all but the first are inserted, and the first is the key |
| Model.KeyGuardOnly | src/main/java/app/dao/utils/DAOUtils.java:141-146 | when only the first column is immutable, its guard is the only one |
| Model.SoleKeyGuard | src/main/java/app/dao/utils/DAOUtils.java:141-146 | an entity whose first field alone is immutable needs exactly one guard |
| Model.EveryColumnGuarded | src/main/java/app/dao/utils/DAOUtils.java:141-146 | an entity whose every field is immutable needs one guard per column, in order |
| Model.OrderMetadata | src/main/java/app/model/Order.java:12-49 | `Order` maps to `orders`, keyed by `id`; five columns are inserted in declaration order; every non-key column is NOT NULL |
| Model.OrderForeignKeys | src/main/java/app/model/Order.java:24-31 | `client_id` references `clients(id)` and `product_id` references `products(id)`, and there are no other foreign keys |
| Model.OrderGuards | src/main/java/app/model/Order.java:18-49 | only the key of `orders` is guarded |
| Model.OrderKeyTrigger | src/main/java/app/dao/utils/DAOUtils.java:146 | the trigger protecting the key of `orders` is `no_update_orders_id` |
| Model.KeyNames | src/main/java/app/model/Order.java:18 | the key fields of `Order`, `Client` and `Product` are called `id` |
| Model.ClientMetadata | src/main/java/app/model/Client.java:11-42 | `Client` maps to `clients`, keyed by `id`, with four NOT NULL VARCHAR columns inserted in declaration order |
| Model.ClientConstraints | src/main/java/app/model/Client.java:17-42 | `Client` has no foreign key and only the key is guarded |
| Model.ProductMetadata | src/main/java/app/model/Product.java:11-37 | `Product` maps to `products`, keyed by `id`, with three NOT NULL columns inserted in order |
| Model.ProductConstraints | src/main/java/app/model/Product.java:17-37 | `Product` has no foreign key and only the key is guarded |
| Model.BillMetadata | src/main/java/app/model/Bill.java:14-27 | `Bill` maps to table `Log`, keyed by `id`; every column is NOT NULL and immutable; a record has no no-argument constructor |
| Model.BillGuards | src/main/java/app/model/Bill.java:15-27 | all four columns of `Log` are guarded, key included, in declaration order |
| Model.BillForeignKeys | src/main/java/app/model/Bill.java:15-27 | `Bill` declares no foreign key |
| Model.OrderDetailsMetadata | src/main/java/app/model/OrderDetails.java:11-48 | `OrderDetails` has six nullable, updatable, non-key columns named like the report's aliases |
| Model.NoKeyIn | src/main/java/app/dao/utils/DAOUtils.java:66-91 | an entity without a key field fails both key lookups with the missing-primary-key error |
| Model.OrderDetailsNoKey | src/main/java/app/model/OrderDetails.java:17-48 | `OrderDetails` has no key, so both key lookups fail |
| Model.OrderDetailsGuards | src/main/java/app/model/OrderDetails.java:17-48 | `OrderDetails` needs no guard |
| Model.NewClient | src/main/java/app/model/Client.java:57-62 | the id-less constructor leaves the id at 0 |
| Model.ClientToObj | src/main/java/app/model/Client.java:17-42 | a client is an instance of the client entity type: every field has a value |
| Model.ClientRoundTrip | src/main/java/app/model/Client.java:146-154 | a client read back from its fields is equal to itself, with the equality `equals` defines |
| Model.ClientInsertIgnoresId | src/main/java/app/dao/AbstractDAO.java:96-111 | a client's INSERT parameters are its four non-key fields in order; its id is never sent |
| ProductDao.DecreaseStock | src/main/java/app/dao/ProductDAO.java:31-59 | the outcome and new store are those of the specification: stock check, then UPDATE; without a connection, the `NullPointerException` of the null connection (`NullConnection`) and no change |
| ProductDao.DecreaseStockResult | src/main/java/app/dao/ProductDAO.java:31-59 | without a connection the `NullPointerException` of the null connection (`NullConnection`), thrown at the first `prepareStatement`, and no change; a refusal for lack of stock changes nothing |
| ProductDao.CheckFindsProduct | src/main/java/app/dao/ProductDAO.java:38-43 | the stock query finds the row stored under the product's id, or nothing |
| ProductDao.DecreaseStockRejects | src/main/java/app/dao/ProductDAO.java:43-47 | a stock below the quantity is refused with the not-enough-stock error, and no statement is executed |
| ProductDao.DecreaseStockSubtracts | src/main/java/app/dao/ProductDAO.java:31-59 | with enough stock, the stock goes down by exactly the quantity and nothing else changes (no guard on `stock`, result within 32 bits) |
| ProductDao.UpdateStores | src/main/java/app/dao/ProductDAO.java:50-54 | the UPDATE stores the lowered stock in the product's row |
| ProductDao.SubtractStock | src/main/java/app/dao/ProductDAO.java:50 | `stock = stock - ?` takes the quantity off the stored stock |
| ProductDao.DecreaseStockOverflows | src/main/java/app/dao/ProductDAO.java:50-54 | a stock that would leave the 32-bit range makes the UPDATE fail, leaving the tables unchanged |
| ProductDao.UpdateOverflows | src/main/java/app/dao/ProductDAO.java:50-54 | the out-of-range UPDATE is the engine's range error |
| ProductDao.DecreaseStockUnknownProduct | src/main/java/app/dao/ProductDAO.java:43-54 | an unknown product is not an error: the UPDATE is sent, matches nothing and changes no table |
| ProductDao.DecreaseStockChangesOnlyProduct | src/main/java/app/dao/ProductDAO.java:31-59 | whatever the state, at most the product's own row changes |
| ProductDao.DecreaseRunsUpdate | src/main/java/app/dao/ProductDAO.java:43-54 | once the check passes, the outcome is the UPDATE's |
| BillDao.Update | src/main/java/app/dao/BillDAO.java:28-31 | updating a bill always fails with the unsupported-operation error |
| BillDao.GetBillByOrderIdResult | src/main/java/app/dao/BillDAO.java:39-62 | the result is the `NullPointerException` of the null connection (`NullConnection`), unwrapped, exactly when there is no connection; over a connection every failure is an `SQLException` wrapped in a `RuntimeException`; a bill found belongs to the order asked for and has an id |
| BillDao.GetBillByOrderId | src/main/java/app/dao/BillDAO.java:39-62 | the method returns what the specification of the lookup by order gives, so the null connection escapes unwrapped |
| BillDao.NoBillIffNoMatch | src/main/java/app/dao/BillDAO.java:49-56 | no bill (Java `null`) is returned exactly when no stored bill belongs to the order |
| BillDao.FirstBillRead | src/main/java/app/dao/BillDAO.java:49-53 | the bill returned is that of the least key belonging to the order, with that key, that order, and the stored amount and timestamp; a failing read is wrapped |
| OrderDao.GetLastIdResult | src/main/java/app/dao/OrderDAO.java:79-92 | the result is the `NullPointerException` of the null connection (`NullConnection`) exactly when there is no connection; over a connection a failure of `getLastId` is a database error |
| OrderDao.GetLastId | src/main/java/app/dao/OrderDAO.java:79-92 | the method returns what the specification of `getLastId` gives, so the null connection escapes |
| OrderDao.LastIdUnfold | src/main/java/app/dao/OrderDAO.java:80-90 | `getLastId` reads the first row of the descending listing, or -1 |
| OrderDao.EmptyOrdersGiveMinusOne | src/main/java/app/dao/OrderDAO.java:86-90 | `getLastId` returns -1 exactly when there is no order |
| OrderDao.LastIdIsGreatest | src/main/java/app/dao/OrderDAO.java:80-87 | otherwise it returns a stored order id that no other stored id exceeds |
| OrderDao.LastIdOf | src/main/java/app/dao/OrderDAO.java:80-87 | on a non-empty table the id returned is the last listed key |
| OrderDao.LastRowFirst | src/main/java/app/dao/OrderDAO.java:80 | the descending listing starts with the row of the greatest key |
| OrderDao.LastKeyGreatest | src/main/java/app/dao/OrderDAO.java:80 | the last key listed is the greatest key |
| OrderDao.LastRowId | src/main/java/app/dao/OrderDAO.java:86-87 | the first row of the descending listing carries the greatest key as its `id` |
| OrderDao.ReadDetail | src/main/java/app/dao/OrderDAO.java:52-59 | reading one report row fails only with a database error |
| OrderDao.DetailsOf | src/main/java/app/dao/OrderDAO.java:51-60 | the report has one record per row, or the failure of a row |
| OrderDao.DetailedOrdersResult | src/main/java/app/dao/OrderDAO.java:34-71 | the result is the `NullPointerException` of the null connection (`NullConnection`), which the `catch (SQLException e)` does not catch, exactly when there is no connection; over a connection a failure of the report is a database error, rethrown as it is |
| OrderDao.GetDetailedOrders | src/main/java/app/dao/OrderDAO.java:34-71 | the loop over the result set returns what the specification of the report gives, so the null connection escapes |
| OrderDao.DetailsOfStep | src/main/java/app/dao/OrderDAO.java:51-59 | a readable row adds its record at the end of the report |
| OrderDao.DetailsOfStops | src/main/java/app/dao/OrderDAO.java:51-63 | a row that cannot be read ends the report with its failure |
| OrderDao.PairingsAtMostOne | src/main/java/app/dao/OrderDAO.java:45-46 | an order joined with at most one client and one product gives one record when both exist, none otherwise |
| OrderDao.JoinIsInner | src/main/java/app/dao/OrderDAO.java:42-46 | joining on the keys of `clients` and `products` is the reference inner join: one record per order whose client and product both exist, in order |
| OrderDao.DetailedOrdersJoin | src/main/java/app/dao/OrderDAO.java:34-71 | the report reads the inner join of the orders, in key order, with their clients and products |
| OrderDao.DetailOfJoinedRow | src/main/java/app/dao/OrderDAO.java:42-59 | a record holds the order's id, the first and last name joined by one space, the product's name, and the quantity, total price and date |
| OrderDao.DetailsOfLength | src/main/java/app/dao/OrderDAO.java:51-60 | when every row reads, the report has one record per joined row, position by position |
| Validators.FirstIndexOf | src/main/java/app/bll/validators/EmailValidator.java:19 | the position of the first occurrence, or -1 when there is none |
| Validators.LastIndexOf | src/main/java/app/bll/validators/EmailValidator.java:19 | the position of the last occurrence, or -1 when there is none |
| Validators.IsValidEmail | src/main/java/app/bll/validators/EmailValidator.java:19-38 | an accepted address has at least six characters, holds an `@`, starts with a local-part character and ends with a letter |
| Validators.EmailMatchesPattern | src/main/java/app/bll/validators/EmailValidator.java:19-38 | the e-mail matcher accepts exactly the strings the e-mail expression describes |
| Validators.EmailSplitUnique | src/main/java/app/bll/validators/EmailValidator.java:19 | any split the expression admits is at the only `@` and the last `.` |
| Validators.EmailHasOneAt | src/main/java/app/bll/validators/EmailValidator.java:19 | an accepted address holds exactly one `@` |
| Validators.AddressMatchesPattern | src/main/java/app/bll/validators/AddressValidator.java:18-38 | the address matcher accepts exactly the non-empty strings of allowed characters, Java's `\s` included |
| Validators.IsValidAddress | src/main/java/app/bll/validators/AddressValidator.java:18-38 | an accepted address is non-empty and holds neither `@` nor `;` |
| Validators.AddressConcat | src/main/java/app/bll/validators/AddressValidator.java:18 | two accepted addresses joined are an accepted address |
| Validators.ValidatorsRejectEdges | src/main/java/app/bll/validators/AddressValidator.java:18-38 | neither check accepts the empty string, and a no-break space is not whitespace for `\s` |
| Validators.Validate | src/main/java/app/bll/validators/EmailValidator.java:34-38 | a failure names the validator: the invalid-e-mail error for the e-mail check, the illegal-argument error for the address check; a passed e-mail holds an `@` and a passed address is non-empty |
| Validators.ValidateMeansPattern | src/main/java/app/bll/validators/EmailValidator.java:33-38 | each validator passes exactly when its field matches its expression, and reads no other field |
| ClientBll.ValidateAll | src/main/java/app/bll/ClientBLL.java:69 | all validators pass exactly when each passes; a failure is that of the first failing validator |
| ClientBll.FirstFailureIsResult | src/main/java/app/bll/ClientBLL.java:69 | when every validator before the `i`-th passes and the `i`-th fails, the list's result is that failure |
| ClientBll.FirstFailureShifts | src/main/java/app/bll/ClientBLL.java:69 | a tail's first failure, after a passing head, is the first failure of the whole list |
| ClientBll.ValidateAllAppend | src/main/java/app/bll/ClientBLL.java:69 | validating against two lists is the first list, then the second |
| ClientBll.DefaultValidation | src/main/java/app/bll/ClientBLL.java:43-46 | with the constructor's list a bad e-mail is reported before a bad address is looked at |
| ClientBll.Swallow | src/main/java/app/bll/ClientBLL.java:71-72 | database failures (`SQLException`) are logged and swallowed; any other failure, the null connection among them, is reported unchanged |
| ClientBll.InsertClientResult | src/main/java/app/bll/ClientBLL.java:67-76 | `insertClient` never reports a database error; a valid client without a connection fails with the `NullPointerException` of the null connection (`NullConnection`), which escapes the `catch`, and changes nothing |
| ClientBll.UpdateClientResult | src/main/java/app/bll/ClientBLL.java:113-122 | `updateClient` never reports a database error; a valid client without a connection fails with the `NullPointerException` of the null connection (`NullConnection`), which escapes the `catch`, and changes nothing |
| ClientBll.FindClientByIdResult | src/main/java/app/bll/ClientBLL.java:84-91 | a failed lookup gives `null` |
| ClientBll.ToClients | src/main/java/app/bll/ClientBLL.java:98-105 | the objects become clients exactly when each denotes one, position by position |
| ClientBll.FindAllClientsResult | src/main/java/app/bll/ClientBLL.java:98-105 | a failed listing gives the empty list |
| ClientBll.ClientBll.constructor | src/main/java/app/bll/ClientBLL.java:43-48 | the validators are the e-mail check, then the address check |
| ClientBll.ClientBll.RunValidators | src/main/java/app/bll/ClientBLL.java:69 | the loop runs the validators in order and stops at the first failure |
| ClientBll.ClientBll.CreateTable | src/main/java/app/bll/ClientBLL.java:53-59 | creates the clients table; a database failure is swallowed; without a connection the `NullPointerException` of the null connection (`NullConnection`) escapes and nothing changes |
| ClientBll.ClientBll.InsertClient | src/main/java/app/bll/ClientBLL.java:67-76 | validate, then insert; the result and new store are those of the specification, so a missing connection escapes as the `NullPointerException` of the null connection (`NullConnection`) |
| ClientBll.ClientBll.UpdateClient | src/main/java/app/bll/ClientBLL.java:113-122 | validate, then update; the result and new store are those of the specification, so a missing connection escapes as the `NullPointerException` of the null connection (`NullConnection`) |
| ClientBll.ClientBll.FindClientById | src/main/java/app/bll/ClientBLL.java:84-91 | returns what the specification of the lookup gives |
| ClientBll.ClientBll.FindAllClients | src/main/java/app/bll/ClientBLL.java:98-105 | returns what the specification of the listing gives |
| ClientBll.ClientBll.DeleteClient | src/main/java/app/bll/ClientBLL.java:130-137 | a delete whose every failure is rethrown |
| ClientBll.InvalidClientRejected | src/main/java/app/bll/ClientBLL.java:67-122 | a client failing validation is neither inserted nor updated; the failure is reported and the store untouched |
| ClientBll.ValidClientInsertedOnce | src/main/java/app/bll/ClientBLL.java:67-76 | a valid client is sent in one INSERT of its four fields and one commit, and nothing is reported |
| ClientBll.InsertThenFindClient | src/main/java/app/bll/ClientBLL.java:67-91 | round trip: a valid client inserted is found under its new id, equal to it but for the id |
| ClientBll.ClientFoundAfterInsert | src/main/java/app/bll/ClientBLL.java:70-86 | a client inserted through the DAO is found again, with its new id |
| ClientBll.FoundAfterInsert | src/main/java/app/dao/AbstractDAO.java:124-196 | for an entity laid out like `Client`, the object found after an insert denotes the client with its new id |
| ClientBll.ValidInsertIsDaoInsert | src/main/java/app/bll/ClientBLL.java:69-70 | a valid client goes to the DAO's insert unchanged |
| ClientBll.FoundClient | src/main/java/app/dao/AbstractDAO.java:178-184 | an object with the client's fields and a new key is that client with the new id |
| ClientBll.ClientReady | src/main/java/app/model/Client.java:11-42 | the client type's fields are all persisted, its key is the first, it has a single key and distinct names |
| ClientBll.KeyFirstReady | src/main/java/app/dao/utils/DAOUtils.java:49-75 | an entity whose first field is its only key, with distinct names, meets the generic lemmas' demands |
| ClientBll.FindStoredClient | src/main/java/app/bll/ClientBLL.java:84-91 | an id with no stored client gives `null`; a stored row that maps to an object gives the client that object denotes |
| ClientBll.UpdateThenFindClient | src/main/java/app/bll/ClientBLL.java:84-122 | round trip: `updateClient` of a valid stored client passes, with only `id` guarded, and `findClientById` then returns exactly that client |
| ClientBll.ClientFoundAfterUpdate | src/main/java/app/bll/ClientBLL.java:84-116 | a stored client updated through the DAO is found again unchanged |
| ClientBll.ValidUpdateIsDaoUpdate | src/main/java/app/bll/ClientBLL.java:115-116 | a valid client goes to the DAO's update unchanged |
| ClientBll.FoundAfterUpdate | src/main/java/app/bll/ClientBLL.java:84-116 | for a type laid out like `Client`, the object found after updating a stored client denotes that client |
| ClientBll.CreateClientTableGuardsOnlyId | src/main/java/app/bll/ClientBLL.java:53-58 | creating the `clients` table keeps `id` its only guarded column |
| ClientBll.ClientKeyAndOthers | src/main/java/app/model/Client.java:17-42 | a client's object holds its id under the key, and the key is not the only field |
| ClientBll.FoundSameClient | src/main/java/app/bll/ClientBLL.java:84-91 | an object agreeing with a client's object on every field is that client |
| TableView.JavaSplit | src/main/java/app/gui/displayUtils/TableViewBuilder.java:92 | no segment of the split contains the separator |
| TableView.DropTrailingEmpty | src/main/java/app/gui/displayUtils/TableViewBuilder.java:92 | a prefix of the segments that ends in a non-empty one; only empty segments are dropped |
| TableView.Capitalize | src/main/java/app/gui/displayUtils/TableViewBuilder.java:93 | same length; the first character upper-cased and the rest lower-cased |
| TableView.CapitalizeAll | src/main/java/app/gui/displayUtils/TableViewBuilder.java:93 | one capitalised word per segment, in order |
| TableView.CapitalizeKeeps | src/main/java/app/gui/displayUtils/TableViewBuilder.java:93 | capitalising keeps every non-letter character |
| TableView.FormatColumnName | src/main/java/app/gui/displayUtils/TableViewBuilder.java:91-96 | a name with no segment is shown unchanged; any other header holds no `_` |
| TableView.FormatIsJoinedWords | src/main/java/app/gui/displayUtils/TableViewBuilder.java:91-96 | the header is the capitalised segments joined by single spaces |
| TableView.WordPerSegment | src/main/java/app/gui/displayUtils/TableViewBuilder.java:91-96 | for a name without spaces, splitting the header at spaces gives back one word per segment |
| TableView.SingleWord | src/main/java/app/gui/displayUtils/TableViewBuilder.java:91-96 | a name without `_` becomes one capitalised word |
| TableView.JavaSplitJoin | src/main/java/app/gui/displayUtils/TableViewBuilder.java:92 | splitting a `_`-join of non-empty, `_`-free segments gives them back |
| TableView.FormatTwoWords | src/main/java/app/gui/displayUtils/TableViewBuilder.java:91-96 | a two-segment name is its two capitalised words around one space |
| TableView.FormatTotalPrice | src/main/java/app/gui/displayUtils/TableViewBuilder.java:91-96 | `total_price` is shown as `Total Price` |
| TableView.FormatQuantity | src/main/java/app/gui/displayUtils/TableViewBuilder.java:91-96 | `quantity` is shown as `Quantity` |
| TableView.FormatOnlyUnderscore | src/main/java/app/gui/displayUtils/TableViewBuilder.java:94-95 | a name made only of `_` has no segment and is shown unchanged |
| TableView.LeadingUnderscoreUnformattable | src/main/java/app/gui/displayUtils/TableViewBuilder.java:93 | a leading `_` leaves an empty segment, which cannot be capitalised |
| TableView.EmptyNameUnformattable | src/main/java/app/gui/displayUtils/TableViewBuilder.java:92-93 | the empty name is one empty segment, which cannot be capitalised |

## Left out

- Reflection is replaced by explicit descriptors. `getDeclaredFields`,
  `setAccessible` and annotation lookup become the ordered field list of an
  `EntityType`. `IllegalAccessException` cannot arise, so it is not
  modelled.
- Messages from JDBC drivers and PostgreSQL are not modelled:
  `DbConnection` (`getConnection`, `closeStatement`, `closeConnection`) is
  not part of this model. Acquiring a connection is the
  `connectable` flag, and closing resources is implicit. When the driver
  refuses, `createConnection` (DbConnection.java:64-73) logs a warning and
  returns `null`; its first use throws a `NullPointerException`, which no
  `catch (SQLException …)` of the callers catches. The model gives that
  failure the error `NullConnection`, apart from every `SQLException`.
- Logging (`LOGGER.severe`, `LOGGER.log`) has no observable effect in the
  model.
- Concurrency and transactions across statements are out of scope.
  `decreaseStock`'s check and UPDATE are two auto-committed statements, and
  another client could slip in between them.
- Floating point is not modelled: `double` columns and `Timestamp` values
  are opaque tokens (`Double(bits)`, `Timestamp(millis)`) that are only
  copied and compared.
- Case conversion covers ASCII only. Java's `toUpperCase`/`toLowerCase`
  Unicode tables and PostgreSQL's identifier folding beyond ASCII are not
  modelled.
- The SQL text of queries is not parsed. The store interprets the statement
  each text denotes. The texts themselves are built exactly, and lemmas give
  their shape and placeholder counts.
- `LIMIT 1` in `getLastId` is not modelled on its own, since only the first
  row is read.
- A SELECT without ORDER BY returns rows in no promised order. The model
  returns them in ascending key order, so "the first matching bill" means
  the one with the least key.
- `pg_trigger` is modelled by the catalog's trigger map. The lookup by
  `tgname` matches a trigger of any table, as the query does.
- `OrderDAO`, `ProductDAO`, `BillDAO` and `ClientDAO` inherit the generic
  operations. Only their own methods are modelled separately.
- The other business-layer classes, the JavaFX controllers and views, and
  `TableViewBuilder.build`/`getTableColumn` are not part of this model.
- TableView.FormatColumnName: it requires every segment of the split to
  be non-empty. Java throws `StringIndexOutOfBoundsException` there, and no
  column of the application has such a name. The two lemmas
  `LeadingUnderscoreUnformattable` and `EmptyNameUnformattable` show which
  names fall outside the precondition.
- AbstractDao.InsertListAppends: an empty batch is not excluded by a
  precondition. The store rejects the malformed INSERT text, as
  `EmptyBatchRejected` states.
- ProductDao.DecreaseStockSubtracts: it assumes no guard protects `stock`
  and that the new stock fits in 32 bits. The other two cases are stated by
  `DecreaseStockOverflows` and by `GuardProtects`.
- AbstractDao.InsertListAppends, AbstractDao.InsertedRow,
  AbstractDao.InsertThenFindById, AbstractDao.UpdateWritesFields,
  AbstractDao.UpdateThenFindById, ClientBll.ValidClientInsertedOnce,
  ClientBll.InsertThenFindClient, ClientBll.ClientFoundAfterInsert,
  ClientBll.FoundAfterInsert, ClientBll.ClientFoundAfterUpdate,
  ClientBll.FoundAfterUpdate and ClientBll.UpdateThenFindClient: the
  store records only each table's name and key column. It enforces no NOT
  NULL, FOREIGN KEY, column-type or length constraint, so these state
  success where PostgreSQL would raise an `SQLException` for a NULL in a
  NOT NULL column, an order naming a missing client or product, a value of
  the wrong type, or a string longer than its VARCHAR column. The client
  columns are `VARCHAR(100)` for `first_name` and `last_name`,
  `VARCHAR(150)` for `email` and `VARCHAR(300)` for `address`
  (Client.java:23-42). Neither validator bounds a length, and none looks
  at the names at all, so a valid client with a 101-character first name
  passes validation; PostgreSQL refuses the statement and `insertClient`
  or `updateClient` swallows that error. The model stores the client.
- AbstractDao.CreateTableResult, AbstractDao.CreateTableIfNotExists and
  AbstractDao.CreateTableInstalls: a CREATE TABLE always passes over a
  connection, even when its FOREIGN KEY clause names a table that does not
  exist. PostgreSQL refuses the `orders` table (Order.java:24,30) until
  `clients` and `products` exist; the model creates it.
- The log records executed statements only. Queries, such as the
  `pg_trigger` lookup before each guard and the stock check of
  `decreaseStock`, are evaluated without an entry, so "no statement is
  executed" still allows those queries to have been sent.
- AbstractDao.FillFields: a NULL read into a field of primitive type
  (`int`, `double`) is stored as NULL in the object. Java's `Field.set`
  throws `IllegalArgumentException` there; the model does not fail.
  `AbstractDao.MapRow` inherits this.
- AbstractDao.FindAllUnfold: because a table records no columns besides
  its key, `ORDER BY id` on a table keyed by another column fails with an
  undefined `id` column even when the table has a non-key column `id`. No
  table of the application is in that case: every key column is `id`.
- The text fields of `Client` are `string` values and cannot be Java
  `null`. `new Client()` leaves them `null`, and validating such a client
  throws a `NullPointerException` in `EmailValidator.validate`; the model
  has no such state.
- A delete or a lookup by id whose parameter is not an integer matches no
  row, so the delete passes and the lookup finds nothing. PostgreSQL rejects
  the comparison of an integer key with a text value instead.
