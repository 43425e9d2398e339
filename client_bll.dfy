/** The client business layer: a validator list run before every insert
    and update, and the error policy wrapped around the client
    data-access object. */
module ClientBll {
  import opened Common
  import opened Annotations
  import opened Store
  import opened DaoUtils
  import opened Statements
  import opened AbstractDao
  import opened Model
  import opened Validators

  /** The list the constructor builds: e-mail first, then address. */
  const DefaultValidators: seq<Validator> := [EmailValidator, AddressValidator]

  /** `validators.forEach(v -> v.validate(client))`: the first failure
      propagates and stops the rest. */
  function ValidateAll(vs: seq<Validator>, c: Client): (r: Outcome)
    ensures r == Pass <==> forall k :: 0 <= k < |vs| ==> Validate(vs[k], c) == Pass
    ensures r.Fail? ==> exists k :: 0 <= k < |vs| && Validate(vs[k], c) == r &&
                          forall j :: 0 <= j < k ==> Validate(vs[j], c) == Pass
  {
    if vs == [] then Pass
    else
      var o := Validate(vs[0], c);
      if o.Fail? then o
      else
        var rest := ValidateAll(vs[1..], c);
        FirstFailureShifts(vs, c, rest);
        rest
  }

  /** What holds of the tail's first failure holds of the whole list once
      the head passes, the index shifted by one. */
  lemma FirstFailureShifts(vs: seq<Validator>, c: Client, rest: Outcome)
    requires |vs| > 0 && Validate(vs[0], c) == Pass
    requires rest == Pass <==> forall k :: 0 <= k < |vs[1..]| ==> Validate(vs[1..][k], c) == Pass
    requires rest.Fail? ==> exists k :: 0 <= k < |vs[1..]| && Validate(vs[1..][k], c) == rest &&
                              forall j :: 0 <= j < k ==> Validate(vs[1..][j], c) == Pass
    ensures rest == Pass <==> forall k :: 0 <= k < |vs| ==> Validate(vs[k], c) == Pass
    ensures rest.Fail? ==> exists k :: 0 <= k < |vs| && Validate(vs[k], c) == rest &&
                             forall j :: 0 <= j < k ==> Validate(vs[j], c) == Pass
  {
    assert forall k :: 0 < k < |vs| ==> vs[k] == vs[1..][k - 1];
    if rest.Fail? {
      var k :| 0 <= k < |vs[1..]| && Validate(vs[1..][k], c) == rest &&
               forall j :: 0 <= j < k ==> Validate(vs[1..][j], c) == Pass;
      assert Validate(vs[k + 1], c) == rest;
      assert forall j :: 0 <= j < k + 1 ==> Validate(vs[j], c) == Pass;
    } else {
      assert forall k :: 0 <= k < |vs| ==> Validate(vs[k], c) == Pass;
    }
  }

  /** The first validator that fails gives the result of the whole list. */
  lemma FirstFailureIsResult(vs: seq<Validator>, c: Client, i: nat)
    requires i < |vs| && Validate(vs[i], c).Fail?
    requires forall k :: 0 <= k < i ==> Validate(vs[k], c) == Pass
    ensures ValidateAll(vs, c) == Validate(vs[i], c)
  {
    var r := ValidateAll(vs, c);
    var k :| 0 <= k < |vs| && Validate(vs[k], c) == r && forall j :: 0 <= j < k ==> Validate(vs[j], c) == Pass;
    assert k == i;
  }

  lemma {:induction false} ValidateAllAppend(a: seq<Validator>, b: seq<Validator>, c: Client)
    ensures ValidateAll(a + b, c) == if ValidateAll(a, c).Fail? then ValidateAll(a, c) else ValidateAll(b, c)
  {
    if a != [] {
      assert (a + b)[1..] == a[1..] + b;
      ValidateAllAppend(a[1..], b, c);
    } else {
      assert a + b == b;
    }
  }

  /** With the constructor's list, a bad e-mail is reported before a bad
      address is looked at. */
  lemma DefaultValidation(c: Client)
    ensures ValidateAll(DefaultValidators, c) ==
      if !IsValidEmail(c.email) then Fail(InvalidEmail)
      else if !IsValidAddress(c.address) then Fail(IllegalArgument)
      else Pass
  {
    assert DefaultValidators[1..] == [AddressValidator];
    assert DefaultValidators[1..][1..] == [];
  }

  /** `catch (SQLException | IllegalAccessException e)`: logged and not
      rethrown; any other failure, the `NullPointerException` of a missing
      connection among them, goes through unchanged. */
  function Swallow(o: Outcome): (r: Outcome)
    ensures r.Fail? ==> !r.error.SqlError?
    ensures o.Pass? || o.error.SqlError? <==> r.Pass?
    ensures o.Fail? && !o.error.SqlError? ==> r == o
  {
    if o.Fail? && o.error.SqlError? then Pass else o
  }

  /** `insertClient`: validate, then insert through the data-access object;
      an `SQLException` is swallowed, a missing connection is not. */
  function InsertClientResult(vs: seq<Validator>, s: DbState, c: Client): (r: (Outcome, DbState))
    ensures r.0.Fail? ==> !r.0.error.SqlError?
    ensures !s.connectable && ValidateAll(vs, c).Pass? ==> r.0 == Fail(NullConnection) && r.1 == s
  {
    var v := ValidateAll(vs, c);
    if v.Fail? then (v, s)
    else
      var sent := InsertListResult(ClientType, s, [ClientToObj(c)]);
      (Swallow(sent.0), sent.1)
  }

  /** `updateClient`: validate, then update through the data-access object;
      an `SQLException` is swallowed, a missing connection is not. */
  function UpdateClientResult(vs: seq<Validator>, s: DbState, c: Client): (r: (Outcome, DbState))
    ensures r.0.Fail? ==> !r.0.error.SqlError?
    ensures !s.connectable && ValidateAll(vs, c).Pass? ==> r.0 == Fail(NullConnection) && r.1 == s
  {
    var v := ValidateAll(vs, c);
    if v.Fail? then (v, s)
    else
      var sent := UpdateResult(ClientType, s, ClientToObj(c));
      assert !s.connectable ==> sent == (Fail(NullConnection), s) by {
        ClientHasKey();
      }
      (Swallow(sent.0), sent.1)
  }

  /** `findClientById`: the client found, `None` (Java's `null`) when there is
      none or on any failure. */
  function FindClientByIdResult(s: DbState, id: int): (r: Option<Client>)
    ensures FindByIdResult(ClientType, s, Int(id)).Err? ==> r.None?
  {
    var found := FindByIdResult(ClientType, s, Int(id));
    if found.Ok? && found.value.Some? then ObjToClient(found.value.value) else None
  }

  /** The clients the objects denote, when each denotes one. */
  function ToClients(objs: seq<Obj>): (r: Option<seq<Client>>)
    ensures r.Some? <==> forall k :: 0 <= k < |objs| ==> ObjToClient(objs[k]).Some?
    ensures r.Some? ==> |r.value| == |objs| && forall k :: 0 <= k < |objs| ==> ObjToClient(objs[k]) == Some(r.value[k])
  {
    if objs == [] then Some([])
    else
      var c := ObjToClient(objs[0]);
      var rest := ToClients(objs[1..]);
      assert forall k :: 0 < k < |objs| ==> objs[k] == objs[1..][k - 1];
      if c.None? || rest.None? then None else Some([c.value] + rest.value)
  }

  /** `findAllClients`: every client, or the empty list on any failure. */
  function FindAllClientsResult(s: DbState): (r: seq<Client>)
    ensures FindAllResult(ClientType, s).Err? ==> r == []
  {
    var all := FindAllResult(ClientType, s);
    if all.Err? then []
    else
      var cs := ToClients(all.value);
      if cs.None? then [] else cs.value
  }

  class ClientBll {
    /** The store behind the client data-access object. */
    var clientDao: Database
    var validators: seq<Validator>

    constructor (db: Database)
      ensures clientDao == db && validators == DefaultValidators
    {
      validators := [EmailValidator, AddressValidator];
      clientDao := db;
    }

    /** Runs the validators in list order, stopping at the first failure. */
    method RunValidators(c: Client) returns (r: Outcome)
      ensures r == ValidateAll(validators, c)
    {
      var vs := validators;
      var i := 0;
      while i < |vs|
        invariant 0 <= i <= |vs|
        invariant forall k :: 0 <= k < i ==> Validate(vs[k], c) == Pass
      {
        var o := Validate(vs[i], c);
        if o.Fail? {
          FirstFailureIsResult(vs, c, i);
          return o;
        }
        i := i + 1;
      }
      r := Pass;
    }

    /** `createTable`: an `SQLException` is logged and swallowed; without a
      connection the `NullPointerException` escapes. */
    method CreateTable() returns (r: Outcome)
      requires clientDao.Valid()
      modifies clientDao
      ensures clientDao.Valid()
      ensures var sent := CreateTableResult(ClientType, old(clientDao.State()));
        r == Swallow(sent.0) && clientDao.State() == sent.1
      ensures !old(clientDao.State()).connectable ==>
        r == Fail(NullConnection) && clientDao.State() == old(clientDao.State())
    {
      ClientHasKey();
      var o := CreateTableIfNotExists(ClientType, clientDao);
      r := Swallow(o);
    }

    method InsertClient(c: Client) returns (r: Outcome)
      requires clientDao.Valid()
      modifies clientDao
      ensures clientDao.Valid()
      ensures (r, clientDao.State()) == InsertClientResult(validators, old(clientDao.State()), c)
    {
      r := RunValidators(c);
      if r.Fail? {
        return;
      }
      var o := Insert(ClientType, clientDao, ClientToObj(c));
      r := Swallow(o);
    }

    method UpdateClient(c: Client) returns (r: Outcome)
      requires clientDao.Valid()
      modifies clientDao
      ensures clientDao.Valid()
      ensures (r, clientDao.State()) == UpdateClientResult(validators, old(clientDao.State()), c)
    {
      r := RunValidators(c);
      if r.Fail? {
        return;
      }
      var o := Update(ClientType, clientDao, ClientToObj(c));
      r := Swallow(o);
    }

    method FindClientById(id: int) returns (r: Option<Client>)
      ensures r == FindClientByIdResult(clientDao.State(), id)
    {
      var found := FindById(ClientType, clientDao, Int(id));
      if found.Ok? && found.value.Some? {
        r := ObjToClient(found.value.value);
      } else {
        r := None;
      }
    }

    method FindAllClients() returns (r: seq<Client>)
      ensures r == FindAllClientsResult(clientDao.State())
    {
      var all := FindAll(ClientType, clientDao);
      if all.Err? {
        return [];
      }
      var cs := ToClients(all.value);
      r := if cs.None? then [] else cs.value;
    }

    /** `deleteClient`: every failure is logged and rethrown. */
    method DeleteClient(id: int) returns (r: Outcome)
      requires clientDao.Valid()
      modifies clientDao
      ensures clientDao.Valid()
      ensures (r, clientDao.State()) == DeleteResult(ClientType, old(clientDao.State()), Int(id))
    {
      r := Delete(ClientType, clientDao, Int(id));
    }
  }

  // ---------------------------------------------------------------------
  // Properties

  /** A client that fails validation is neither inserted nor updated: the
      failure is reported and the store is untouched. */
  lemma InvalidClientRejected(s: DbState, c: Client)
    requires !IsValidEmail(c.email) || !IsValidAddress(c.address)
    ensures var v := ValidateAll(DefaultValidators, c);
      && v.Fail? && (v.error == InvalidEmail || v.error == IllegalArgument)
      && InsertClientResult(DefaultValidators, s, c) == (v, s)
      && UpdateClientResult(DefaultValidators, s, c) == (v, s)
  {
    DefaultValidation(c);
  }

  /** A valid client is inserted exactly once: one INSERT of its four
      non-key fields followed by one commit, and nothing is reported. */
  lemma ValidClientInsertedOnce(s: DbState, c: Client)
    requires IsValidEmail(c.email) && IsValidAddress(c.address)
    requires StateValid(s) && TableReady(ClientType, s)
    ensures var r := InsertClientResult(DefaultValidators, s, c);
      var fs := InsertFields(ClientType);
      && r.0 == Pass
      && r.1.log == s.log + [Executed(InsertSql("clients", FieldNames(fs), 1),
                                      Positional([Text(c.firstName), Text(c.lastName), Text(c.email), Text(c.address)]))]
                          + [Committed]
  {
    DefaultValidation(c);
    ClientReady();
    InsertListAppends(ClientType, s, [ClientToObj(c)]);
    ClientInsertIgnoresId(c, 0);
  }

  /** A valid client one inserts is found again under the id the store
      handed out, equal to the client but for that id. */
  lemma InsertThenFindClient(s: DbState, c: Client)
    requires IsValidEmail(c.email) && IsValidAddress(c.address)
    requires StateValid(s) && TableReady(ClientType, s)
    ensures var id := TableOf(ClientType, s).nextId;
      FindClientByIdResult(InsertClientResult(DefaultValidators, s, c).1, id) == Some(c.(id := id))
  {
    ValidInsertIsDaoInsert(s, c);
    ClientFoundAfterInsert(s, c);
  }

  lemma ClientFoundAfterInsert(s: DbState, c: Client)
    requires StateValid(s) && TableReady(ClientType, s)
    ensures var id := TableOf(ClientType, s).nextId;
      FindClientByIdResult(InsertListResult(ClientType, s, [ClientToObj(c)]).1, id) == Some(c.(id := id))
  {
    var id := TableOf(ClientType, s).nextId;
    var s1 := InsertListResult(ClientType, s, [ClientToObj(c)]).1;
    ClientReady();
    ClientFields();
    FoundAfterInsert(ClientType, s, c);
    ClientFromFound(s1, c, id, FindByIdResult(ClientType, s1, Int(id)).value.value);
  }

  /** `updateClient` of a valid client whose id names a stored row, on a
      table where only `id` is guarded (as creating it leaves it): the update
      passes and `findClientById` then returns exactly that client. */
  lemma UpdateThenFindClient(s: DbState, c: Client)
    requires IsValidEmail(c.email) && IsValidAddress(c.address)
    requires StateValid(s) && TableReady(ClientType, s) && c.id in TableOf(ClientType, s).rows
    requires OnlyGuarded(s.catalog, TableKey("clients"), "id")
    ensures var r := UpdateClientResult(DefaultValidators, s, c);
      r.0 == Pass && FindClientByIdResult(r.1, c.id) == Some(c)
  {
    ValidUpdateIsDaoUpdate(s, c);
    ClientFoundAfterUpdate(s, c);
  }

  /** `createTable` keeps `id` the only guarded column of `clients`: the one
      trigger it installs there protects `id`. */
  lemma CreateClientTableGuardsOnlyId(s: DbState)
    requires OnlyGuarded(s.catalog, TableKey("clients"), "id")
    ensures OnlyGuarded(CreateTableResult(ClientType, s).1.catalog, TableKey("clients"), "id")
  {
    ClientKeys();
    ClientConstraints();
    CreateTableSoleGuard(ClientType, s);
  }

  lemma ClientFoundAfterUpdate(s: DbState, c: Client)
    requires StateValid(s) && TableReady(ClientType, s) && c.id in TableOf(ClientType, s).rows
    requires OnlyGuarded(s.catalog, TableKey("clients"), "id")
    ensures var r := UpdateResult(ClientType, s, ClientToObj(c));
      r.0 == Pass && FindClientByIdResult(r.1, c.id) == Some(c)
  {
    var s1 := UpdateResult(ClientType, s, ClientToObj(c)).1;
    ClientReady();
    ClientFields();
    FoundAfterUpdate(ClientType, s, c);
    ClientFromFound(s1, c, c.id, FindByIdResult(ClientType, s1, Int(c.id)).value.value);
  }

  /** A valid client goes to the data-access object's update unchanged. */
  lemma ValidUpdateIsDaoUpdate(s: DbState, c: Client)
    requires IsValidEmail(c.email) && IsValidAddress(c.address)
    ensures var sent := UpdateResult(ClientType, s, ClientToObj(c));
      UpdateClientResult(DefaultValidators, s, c) == (Swallow(sent.0), sent.1)
  {
    DefaultValidation(c);
  }

  /** For an entity type laid out like `Client` with only its key guarded,
      the object found after updating a stored client denotes that client. */
  lemma FoundAfterUpdate(t: EntityType, s: DbState, c: Client)
    requires StateValid(s) && TableReady(t, s) && SingleKey(t)
    requires DistinctNames(GetFields(t)) && t.hasNoArgConstructor
    requires ClientFieldsAre(GetFields(t), GetPrimaryKeyField(t).value)
    requires c.id in TableOf(t, s).rows
    requires OnlyGuarded(s.catalog, TableKey(t.table.value.name), GetPrimaryKeyField(t).value.column.value.name)
    ensures var r := UpdateResult(t, s, ClientToObj(c));
      var found := FindByIdResult(t, r.1, Int(c.id));
      && r.0 == Pass && found.Ok? && found.value.Some?
      && ObjToClient(found.value.value) == Some(c)
  {
    var fs := GetFields(t);
    var pk := GetPrimaryKeyField(t).value;
    ClientKeyAndOthers(c, fs, pk);
    UpdateThenFindById(t, s, ClientToObj(c), c.id);
    var found := FindByIdResult(t, UpdateResult(t, s, ClientToObj(c)).1, Int(c.id));
    FoundSameClient(found.value.value, c, fs, pk);
  }

  /** A client's object holds its id under the key, and the key is not the
      only field. */
  lemma ClientKeyAndOthers(c: Client, fs: seq<Field>, pk: Field)
    requires ClientFieldsAre(fs, pk)
    ensures FieldValue(ClientToObj(c), pk) == Int(c.id)
    ensures |OtherFields(fs, pk)| > 0
  {
    assert fs[1] in OtherFields(fs, pk);
  }

  /** An object agreeing with a client's object on every field is that client. */
  lemma FoundSameClient(obj: Obj, c: Client, fs: seq<Field>, pk: Field)
    requires ClientFieldsAre(fs, pk)
    requires forall k :: 0 <= k < |fs| ==> fs[k].javaName in obj && obj[fs[k].javaName] == FieldValue(ClientToObj(c), fs[k])
    ensures ObjToClient(obj) == Some(c)
  {
    ClientKeyAndOthers(c, fs, pk);
    FoundClient(obj, c, c.id, fs, pk);
  }

  lemma ClientFromFound(s1: DbState, c: Client, id: int, obj: Obj)
    requires FindByIdResult(ClientType, s1, Int(id)) == Ok(Some(obj))
    requires ObjToClient(obj) == Some(c.(id := id))
    ensures FindClientByIdResult(s1, id) == Some(c.(id := id))
  {
  }

  /** For an entity type laid out like `Client`, the object found after
      inserting a client denotes that client with the new id. */
  lemma FoundAfterInsert(t: EntityType, s: DbState, c: Client)
    requires StateValid(s) && TableReady(t, s) && SingleKey(t)
    requires DistinctNames(GetFields(t)) && t.hasNoArgConstructor && |InsertFields(t)| > 0
    requires ClientFieldsAre(GetFields(t), GetPrimaryKeyField(t).value)
    ensures var id := TableOf(t, s).nextId;
      var found := FindByIdResult(t, InsertListResult(t, s, [ClientToObj(c)]).1, Int(id));
      && found.Ok? && found.value.Some?
      && ObjToClient(found.value.value) == Some(c.(id := id))
  {
    var id := TableOf(t, s).nextId;
    InsertThenFindById(t, s, ClientToObj(c));
    var found := FindByIdResult(t, InsertListResult(t, s, [ClientToObj(c)]).1, Int(id));
    FoundClient(found.value.value, c, id, GetFields(t), GetPrimaryKeyField(t).value);
  }

  /** A valid client goes to the data-access object's insert unchanged. */
  lemma ValidInsertIsDaoInsert(s: DbState, c: Client)
    requires IsValidEmail(c.email) && IsValidAddress(c.address)
    ensures var sent := InsertListResult(ClientType, s, [ClientToObj(c)]);
      InsertClientResult(DefaultValidators, s, c) == (Swallow(sent.0), sent.1)
  {
    DefaultValidation(c);
  }

  /** An object holding the client's fields, its key replaced, is that
      client with the new id. */
  lemma FoundClient(obj: Obj, c: Client, id: int, fs: seq<Field>, pk: Field)
    requires ClientFieldsAre(fs, pk)
    requires forall k :: 0 <= k < |fs| ==> (fs[k].javaName in obj &&
        obj[fs[k].javaName] == (if fs[k] == pk then Int(id) else FieldValue(ClientToObj(c), fs[k])))
    ensures ObjToClient(obj) == Some(c.(id := id))
  {
    assert fs[0] == pk;
    assert fs[1] != pk && fs[2] != pk && fs[3] != pk && fs[4] != pk;
  }

  /** The Java names of the client's fields, the key first. */
  predicate ClientFieldsAre(fs: seq<Field>, pk: Field)
  {
    && |fs| == 5 && fs[0] == pk
    && fs[0].javaName == "id" && fs[1].javaName == "firstName" && fs[2].javaName == "lastName"
    && fs[3].javaName == "email" && fs[4].javaName == "address"
  }

  lemma ClientFields()
    ensures ClientFieldsAre(ClientType.fields, ClientType.fields[0])
  {
  }

  /** The client type satisfies what the generic insert and lookup lemmas
      ask of an entity type. */
  lemma ClientReady()
    ensures GetFields(ClientType) == ClientType.fields
    ensures GetPrimaryKeyField(ClientType) == Ok(ClientType.fields[0])
    ensures SingleKey(ClientType) && DistinctNames(GetFields(ClientType))
    ensures ClientType.hasNoArgConstructor && |InsertFields(ClientType)| > 0
  {
    ClientKeys();
    ClientNamesDistinct();
    KeyFirstReady(ClientType);
  }

  /** The five names are told apart by their lengths alone. */
  lemma ClientNamesDistinct()
    ensures AllAnnotated(ClientType.fields) && DistinctNames(ClientType.fields)
    ensures |ClientType.fields| == 5 && IsKeyField(ClientType.fields[0])
    ensures forall k :: 1 <= k < 5 ==> !ClientType.fields[k].column.value.primaryKey
  {
    ClientNameLengths();
    DistinctByLength(ClientType.fields, [2, 9, 8, 5, 7], [2, 10, 9, 5, 7]);
  }

  lemma ClientNameLengths()
    ensures var fs := ClientType.fields;
      && |fs| == 5 && AllAnnotated(fs) && IsKeyField(fs[0])
      && (forall k :: 1 <= k < 5 ==> !fs[k].column.value.primaryKey)
      && var jl, cl := [2, 9, 8, 5, 7], [2, 10, 9, 5, 7];
         forall k :: 0 <= k < 5 ==> |fs[k].javaName| == jl[k] && |fs[k].column.value.name| == cl[k]
  {
  }

  /** Fields whose Java names have distinct lengths, and whose column names
      do too, have distinct names. */
  lemma DistinctByLength(fs: seq<Field>, jl: seq<int>, cl: seq<int>)
    requires AllAnnotated(fs) && |jl| == |fs| && |cl| == |fs|
    requires forall k :: 0 <= k < |fs| ==> |fs[k].javaName| == jl[k] && |fs[k].column.value.name| == cl[k]
    requires forall i, j :: 0 <= i < j < |fs| ==> jl[i] != jl[j] && cl[i] != cl[j]
    ensures DistinctNames(fs)
  {
  }

  /** An entity whose first field is its only key, with distinct names and
      more than one field, meets the generic lemmas' demands. */
  lemma KeyFirstReady(t: EntityType)
    requires AllAnnotated(t.fields) && |t.fields| > 1 && IsKeyField(t.fields[0])
    requires forall k :: 1 <= k < |t.fields| ==> !t.fields[k].column.value.primaryKey
    requires DistinctNames(t.fields)
    ensures GetFields(t) == t.fields && GetPrimaryKeyField(t) == Ok(t.fields[0])
    ensures SingleKey(t) && DistinctNames(GetFields(t)) && |InsertFields(t)| > 0
  {
    KeyFirst(t);
    assert t.fields[1] in t.fields[1..];
    forall f | f in GetFields(t) && f.column.value.primaryKey ensures f == t.fields[0] {
      var k :| 0 <= k < |t.fields| && t.fields[k] == f;
    }
  }

  /** `findClientById` of an id with no stored row gives `None`; a stored
      row that maps to an object gives the client that object denotes. */
  lemma FindStoredClient(s: DbState, id: int)
    requires StateValid(s) && TableReady(ClientType, s)
    ensures var rows := TableOf(ClientType, s).rows;
      && (id !in rows ==> FindClientByIdResult(s, id) == None)
      && (id in rows && FromRow(ClientType, rows[id]).Ok? ==>
            FindClientByIdResult(s, id) == ObjToClient(FromRow(ClientType, rows[id]).value))
  {
    FindByIdFinds(ClientType, s, Int(id));
  }
}
