/** Metadata extraction over entity descriptors: the table name, the
    persisted fields, the primary key, the column-definition and foreign-key
    fragments of CREATE TABLE, and the installation of the immutability
    guards (one trigger per non-updatable column). */
module DaoUtils {
  import opened Common
  import opened Annotations
  import opened Store

  /** The `@Table` name, or the failure for a class without one. */
  function GetTableName(t: EntityType): (r: Result<string>)
    ensures r.Ok? <==> t.table.Some?
    ensures r.Ok? ==> r.value == t.table.value.name
    ensures r.Err? ==> r.error == MissingTable(t.className)
  {
    match t.table
    case None => Err(MissingTable(t.className))
    case Some(tbl) => Ok(tbl.name)
  }

  /** The fields carrying `@Column`, in declaration order. */
  function Annotated(fs: seq<Field>): (r: seq<Field>)
    ensures AllAnnotated(r)
    ensures forall f :: f in r <==> f in fs && f.column.Some?
    ensures |r| <= |fs|
  {
    if fs == [] then []
    else (if fs[0].column.Some? then [fs[0]] else []) + Annotated(fs[1..])
  }

  predicate AllAnnotated(fs: seq<Field>)
  {
    forall k :: 0 <= k < |fs| ==> fs[k].column.Some?
  }

  /** Filtering keeps the declaration order: it distributes over concatenation. */
  lemma {:induction false} AnnotatedAppend(a: seq<Field>, b: seq<Field>)
    ensures Annotated(a + b) == Annotated(a) + Annotated(b)
  {
    if a == [] {
      assert a + b == b;
    } else {
      assert (a + b)[1..] == a[1..] + b;
      AnnotatedAppend(a[1..], b);
    }
  }

  function GetFields(t: EntityType): (r: seq<Field>)
    ensures AllAnnotated(r)
    ensures forall f :: f in r <==> f in t.fields && f.column.Some?
  {
    Annotated(t.fields)
  }

  /** The `@Column` of each annotated field. */
  function ColumnsOf(fs: seq<Field>): (r: seq<ColumnDesc>)
    requires AllAnnotated(fs)
    ensures |r| == |fs|
    ensures forall k :: 0 <= k < |fs| ==> r[k] == fs[k].column.value
  {
    seq(|fs|, k requires 0 <= k < |fs| => fs[k].column.value)
  }

  /** The columns of an entity, in declaration order. */
  function Columns(t: EntityType): seq<ColumnDesc>
  {
    ColumnsOf(GetFields(t))
  }

  predicate IsKeyField(f: Field)
  {
    f.column.Some? && f.column.value.primaryKey
  }

  /** The first field whose column is a primary key. */
  function FirstKeyField(fs: seq<Field>): (r: Option<Field>)
    ensures r.None? <==> forall k :: 0 <= k < |fs| ==> !IsKeyField(fs[k])
    ensures r.Some? ==> exists i :: 0 <= i < |fs| && fs[i] == r.value && IsKeyField(fs[i]) &&
                                    forall j :: 0 <= j < i ==> !IsKeyField(fs[j])
  {
    if fs == [] then None
    else if IsKeyField(fs[0]) then Some(fs[0])
    else
      var r := FirstKeyField(fs[1..]);
      if r.Some? then
        ghost var i :| 0 <= i < |fs[1..]| && fs[1..][i] == r.value && IsKeyField(fs[1..][i]) &&
                       forall j :: 0 <= j < i ==> !IsKeyField(fs[1..][j]);
        assert fs[i + 1] == r.value && forall j :: 0 <= j < i + 1 ==> !IsKeyField(fs[j]);
        r
      else r
  }

  /** The name of the first column that is a primary key. */
  function FirstKeyName(cols: seq<ColumnDesc>): (r: Option<string>)
    ensures r.None? <==> forall k :: 0 <= k < |cols| ==> !cols[k].primaryKey
    ensures r.Some? ==> exists i :: 0 <= i < |cols| && cols[i].name == r.value && cols[i].primaryKey &&
                                    forall j :: 0 <= j < i ==> !cols[j].primaryKey
  {
    if cols == [] then None
    else if cols[0].primaryKey then Some(cols[0].name)
    else
      var r := FirstKeyName(cols[1..]);
      if r.Some? then
        ghost var i :| 0 <= i < |cols[1..]| && cols[1..][i].name == r.value && cols[1..][i].primaryKey &&
                       forall j :: 0 <= j < i ==> !cols[1..][j].primaryKey;
        assert cols[i + 1].name == r.value && forall j :: 0 <= j < i + 1 ==> !cols[j].primaryKey;
        r
      else r
  }

  /** The primary-key field: the first one, when several are marked. */
  function GetPrimaryKeyField(t: EntityType): (r: Result<Field>)
    ensures r.Ok? ==> IsKeyField(r.value) && r.value in GetFields(t)
    ensures r.Err? ==> r.error == MissingPrimaryKey(t.className)
  {
    var f := FirstKeyField(GetFields(t));
    if f.None? then Err(MissingPrimaryKey(t.className)) else Ok(f.value)
  }

  /** The primary-key column name: that of the first key column. */
  function GetPrimaryKeyName(t: EntityType): (r: Result<string>)
    ensures r.Err? <==> forall k :: 0 <= k < |Columns(t)| ==> !Columns(t)[k].primaryKey
    ensures r.Ok? ==> exists i :: 0 <= i < |Columns(t)| && Columns(t)[i].primaryKey && Columns(t)[i].name == r.value
    ensures r.Err? ==> r.error == MissingPrimaryKey(t.className)
  {
    var n := FirstKeyName(Columns(t));
    if n.None? then Err(MissingPrimaryKey(t.className)) else Ok(n.value)
  }

  lemma {:induction false} FirstKeyAgree(fs: seq<Field>)
    requires AllAnnotated(fs)
    ensures FirstKeyField(fs).None? <==> FirstKeyName(ColumnsOf(fs)).None?
    ensures FirstKeyField(fs).Some? ==>
      FirstKeyName(ColumnsOf(fs)) == Some(FirstKeyField(fs).value.column.value.name)
  {
    if fs != [] {
      assert ColumnsOf(fs)[1..] == ColumnsOf(fs[1..]);
      FirstKeyAgree(fs[1..]);
    }
  }

  /** Both lookups find the same key: the name is that of the field's column,
      and both fail together with the same error. */
  lemma PrimaryKeyAgree(t: EntityType)
    ensures GetPrimaryKeyField(t).Err? <==> GetPrimaryKeyName(t).Err?
    ensures GetPrimaryKeyField(t).Err? ==> GetPrimaryKeyField(t).error == GetPrimaryKeyName(t).error
    ensures GetPrimaryKeyField(t).Ok? ==>
      GetPrimaryKeyField(t).value.column.Some? &&
      GetPrimaryKeyName(t).value == GetPrimaryKeyField(t).value.column.value.name
  {
    FirstKeyAgree(GetFields(t));
  }

  /** The primary key is the earliest annotated field marked as key, and the
      lookup fails exactly when no annotated field is marked. */
  lemma PrimaryKeyIsFirst(t: EntityType)
    ensures GetPrimaryKeyField(t).Err? <==> forall f :: f in t.fields && f.column.Some? ==> !f.column.value.primaryKey
    ensures GetPrimaryKeyField(t).Err? ==> GetPrimaryKeyField(t).error == MissingPrimaryKey(t.className)
    ensures GetPrimaryKeyField(t).Ok? ==>
      var fs := GetFields(t);
      exists i :: 0 <= i < |fs| && fs[i] == GetPrimaryKeyField(t).value && IsKeyField(fs[i]) &&
                  forall j :: 0 <= j < i ==> !IsKeyField(fs[j])
  {
    var fs := GetFields(t);
    if FirstKeyField(fs).None? {
      forall f | f in t.fields && f.column.Some? ensures !f.column.value.primaryKey {
        assert f in fs;
      }
    } else {
      var i :| 0 <= i < |fs| && fs[i] == FirstKeyField(fs).value && IsKeyField(fs[i]);
      assert fs[i] in t.fields;
    }
  }

  /** The column-definition fragment of CREATE TABLE. A key column is always
      a generated identity integer, whatever type it declares. */
  function BuildColumnDefinition(c: ColumnDesc): (r: string)
    ensures |c.name| < |r| && r[..|c.name| + 1] == c.name + " "
    ensures !c.primaryKey ==> |c.name| + 1 + |c.sqlType| <= |r| && r[|c.name| + 1..|c.name| + 1 + |c.sqlType|] == c.sqlType
  {
    var tail := if c.primaryKey then IdentityClause
                else if !c.nullable then c.sqlType + " NOT NULL"
                else c.sqlType;
    ConcatSlices(c.name + " ", tail);
    ConcatSlices(c.sqlType, " NOT NULL");
    c.name + " " + tail
  }

  const IdentityClause: string := "INTEGER GENERATED ALWAYS AS IDENTITY"

  const IdentityWords: seq<string> := ["INTEGER", "GENERATED", "ALWAYS", "AS", "IDENTITY"]
  const NotNullWords: seq<string> := ["NOT", "NULL"]

  lemma IdentityClauseText()
    ensures Join(IdentityWords, " ") == IdentityClause
  {
  }

  lemma KeyDefinitionWords(c: ColumnDesc)
    requires ' ' !in c.name && c.primaryKey
    ensures Split(BuildColumnDefinition(c), ' ') == [c.name] + IdentityWords
  {
    KeyDefinitionText(c);
    IdentityClauseText();
    NameThenWords(c.name, IdentityWords);
  }

  lemma KeyDefinitionText(c: ColumnDesc)
    requires c.primaryKey
    ensures BuildColumnDefinition(c) == c.name + [' '] + IdentityClause
  {
  }

  /** A space-free name followed by space-separated words splits into the
      name and the words. */
  lemma NameThenWords(name: string, words: seq<string>)
    requires ' ' !in name && |words| > 0
    requires forall k :: 0 <= k < |words| ==> ' ' !in words[k]
    ensures Split(name + [' '] + Join(words, " "), ' ') == [name] + words
  {
    SplitConcat(name, ' ', Join(words, " "));
    SplitWithout(name, ' ');
    SplitJoin(words, ' ');
  }

  lemma NullableDefinitionWords(c: ColumnDesc)
    requires ' ' !in c.name && !c.primaryKey && c.nullable
    ensures Split(BuildColumnDefinition(c), ' ') == [c.name] + Split(c.sqlType, ' ')
  {
    assert BuildColumnDefinition(c) == c.name + [' '] + c.sqlType;
    SplitConcat(c.name, ' ', c.sqlType);
    SplitWithout(c.name, ' ');
  }

  lemma NotNullDefinitionWords(c: ColumnDesc)
    requires ' ' !in c.name && !c.primaryKey && !c.nullable
    ensures Split(BuildColumnDefinition(c), ' ') == [c.name] + Split(c.sqlType, ' ') + NotNullWords
  {
    var clause := Join(NotNullWords, " ");
    var rest := c.sqlType + [' '] + clause;
    assert BuildColumnDefinition(c) == c.name + [' '] + rest;
    SplitConcat(c.name, ' ', rest);
    SplitConcat(c.sqlType, ' ', clause);
    SplitWithout(c.name, ' ');
    SplitJoin(NotNullWords, ' ');
  }

  /** Read word by word, a definition is the column name followed by the
      identity clause for a key, and otherwise by the declared type and
      `NOT NULL` exactly when the column is not nullable. */
  lemma ColumnDefinitionWords(c: ColumnDesc)
    requires ' ' !in c.name
    ensures c.primaryKey ==>
      Split(BuildColumnDefinition(c), ' ') == [c.name, "INTEGER", "GENERATED", "ALWAYS", "AS", "IDENTITY"]
    ensures !c.primaryKey ==>
      Split(BuildColumnDefinition(c), ' ') ==
        [c.name] + Split(c.sqlType, ' ') + (if c.nullable then [] else ["NOT", "NULL"])
  {
    if c.primaryKey {
      KeyDefinitionWords(c);
    } else if c.nullable {
      NullableDefinitionWords(c);
    } else {
      NotNullDefinitionWords(c);
    }
  }

  function ForeignKeyClause(c: ColumnDesc): string
  {
    "FOREIGN KEY (" + c.name + ") REFERENCES " + c.fkTable + "(" + c.fkColumn + ")"
  }

  /** One FOREIGN KEY clause per column that names both a table and a column. */
  function BuildForeignKeyConstraints(cols: seq<ColumnDesc>): (r: seq<string>)
    ensures |r| <= |cols|
    ensures forall x :: x in r <==> exists c :: c in cols && HasForeignKey(c) && x == ForeignKeyClause(c)
  {
    if cols == [] then []
    else
      var rest := BuildForeignKeyConstraints(cols[1..]);
      assert forall c :: c in cols <==> c == cols[0] || c in cols[1..];
      (if HasForeignKey(cols[0]) then [ForeignKeyClause(cols[0])] else []) + rest
  }

  /** The clauses follow the column order. */
  lemma {:induction false} ForeignKeysAppend(a: seq<ColumnDesc>, b: seq<ColumnDesc>)
    ensures BuildForeignKeyConstraints(a + b) == BuildForeignKeyConstraints(a) + BuildForeignKeyConstraints(b)
  {
    if a == [] {
      assert a + b == b;
    } else {
      assert (a + b)[1..] == a[1..] + b;
      ForeignKeysAppend(a[1..], b);
    }
  }

  /** The guard of one column: its function, its trigger, the column. */
  datatype Guard = Guard(fname: string, trigger: string, column: string)

  function GuardFor(table: string, column: string): Guard
  {
    var suffix := ToLower(table) + "_" + ToLower(column);
    Guard("prevent_update_" + suffix, "no_update_" + suffix, column)
  }

  /** The guards an entity needs: one per non-updatable column, the key
      included, in column order. */
  function RequiredGuards(table: string, cols: seq<ColumnDesc>): (r: seq<Guard>)
    ensures forall g :: g in r <==> exists c :: c in cols && !c.updatable && g == GuardFor(table, c.name)
  {
    if cols == [] then []
    else
      var rest := RequiredGuards(table, cols[1..]);
      assert forall c :: c in cols <==> c == cols[0] || c in cols[1..];
      (if !cols[0].updatable then [GuardFor(table, cols[0].name)] else []) + rest
  }

  /** When the guards an entity needs are just its key's, the key is its
      only immutable column. */
  lemma SoleGuardOnlyKey(table: string, cols: seq<ColumnDesc>, key: string)
    requires RequiredGuards(table, cols) == [GuardFor(table, key)]
    ensures forall c :: c in cols && !c.updatable ==> c.name == key
  {
    forall c | c in cols && !c.updatable ensures c.name == key {
      assert GuardFor(table, c.name) in RequiredGuards(table, cols);
    }
  }

  lemma {:induction false} RequiredGuardsAppend(table: string, a: seq<ColumnDesc>, b: seq<ColumnDesc>)
    ensures RequiredGuards(table, a + b) == RequiredGuards(table, a) + RequiredGuards(table, b)
  {
    if a == [] {
      assert a + b == b;
    } else {
      assert (a + b)[1..] == a[1..] + b;
      RequiredGuardsAppend(table, a[1..], b);
    }
  }

  /** A column annotated with only its name and type takes the defaults:
      it is no key, so its definition is its name and type with no
      `NOT NULL`; it is updatable, so it needs no guard; and it has no
      foreign key clause. */
  lemma ColumnDefaults(table: string, name: string, sqlType: string)
    ensures var c := Column(name, sqlType);
      && !c.primaryKey && c.nullable && c.updatable && !HasForeignKey(c)
      && BuildColumnDefinition(c) == name + " " + sqlType
      && RequiredGuards(table, [c]) == []
      && BuildForeignKeyConstraints([c]) == []
  {
    var c := Column(name, sqlType);
    assert [c][1..] == [];
  }

  function CheckTriggerSql(g: Guard): string
  {
    "SELECT 1 FROM pg_trigger WHERE tgname = '" + g.trigger + "'"
  }

  function FunctionSql(g: Guard): string
  {
    "CREATE OR REPLACE FUNCTION " + g.fname + "()\n" +
    "RETURNS TRIGGER AS $$\n" +
    "BEGIN\n" +
    "    IF NEW." + g.column + " IS DISTINCT FROM OLD." + g.column + " THEN\n" +
    "        RAISE EXCEPTION '" + g.column + " is immutable';\n" +
    "    END IF;\n" +
    "    RETURN NEW;\n" +
    "END;\n" +
    "$$ LANGUAGE plpgsql;\n"
  }

  function TriggerSql(g: Guard, table: string): string
  {
    "CREATE TRIGGER " + g.trigger + "\n" +
    "BEFORE UPDATE ON " + table + "\n" +
    "FOR EACH ROW\n" +
    "EXECUTE FUNCTION " + g.fname + "();\n"
  }

  /** One guard: skipped when a trigger of its name exists on any table,
      otherwise its function is (re)defined and its trigger created. */
  function InstallGuard(s: DbState, table: string, g: Guard): (Outcome, DbState)
  {
    if TriggerNameTaken(s.catalog, g.trigger) then (Pass, s)
    else
      // CREATE OR REPLACE FUNCTION always passes in the store.
      var s1 := Exec(s, FunctionSql(g), CreateFunction(g.fname, g.column), map[]).1;
      Exec(s1, TriggerSql(g, table), CreateTrigger(g.trigger, table, g.fname), map[])
  }

  /** The guards in order, stopping at the first failure. */
  function InstallGuards(s: DbState, table: string, gs: seq<Guard>): (Outcome, DbState)
    decreases |gs|
  {
    if gs == [] then (Pass, s)
    else
      var p := InstallGuard(s, table, gs[0]);
      if p.0.Fail? then p else InstallGuards(p.1, table, gs[1..])
  }

  /** `setImmutabilityTriggers`: the outcome and the new state. It only adds
      triggers and guard functions: no table and no row changes. */
  function ImmutabilityTriggers(t: EntityType, s: DbState): (r: (Outcome, DbState))
    ensures r.1.tables == s.tables && r.1.connectable == s.connectable
    ensures s.catalog.triggers.Keys <= r.1.catalog.triggers.Keys
    ensures GetTableName(t).Err? || !s.connectable ==> r.0.Fail? && r.1 == s
    ensures GetTableName(t).Ok? && !s.connectable ==> r == (Fail(NullConnection), s)
  {
    var name := GetTableName(t);
    if name.Err? then (Fail(name.error), s)
    else if Connect(s).Fail? then (Connect(s), s)
    else
      var gs := RequiredGuards(name.value, Columns(t));
      InstallGuardsGrow(s, name.value, gs);
      InstallGuards(s, name.value, gs)
  }

  /** `setImmutabilityTriggers` over the store: for each non-updatable
      column, ask the catalog for the trigger by name and, when it is
      absent, define the guard function and create the trigger. */
  method SetImmutabilityTriggers(t: EntityType, db: Database) returns (r: Outcome)
    requires db.Valid()
    modifies db
    ensures db.Valid()
    ensures (r, db.State()) == ImmutabilityTriggers(t, old(db.State()))
  {
    var name := GetTableName(t);
    if name.Err? {
      return Fail(name.error);
    }
    var conn := db.GetConnection();
    if conn.Fail? {
      return conn;
    }
    r := InstallColumnGuards(db, name.value, Columns(t));
  }

  /** The loop of `setImmutabilityTriggers`, over the columns of the fields
      in declaration order. */
  method InstallColumnGuards(db: Database, table: string, cols: seq<ColumnDesc>) returns (r: Outcome)
    requires db.Valid()
    modifies db
    ensures db.Valid()
    ensures (r, db.State()) == InstallGuards(old(db.State()), table, RequiredGuards(table, cols))
  {
    ghost var s0 := db.State();
    var i := 0;
    while i < |cols|
      invariant 0 <= i <= |cols|
      invariant db.Valid()
      invariant InstallGuards(s0, table, RequiredGuards(table, cols[..i])) == (Pass, db.State())
    {
      var column := cols[i];
      ghost var s := db.State();
      InstallStep(s0, table, cols, i, s);
      if !column.updatable {
        var created := InstallOneGuard(db, table, GuardFor(table, column.name));
        assert InstallGuards(s0, table, RequiredGuards(table, cols[..i + 1])) == (created, db.State());
        if created.Fail? {
          InstallStops(s0, table, cols, i + 1);
          return created;
        }
      }
      i := i + 1;
    }
    assert cols[..i] == cols;
    r := Pass;
  }

  /** One pass of the loop above: look the trigger up by name and, when it
      is absent, define the guard function and create the trigger. */
  method InstallOneGuard(db: Database, table: string, g: Guard) returns (r: Outcome)
    requires db.Valid()
    modifies db
    ensures db.Valid()
    ensures (r, db.State()) == InstallGuard(old(db.State()), table, g)
  {
    var rs := db.Query(CheckTriggerSql(g), TriggerNamed(g.trigger), map[]);
    r := Pass;
    if rs.Ok? && |rs.value| == 0 {
      // The outcome of CREATE OR REPLACE FUNCTION is not inspected: in the
      // store that statement always passes (`CatalogExecKeeps`), so there is no
      // failure to stop at before CREATE TRIGGER, as Java's exception would.
      var _ := db.Execute(FunctionSql(g), CreateFunction(g.fname, g.column), map[]);
      r := db.Execute(TriggerSql(g, table), CreateTrigger(g.trigger, table, g.fname), map[]);
    }
  }

  /** Installing the guards of one more column continues from the state the
      previous columns left. */
  lemma InstallStep(s0: DbState, table: string, cols: seq<ColumnDesc>, i: nat, s: DbState)
    requires i < |cols| && InstallGuards(s0, table, RequiredGuards(table, cols[..i])) == (Pass, s)
    ensures InstallGuards(s0, table, RequiredGuards(table, cols[..i + 1])) ==
      if cols[i].updatable then (Pass, s) else InstallGuard(s, table, GuardFor(table, cols[i].name))
  {
    assert cols[..i + 1] == cols[..i] + [cols[i]];
    RequiredGuardsAppend(table, cols[..i], [cols[i]]);
    InstallGuardsAppend(s0, table, RequiredGuards(table, cols[..i]), RequiredGuards(table, [cols[i]]));
  }

  /** A failure ends the installation. */
  lemma InstallStops(s0: DbState, table: string, cols: seq<ColumnDesc>, i: nat)
    requires i <= |cols| && InstallGuards(s0, table, RequiredGuards(table, cols[..i])).0.Fail?
    ensures InstallGuards(s0, table, RequiredGuards(table, cols)) ==
      InstallGuards(s0, table, RequiredGuards(table, cols[..i]))
  {
    assert cols[..i] + cols[i..] == cols;
    RequiredGuardsAppend(table, cols[..i], cols[i..]);
    InstallGuardsAppend(s0, table, RequiredGuards(table, cols[..i]), RequiredGuards(table, cols[i..]));
  }

  lemma {:induction false} InstallGuardsAppend(s: DbState, table: string, a: seq<Guard>, b: seq<Guard>)
    ensures InstallGuards(s, table, a + b) ==
      var p := InstallGuards(s, table, a);
      if p.0.Fail? then p else InstallGuards(p.1, table, b)
    decreases |a|
  {
    if a == [] {
      assert a + b == b;
    } else {
      assert (a + b)[1..] == a[1..] + b;
      var p := InstallGuard(s, table, a[0]);
      if p.0.Pass? {
        InstallGuardsAppend(p.1, table, a[1..], b);
      }
    }
  }

  /** Installing never removes a trigger. */
  lemma {:induction false} InstallGuardsGrow(s: DbState, table: string, gs: seq<Guard>)
    ensures s.catalog.triggers.Keys <= InstallGuards(s, table, gs).1.catalog.triggers.Keys
    ensures InstallGuards(s, table, gs).1.tables == s.tables
    ensures InstallGuards(s, table, gs).1.connectable == s.connectable
    decreases |gs|
  {
    if gs != [] {
      InstallGuardGrows(s, table, gs[0]);
      InstallGuardsGrow(InstallGuard(s, table, gs[0]).1, table, gs[1..]);
    }
  }

  lemma InstallGuardGrows(s: DbState, table: string, g: Guard)
    ensures s.catalog.triggers.Keys <= InstallGuard(s, table, g).1.catalog.triggers.Keys
    ensures InstallGuard(s, table, g).1.tables == s.tables
    ensures InstallGuard(s, table, g).1.connectable == s.connectable
  {
    if !TriggerNameTaken(s.catalog, g.trigger) {
      var s1 := Exec(s, FunctionSql(g), CreateFunction(g.fname, g.column), map[]).1;
      CatalogExecKeeps(s, FunctionSql(g), CreateFunction(g.fname, g.column), map[]);
      CatalogExecKeeps(s1, TriggerSql(g, table), CreateTrigger(g.trigger, table, g.fname), map[]);
    }
  }

  /** After a successful installation every guard's trigger name is taken. */
  lemma {:induction false} InstallGuardsCover(s: DbState, table: string, gs: seq<Guard>)
    requires InstallGuards(s, table, gs).0.Pass?
    ensures forall g :: g in gs ==> TriggerNameTaken(InstallGuards(s, table, gs).1.catalog, g.trigger)
    decreases |gs|
  {
    if gs != [] {
      var p := InstallGuard(s, table, gs[0]);
      var q := InstallGuards(p.1, table, gs[1..]).1;
      InstallGuardsCover(p.1, table, gs[1..]);
      InstallGuardsGrow(p.1, table, gs[1..]);
      assert TriggerNameTaken(q.catalog, gs[0].trigger) by {
        var id :| id in p.1.catalog.triggers && id.name == gs[0].trigger;
        assert id in q.catalog.triggers;
      }
      assert forall g :: g in gs ==> g == gs[0] || g in gs[1..];
    }
  }

  /** Guards whose trigger names are all taken are skipped without a statement. */
  lemma {:induction false} InstallGuardsSkip(s: DbState, table: string, gs: seq<Guard>)
    requires forall g :: g in gs ==> TriggerNameTaken(s.catalog, g.trigger)
    ensures InstallGuards(s, table, gs) == (Pass, s)
    decreases |gs|
  {
    if gs != [] {
      assert gs[0] in gs;
      InstallGuardsSkip(s, table, gs[1..]);
    }
  }

  /** Installing the guards twice is installing them once: the second run
      finds every trigger and executes no statement. */
  lemma ImmutabilityTriggersIdempotent(t: EntityType, s: DbState)
    requires ImmutabilityTriggers(t, s).0.Pass?
    ensures ImmutabilityTriggers(t, ImmutabilityTriggers(t, s).1) == ImmutabilityTriggers(t, s)
  {
    var name := GetTableName(t).value;
    var gs := RequiredGuards(name, Columns(t));
    var s' := InstallGuards(s, name, gs).1;
    InstallGuardsCover(s, name, gs);
    InstallGuardsGrow(s, name, gs);
    InstallGuardsSkip(s', name, gs);
  }

  /** The guard `g` is in place on table key `k`: a trigger of its name on
      that table runs its function, which protects its column. */
  predicate Installed(cat: Catalog, k: string, g: Guard)
  {
    && TriggerId(k, g.trigger) in cat.triggers
    && cat.triggers[TriggerId(k, g.trigger)] == g.fname
    && g.fname in cat.functions
    && cat.functions[g.fname] == g.column
  }

  /** Installing other guards leaves an installed guard in place. */
  lemma {:induction false} InstallGuardsKeep(s: DbState, table: string, gs: seq<Guard>, k: string, g0: Guard)
    requires Installed(s.catalog, k, g0)
    requires forall g :: g in gs ==> g.fname != g0.fname
    ensures Installed(InstallGuards(s, table, gs).1.catalog, k, g0)
    decreases |gs|
  {
    if gs != [] {
      assert gs[0] in gs;
      var p := InstallGuard(s, table, gs[0]);
      assert Installed(p.1.catalog, k, g0);
      InstallGuardsKeep(p.1, table, gs[1..], k, g0);
    }
  }

  /** On a table that exists, guards whose trigger names are untaken and
      pairwise distinct (and whose function names are distinct) all go in. */
  lemma {:induction false} InstallGuardsEstablish(s: DbState, table: string, gs: seq<Guard>)
    requires TableKey(table) in s.tables
    requires forall g :: g in gs ==> !TriggerNameTaken(s.catalog, g.trigger)
    requires forall i, j :: 0 <= i < j < |gs| ==> gs[i].trigger != gs[j].trigger && gs[i].fname != gs[j].fname
    ensures InstallGuards(s, table, gs).0.Pass?
    ensures forall g :: g in gs ==> Installed(InstallGuards(s, table, gs).1.catalog, TableKey(table), g)
    decreases |gs|
  {
    if gs != [] {
      var g0 := gs[0];
      assert g0 in gs;
      var k := TableKey(table);
      var p := InstallGuard(s, table, g0);
      assert TriggerId(k, g0.trigger) !in s.catalog.triggers;
      assert p.0.Pass? && Installed(p.1.catalog, k, g0);
      forall g | g in gs[1..] ensures !TriggerNameTaken(p.1.catalog, g.trigger) && g.fname != g0.fname {
        var j :| 0 <= j < |gs[1..]| && gs[1..][j] == g;
        assert gs[j + 1] == g;
        assert g.trigger != g0.trigger && g.fname != g0.fname;
        assert g in gs;
      }
      assert forall i, j :: 0 <= i < j < |gs[1..]| ==> gs[1..][i] == gs[i + 1] && gs[1..][j] == gs[j + 1];
      InstallGuardsEstablish(p.1, table, gs[1..]);
      InstallGuardsKeep(p.1, table, gs[1..], k, g0);
      assert forall g :: g in gs ==> g == g0 || g in gs[1..];
    }
  }

  /** An installed guard rejects every update that changes its column, so a
      row update the triggers let through keeps that column's value. */
  lemma GuardProtects(cat: Catalog, k: string, g: Guard, oldRow: Row, newRow: Row)
    requires Installed(cat, k, g)
    ensures GuardsAllow(cat, k, oldRow, newRow) ==> Get(newRow, g.column) == Get(oldRow, g.column)
    ensures OnlyGuarded(cat, k, g.column) ==>
      (GuardsAllow(cat, k, oldRow, newRow) <==> Get(newRow, g.column) == Get(oldRow, g.column))
  {
    if GuardsAllow(cat, k, oldRow, newRow) {
      assert TriggerId(k, g.trigger) in cat.triggers;
    }
    if OnlyGuarded(cat, k, g.column) && Get(newRow, g.column) == Get(oldRow, g.column) {
      OnlyGuardedAllows(cat, k, g.column, oldRow, newRow);
    }
  }

  /** Installing a guard of `g.column` keeps a table guarded on that column
      only. */
  lemma InstallGuardKeepsOnly(s: DbState, table: string, g: Guard, k: string)
    requires OnlyGuarded(s.catalog, k, g.column)
    ensures OnlyGuarded(InstallGuard(s, table, g).1.catalog, k, g.column)
  {
    if !TriggerNameTaken(s.catalog, g.trigger) {
      var s1 := Exec(s, FunctionSql(g), CreateFunction(g.fname, g.column), map[]).1;
      CreateFunctionKeepsOnly(s, FunctionSql(g), g.fname, g.column, map[], k);
      CreateTriggerKeepsOnly(s1, TriggerSql(g, table), g.trigger, table, g.fname, map[], k, g.column);
    }
  }

  lemma {:induction false} InstallGuardsKeepOnly(s: DbState, table: string, gs: seq<Guard>, k: string, col: string)
    requires OnlyGuarded(s.catalog, k, col) && forall g :: g in gs ==> g.column == col
    ensures OnlyGuarded(InstallGuards(s, table, gs).1.catalog, k, col)
    decreases |gs|
  {
    if gs != [] {
      assert gs[0] in gs;
      InstallGuardKeepsOnly(s, table, gs[0], k);
      assert forall g :: g in gs[1..] ==> g in gs;
      InstallGuardsKeepOnly(InstallGuard(s, table, gs[0]).1, table, gs[1..], k, col);
    }
  }

  /** An entity whose only immutable column is `col` leaves its table
      guarded on `col` only, if it was before. */
  lemma ImmutabilityTriggersKeepOnly(t: EntityType, s: DbState, col: string)
    requires GetTableName(t).Ok? && OnlyGuarded(s.catalog, TableKey(GetTableName(t).value), col)
    requires forall c :: c in Columns(t) && !c.updatable ==> c.name == col
    ensures OnlyGuarded(ImmutabilityTriggers(t, s).1.catalog, TableKey(GetTableName(t).value), col)
  {
    var name := GetTableName(t).value;
    if s.connectable {
      var gs := RequiredGuards(name, Columns(t));
      forall g | g in gs ensures g.column == col {
        var c :| c in Columns(t) && !c.updatable && g == GuardFor(name, c.name);
      }
      InstallGuardsKeepOnly(s, name, gs, TableKey(name), col);
    }
  }

  predicate DistinctTriggers(gs: seq<Guard>)
  {
    forall i, j :: 0 <= i < j < |gs| ==> gs[i].trigger != gs[j].trigger
  }

  /** A guard's function and trigger share their suffix: two guards of a
      table clash on one name exactly when they clash on the other. */
  lemma GuardNamesAgree(table: string, a: string, b: string)
    ensures GuardFor(table, a).fname == GuardFor(table, b).fname <==>
            GuardFor(table, a).trigger == GuardFor(table, b).trigger
  {
    var x := ToLower(table) + "_" + ToLower(a);
    var y := ToLower(table) + "_" + ToLower(b);
    var p, q := "prevent_update_", "no_update_";
    assert (p + x)[|p|..] == x && (p + y)[|p|..] == y;
    assert (q + x)[|q|..] == x && (q + y)[|q|..] == y;
  }

  /** Installing the guards of an entity on its existing table, when none of
      their trigger names is taken yet and no two of them share a name,
      succeeds, and from then on every row update the triggers let through
      keeps every non-updatable column (the key included) unchanged. */
  lemma ImmutabilityGuardsHold(t: EntityType, s: DbState, oldRow: Row, newRow: Row)
    requires t.table.Some? && s.connectable && TableKey(t.table.value.name) in s.tables
    requires DistinctTriggers(RequiredGuards(t.table.value.name, Columns(t)))
    requires forall g :: g in RequiredGuards(t.table.value.name, Columns(t)) ==> !TriggerNameTaken(s.catalog, g.trigger)
    ensures ImmutabilityTriggers(t, s).0.Pass?
    ensures forall c :: c in Columns(t) && !c.updatable ==>
      (GuardsAllow(ImmutabilityTriggers(t, s).1.catalog, TableKey(t.table.value.name), oldRow, newRow) ==>
       Get(newRow, c.name) == Get(oldRow, c.name))
  {
    var table := t.table.value.name;
    var gs := RequiredGuards(table, Columns(t));
    forall i, j | 0 <= i < j < |gs| ensures gs[i].fname != gs[j].fname {
      assert gs[i] in gs && gs[j] in gs;
      var a :| a in Columns(t) && !a.updatable && gs[i] == GuardFor(table, a.name);
      var b :| b in Columns(t) && !b.updatable && gs[j] == GuardFor(table, b.name);
      GuardNamesAgree(table, a.name, b.name);
    }
    InstallGuardsEstablish(s, table, gs);
    var cat := ImmutabilityTriggers(t, s).1.catalog;
    forall c | c in Columns(t) && !c.updatable
      ensures GuardsAllow(cat, TableKey(table), oldRow, newRow) ==> Get(newRow, c.name) == Get(oldRow, c.name)
    {
      var g := GuardFor(table, c.name);
      assert g in gs;
      GuardProtects(cat, TableKey(table), g, oldRow, newRow);
    }
  }
}
