/** The statement texts and parameter lists the generic data-access layer
    builds from an entity descriptor: CREATE TABLE, INSERT, UPDATE, SELECT
    and DELETE. */
module Statements {
  import opened Common
  import opened Annotations
  import opened DaoUtils

  /** How often `c` occurs in `s`. */
  function Count(s: string, c: char): nat
  {
    if s == [] then 0 else (if s[0] == c then 1 else 0) + Count(s[1..], c)
  }

  lemma {:induction false} CountAppend(a: string, b: string, c: char)
    ensures Count(a + b, c) == Count(a, c) + Count(b, c)
  {
    if a == [] {
      assert a + b == b;
    } else {
      assert (a + b)[1..] == a[1..] + b;
      CountAppend(a[1..], b, c);
    }
  }

  lemma {:induction false} CountAbsent(s: string, c: char)
    requires c !in s
    ensures Count(s, c) == 0
  {
    if s != [] {
      CountAbsent(s[1..], c);
    }
  }

  lemma Sum3(a: string, b: string, d: string, c: char, na: nat, nb: nat, nd: nat)
    requires Count(a, c) == na && Count(b, c) == nb && Count(d, c) == nd
    ensures Count(a + b + d, c) == na + nb + nd
  {
    CountAppend(a + b, d, c);
    CountAppend(a, b, c);
  }

  lemma Sum5(a: string, b: string, d: string, e: string, f: string, c: char,
             na: nat, nb: nat, nd: nat, ne: nat, nf: nat)
    requires Count(a, c) == na && Count(b, c) == nb && Count(d, c) == nd && Count(e, c) == ne && Count(f, c) == nf
    ensures Count(a + b + d + e + f, c) == na + nb + nd + ne + nf
  {
    CountAppend(a + b + d + e, f, c);
    CountAppend(a + b + d, e, c);
    Sum3(a, b, d, c, na, nb, nd);
  }

  /** The key placeholder ` = ?` holds one `?`. */
  lemma KeyPlaceholderCount()
    ensures Count(" = ?", '?') == 1
  {
  }

  function SumCounts(parts: seq<string>, c: char): nat
  {
    if parts == [] then 0 else Count(parts[0], c) + SumCounts(parts[1..], c)
  }

  /** A character occurs in a join as often as in its parts, plus once per
      separator occurrence between neighbours. */
  lemma {:induction false} JoinCount(parts: seq<string>, sep: string, c: char)
    requires |parts| > 0
    ensures Count(Join(parts, sep), c) == SumCounts(parts, c) + (|parts| - 1) * Count(sep, c)
  {
    if |parts| == 1 {
      assert SumCounts(parts, c) == Count(parts[0], c) + SumCounts(parts[1..], c);
    } else {
      JoinCount(parts[1..], sep, c);
      CountAppend(parts[0] + sep, Join(parts[1..], sep), c);
      CountAppend(parts[0], sep, c);
    }
  }

  lemma {:induction false} RepeatCount(s: string, n: nat, c: char)
    ensures SumCounts(Repeat(s, n), c) == n * Count(s, c)
  {
    if n > 0 {
      assert Repeat(s, n)[1..] == Repeat(s, n - 1);
      RepeatCount(s, n - 1, c);
    }
  }

  /** A join of `n` copies of `s` holds `n` times the occurrences in `s`,
      when the separator does not hold the character. */
  lemma JoinRepeatCount(s: string, n: nat, sep: string, c: char)
    requires Count(sep, c) == 0
    ensures Count(Join(Repeat(s, n), sep), c) == n * Count(s, c)
  {
    if n > 0 {
      JoinCount(Repeat(s, n), sep, c);
      RepeatCount(s, n, c);
    }
  }

  /** A join of parts none of which holds `c`, with a separator that does
      not hold it, does not hold it. */
  lemma JoinCountZero(parts: seq<string>, sep: string, c: char)
    requires c !in sep
    requires forall k :: 0 <= k < |parts| ==> c !in parts[k]
    ensures Count(Join(parts, sep), c) == 0
  {
    JoinAvoids(parts, sep, c);
    CountAbsent(Join(parts, sep), c);
  }

  // ---------------------------------------------------------------------
  // CREATE TABLE

  function Names(cols: seq<ColumnDesc>): (r: seq<string>)
    ensures |r| == |cols| && forall k :: 0 <= k < |cols| ==> r[k] == cols[k].name
  {
    seq(|cols|, k requires 0 <= k < |cols| => cols[k].name)
  }

  function Definitions(cols: seq<ColumnDesc>): (r: seq<string>)
    ensures |r| == |cols| && forall k :: 0 <= k < |cols| ==> r[k] == BuildColumnDefinition(cols[k])
  {
    seq(|cols|, k requires 0 <= k < |cols| => BuildColumnDefinition(cols[k]))
  }

  function PrimaryKeyClause(pk: string): string
  {
    "PRIMARY KEY (" + pk + ")"
  }

  /** The column definitions, the primary-key clause, the foreign keys. */
  function TableClauses(cols: seq<ColumnDesc>, pk: string): seq<string>
  {
    Definitions(cols) + [PrimaryKeyClause(pk)] + BuildForeignKeyConstraints(cols)
  }

  const CreatePrefix: string := "CREATE TABLE IF NOT EXISTS "

  /** The CREATE text: the table name, then the clauses between parentheses. */
  function CreateTableSql(table: string, cols: seq<ColumnDesc>, pk: string): (r: string)
    ensures var n := |CreatePrefix| + |table| + 2;
      && n < |r|
      && r[..n] == CreatePrefix + table + " ("
      && r[|r| - 1] == ')'
      && r[n..|r| - 1] == Join(TableClauses(cols, pk), ",")
  {
    var head := CreatePrefix + table + " (";
    var body := Join(TableClauses(cols, pk), ",");
    assert head + body + ")" == CreatePrefix + table + " (" + body + ")";
    head + body + ")"
  }

  /** No identifier or type of the descriptor holds `c`. */
  predicate FreeOf(cols: seq<ColumnDesc>, c: char)
  {
    forall k :: 0 <= k < |cols| ==>
      c !in cols[k].name && c !in cols[k].sqlType && c !in cols[k].fkTable && c !in cols[k].fkColumn
  }

  /** The text opens with the verbatim table name and, between the
      parentheses, its comma-separated clauses are one definition per
      column in column order, then exactly one PRIMARY KEY clause, then the
      foreign-key clauses. */
  lemma CreateTableShape(table: string, cols: seq<ColumnDesc>, pk: string)
    requires FreeOf(cols, ',') && ',' !in pk
    ensures var sql := CreateTableSql(table, cols, pk);
      var n := |CreatePrefix| + |table| + 2;
      && n < |sql|
      && sql[..n] == CreatePrefix + table + " ("
      && sql[|sql| - 1] == ')'
      && var clauses := Split(sql[n..|sql| - 1], ',');
      && |clauses| == |cols| + 1 + |BuildForeignKeyConstraints(cols)|
      && clauses[..|cols|] == Definitions(cols)
      && clauses[|cols|] == PrimaryKeyClause(pk)
      && clauses[|cols| + 1..] == BuildForeignKeyConstraints(cols)
  {
    ClausesFree(cols, pk);
    SplitJoin(TableClauses(cols, pk), ',');
  }

  lemma ClausesFree(cols: seq<ColumnDesc>, pk: string)
    requires FreeOf(cols, ',') && ',' !in pk
    ensures forall k :: 0 <= k < |TableClauses(cols, pk)| ==> ',' !in TableClauses(cols, pk)[k]
  {
    DefinitionsFree(cols);
    ForeignKeysFree(cols);
    assert ',' !in PrimaryKeyClause(pk);
  }

  lemma DefinitionsFree(cols: seq<ColumnDesc>)
    requires FreeOf(cols, ',')
    ensures forall k :: 0 <= k < |cols| ==> ',' !in Definitions(cols)[k]
  {
    forall k | 0 <= k < |cols| ensures ',' !in Definitions(cols)[k] {
      DefinitionFree(cols[k]);
    }
  }

  lemma DefinitionFree(c: ColumnDesc)
    requires ',' !in c.name && ',' !in c.sqlType
    ensures ',' !in BuildColumnDefinition(c)
  {
  }

  lemma ForeignKeysFree(cols: seq<ColumnDesc>)
    requires FreeOf(cols, ',')
    ensures forall x :: x in BuildForeignKeyConstraints(cols) ==> ',' !in x
  {
    forall x | x in BuildForeignKeyConstraints(cols) ensures ',' !in x {
      var c :| c in cols && HasForeignKey(c) && x == ForeignKeyClause(c);
      var m :| 0 <= m < |cols| && cols[m] == c;
      ForeignKeyFree(c);
    }
  }

  lemma ForeignKeyFree(c: ColumnDesc)
    requires ',' !in c.name && ',' !in c.fkTable && ',' !in c.fkColumn
    ensures ',' !in ForeignKeyClause(c)
  {
  }

  // ---------------------------------------------------------------------
  // INSERT

  /** The fields INSERT writes: every annotated field that is not a key. */
  function NonKeyFields(fs: seq<Field>): (r: seq<Field>)
    requires AllAnnotated(fs)
    ensures AllAnnotated(r)
    ensures forall f :: f in r <==> f in fs && !f.column.value.primaryKey
  {
    if fs == [] then []
    else
      assert forall f :: f in fs <==> f == fs[0] || f in fs[1..];
      (if !fs[0].column.value.primaryKey then [fs[0]] else []) + NonKeyFields(fs[1..])
  }

  function FieldNames(fs: seq<Field>): (r: seq<string>)
    requires AllAnnotated(fs)
    ensures |r| == |fs| && forall k :: 0 <= k < |fs| ==> r[k] == fs[k].column.value.name
  {
    seq(|fs|, k requires 0 <= k < |fs| => fs[k].column.value.name)
  }

  /** One VALUES group of `n` placeholders. */
  function Group(n: nat): string
  {
    "(" + Join(Repeat("?", n), ",") + ")"
  }

  const InsertPrefix: string := "INSERT INTO "
  const ValuesWord: string := ") VALUES "

  /** The INSERT text: the table name, the column list between parentheses,
      then the VALUES groups. */
  function InsertSql(table: string, names: seq<string>, groups: nat): (r: string)
    ensures var n := |InsertPrefix| + |table| + 2;
      var m := n + |Join(names, ",")|;
      && m + |ValuesWord| <= |r|
      && r[..n] == InsertPrefix + table + " ("
      && r[n..m] == Join(names, ",")
      && r[m..m + |ValuesWord|] == ValuesWord
      && r[m + |ValuesWord|..] == Join(Repeat(Group(|names|), groups), ",")
  {
    var head := InsertPrefix + table + " (";
    var cols := Join(names, ",");
    var values := Join(Repeat(Group(|names|), groups), ",");
    assert head + cols + ValuesWord + values == InsertPrefix + table + " (" + cols + ValuesWord + values;
    head + cols + ValuesWord + values
  }

  /** Identifiers free of the characters the statement shapes count. */
  predicate Plain(s: string)
  {
    '?' !in s && '(' !in s && ',' !in s
  }

  lemma GroupCounts(n: nat)
    ensures Count(Group(n), '?') == n
    ensures Count(Group(n), '(') == 1
  {
    var inner := Join(Repeat("?", n), ",");
    JoinRepeatCount("?", n, ",", '?');
    JoinRepeatCount("?", n, ",", '(');
    assert Count("(", '(') == 1 && Count("(", '?') == 0;
    assert Count(")", '(') == 0 && Count(")", '?') == 0;
    Sum3("(", inner, ")", '?', 0, n, 0);
    Sum3("(", inner, ")", '(', 1, 0, 0);
  }

  /** The INSERT text opens with the verbatim table name, the column list
      between its first parentheses splits at commas into exactly `names`,
      and it has one parenthesised group per object, each holding one
      placeholder per column. */
  lemma InsertShape(table: string, names: seq<string>, groups: nat)
    requires Plain(table) && forall k :: 0 <= k < |names| ==> Plain(names[k])
    ensures var sql := InsertSql(table, names, groups);
      var n := |InsertPrefix| + |table| + 2;
      var m := n + |Join(names, ",")|;
      && m + |ValuesWord| <= |sql|
      && sql[..n] == InsertPrefix + table + " ("
      && (|names| > 0 ==> Split(sql[n..m], ',') == names)
      && sql[m..m + |ValuesWord|] == ValuesWord
      && sql[m + |ValuesWord|..] == Join(Repeat(Group(|names|), groups), ",")
      && Count(sql, '?') == groups * |names|
      && Count(sql, '(') == groups + 1
  {
    if |names| > 0 {
      InsertColumnList(table, names, groups);
    }
    InsertCounts(table, names, groups);
  }

  /** The column list of the INSERT text splits back into the names. */
  lemma InsertColumnList(table: string, names: seq<string>, groups: nat)
    requires |names| > 0 && forall k :: 0 <= k < |names| ==> Plain(names[k])
    ensures var sql := InsertSql(table, names, groups);
      var n := |InsertPrefix| + |table| + 2;
      Split(sql[n..n + |Join(names, ",")|], ',') == names
  {
    var n := |InsertPrefix| + |table| + 2;
    SplitSlice(InsertSql(table, names, groups), n, n + |Join(names, ",")|, names);
  }

  /** A slice that is a comma join of comma-free parts splits back into them. */
  lemma SplitSlice(s: string, n: nat, m: nat, parts: seq<string>)
    requires n <= m <= |s| && s[n..m] == Join(parts, ",")
    requires |parts| > 0 && forall k :: 0 <= k < |parts| ==> ',' !in parts[k]
    ensures Split(s[n..m], ',') == parts
  {
    SplitJoin(parts, ',');
  }

  lemma InsertCounts(table: string, names: seq<string>, groups: nat)
    requires Plain(table) && forall k :: 0 <= k < |names| ==> Plain(names[k])
    ensures Count(InsertSql(table, names, groups), '?') == groups * |names|
    ensures Count(InsertSql(table, names, groups), '(') == groups + 1
  {
    InsertPlaceholders(table, names, groups);
    InsertGroups(table, names, groups);
  }

  lemma InsertPlaceholders(table: string, names: seq<string>, groups: nat)
    requires Plain(table) && forall k :: 0 <= k < |names| ==> Plain(names[k])
    ensures Count(InsertSql(table, names, groups), '?') == groups * |names|
  {
    var cols := Join(names, ",");
    var values := Join(Repeat(Group(|names|), groups), ",");
    InsertPrefixQuestion();
    OpenQuestion();
    ValuesQuestion();
    JoinCountZero(names, ",", '?');
    ValuesPlaceholders(|names|, groups);
    CountAbsent(table, '?');
    InsertAssembly(InsertPrefix, " (", ValuesWord, table, cols, values, '?', groups * |names|, 0);
  }

  lemma ValuesPlaceholders(n: nat, groups: nat)
    ensures Count(Join(Repeat(Group(n), groups), ","), '?') == groups * n
  {
    GroupCounts(n);
    JoinRepeatCount(Group(n), groups, ",", '?');
  }

  lemma InsertGroups(table: string, names: seq<string>, groups: nat)
    requires Plain(table) && forall k :: 0 <= k < |names| ==> Plain(names[k])
    ensures Count(InsertSql(table, names, groups), '(') == groups + 1
  {
    var cols := Join(names, ",");
    var values := Join(Repeat(Group(|names|), groups), ",");
    InsertPrefixParen();
    OpenParen();
    ValuesParen();
    JoinCountZero(names, ",", '(');
    GroupCounts(|names|);
    JoinRepeatCount(Group(|names|), groups, ",", '(');
    CountAbsent(table, '(');
    InsertAssembly(InsertPrefix, " (", ValuesWord, table, cols, values, '(', groups, 1);
  }

  // Each fixed word's marks in a lemma of its own: counted in one context,
  // several literal words unfold together and exhaust the solver.

  lemma InsertPrefixQuestion()
    ensures Count(InsertPrefix, '?') == 0
  {
    CountAbsent(InsertPrefix, '?');
  }

  lemma InsertPrefixParen()
    ensures Count(InsertPrefix, '(') == 0
  {
    CountAbsent(InsertPrefix, '(');
  }

  lemma OpenQuestion()
    ensures Count(" (", '?') == 0
  {
  }

  lemma OpenParen()
    ensures Count(" (", '(') == 1
  {
  }

  lemma ValuesQuestion()
    ensures Count(ValuesWord, '?') == 0
  {
    CountAbsent(ValuesWord, '?');
  }

  lemma ValuesParen()
    ensures Count(ValuesWord, '(') == 0
  {
    CountAbsent(ValuesWord, '(');
  }

  /** Counting over the INSERT layout with its fixed words left abstract
      (stated over literal words directly, the count unfolds them). */
  lemma InsertAssembly(p: string, o: string, v: string, table: string, cols: string, values: string,
                       c: char, n: nat, m: nat)
    requires Count(p, c) == 0 && Count(o, c) == m && Count(v, c) == 0
    requires Count(table, c) == 0 && Count(cols, c) == 0 && Count(values, c) == n
    ensures Count(p + table + o + cols + v + values, c) == m + n
  {
    CountAppend(p, table, c);
    Sum5(p + table, o, cols, v, values, c, 0, m, 0, 0, n);
  }

  /** The values of `fs` in `obj`, in field order. */
  function ValuesOf(obj: Obj, fs: seq<Field>): (r: seq<Value>)
    ensures |r| == |fs| && forall k :: 0 <= k < |fs| ==> r[k] == FieldValue(obj, fs[k])
  {
    seq(|fs|, k requires 0 <= k < |fs| => FieldValue(obj, fs[k]))
  }

  /** One more field adds its value at the end. */
  lemma ValuesOfSnoc(obj: Obj, fs: seq<Field>, f: Field)
    ensures ValuesOf(obj, fs + [f]) == ValuesOf(obj, fs) + [FieldValue(obj, f)]
  {
    var a, b := ValuesOf(obj, fs + [f]), ValuesOf(obj, fs) + [FieldValue(obj, f)];
    assert |a| == |b|;
    forall k | 0 <= k < |a| ensures a[k] == b[k] {
      assert (fs + [f])[k] == if k < |fs| then fs[k] else f;
    }
  }

  /** The INSERT parameters: object after object, field after field. */
  function InsertParams(objs: seq<Obj>, fs: seq<Field>): seq<Value>
  {
    if objs == [] then [] else ValuesOf(objs[0], fs) + InsertParams(objs[1..], fs)
  }

  lemma {:induction false} InsertParamsAppend(a: seq<Obj>, b: seq<Obj>, fs: seq<Field>)
    ensures InsertParams(a + b, fs) == InsertParams(a, fs) + InsertParams(b, fs)
  {
    if a == [] {
      assert a + b == b;
    } else {
      assert (a + b)[1..] == a[1..] + b;
      InsertParamsAppend(a[1..], b, fs);
    }
  }

  lemma {:induction false} InsertParamsLength(objs: seq<Obj>, fs: seq<Field>)
    ensures |InsertParams(objs, fs)| == |objs| * |fs|
  {
    if objs != [] {
      InsertParamsLength(objs[1..], fs);
      assert |objs| * |fs| == |fs| + (|objs| - 1) * |fs|;
    }
  }

  /** The parameter at `i·|fs| + j` is the value of field `j` of object `i`. */
  lemma {:induction false} InsertParamAt(objs: seq<Obj>, fs: seq<Field>, i: nat, j: nat)
    requires i < |objs| && j < |fs|
    ensures i * |fs| + j < |InsertParams(objs, fs)|
    ensures InsertParams(objs, fs)[i * |fs| + j] == FieldValue(objs[i], fs[j])
  {
    InsertParamsLength(objs, fs);
    MulMono(i + 1, |objs|, |fs|);
    if i > 0 {
      InsertParamAt(objs[1..], fs, i - 1, j);
      assert i * |fs| + j == |fs| + ((i - 1) * |fs| + j);
    }
  }

  /** `ps.setObject(index++, param)` for each parameter: positions from 1. */
  function Positional(params: seq<Value>): (m: map<int, Value>)
    ensures forall i :: i in m <==> 1 <= i <= |params|
    ensures forall i :: 0 <= i < |params| ==> m[i + 1] == params[i]
  {
    if params == [] then map[]
    else Positional(params[..|params| - 1])[|params| := params[|params| - 1]]
  }

  // ---------------------------------------------------------------------
  // UPDATE, SELECT, DELETE

  /** The fields UPDATE sets: every annotated field except the key field. */
  function OtherFields(fs: seq<Field>, pk: Field): (r: seq<Field>)
    ensures forall f :: f in r <==> f in fs && f != pk
    ensures |r| <= |fs|
    ensures AllAnnotated(fs) ==> AllAnnotated(r)
  {
    if fs == [] then []
    else
      assert forall f :: f in fs <==> f == fs[0] || f in fs[1..];
      (if fs[0] != pk then [fs[0]] else []) + OtherFields(fs[1..], pk)
  }

  function Assignments(names: seq<string>): (r: seq<string>)
    ensures |r| == |names| && forall k :: 0 <= k < |names| ==> r[k] == names[k] + " = ?"
  {
    seq(|names|, k requires 0 <= k < |names| => names[k] + " = ?")
  }

  const UpdatePrefix: string := "UPDATE "

  const SetWord: string := " SET "
  const WhereWord: string := " WHERE "

  /** The UPDATE text: the table name, the SET list, then the key condition. */
  function UpdateSql(table: string, names: seq<string>, pk: string): (r: string)
    ensures var n := |UpdatePrefix| + |table| + |SetWord|;
      var m := n + |Join(Assignments(names), ",")|;
      && m + |WhereWord| <= |r|
      && r[..n] == UpdatePrefix + table + SetWord
      && r[n..m] == Join(Assignments(names), ",")
      && r[m..m + |WhereWord|] == WhereWord
      && r[m + |WhereWord|..] == pk + " = ?"
  {
    var head := UpdatePrefix + table + SetWord;
    var setList := Join(Assignments(names), ",");
    var r := head + setList + WhereWord + pk + " = ?";
    assert r == head + setList + WhereWord + (pk + " = ?");
    r
  }

  /** The UPDATE parameters: the set values in field order, then the key. */
  function UpdateParams(obj: Obj, fs: seq<Field>, pk: Field): (r: seq<Value>)
    ensures |r| == |fs| + 1
    ensures r[..|fs|] == ValuesOf(obj, fs) && r[|fs|] == FieldValue(obj, pk)
  {
    ValuesOf(obj, fs) + [FieldValue(obj, pk)]
  }

  /** The UPDATE text opens with the verbatim table name, the text between
      ` SET ` and ` WHERE ` splits at commas into one `name = ?` item per
      name in order, and it holds one placeholder per set column plus one
      for the key: as many as there are parameters. */
  lemma UpdateShape(table: string, names: seq<string>, pk: string)
    requires Plain(table) && Plain(pk) && forall k :: 0 <= k < |names| ==> Plain(names[k])
    ensures var sql := UpdateSql(table, names, pk);
      var n := |UpdatePrefix| + |table| + |SetWord|;
      var m := n + |Join(Assignments(names), ",")|;
      && m + |WhereWord| <= |sql|
      && sql[..n] == UpdatePrefix + table + SetWord
      && (|names| > 0 ==> Split(sql[n..m], ',') == Assignments(names))
      && sql[m..m + |WhereWord|] == WhereWord
      && sql[m + |WhereWord|..] == pk + " = ?"
      && Count(sql, '?') == |names| + 1
  {
    var sql := UpdateSql(table, names, pk);
    var n := |UpdatePrefix| + |table| + |SetWord|;
    AssignmentsCount(names);
    UpdateCounts(table, names, pk);
    if |names| > 0 {
      SplitSlice(sql, n, n + |Join(Assignments(names), ",")|, Assignments(names));
    }
  }

  lemma AssignmentsCount(names: seq<string>)
    requires forall k :: 0 <= k < |names| ==> Plain(names[k])
    ensures forall k :: 0 <= k < |names| ==> ',' !in Assignments(names)[k]
    ensures Count(Join(Assignments(names), ","), '?') == |names|
  {
    forall k | 0 <= k < |names| ensures Count(Assignments(names)[k], '?') == 1 {
      CountAbsent(names[k], '?');
      KeyPlaceholderCount();
      CountAppend(names[k], " = ?", '?');
    }
    if |names| > 0 {
      JoinCount(Assignments(names), ",", '?');
      SumCountsOnes(Assignments(names), '?');
    }
  }

  lemma UpdateCounts(table: string, names: seq<string>, pk: string)
    requires Plain(table) && Plain(pk)
    requires Count(Join(Assignments(names), ","), '?') == |names|
    ensures Count(UpdateSql(table, names, pk), '?') == |names| + 1
  {
    var setList := Join(Assignments(names), ",");
    UpdateFixedCounts();
    CountAbsent(table, '?');
    CountAbsent(pk, '?');
    UpdateAssembly(UpdatePrefix, SetWord, WhereWord, " = ?", table, setList, pk, '?', |names|);
  }

  /** Counting over the UPDATE layout with its fixed words left abstract. */
  lemma UpdateAssembly(p: string, st: string, w: string, k: string, table: string, setList: string, pk: string,
                       c: char, n: nat)
    requires Count(p, c) == 0 && Count(st, c) == 0 && Count(w, c) == 0 && Count(k, c) == 1
    requires Count(table, c) == 0 && Count(setList, c) == n && Count(pk, c) == 0
    ensures Count(p + table + st + setList + w + pk + k, c) == n + 1
  {
    CountAppend(p + table + st + setList + w + pk, k, c);
    CountAppend(p + table + st + setList + w, pk, c);
    Sum5(p, table, st, setList, w, c, 0, 0, 0, n, 0);
  }

  lemma UpdateFixedCounts()
    ensures Count(UpdatePrefix, '?') == 0 && Count(SetWord, '?') == 0
    ensures Count(WhereWord, '?') == 0 && Count(" = ?", '?') == 1
  {
    UpdatePrefixMarks();
    SetMarks();
    WhereMarks();
    KeyPlaceholderCount();
  }

  lemma UpdatePrefixMarks()
    ensures Count(UpdatePrefix, '?') == 0
  {
    CountAbsent(UpdatePrefix, '?');
  }

  lemma SetMarks()
    ensures Count(SetWord, '?') == 0
  {
    CountAbsent(SetWord, '?');
  }

  lemma WhereMarks()
    ensures Count(WhereWord, '?') == 0
  {
    CountAbsent(WhereWord, '?');
  }

  lemma {:induction false} SumCountsOnes(parts: seq<string>, c: char)
    requires forall k :: 0 <= k < |parts| ==> Count(parts[k], c) == 1
    ensures SumCounts(parts, c) == |parts|
  {
    if parts != [] {
      SumCountsOnes(parts[1..], c);
    }
  }

  const SelectPrefix: string := "SELECT * FROM "
  const DeletePrefix: string := "DELETE FROM "

  function SelectByKeySql(table: string, pk: string): string
  {
    SelectPrefix + table + WhereWord + pk + " = ?"
  }

  /** `findAll` orders by the literal column `id`, whatever the key is named. */
  function SelectAllSql(table: string): string
  {
    SelectPrefix + table + " ORDER BY id"
  }

  function DeleteSql(table: string, pk: string): string
  {
    DeletePrefix + table + WhereWord + pk + " = ?"
  }

  /** The keyed SELECT and the DELETE open with the verbatim table name and
      hold exactly one placeholder, the key; the unkeyed SELECT holds none. */
  lemma KeyedShapes(table: string, pk: string)
    requires Plain(table) && Plain(pk)
    ensures SelectByKeySql(table, pk)[..|SelectPrefix| + |table|] == SelectPrefix + table
    ensures SelectAllSql(table)[..|SelectPrefix| + |table|] == SelectPrefix + table
    ensures DeleteSql(table, pk)[..|DeletePrefix| + |table|] == DeletePrefix + table
    ensures Count(SelectByKeySql(table, pk), '?') == 1
    ensures Count(SelectAllSql(table), '?') == 0
    ensures Count(DeleteSql(table, pk), '?') == 1
  {
    KeyedTexts(table, pk);
    KeyedCounts(table, pk);
  }

  lemma KeyedTexts(table: string, pk: string)
    ensures SelectByKeySql(table, pk)[..|SelectPrefix| + |table|] == SelectPrefix + table
    ensures SelectAllSql(table)[..|SelectPrefix| + |table|] == SelectPrefix + table
    ensures DeleteSql(table, pk)[..|DeletePrefix| + |table|] == DeletePrefix + table
  {
    assert SelectByKeySql(table, pk) == (SelectPrefix + table) + (WhereWord + pk + " = ?");
    assert SelectAllSql(table) == (SelectPrefix + table) + " ORDER BY id";
    assert DeleteSql(table, pk) == (DeletePrefix + table) + (WhereWord + pk + " = ?");
  }

  lemma KeyedCounts(table: string, pk: string)
    requires Plain(table) && Plain(pk)
    ensures Count(SelectByKeySql(table, pk), '?') == 1
    ensures Count(SelectAllSql(table), '?') == 0
    ensures Count(DeleteSql(table, pk), '?') == 1
  {
    SelectByKeyCount(table, pk);
    SelectAllCount(table);
    DeleteCount(table, pk);
  }

  lemma SelectByKeyCount(table: string, pk: string)
    requires Plain(table) && Plain(pk)
    ensures Count(SelectByKeySql(table, pk), '?') == 1
  {
    CountAbsent(table, '?');
    CountAbsent(pk, '?');
    SelectPrefixMarks();
    WhereMarks();
    KeyPlaceholderCount();
    Sum5(SelectPrefix, table, WhereWord, pk, " = ?", '?', 0, 0, 0, 0, 1);
  }

  lemma SelectAllCount(table: string)
    requires Plain(table)
    ensures Count(SelectAllSql(table), '?') == 0
  {
    CountAbsent(table, '?');
    SelectPrefixMarks();
    OrderMarks();
    Sum3(SelectPrefix, table, " ORDER BY id", '?', 0, 0, 0);
  }

  lemma DeleteCount(table: string, pk: string)
    requires Plain(table) && Plain(pk)
    ensures Count(DeleteSql(table, pk), '?') == 1
  {
    CountAbsent(table, '?');
    CountAbsent(pk, '?');
    DeletePrefixMarks();
    WhereMarks();
    KeyPlaceholderCount();
    Sum5(DeletePrefix, table, WhereWord, pk, " = ?", '?', 0, 0, 0, 0, 1);
  }

  lemma SelectPrefixMarks()
    ensures Count(SelectPrefix, '?') == 0
  {
    CountAbsent(SelectPrefix, '?');
  }

  lemma DeletePrefixMarks()
    ensures Count(DeletePrefix, '?') == 0
  {
    CountAbsent(DeletePrefix, '?');
  }

  lemma OrderMarks()
    ensures Count(" ORDER BY id", '?') == 0
  {
    CountAbsent(" ORDER BY id", '?');
  }
}
