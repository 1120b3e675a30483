/** PostgresDB (db_base.py): runs translated commands through an executor,
    keeps the registered tables and procedure scripts, reads the columns a
    table has in the live database from the information schema, and
    reconciles them with the table's declared definition.

    The database driver is replaced by an executor that records every
    command it is given and answers every query with the information-schema
    rows it was built with; the console prompt is replaced by a reply
    function, the k-th prompt being answered by `replies(k)`. */
module PostgresDb {
  import opened Wrappers
  import opened Text
  import opened Sequences
  import opened TableDefinition
  import opened Translator

  // ---------------------------------------------------------------------
  // Live columns

  /** One row of information_schema.columns, restricted to the fields
      query_columns_schemas reads. */
  datatype InfoRow = InfoRow(udtName: string, isNullable: string, columnName: string, octetLength: Option<int>)

  /** The octet length PostgreSQL reports for text of unbounded length. */
  const UnboundedOctetLength: int := 1073741824

  /** The length of a live column: its octet length, 0 when the row has
      none or reports the unbounded length. */
  function LiveLength(row: InfoRow): (n: int)
    ensures n == 0 <==> row.octetLength.None? || row.octetLength.value == 0
                        || row.octetLength.value == UnboundedOctetLength
    ensures n != 0 ==> n == row.octetLength.value
  {
    match row.octetLength
    case None => 0
    case Some(v) => if v == UnboundedOctetLength then 0 else v
  }

  /** The column a live row describes: nullable unless the row says "NO",
      never a key, with name and type normalised as for a declared column. */
  function RowToColumn(row: InfoRow): (c: Column)
    ensures Normalised(c)
    ensures c.nullable <==> row.isNullable != "NO"
    ensures c.length == LiveLength(row)
    ensures !c.isPrimaryKey && !c.isUnique
    ensures row.columnName !in Reserved ==> c.name == row.columnName
    ensures Upper(row.udtName) !in TypeMapping ==> c.dataType == Upper(row.udtName)
  {
    NewColumn(row.columnName, row.udtName, row.isNullable != "NO", false, false, LiveLength(row))
  }

  /** The columns query_columns_schemas builds, one per row, in row order. */
  function LiveColumns(rows: seq<InfoRow>): (r: seq<Column>)
    ensures |r| == |rows|
    ensures forall i :: 0 <= i < |rows| ==> r[i] == RowToColumn(rows[i])
  {
    seq(|rows|, i requires 0 <= i < |rows| => RowToColumn(rows[i]))
  }

  // ---------------------------------------------------------------------
  // Column statements

  function AddColumnSql(table: string, c: Column): string {
    "ALTER TABLE " + table + " ADD " + Render(c)
  }

  function DropColumnSql(table: string, c: Column): string {
    "ALTER TABLE " + table + " DROP " + c.name
  }

  function AlterTypeSql(table: string, c: Column): string {
    "ALTER TABLE " + table + " ALTER " + c.name + " TYPE " + c.dataType + " USING " + c.name + "::" + c.dataType
  }

  function AlterNullableSql(table: string, c: Column): string {
    "ALTER TABLE " + table + " ALTER " + c.name + (if c.nullable then " DROP NOT NULL" else " SET NOT NULL")
  }

  function RemoveColumnSql(table: string, c: Column): string {
    "ALTER TABLE " + table + " DROP " + Render(c)
  }

  lemma SeqAppendAssoc<T>(a: seq<T>, b: seq<T>, c: seq<T>)
    ensures a + b + c == a + (b + c)
  {
  }

  /** Two texts with a common prefix are equal exactly when the rest is. */
  lemma CancelPrefix(p: string, x: string, y: string)
    ensures p + x == p + y <==> x == y
  {
    if p + x == p + y {
      assert x == (p + x)[|p|..];
      assert y == (p + y)[|p|..];
    }
  }

  /** ADD carries the whole rendered column: two ADD statements for a table
      are equal exactly when the columns compare equal. */
  lemma AddColumnSqlRendersColumn(table: string, a: Column, b: Column)
    ensures AddColumnSql(table, a) == AddColumnSql(table, b) <==> SameColumn(a, b)
  {
    CancelPrefix("ALTER TABLE " + table + " ADD ", Render(a), Render(b));
  }

  /** DROP names the column only: two DROP statements for a table are equal
      exactly when the names are, whatever the types and nullability. */
  lemma DropColumnSqlNamesOnly(table: string, a: Column, b: Column)
    ensures DropColumnSql(table, a) == DropColumnSql(table, b) <==> a.name == b.name
  {
    CancelPrefix("ALTER TABLE " + table + " DROP ", a.name, b.name);
  }

  /** ALTER TYPE is determined by the name and the bare type: the length
      takes no part in it, so a length change is issued as a change to the
      bare type. */
  lemma AlterTypeSqlIgnoresLength(table: string, a: Column, b: Column)
    requires ' ' !in a.name && ' ' !in b.name && ' ' !in a.dataType && ' ' !in b.dataType
    ensures AlterTypeSql(table, a) == AlterTypeSql(table, b) <==> a.name == b.name && a.dataType == b.dataType
  {
    if AlterTypeSql(table, a) == AlterTypeSql(table, b) {
      var p := "ALTER TABLE " + table + " ALTER ";
      AlterTypeSqlShape(table, a);
      AlterTypeSqlShape(table, b);
      var restA := "TYPE " + (a.dataType + [' '] + AlterTypeTail(a));
      var restB := "TYPE " + (b.dataType + [' '] + AlterTypeTail(b));
      CancelPrefix(p, a.name + [' '] + restA, b.name + [' '] + restB);
      SplitAtFirst(a.name, restA, b.name, restB, ' ');
      CancelPrefix("TYPE ", a.dataType + [' '] + AlterTypeTail(a), b.dataType + [' '] + AlterTypeTail(b));
      SplitAtFirst(a.dataType, AlterTypeTail(a), b.dataType, AlterTypeTail(b), ' ');
    }
  }

  function AlterTypeTail(c: Column): string {
    "USING " + c.name + "::" + c.dataType
  }

  /** The type statement cut at the spaces after the name and the type. */
  lemma AlterTypeSqlShape(table: string, c: Column)
    ensures AlterTypeSql(table, c)
         == ("ALTER TABLE " + table + " ALTER ") + (c.name + [' '] + ("TYPE " + (c.dataType + [' '] + AlterTypeTail(c))))
  {
  }

  /** The nullability statement cut at the space after the name. */
  lemma AlterNullableSqlShape(table: string, c: Column)
    ensures AlterNullableSql(table, c)
         == ("ALTER TABLE " + table + " ALTER ") + (c.name + [' '] + (if c.nullable then "DROP NOT NULL" else "SET NOT NULL"))
  {
    if c.nullable {
      assert " DROP NOT NULL" == [' '] + "DROP NOT NULL";
    } else {
      assert " SET NOT NULL" == [' '] + "SET NOT NULL";
    }
  }

  /** The nullability statement is DROP NOT NULL for a nullable column and
      SET NOT NULL otherwise: two of them are equal exactly when the names
      and the nullability are. */
  lemma AlterNullableSqlFollowsNullability(table: string, a: Column, b: Column)
    requires ' ' !in a.name && ' ' !in b.name
    ensures AlterNullableSql(table, a) == AlterNullableSql(table, b) <==> a.name == b.name && a.nullable == b.nullable
  {
    if AlterNullableSql(table, a) == AlterNullableSql(table, b) {
      var p := "ALTER TABLE " + table + " ALTER ";
      var restA := if a.nullable then "DROP NOT NULL" else "SET NOT NULL";
      var restB := if b.nullable then "DROP NOT NULL" else "SET NOT NULL";
      AlterNullableSqlShape(table, a);
      AlterNullableSqlShape(table, b);
      CancelPrefix(p, a.name + [' '] + restA, b.name + [' '] + restB);
      SplitAtFirst(a.name, restA, b.name, restB, ' ');
      assert restA[0] == 'D' <==> a.nullable;
      assert restB[0] == 'D' <==> b.nullable;
    }
  }

  /** The type statement and the nullability statement for a column are
      never the same text. */
  lemma AlterStatementsDiffer(table: string, c: Column)
    ensures AlterTypeSql(table, c) != AlterNullableSql(table, c)
  {
    var p := "ALTER TABLE " + table + " ALTER " + c.name + " ";
    assert AlterTypeSql(table, c)[|p|] == 'T';
    assert AlterNullableSql(table, c)[|p|] != 'T';
  }

  /** remove_column drops the whole rendering: the DROP statement of the
      column followed by its type and nullability. */
  lemma RemoveColumnSqlExtendsDrop(table: string, c: Column)
    ensures RemoveColumnSql(table, c) == DropColumnSql(table, c) + " " + TypeString(c) + " " + NullString(c.nullable)
    ensures RemoveColumnSql(table, c) != DropColumnSql(table, c)
  {
    assert RemoveColumnSql(table, c) == DropColumnSql(table, c) + (" " + TypeString(c) + " " + NullString(c.nullable));
  }

  // ---------------------------------------------------------------------
  // Confirmation

  /** A reply approves when it is non-empty and, with surrounding
      whitespace removed and lower-cased, begins with `y`. */
  predicate Affirmative(answer: string) {
    answer != "" && "y" <= Lower(Strip(answer))
  }

  /** bool_answer: every prompt is approved when not interactive; otherwise
      the reply decides. */
  predicate Gate(interactive: bool, reply: string) {
    !interactive || Affirmative(reply)
  }

  /** A reply approves exactly when its first non-space character is `y`
      or `Y`. */
  lemma AffirmativeIffFirstCharacterY(answer: string)
    ensures Affirmative(answer) <==>
      exists i :: 0 <= i < |answer| && (forall j :: 0 <= j < i ==> IsSpace(answer[j])) && LowerChar(answer[i]) == 'y'
  {
    if Affirmative(answer) {
      AffirmativeStartsWithY(answer);
    }
    if exists i :: 0 <= i < |answer| && (forall j :: 0 <= j < i ==> IsSpace(answer[j])) && LowerChar(answer[i]) == 'y' {
      var i :| 0 <= i < |answer| && (forall j :: 0 <= j < i ==> IsSpace(answer[j])) && LowerChar(answer[i]) == 'y';
      StartingWithYIsAffirmative(answer, i);
    }
  }

  lemma AffirmativeStartsWithY(answer: string)
    requires Affirmative(answer)
    ensures var n := |answer| - |StripLeft(answer)|;
            n < |answer| && (forall j :: 0 <= j < n ==> IsSpace(answer[j])) && LowerChar(answer[n]) == 'y'
  {
    StripStart(answer);
    var r := Strip(answer);
    assert Lower(r)[0] == 'y';
  }

  lemma StartingWithYIsAffirmative(answer: string, i: nat)
    requires i < |answer| && (forall j :: 0 <= j < i ==> IsSpace(answer[j])) && LowerChar(answer[i]) == 'y'
    ensures Affirmative(answer)
  {
    assert !IsSpace(answer[i]);
    StripStart(answer);
    var r := Strip(answer);
    assert r != [] && r[0] == answer[i];
    assert Lower(r)[..1] == "y";
  }

  // ---------------------------------------------------------------------
  // Reconciliation

  /** What resolve_table_differences decides for one column name, given the
      declared and the live column found under it. */
  datatype Verdict =
    | AddMissing(local: Column)
    | DropExtra(remote: Column)
    | Alter(local: Column, remote: Column)
    | InSync

  /** The four cases: declared only, live only, both but comparing
      unequal, and everything else. */
  function Classify(local: Option<Column>, remote: Option<Column>): (v: Verdict)
    ensures v.AddMissing? <==> local.Some? && remote.None?
    ensures v.DropExtra? <==> local.None? && remote.Some?
    ensures v.Alter? <==> local.Some? && remote.Some? && !SameColumn(local.value, remote.value)
    ensures v.AddMissing? || v.Alter? ==> v.local == local.value
    ensures v.DropExtra? || v.Alter? ==> v.remote == remote.value
  {
    if local.Some? && remote.None? then AddMissing(local.value)
    else if remote.Some? && local.None? then DropExtra(remote.value)
    else if local.Some? && remote.Some? && !SameColumn(local.value, remote.value) then Alter(local.value, remote.value)
    else InSync
  }

  /** The type differs when the bare type or the length does. */
  predicate TypeChanged(local: Column, remote: Column) {
    local.dataType != remote.dataType || local.length != remote.length
  }

  /** The statements an approved verdict issues: ADD with the declared
      rendering, DROP by the live name, and for a mismatch a type change
      exactly when the type or length differs and a nullability change
      exactly when the nullability differs, the type change first. */
  function VerdictSql(table: string, v: Verdict): (r: seq<string>)
    ensures |r| <= 2
    ensures v.InSync? ==> r == []
    ensures v.AddMissing? ==> r == [AddColumnSql(table, v.local)]
    ensures v.DropExtra? ==> r == [DropColumnSql(table, v.remote)]
    ensures v.Alter? ==> (AlterTypeSql(table, v.local) in r <==> TypeChanged(v.local, v.remote))
    ensures v.Alter? ==> (AlterNullableSql(table, v.local) in r <==> v.local.nullable != v.remote.nullable)
    ensures v.Alter? && |r| == 2 ==> r[0] == AlterTypeSql(table, v.local)
    ensures v.Alter? ==> forall s :: s in r ==> s == AlterTypeSql(table, v.local) || s == AlterNullableSql(table, v.local)
  {
    match v
    case AddMissing(c) => [AddColumnSql(table, c)]
    case DropExtra(c) => [DropColumnSql(table, c)]
    case Alter(local, remote) =>
      AlterStatementsDiffer(table, local);
      (if TypeChanged(local, remote) then [AlterTypeSql(table, local)] else [])
        + (if local.nullable != remote.nullable then [AlterNullableSql(table, local)] else [])
    case InSync => []
  }

  /** Each statement run through cmd_str without parameters. */
  function Commands(sqls: seq<string>): (r: seq<Command>)
    ensures |r| == |sqls|
    ensures forall i :: 0 <= i < |sqls| ==> r[i] == CmdStr(sqls[i], map[])
  {
    seq(|sqls|, i requires 0 <= i < |sqls| => CmdStr(sqls[i], map[]))
  }

  /** The commands create_table runs: the CREATE TABLE, then each of the
      table's scripts. */
  function CreateTableCommands(t: Table): seq<Command> {
    [CreateTable(t)] + Commands(t.scripts)
  }

  /** `s` without repeats, each element where it first occurs. */
  function Dedup(s: seq<string>): (r: seq<string>)
    ensures forall n :: n in r <==> n in s
    ensures forall i, j :: 0 <= i < j < |r| ==> r[i] != r[j]
  {
    if s == [] then []
    else
      var d := Dedup(s[..|s| - 1]);
      assert s == s[..|s| - 1] + [s[|s| - 1]];
      if s[|s| - 1] in d then d else d + [s[|s| - 1]]
  }

  /** The union of the live and the declared names, each once. Python
      iterates a set here, in an order of its own; the model takes the
      live names, then the declared ones. */
  function UnionNames(live: seq<Column>, declared: seq<Column>): (r: seq<string>)
    ensures forall n :: n in r <==> (exists c :: c in live && c.name == n) || (exists c :: c in declared && c.name == n)
    ensures forall i, j :: 0 <= i < j < |r| ==> r[i] != r[j]
  {
    var names := NamesOf(live) + NamesOf(declared);
    forall n | n in names ensures (exists c :: c in live && c.name == n) || (exists c :: c in declared && c.name == n) {
      var i :| 0 <= i < |names| && names[i] == n;
      if i < |live| {
        assert live[i] in live && live[i].name == n;
      } else {
        assert declared[i - |live|] in declared && declared[i - |live|].name == n;
      }
    }
    forall n | (exists c :: c in live && c.name == n) || (exists c :: c in declared && c.name == n) ensures n in names {
      if exists c :: c in live && c.name == n {
        var c :| c in live && c.name == n;
        var i :| 0 <= i < |live| && live[i] == c;
        assert names[i] == n;
      } else {
        var c :| c in declared && c.name == n;
        var i :| 0 <= i < |declared| && declared[i] == c;
        assert names[|live| + i] == n;
      }
    }
    Dedup(names)
  }

  /** The table definition the live columns make: the declared name and
      schema, the live columns sorted, no keys and no scripts. */
  function LiveTable(t: Table, liveColumns: seq<Column>): (r: Table)
    ensures r.name == t.name && r.schema == t.schema
    ensures multiset(r.columns) == multiset(liveColumns)
  {
    NewTable(t.name, liveColumns, [], t.schema, [])
  }

  /** What one name issues: nothing when in sync or declined, the
      verdict's statements otherwise. */
  function ColumnStep(table: string, v: Verdict, approved: bool): (r: seq<Command>)
    ensures !approved || v.InSync? ==> r == []
    ensures approved ==> r == Commands(VerdictSql(table, v))
  {
    if approved && !v.InSync? then Commands(VerdictSql(table, v)) else []
  }

  /** The commands the loop over `names` issues, the prompt counter
      starting at `k`: one prompt per name that is not in sync, answered by
      the next reply. */
  function Plan(t: Table, live: Table, names: seq<string>, interactive: bool, replies: nat -> string, k: nat): seq<Command>
    decreases |names|
  {
    if names == [] then []
    else
      var v := Classify(GetColumn(t.columns, names[0]), GetColumn(live.columns, names[0]));
      ColumnStep(TableString(t), v, Gate(interactive, replies(k)))
        + Plan(t, live, names[1..], interactive, replies, if v.InSync? then k else k + 1)
  }

  /** The plan from position `i` on is the step for name `i` followed by
      the plan for the rest. */
  lemma PlanHead(t: Table, live: Table, names: seq<string>, i: nat, interactive: bool, replies: nat -> string, k: nat)
    requires i < |names|
    ensures var v := Classify(GetColumn(t.columns, names[i]), GetColumn(live.columns, names[i]));
            Plan(t, live, names[i..], interactive, replies, k)
              == ColumnStep(TableString(t), v, Gate(interactive, replies(k)))
                 + Plan(t, live, names[i + 1..], interactive, replies, if v.InSync? then k else k + 1)
  {
    assert names[i..][0] == names[i];
    assert names[i..][1..] == names[i + 1..];
  }

  /** What resolve_table_differences issues after reading the live
      columns: the table's creation behind one prompt when it has no live
      column, the per-column plan otherwise. */
  function ResolveSpec(t: Table, liveColumns: seq<Column>, interactive: bool, replies: nat -> string): (r: seq<Command>)
    ensures liveColumns == [] ==> (r != [] <==> Gate(interactive, replies(0)))
    ensures liveColumns == [] && r != [] ==> r == CreateTableCommands(t)
  {
    if liveColumns == [] then
      if Gate(interactive, replies(0)) then CreateTableCommands(t) else []
    else
      Plan(t, LiveTable(t, liveColumns), UnionNames(liveColumns, t.columns), interactive, replies, 0)
  }

  /** Without interaction the replies are never read. */
  lemma {:induction false} PlanIgnoresReplies(t: Table, live: Table, names: seq<string>,
                                              replies1: nat -> string, replies2: nat -> string, k1: nat, k2: nat)
    ensures Plan(t, live, names, false, replies1, k1) == Plan(t, live, names, false, replies2, k2)
    decreases |names|
  {
    if names != [] {
      var v := Classify(GetColumn(t.columns, names[0]), GetColumn(live.columns, names[0]));
      PlanIgnoresReplies(t, live, names[1..], replies1, replies2,
                         if v.InSync? then k1 else k1 + 1, if v.InSync? then k2 else k2 + 1);
    }
  }

  /** With interaction and every reply declining, no column statement is
      issued. */
  lemma {:induction false} PlanAllDeclined(t: Table, live: Table, names: seq<string>, replies: nat -> string, k: nat)
    requires forall j :: !Affirmative(replies(j))
    ensures Plan(t, live, names, true, replies, k) == []
    decreases |names|
  {
    if names != [] {
      var v := Classify(GetColumn(t.columns, names[0]), GetColumn(live.columns, names[0]));
      PlanAllDeclined(t, live, names[1..], replies, if v.InSync? then k else k + 1);
    }
  }

  /** Without interaction the outcome does not depend on the replies. */
  lemma ResolveIgnoresReplies(t: Table, liveColumns: seq<Column>, replies1: nat -> string, replies2: nat -> string)
    ensures ResolveSpec(t, liveColumns, false, replies1) == ResolveSpec(t, liveColumns, false, replies2)
  {
    PlanIgnoresReplies(t, LiveTable(t, liveColumns), UnionNames(liveColumns, t.columns), replies1, replies2, 0, 0);
  }

  /** Declining every prompt issues nothing at all. */
  lemma ResolveAllDeclined(t: Table, liveColumns: seq<Column>, replies: nat -> string)
    requires forall j :: !Affirmative(replies(j))
    ensures ResolveSpec(t, liveColumns, true, replies) == []
  {
    PlanAllDeclined(t, LiveTable(t, liveColumns), UnionNames(liveColumns, t.columns), replies, 0);
  }

  /** Every name the loop visits is found on at least one side, so each
      one falls into exactly one of add, drop, alter and in sync, and is in
      sync only when both sides have it and they compare equal. */
  lemma UnionNamesFound(t: Table, liveColumns: seq<Column>, name: string)
    requires name in UnionNames(liveColumns, t.columns)
    ensures var local := GetColumn(t.columns, name);
            var remote := GetColumn(LiveTable(t, liveColumns).columns, name);
            local.Some? || remote.Some?
    ensures var local := GetColumn(t.columns, name);
            var remote := GetColumn(LiveTable(t, liveColumns).columns, name);
            Classify(local, remote).InSync? ==> local.Some? && remote.Some? && SameColumn(local.value, remote.value)
  {
    var live := LiveTable(t, liveColumns);
    if exists c :: c in t.columns && c.name == name {
      var c :| c in t.columns && c.name == name;
      FoundByOwnName(t.columns, c);
    } else {
      var c :| c in liveColumns && c.name == name;
      assert multiset(live.columns)[c] == multiset(liveColumns)[c] > 0;
      FoundByOwnName(live.columns, c);
    }
  }

  /** A declared and a live column that agree in everything but
      nullability call for the nullability statement alone. */
  lemma NullabilityOnlyMismatch(table: string, local: Column, remote: Column)
    requires local.name == remote.name && local.dataType == remote.dataType && local.length == remote.length
    requires local.nullable != remote.nullable
    ensures Classify(Some(local), Some(remote)) == Alter(local, remote)
    ensures VerdictSql(table, Alter(local, remote)) == [AlterNullableSql(table, local)]
  {
    assert |NullString(local.nullable)| != |NullString(remote.nullable)|;
    assert |Render(local)| != |Render(remote)|;
  }

  /** A declared `status VARCHAR(10) NOT NULL` against a live nullable
      `status varchar` of length 10: only SET NOT NULL is issued. */
  lemma NullabilityOnlyExample()
    ensures var local := NewColumn("status", "varchar", false, false, false, 10);
            var remote := RowToColumn(InfoRow("varchar", "YES", "status", Some(10)));
            VerdictSql("t", Classify(Some(local), Some(remote))) == ["ALTER TABLE t ALTER status SET NOT NULL"]
  {
    var local := NewColumn("status", "varchar", false, false, false, 10);
    var remote := RowToColumn(InfoRow("varchar", "YES", "status", Some(10)));
    assert "status" !in Reserved;
    NullabilityOnlyMismatch("t", local, remote);
    SetNotNullText(local);
  }

  lemma SetNotNullText(c: Column)
    requires c.name == "status" && !c.nullable
    ensures AlterNullableSql("t", c) == "ALTER TABLE t ALTER status SET NOT NULL"
  {
    assert AlterNullableSql("t", c) == "ALTER TABLE t ALTER " + "status" + " SET NOT NULL";
  }

  // ---------------------------------------------------------------------
  // The executor and the facade

  /** The command executor: records every command it runs; every query
      returns the information-schema rows of the live table. */
  class Executor {
    const database: string
    const liveRows: seq<InfoRow>
    var log: seq<Command>

    constructor (database: string, liveRows: seq<InfoRow>)
      ensures this.database == database && this.liveRows == liveRows && log == []
    {
      this.database := database;
      this.liveRows := liveRows;
      log := [];
    }

    /** execute_void. */
    method ExecuteVoid(cmd: Command)
      modifies this
      ensures log == old(log) + [cmd]
    {
      log := log + [cmd];
    }

    /** execute_reader. */
    method ExecuteReader(cmd: Command) returns (rows: seq<InfoRow>)
      modifies this
      ensures log == old(log) + [cmd]
      ensures rows == liveRows
    {
      log := log + [cmd];
      rows := liveRows;
    }
  }

  /** PostgresDB. */
  class Database {
    const executor: Executor
    var registeredTables: seq<Table>
    var registeredScripts: seq<string>

    constructor (executor: Executor)
      ensures this.executor == executor && registeredTables == [] && registeredScripts == []
    {
      this.executor := executor;
      registeredTables := [];
      registeredScripts := [];
    }

    /** register_table: appends the table to its list and returns it. */
    method RegisterTable(t: Table) returns (r: Table)
      modifies this
      ensures r == t
      ensures registeredTables == old(registeredTables) + [t]
      ensures registeredScripts == old(registeredScripts)
    {
      registeredTables := registeredTables + [t];
      r := t;
    }

    /** register_procedure_script: appends the script to its list and
        returns it. */
    method RegisterProcedureScript(script: string) returns (r: string)
      modifies this
      ensures r == script
      ensures registeredScripts == old(registeredScripts) + [script]
      ensures registeredTables == old(registeredTables)
    {
      registeredScripts := registeredScripts + [script];
      r := script;
    }

    /** void: raw SQL through cmd_str, then executed. */
    method Void(sql: string, params: map<string, Value>)
      modifies executor
      ensures executor.log == old(executor.log) + [CmdStr(sql, params)]
    {
      executor.ExecuteVoid(CmdStr(sql, params));
    }

    method AddColumn(table: string, c: Column)
      modifies executor
      ensures executor.log == old(executor.log) + [CmdStr(AddColumnSql(table, c), map[])]
    {
      Void(AddColumnSql(table, c), map[]);
    }

    method DropColumn(table: string, c: Column)
      modifies executor
      ensures executor.log == old(executor.log) + [CmdStr(DropColumnSql(table, c), map[])]
    {
      Void(DropColumnSql(table, c), map[]);
    }

    method AlterColumnType(table: string, c: Column)
      modifies executor
      ensures executor.log == old(executor.log) + [CmdStr(AlterTypeSql(table, c), map[])]
    {
      Void(AlterTypeSql(table, c), map[]);
    }

    method AlterColumnNullable(table: string, c: Column)
      modifies executor
      ensures executor.log == old(executor.log) + [CmdStr(AlterNullableSql(table, c), map[])]
    {
      if c.nullable {
        Void("ALTER TABLE " + table + " ALTER " + c.name + " DROP NOT NULL", map[]);
      } else {
        Void("ALTER TABLE " + table + " ALTER " + c.name + " SET NOT NULL", map[]);
      }
    }

    method RemoveColumn(table: string, c: Column)
      modifies executor
      ensures executor.log == old(executor.log) + [CmdStr(RemoveColumnSql(table, c), map[])]
    {
      Void(RemoveColumnSql(table, c), map[]);
    }

    /** create_table: the CREATE TABLE, then each script of the table. */
    method CreateTable(t: Table)
      modifies executor
      ensures executor.log == old(executor.log) + CreateTableCommands(t)
    {
      ghost var before := executor.log;
      var create := Translator.CreateTable(t);
      executor.ExecuteVoid(create);
      RunScripts(t.scripts);
      SeqAppendAssoc(before, [create], Commands(t.scripts));
    }

    /** The loop of create_table over the table's scripts, each run through
        cmd_str without parameters. */
    method RunScripts(scripts: seq<string>)
      modifies executor
      ensures executor.log == old(executor.log) + Commands(scripts)
    {
      var i := 0;
      while i < |scripts|
        invariant 0 <= i <= |scripts|
        invariant executor.log == old(executor.log) + Commands(scripts[..i])
      {
        assert Commands(scripts[..i + 1]) == Commands(scripts[..i]) + [CmdStr(scripts[i], map[])];
        executor.ExecuteVoid(CmdStr(scripts[i], map[]));
        i := i + 1;
      }
      assert scripts[..i] == scripts;
    }

    /** query_columns_schemas: runs the information-schema query for the
        table and turns each row into a column. */
    method QueryColumnsSchemas(t: Table) returns (columns: seq<Column>)
      modifies executor
      ensures executor.log == old(executor.log) + [GetTableSchema(executor.database, t.schema, t.name)]
      ensures columns == LiveColumns(executor.liveRows)
    {
      var query := GetTableSchema(executor.database, t.schema, t.name);
      var rows := executor.ExecuteReader(query);
      columns := [];
      var i := 0;
      while i < |rows|
        invariant 0 <= i <= |rows|
        invariant |columns| == i
        invariant forall j :: 0 <= j < i ==> columns[j] == RowToColumn(rows[j])
      {
        columns := columns + [RowToColumn(rows[i])];
        i := i + 1;
      }
      assert columns == LiveColumns(rows);
    }

    /** The body of the loop of resolve_table_differences for one name:
        given the declared and the live column found under it, prompts
        unless they are in sync and, when approved, issues the statements
        that bring the live column in line. */
    method ResolveColumn(table: string, local: Option<Column>, remote: Option<Column>, interactive: bool, reply: string)
      returns (prompted: bool)
      modifies executor
      ensures prompted <==> !Classify(local, remote).InSync?
      ensures executor.log == old(executor.log) + ColumnStep(table, Classify(local, remote), Gate(interactive, reply))
    {
      prompted := false;
      if local.Some? && remote.None? {
        prompted := true;
        if Gate(interactive, reply) {
          AddColumn(table, local.value);
        }
      } else if remote.Some? && local.None? {
        prompted := true;
        if Gate(interactive, reply) {
          DropColumn(table, remote.value);
        }
      } else if local.Some? && remote.Some? && !SameColumn(local.value, remote.value) {
        prompted := true;
        if Gate(interactive, reply) {
          AlterColumn(table, local.value, remote.value);
        }
      }
    }

    /** The approved alter branch: the type change when the type or the
        length differs, then the nullability change when it differs. */
    method AlterColumn(table: string, local: Column, remote: Column)
      modifies executor
      ensures executor.log == old(executor.log) + Commands(VerdictSql(table, Alter(local, remote)))
    {
      if local.dataType != remote.dataType || local.length != remote.length {
        AlterColumnType(table, local);
      }
      if local.nullable != remote.nullable {
        AlterColumnNullable(table, local);
      }
    }

    /** resolve_table_differences: reads the live columns, then creates
        the table when it has none, or walks the union of the names and
        issues, behind one prompt per differing column, the statements
        that bring the live column in line with the declared one. Returns
        the list of differences, which stays empty. */
    method ResolveTableDifferences(t: Table, interactive: bool, replies: nat -> string)
      returns (differences: seq<Verdict>)
      modifies executor
      ensures differences == []
      ensures executor.log == old(executor.log) + [GetTableSchema(executor.database, t.schema, t.name)]
                              + ResolveSpec(t, LiveColumns(executor.liveRows), interactive, replies)
    {
      var liveColumns := QueryColumnsSchemas(t);
      differences := [];
      if |liveColumns| == 0 {
        if Gate(interactive, replies(0)) {
          CreateTable(t);
        }
        return;
      }
      var live := LiveTable(t, liveColumns);
      var names := UnionNames(liveColumns, t.columns);
      var table := TableString(t);
      ghost var start := executor.log;
      var k: nat := 0;
      var i := 0;
      while i < |names|
        invariant 0 <= i <= |names|
        invariant executor.log + Plan(t, live, names[i..], interactive, replies, k)
               == start + Plan(t, live, names, interactive, replies, 0)
      {
        var local := GetColumn(t.columns, names[i]);
        var remote := GetColumn(live.columns, names[i]);
        ghost var step := ColumnStep(table, Classify(local, remote), Gate(interactive, replies(k)));
        ghost var rest := Plan(t, live, names[i + 1..], interactive, replies, if Classify(local, remote).InSync? then k else k + 1);
        ghost var before := executor.log;
        ghost var next: nat := if Classify(local, remote).InSync? then k else k + 1;
        PlanHead(t, live, names, i, interactive, replies, k);
        assert Plan(t, live, names[i..], interactive, replies, k) == step + rest;
        SeqAppendAssoc(before, step, rest);
        var prompted := ResolveColumn(table, local, remote, interactive, replies(k));
        assert executor.log == before + step;
        if prompted {
          k := k + 1;
        }
        assert k == next;
        i := i + 1;
      }
      assert names[i..] == [];
      assert executor.log + [] == executor.log;
      assert ResolveSpec(t, liveColumns, interactive, replies) == Plan(t, live, names, interactive, replies, 0);
    }
  }
}
