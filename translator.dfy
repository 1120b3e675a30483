/** PgCmdTranslator (pg_cmd_translator.py): turns table definitions and
    dictionaries of column predicates into SQL text plus a map of bound
    parameters. Identifiers (table, column and schema names) are written into
    the text; values only ever reach the parameter map. */
module Translator {
  import opened Wrappers
  import opened Text
  import opened Sequences
  import opened TableDefinition

  /** A value bound to a named parameter. */
  datatype Value = Null | Bool(b: bool) | Int(i: int) | Str(s: string)

  /** One key and its value in a Python dict. */
  datatype Entry = Entry(key: string, value: Value)

  predicate DistinctKeys(d: seq<Entry>) {
    forall i, j :: 0 <= i < j < |d| ==> d[i].key != d[j].key
  }

  /** A Python dict, its entries in insertion order. */
  type Dict = d: seq<Entry> | DistinctKeys(d) witness []

  /** DbCmd: SQL text with `%(name)s` placeholders, plus the parameters,
      present only when there are any. */
  datatype Command = Command(sql: string, params: Option<map<string, Value>>)

  /** The exceptions `_to_param_dict` raises: a modifier other than
      `tsvector`, and a key that has a space but not two words (the
      IndexError of `parts[0]` or `parts[1]`). */
  datatype TranslateError = UnhandledTypeHint(modifier: string) | MissingTypeHint(key: string)

  function Keys(d: seq<Entry>): (r: seq<string>)
    ensures |r| == |d| && forall i :: 0 <= i < |d| ==> r[i] == d[i].key
  {
    seq(|d|, i requires 0 <= i < |d| => d[i].key)
  }

  /** `dict(d)`: the parameter map of a dict. */
  function ToMap(d: seq<Entry>): (m: map<string, Value>)
    ensures m.Keys == set i | 0 <= i < |d| :: d[i].key
    ensures DistinctKeys(d) ==> forall i :: 0 <= i < |d| ==> m[d[i].key] == d[i].value
  {
    if d == [] then map[]
    else
      var m := ToMap(d[..|d| - 1]);
      assert forall i :: 0 <= i < |d| - 1 ==> d[..|d| - 1][i] == d[i];
      m[d[|d| - 1].key := d[|d| - 1].value]
  }

  // ---------------------------------------------------------------------
  // cmd_str: placeholder rewrite

  /** Length of the run of word characters `s` starts with. */
  function WordRun(s: string): (n: nat)
    ensures n <= |s|
    ensures forall i :: 0 <= i < n ==> IsWordChar(s[i])
    ensures n < |s| ==> !IsWordChar(s[n])
  {
    PrefixRun(s, IsWordChar)
  }

  /** `re.sub(r"@\w+", ...)`: scanning left to right, every `@` followed by
      a maximal run of word characters becomes `%(run)s`; an `@` with no
      word character after it is kept. */
  function Rewrite(sql: string): string
    decreases |sql|
  {
    if sql == [] then []
    else if sql[0] == '@' && WordRun(sql[1..]) > 0 then
      var n := WordRun(sql[1..]);
      "%(" + sql[1..n + 1] + ")s" + Rewrite(sql[n + 1..])
    else [sql[0]] + Rewrite(sql[1..])
  }

  /** No `@` in `s` is followed by a word character: nothing to rewrite. */
  predicate Settled(s: string) {
    forall i :: 0 <= i < |s| - 1 ==> s[i] == '@' ==> !IsWordChar(s[i + 1])
  }

  /** Text without a placeholder is left as it is. */
  lemma {:induction false} RewriteSettled(s: string)
    requires Settled(s)
    ensures Rewrite(s) == s
    decreases |s|
  {
    if s != [] {
      assert Settled(s[1..]) by {
        var t := s[1..];
        forall i | 0 <= i < |t| - 1 && t[i] == '@' ensures !IsWordChar(t[i + 1]) {
          assert t[i] == s[i + 1] && t[i + 1] == s[i + 2];
        }
      }
      RewriteSettled(s[1..]);
      assert s[0] == '@' ==> WordRun(s[1..]) == 0;
    }
  }

  /** In particular, text without `@` is left as it is. */
  lemma NoMarkerUnchanged(s: string)
    ensures '@' !in s ==> Rewrite(s) == s
  {
    if '@' !in s {
      RewriteSettled(s);
    }
  }

  /** The rewrite begins with a `%` where it replaced the leading run and
      with the text's own first character otherwise. */
  lemma RewriteHead(s: string)
    requires s != []
    ensures Rewrite(s) != []
    ensures Rewrite(s)[0] == if s[0] == '@' && WordRun(s[1..]) > 0 then '%' else s[0]
  {
  }

  lemma SettledConcat(a: string, b: string)
    requires Settled(a) && Settled(b)
    requires a != [] && a[|a| - 1] == '@' && b != [] ==> !IsWordChar(b[0])
    ensures Settled(a + b)
  {
    var s := a + b;
    forall i | 0 <= i < |s| - 1 && s[i] == '@' ensures !IsWordChar(s[i + 1]) {
      if i < |a| - 1 {
        assert s[i] == a[i] && s[i + 1] == a[i + 1];
      } else if i == |a| - 1 {
        assert s[i + 1] == b[0];
      } else {
        assert s[i] == b[i - |a|] && s[i + 1] == b[i - |a| + 1];
      }
    }
  }

  /** The rewrite leaves nothing to rewrite. */
  lemma {:induction false} RewriteLeavesSettled(s: string)
    ensures Settled(Rewrite(s))
    decreases |s|
  {
    if s != [] {
      if s[0] == '@' && WordRun(s[1..]) > 0 {
        var n := WordRun(s[1..]);
        var head := "%(" + s[1..n + 1] + ")s";
        RewriteLeavesSettled(s[n + 1..]);
        assert forall i :: 0 <= i < |head| ==> head[i] != '@';
        SettledConcat(head, Rewrite(s[n + 1..]));
      } else {
        RewriteLeavesSettled(s[1..]);
        if s[0] == '@' && |s| > 1 {
          RewriteHead(s[1..]);
        }
        SettledConcat([s[0]], Rewrite(s[1..]));
      }
    }
  }

  /** Rewriting twice is rewriting once. */
  lemma RewriteIdempotent(s: string)
    ensures Rewrite(Rewrite(s)) == Rewrite(s)
  {
    RewriteLeavesSettled(s);
    RewriteSettled(Rewrite(s));
  }

  /** An `@name` placeholder becomes `%(name)s`. */
  lemma RewritePlaceholder(name: string, rest: string)
    requires name != [] && forall i :: 0 <= i < |name| ==> IsWordChar(name[i])
    requires rest == [] || !IsWordChar(rest[0])
    ensures Rewrite("@" + name + rest) == "%(" + name + ")s" + Rewrite(rest)
  {
    var s := "@" + name + rest;
    assert s[1..] == name + rest;
    assert WordRun(name + rest) == |name| by {
      PrefixRunOfRun(name, rest, IsWordChar);
    }
    assert s[1..|name| + 1] == name && s[|name| + 1..] == rest;
  }

  /** cmd_str: the rewritten text, with the values attached only when there
      are any. */
  function CmdStr(sql: string, vals: map<string, Value>): (r: Command)
    ensures r.params.Some? <==> |vals| > 0
    ensures r.params.Some? ==> r.params.value == vals
    ensures Settled(r.sql)
    ensures '@' !in sql ==> r.sql == sql
  {
    RewriteLeavesSettled(sql);
    NoMarkerUnchanged(sql);
    Command(Rewrite(sql), if |vals| > 0 then Some(vals) else None)
  }

  // ---------------------------------------------------------------------
  // Schema and table helpers

  function DropSchema(schema: string): (r: Command)
    ensures r.params.None?
    ensures '@' !in schema ==> r.sql == "DROP SCHEMA IF EXISTS " + schema + " CASCADE;"
  {
    CmdStr("DROP SCHEMA IF EXISTS " + schema + " CASCADE;", map[])
  }

  function DropTable(table: string, ifExists: bool): (r: Command)
    ensures r.params.None?
    ensures '@' !in table ==> r.sql == if ifExists then "DROP TABLE IF EXISTS " + table + ";" else "DROP TABLE " + table + ";"
  {
    if ifExists then CmdStr("DROP TABLE IF EXISTS " + table + ";", map[])
    else CmdStr("DROP TABLE " + table + ";", map[])
  }

  function CreateSchema(schema: string): (r: Command)
    ensures r.params.None?
    ensures '@' !in schema ==> r.sql == "CREATE SCHEMA " + schema + ";"
  {
    CmdStr("CREATE SCHEMA " + schema + ";", map[])
  }

  /** The result of pull_column_names: joined text, or the list itself when
      `join` is empty or None. */
  datatype ColumnNames = Joined(text: string) | Names(names: seq<string>)

  /** The name part of one column definition: the text before its first
      space, stripped. */
  function ColumnNameOf(definition: string): string {
    Strip(Split(definition, ' ')[0])
  }

  /** The name part has no space, and no comma when the definition has none. */
  lemma ColumnNameOfClean(definition: string)
    ensures ' ' !in ColumnNameOf(definition)
    ensures ',' !in definition ==> ',' !in ColumnNameOf(definition)
  {
    var first := Split(definition, ' ')[0];
    StripKeepsAbsent(first, ' ');
    SplitPieceAbsent(definition, ' ', ',');
    StripKeepsAbsent(first, ',');
  }

  function ColumnNamesOf(pieces: seq<string>): (r: seq<string>)
    ensures |r| == |pieces|
    ensures forall i :: 0 <= i < |r| ==> r[i] == ColumnNameOf(pieces[i])
  {
    seq(|pieces|, i requires 0 <= i < |pieces| => ColumnNameOf(pieces[i]))
  }

  /** pull_column_names: one name per comma-separated piece of `columns`,
      each free of commas and spaces; joined with `join` when it is a
      non-empty string. */
  function PullColumnNames(columns: string, join: Option<string>): (r: ColumnNames)
    ensures r.Joined? <==> join.Some? && join.value != ""
    ensures r.Names? ==> |r.names| == |Split(columns, ',')|
    ensures r.Names? ==> forall i :: 0 <= i < |r.names| ==> r.names[i] == ColumnNameOf(Split(columns, ',')[i])
    ensures r.Joined? ==> r.text == Join(join.value, ColumnNamesOf(Split(columns, ',')))
    ensures r.Names? ==> forall i :: 0 <= i < |r.names| ==> ' ' !in r.names[i] && ',' !in r.names[i]
  {
    var pieces := Split(columns, ',');
    var names := ColumnNamesOf(pieces);
    forall i | 0 <= i < |names| ensures ' ' !in names[i] && ',' !in names[i] {
      ColumnNameOfClean(pieces[i]);
    }
    if join.Some? && join.value != "" then Joined(Join(join.value, names)) else Names(names)
  }

  /** The name is the first word of the definition, stripped. */
  lemma ColumnNameOfFirstWord(word: string, rest: string)
    requires ' ' !in word
    ensures ColumnNameOf(word + [' '] + rest) == Strip(word)
  {
    SplitAtSeparator(word, ' ', rest);
  }

  /** A definition that starts with a space has the empty name, which is
      why pull_column_names' own documentation example, a second piece
      ` week int NOT NULL`, yields an empty name rather than `week`. */
  lemma ColumnNameOfLeadingSpace(rest: string)
    ensures ColumnNameOf([' '] + rest) == ""
  {
    assert [] + [' '] + rest == [' '] + rest;
    ColumnNameOfFirstWord([], rest);
  }

  // ---------------------------------------------------------------------
  // create_table

  function RenderAll(columns: seq<Column>): (r: seq<string>)
    ensures |r| == |columns| && forall i :: 0 <= i < |r| ==> r[i] == Render(columns[i])
  {
    seq(|columns|, i requires 0 <= i < |columns| => Render(columns[i]))
  }

  function NamesOf(columns: seq<Column>): (r: seq<string>)
    ensures |r| == |columns| && forall i :: 0 <= i < |r| ==> r[i] == columns[i].name
  {
    seq(|columns|, i requires 0 <= i < |columns| => columns[i].name)
  }

  /** The foreign-key constraint, named `fk_<column>_<table>_<refcolumn>`. */
  function ForeignKeyConstraint(fk: ForeignKey): string {
    "CONSTRAINT fk_" + fk.column + "_" + fk.refTable.name + "_" + fk.refColumn
      + " FOREIGN KEY(" + fk.column + ")\n        REFERENCES "
      + TableString(fk.refTable) + "(" + fk.refColumn + ")"
  }

  function ForeignKeyConstraints(fks: seq<ForeignKey>): (r: seq<string>)
    ensures |r| == |fks| && forall i :: 0 <= i < |r| ==> r[i] == ForeignKeyConstraint(fks[i])
  {
    seq(|fks|, i requires 0 <= i < |fks| => ForeignKeyConstraint(fks[i]))
  }

  function PrimaryKeyConstraint(t: Table, pks: seq<Column>): string {
    "CONSTRAINT " + t.name + "_pk PRIMARY KEY (" + Join(", ", NamesOf(pks)) + ")"
  }

  function UniqueConstraint(t: Table, uniques: seq<Column>): string {
    "CONSTRAINT " + t.name + "_unique UNIQUE(" + Join(",", NamesOf(uniques)) + ")"
  }

  /** The constraints of create_table: the foreign keys, then one primary
      key over all flagged columns, then one unique constraint over all
      flagged columns, each of the last two only when it has columns. */
  function Constraints(t: Table): (r: seq<string>)
    ensures |r| == |t.foreignKeys| + (if PrimaryKeyColumns(t) != [] then 1 else 0)
                                   + (if UniqueColumns(t) != [] then 1 else 0)
  {
    var pks := PrimaryKeyColumns(t);
    var uniques := UniqueColumns(t);
    ForeignKeyConstraints(t.foreignKeys)
      + (if pks != [] then [PrimaryKeyConstraint(t, pks)] else [])
      + (if uniques != [] then [UniqueConstraint(t, uniques)] else [])
  }

  function CreateTableText(t: Table): string {
    var constraints := Constraints(t);
    var suffix := if constraints != [] then ", " + Join(", ", constraints) else "";
    "CREATE TABLE " + TableString(t) + " (" + Join(", ", RenderAll(t.columns)) + suffix + ");"
  }

  /** create_table. */
  function CreateTable(t: Table): (r: Command)
    ensures r.params.None?
    ensures '@' !in CreateTableText(t) ==> r.sql == CreateTableText(t)
  {
    CmdStr(CreateTableText(t), map[])
  }

  lemma NoFlaggedColumns(t: Table)
    requires forall c :: c in t.columns ==> !c.isPrimaryKey && !c.isUnique
    ensures PrimaryKeyColumns(t) == [] && UniqueColumns(t) == []
  {
    var pks := PrimaryKeyColumns(t);
    assert multiset(pks) == multiset{};
    var uniques := UniqueColumns(t);
    assert multiset(uniques) == multiset{};
  }

  /** With no foreign keys and no flagged columns the column list is closed
      directly: no constraint separator is left behind. */
  lemma CreateTableWithoutConstraints(t: Table)
    requires t.foreignKeys == []
    requires forall c :: c in t.columns ==> !c.isPrimaryKey && !c.isUnique
    ensures CreateTableText(t) == "CREATE TABLE " + TableString(t) + " (" + Join(", ", RenderAll(t.columns)) + ");"
  {
    NoFlaggedColumns(t);
  }

  /** One PRIMARY KEY constraint names every primary-key column, and one
      UNIQUE constraint names every unique column, in stored order. */
  lemma CreateTableKeyConstraints(t: Table)
    ensures var cs := Constraints(t);
            var pks := PrimaryKeyColumns(t);
            var uniques := UniqueColumns(t);
            var n := |t.foreignKeys|;
            (pks != [] ==> cs[n] == PrimaryKeyConstraint(t, pks))
            && (uniques != [] ==> cs[|cs| - 1] == UniqueConstraint(t, uniques))
            && cs[..n] == ForeignKeyConstraints(t.foreignKeys)
  {
  }

  // ---------------------------------------------------------------------
  // insert and delete

  predicate IsSearchable(key: string) {
    "searchable" <= key
  }

  function SortKey(s: string): string {
    s
  }

  /** The bind of one inserted key: a text-search conversion for keys that
      start with `searchable`, a plain placeholder otherwise. */
  function InsertBind(key: string): string {
    if IsSearchable(key) then "to_tsvector(%(" + key + ")s)" else "%(" + key + ")s"
  }

  /** The sorted keys of an insert and their binds, aligned one to one. */
  function InsertColumns(data: seq<Entry>): (r: (seq<string>, seq<string>))
    ensures SortedBy(r.0, SortKey) && multiset(r.0) == multiset(Keys(data))
    ensures |r.1| == |r.0|
    ensures forall i :: 0 <= i < |r.0| ==>
              r.1[i] == if IsSearchable(r.0[i]) then "to_tsvector(%(" + r.0[i] + ")s)" else "%(" + r.0[i] + ")s"
  {
    var keys := SortBy(Keys(data), SortKey);
    SortByCorrect(Keys(data), SortKey);
    (keys, seq(|keys|, i requires 0 <= i < |keys| => InsertBind(keys[i])))
  }

  function InsertText(table: string, data: seq<Entry>): string {
    var (keys, binds) := InsertColumns(data);
    "INSERT INTO " + table + " (" + Join(", ", keys) + ") VALUES (" + Join(", ", binds) + ")"
  }

  /** insert: the data dict itself is the parameter map, its keys not
      prefixed. */
  function Insert(table: string, data: Dict): (r: Command)
    ensures r.params.Some? <==> data != []
    ensures r.params.Some? ==> r.params.value.Keys == set i | 0 <= i < |data| :: data[i].key
    ensures r.params.Some? ==> forall i :: 0 <= i < |data| ==> r.params.value[data[i].key] == data[i].value
  {
    assert data != [] ==> data[|data| - 1].key in ToMap(data);
    CmdStr(InsertText(table, data), ToMap(data))
  }

  function DeleteFragment(key: string): string {
    key + " = %(" + key + ")s"
  }

  function DeleteText(table: string, whereEquals: seq<Entry>): string {
    var keys := Keys(whereEquals);
    "DELETE FROM " + table + " WHERE " + Join(" AND ", seq(|keys|, i requires 0 <= i < |keys| => DeleteFragment(keys[i])))
  }

  /** delete: each key binds to a parameter of its own name, and the
      parameter map is the where dict itself. */
  function Delete(table: string, whereEquals: Dict): (r: Command)
    ensures r.params.Some? <==> whereEquals != []
    ensures r.params.Some? ==> r.params.value.Keys == set i | 0 <= i < |whereEquals| :: whereEquals[i].key
    ensures r.params.Some? ==> forall i :: 0 <= i < |whereEquals| ==>
              whereEquals[i].key in r.params.value && r.params.value[whereEquals[i].key] == whereEquals[i].value
  {
    assert whereEquals != [] ==> whereEquals[|whereEquals| - 1].key in ToMap(whereEquals);
    CmdStr(DeleteText(table, whereEquals), ToMap(whereEquals))
  }

  /** The WHERE clause of a one-key delete. */
  lemma DeleteOneKey(table: string, key: string, v: Value)
    ensures DeleteText(table, [Entry(key, v)]) == "DELETE FROM " + table + " WHERE " + key + " = %(" + key + ")s"
  {
    var keys := Keys([Entry(key, v)]);
    assert seq(|keys|, i requires 0 <= i < |keys| => DeleteFragment(keys[i])) == [DeleteFragment(key)];
  }

  /** The worked example of delete with two keys:
      `DELETE FROM t WHERE id = %(id)s AND x = %(x)s`, each key bound to a
      parameter of its own name. */
  lemma DeleteExample()
    ensures var r := Delete("t", [Entry("id", Int(1)), Entry("x", Int(2))]);
            r.sql == DeleteExampleSql && r.params == Some(map["id" := Int(1), "x" := Int(2)])
  {
    var d := [Entry("id", Int(1)), Entry("x", Int(2))];
    DeleteExampleText();
    DeleteExampleUnmarked();
    DeleteExampleParams();
    assert |ToMap(d)| > 0 by { assert "id" in ToMap(d); }
  }

  lemma DeleteExampleUnmarked()
    ensures '@' !in DeleteExampleSql
  {
    assert '@' !in "DELETE FROM " + "t" + " WHERE ";
    assert '@' !in "id" + " = %(" + "id" + ")s";
    assert '@' !in " AND " + ("x" + " = %(" + "x" + ")s");
  }

  lemma DeleteExampleParams()
    ensures ToMap([Entry("id", Int(1)), Entry("x", Int(2))]) == map["id" := Int(1), "x" := Int(2)]
  {
    var m := ToMap([Entry("id", Int(1)), Entry("x", Int(2))]);
    assert m.Keys == {"id", "x"};
    assert m["id"] == Int(1) && m["x"] == Int(2);
  }

  const DeleteExampleSql: string :=
    "DELETE FROM " + "t" + " WHERE " + ("id" + " = %(" + "id" + ")s" + " AND " + ("x" + " = %(" + "x" + ")s"))

  lemma DeleteExampleText()
    ensures DeleteText("t", [Entry("id", Int(1)), Entry("x", Int(2))]) == DeleteExampleSql
  {
    var d := [Entry("id", Int(1)), Entry("x", Int(2))];
    var keys := Keys(d);
    var fragments := seq(|keys|, i requires 0 <= i < |keys| => DeleteFragment(keys[i]));
    assert fragments == [DeleteFragment("id"), DeleteFragment("x")];
    assert fragments[1..] == [DeleteFragment("x")];
    assert Join(" AND ", fragments) == DeleteFragment("id") + " AND " + DeleteFragment("x");
  }

  // ---------------------------------------------------------------------
  // _to_param_dict: the shared predicate builder

  /** One predicate fragment and its parameter. */
  datatype Bound = Bound(fragment: string, bindKey: string, value: Value)

  function Placeholder(prefix: string, column: string): string {
    "%(" + prefix + "_" + column + ")s"
  }

  /** The fragment for one key: `k op %(prefix_k)s` for a bare key,
      `col op to_tsvector('english', %(prefix_col)s)` for `col tsvector`,
      and an error for any other modifier or a key without two words. */
  function BindEntry(e: Entry, prefix: string, op: string): Result<Bound, TranslateError> {
    if ' ' in e.key then
      var parts := Words(e.key);
      if |parts| < 2 then Err(MissingTypeHint(e.key))
      else if parts[1] == "tsvector" then
        Ok(Bound(parts[0] + " " + op + " to_tsvector('english', " + Placeholder(prefix, parts[0]) + ")",
                 prefix + "_" + parts[0], e.value))
      else Err(UnhandledTypeHint(parts[1]))
    else
      Ok(Bound(e.key + " " + op + " " + Placeholder(prefix, e.key), prefix + "_" + e.key, e.value))
  }

  /** The fragments for all keys, in key order; the first failing key's
      error otherwise. */
  function BindAll(d: seq<Entry>, prefix: string, op: string): Result<seq<Bound>, TranslateError> {
    if d == [] then Ok([])
    else
      match BindAll(d[..|d| - 1], prefix, op)
      case Err(e) => Err(e)
      case Ok(bs) =>
        match BindEntry(d[|d| - 1], prefix, op)
        case Err(e) => Err(e)
        case Ok(b) => Ok(bs + [b])
  }

  function Fragments(bs: seq<Bound>): (r: seq<string>)
    ensures |r| == |bs| && forall i :: 0 <= i < |bs| ==> r[i] == bs[i].fragment
  {
    seq(|bs|, i requires 0 <= i < |bs| => bs[i].fragment)
  }

  /** Writing the bindings into a parameter map one after the other. */
  function AddBindings(m: map<string, Value>, bs: seq<Bound>): map<string, Value> {
    if bs == [] then m
    else AddBindings(m, bs[..|bs| - 1])[bs[|bs| - 1].bindKey := bs[|bs| - 1].value]
  }

  /** The body of the loop of _to_param_dict for one key: the fragment to
      append and the name of the parameter to write, or the key's error. */
  method BindKey(e: Entry, prefix: string, separator: string) returns (r: Result<(string, string), TranslateError>)
    ensures r.Ok? <==> Bindable(e.key)
    ensures r.Ok? ==> r.value == (BindEntry(e, prefix, separator).value.fragment, BindEntry(e, prefix, separator).value.bindKey)
    ensures r.Err? ==> BindEntry(e, prefix, separator) == Err(r.error)
  {
    BindEntryCases(e, prefix, separator);
    var k := e.key;
    if ' ' in k {
      var parts := Words(k);
      if |parts| < 2 {
        return Err(MissingTypeHint(k));
      }
      var column := parts[0];
      var modifier := parts[1];
      if modifier == "tsvector" {
        r := Ok((column + " " + separator + " to_tsvector('english', " + Placeholder(prefix, column) + ")", prefix + "_" + column));
      } else {
        r := Err(UnhandledTypeHint(modifier));
      }
    } else {
      r := Ok((k + " " + separator + " " + Placeholder(prefix, k), prefix + "_" + k));
    }
  }

  /** _to_param_dict: appends one fragment per key to `statements` and
      writes one parameter per key into `bindings`; fails on the first key
      with an unusable modifier. */
  method ToParamDict(params: seq<Entry>, prefix: string, separator: string,
                     statements: seq<string>, bindings: map<string, Value>)
    returns (r: Result<(seq<string>, map<string, Value>), TranslateError>)
    ensures BindAll(params, prefix, separator).Err? ==> r == Err(BindAll(params, prefix, separator).error)
    ensures BindAll(params, prefix, separator).Ok? ==>
              r == Ok((statements + Fragments(BindAll(params, prefix, separator).value),
                       AddBindings(bindings, BindAll(params, prefix, separator).value)))
  {
    var collected := statements;
    var written := bindings;
    ghost var bs: seq<Bound> := [];
    var i := 0;
    while i < |params|
      invariant 0 <= i <= |params|
      invariant BindAll(params[..i], prefix, separator) == Ok(bs)
      invariant collected == statements + Fragments(bs)
      invariant written == AddBindings(bindings, bs)
    {
      var step := BindKey(params[i], prefix, separator);
      BindAllExtend(params, i, prefix, separator);
      if step.Err? {
        BindAllFailsFromPrefix(params, i + 1, prefix, separator);
        return Err(step.error);
      }
      collected := collected + [step.value.0];
      written := written[step.value.1 := params[i].value];
      ghost var b := BindEntry(params[i], prefix, separator).value;
      BoundAppend(bindings, bs, b);
      bs := bs + [b];
      i := i + 1;
    }
    assert params[..i] == params;
    r := Ok((collected, written));
  }

  /** One more binding adds one fragment and writes one parameter. */
  lemma BoundAppend(m: map<string, Value>, bs: seq<Bound>, b: Bound)
    ensures Fragments(bs + [b]) == Fragments(bs) + [b.fragment]
    ensures AddBindings(m, bs + [b]) == AddBindings(m, bs)[b.bindKey := b.value]
  {
    assert (bs + [b])[..|bs|] == bs;
  }

  /** Binding one more key extends the bindings, or fails with its error. */
  lemma BindAllExtend(d: seq<Entry>, i: nat, prefix: string, op: string)
    requires i < |d| && BindAll(d[..i], prefix, op).Ok?
    ensures BindEntry(d[i], prefix, op).Ok? ==>
              BindAll(d[..i + 1], prefix, op) == Ok(BindAll(d[..i], prefix, op).value + [BindEntry(d[i], prefix, op).value])
    ensures BindEntry(d[i], prefix, op).Err? ==> BindAll(d[..i + 1], prefix, op) == Err(BindEntry(d[i], prefix, op).error)
  {
    assert d[..i + 1][..i] == d[..i];
    assert d[..i + 1][i] == d[i];
  }

  /** Once a key fails, the group fails with that key's error. */
  lemma {:induction false} BindAllFailsFromPrefix(d: seq<Entry>, i: nat, prefix: string, op: string)
    requires i <= |d| && BindAll(d[..i], prefix, op).Err?
    ensures BindAll(d, prefix, op) == BindAll(d[..i], prefix, op)
    decreases |d|
  {
    if i < |d| {
      assert d[..|d| - 1][..i] == d[..i];
      BindAllFailsFromPrefix(d[..|d| - 1], i, prefix, op);
    } else {
      assert d[..i] == d;
    }
  }

  /** A key the predicate builder accepts: a bare column name, or a column
      followed by the `tsvector` modifier. */
  predicate Bindable(key: string) {
    ' ' !in key || (|Words(key)| >= 2 && Words(key)[1] == "tsvector")
  }

  /** The two accepted key forms and the two rejected ones. */
  lemma BindEntryCases(e: Entry, prefix: string, op: string)
    ensures BindEntry(e, prefix, op).Ok? <==> Bindable(e.key)
    ensures ' ' !in e.key ==>
              BindEntry(e, prefix, op) == Ok(Bound(e.key + " " + op + " " + Placeholder(prefix, e.key), prefix + "_" + e.key, e.value))
    ensures ' ' in e.key && Bindable(e.key) ==>
              var column := Words(e.key)[0];
              BindEntry(e, prefix, op) ==
                Ok(Bound(column + " " + op + " to_tsvector('english', " + Placeholder(prefix, column) + ")", prefix + "_" + column, e.value))
    ensures ' ' in e.key && |Words(e.key)| < 2 ==> BindEntry(e, prefix, op) == Err(MissingTypeHint(e.key))
    ensures ' ' in e.key && |Words(e.key)| >= 2 && Words(e.key)[1] != "tsvector" ==>
              BindEntry(e, prefix, op) == Err(UnhandledTypeHint(Words(e.key)[1]))
  {
  }

  /** A group binds exactly when every key is bindable; then each binding
      carries its own entry's value, and otherwise the error is that of the
      first key that is not. */
  lemma {:induction false} BindAllOkIff(d: seq<Entry>, prefix: string, op: string)
    ensures BindAll(d, prefix, op).Ok? <==> forall i :: 0 <= i < |d| ==> Bindable(d[i].key)
    ensures BindAll(d, prefix, op).Ok? ==>
              |BindAll(d, prefix, op).value| == |d| &&
              forall i :: 0 <= i < |d| ==> BindAll(d, prefix, op).value[i] == BindEntry(d[i], prefix, op).value
    ensures BindAll(d, prefix, op).Err? ==>
              exists i :: 0 <= i < |d| && !Bindable(d[i].key) && (forall j :: 0 <= j < i ==> Bindable(d[j].key)) &&
                          BindAll(d, prefix, op) == Err(BindEntry(d[i], prefix, op).error)
    decreases |d|
  {
    if d != [] {
      var init := d[..|d| - 1];
      var last := d[|d| - 1];
      BindAllOkIff(init, prefix, op);
      BindEntryCases(last, prefix, op);
      assert forall i :: 0 <= i < |init| ==> init[i] == d[i];
      if BindAll(init, prefix, op).Err? {
        var i :| 0 <= i < |init| && !Bindable(init[i].key) && (forall j :: 0 <= j < i ==> Bindable(init[j].key)) &&
                 BindAll(init, prefix, op) == Err(BindEntry(init[i], prefix, op).error);
        assert d[i] == init[i];
      } else if !Bindable(last.key) {
        assert forall j :: 0 <= j < |d| - 1 ==> Bindable(d[j].key);
      } else {
        var bs := BindAll(init, prefix, op).value;
        assert BindAll(d, prefix, op).value == bs + [BindEntry(last, prefix, op).value];
      }
    }
  }

  /** Every parameter a group binds is named `prefix_column`. */
  lemma {:induction false} BindAllNamespaced(d: seq<Entry>, prefix: string, op: string)
    requires BindAll(d, prefix, op).Ok?
    ensures var bs := BindAll(d, prefix, op).value;
            |bs| == |d| && forall i :: 0 <= i < |bs| ==> prefix + "_" <= bs[i].bindKey
    decreases |d|
  {
    if d != [] {
      BindAllNamespaced(d[..|d| - 1], prefix, op);
    }
  }

  /** The parameter map after adding bindings holds exactly the old keys
      and the bind keys, the bindings overriding. */
  lemma {:induction false} AddBindingsKeys(m: map<string, Value>, bs: seq<Bound>)
    ensures AddBindings(m, bs).Keys == m.Keys + set i | 0 <= i < |bs| :: bs[i].bindKey
    ensures forall k :: k in m && (forall i :: 0 <= i < |bs| ==> bs[i].bindKey != k) ==> AddBindings(m, bs)[k] == m[k]
    decreases |bs|
  {
    if bs != [] {
      var init := bs[..|bs| - 1];
      AddBindingsKeys(m, init);
      assert forall i :: 0 <= i < |init| ==> init[i] == bs[i];
      assert (set i | 0 <= i < |bs| :: bs[i].bindKey) == (set i | 0 <= i < |init| :: init[i].bindKey) + {bs[|bs| - 1].bindKey};
    }
  }

  /** The fragments depend on the keys only, never on the values. */
  lemma {:induction false} BindAllIgnoresValues(d1: seq<Entry>, d2: seq<Entry>, prefix: string, op: string)
    requires Keys(d1) == Keys(d2)
    ensures BindAll(d1, prefix, op).Ok? <==> BindAll(d2, prefix, op).Ok?
    ensures BindAll(d1, prefix, op).Ok? ==> Fragments(BindAll(d1, prefix, op).value) == Fragments(BindAll(d2, prefix, op).value)
    ensures BindAll(d1, prefix, op).Err? ==> BindAll(d1, prefix, op) == BindAll(d2, prefix, op)
    decreases |d1|
  {
    if d1 != [] {
      assert |d1| == |Keys(d1)| == |d2|;
      assert Keys(d1[..|d1| - 1]) == Keys(d1)[..|d1| - 1] == Keys(d2)[..|d2| - 1] == Keys(d2[..|d2| - 1]);
      assert d1[|d1| - 1].key == Keys(d1)[|d1| - 1] == d2[|d2| - 1].key;
      BindAllIgnoresValues(d1[..|d1| - 1], d2[..|d2| - 1], prefix, op);
      match BindAll(d1[..|d1| - 1], prefix, op)
      case Err(_) =>
      case Ok(bs1) =>
        var bs2 := BindAll(d2[..|d2| - 1], prefix, op).value;
        var b1 := BindEntry(d1[|d1| - 1], prefix, op);
        var b2 := BindEntry(d2[|d2| - 1], prefix, op);
        if b1.Ok? {
          assert Fragments(bs1 + [b1.value]) == Fragments(bs1) + [b1.value.fragment];
          assert Fragments(bs2 + [b2.value]) == Fragments(bs2) + [b2.value.fragment];
        }
    }
  }

  // ---------------------------------------------------------------------
  // update

  function UpdateText(table: string, sets: seq<string>, wheres: seq<string>): string {
    "UPDATE " + table + " SET " + Join(", ", sets) + " WHERE " + Join("AND ", wheres)
  }

  /** What update computes: SET fragments bound as `set_*`, then WHERE
      fragments bound as `where_*`; the first bad key's error otherwise. */
  function UpdateSpec(table: string, updates: seq<Entry>, whereEquals: seq<Entry>): Result<Command, TranslateError> {
    match BindAll(updates, "set", "=")
    case Err(e) => Err(e)
    case Ok(sets) =>
      match BindAll(whereEquals, "where", "=")
      case Err(e) => Err(e)
      case Ok(wheres) =>
        Ok(CmdStr(UpdateText(table, Fragments(sets), Fragments(wheres)),
                  AddBindings(AddBindings(map[], sets), wheres)))
  }

  /** update. */
  method Update(table: string, updates: Dict, whereEquals: Dict) returns (r: Result<Command, TranslateError>)
    ensures r == UpdateSpec(table, updates, whereEquals)
  {
    var setResult := ToParamDict(updates, "set", "=", [], map[]);
    if setResult.Err? {
      return Err(setResult.error);
    }
    var ups, params := setResult.value.0, setResult.value.1;
    ghost var sets := BindAll(updates, "set", "=").value;
    assert ups == Fragments(sets) && params == AddBindings(map[], sets) by {
      assert [] + Fragments(sets) == Fragments(sets);
    }
    var whereResult := ToParamDict(whereEquals, "where", "=", [], params);
    if whereResult.Err? {
      return Err(whereResult.error);
    }
    var wheres;
    wheres, params := whereResult.value.0, whereResult.value.1;
    ghost var bound := BindAll(whereEquals, "where", "=").value;
    assert wheres == Fragments(bound) && params == AddBindings(AddBindings(map[], sets), bound) by {
      assert [] + Fragments(bound) == Fragments(bound);
    }
    r := Ok(CmdStr(UpdateText(table, ups, wheres), params));
  }

  /** The SET and WHERE parameters live in separate namespaces: the map is
      the union of the two groups' parameters, so a column used in both
      clauses is bound twice, under `set_` and `where_`. */
  lemma UpdateParamsDisjoint(table: string, updates: seq<Entry>, whereEquals: seq<Entry>)
    requires UpdateSpec(table, updates, whereEquals).Ok?
    ensures var sets := BindAll(updates, "set", "=").value;
            var wheres := BindAll(whereEquals, "where", "=").value;
            var params := UpdateSpec(table, updates, whereEquals).value.params;
            (forall i, j :: 0 <= i < |sets| && 0 <= j < |wheres| ==> sets[i].bindKey != wheres[j].bindKey)
            && (params.Some? ==> params.value == AddBindings(map[], sets) + AddBindings(map[], wheres))
  {
    var sets := BindAll(updates, "set", "=").value;
    var wheres := BindAll(whereEquals, "where", "=").value;
    BindAllNamespaced(updates, "set", "=");
    BindAllNamespaced(whereEquals, "where", "=");
    forall i, j | 0 <= i < |sets| && 0 <= j < |wheres| ensures sets[i].bindKey != wheres[j].bindKey {
      assert sets[i].bindKey[0] == 's' && wheres[j].bindKey[0] == 'w';
    }
    var m := AddBindings(map[], sets);
    AddBindingsKeys(m, wheres);
    AddBindingsKeys(map[], wheres);
    AddBindingsUnion(m, wheres);
  }

  /** Adding bindings to a map is the map overridden by the bindings alone. */
  lemma {:induction false} AddBindingsUnion(m: map<string, Value>, bs: seq<Bound>)
    ensures AddBindings(m, bs) == m + AddBindings(map[], bs)
    decreases |bs|
  {
    if bs != [] {
      AddBindingsUnion(m, bs[..|bs| - 1]);
    }
  }

  /** The SQL of update depends on the keys only, never on the values. */
  lemma UpdateSqlIgnoresValues(table: string, updates1: seq<Entry>, where1: seq<Entry>,
                               updates2: seq<Entry>, where2: seq<Entry>)
    requires Keys(updates1) == Keys(updates2) && Keys(where1) == Keys(where2)
    requires UpdateSpec(table, updates1, where1).Ok?
    ensures UpdateSpec(table, updates2, where2).Ok?
    ensures UpdateSpec(table, updates1, where1).value.sql == UpdateSpec(table, updates2, where2).value.sql
  {
    BindAllIgnoresValues(updates1, updates2, "set", "=");
    BindAllIgnoresValues(where1, where2, "where", "=");
  }

  /** The worked example of update with the full-text key `body tsvector`:
      `UPDATE t SET body = to_tsvector('english', %(set_body)s) WHERE id = %(where_id)s`
      on one line, in the pieces the query is assembled from. The key is
      written as a concatenation so that the verifier does not split the
      literal character by character. */
  lemma UpdateExample()
    ensures var r := UpdateSpec("t", [Entry("body" + " " + "tsvector", Str("x"))], [Entry("id", Int(1))]);
            r.Ok?
            && r.value.sql == UpdateExampleSql
            && r.value.params == Some(map["set_body" := Str("x"), "where_id" := Int(1)])
  {
    var assignment := Bound(UpdateExampleSet, "set_body", Str("x"));
    var where := Bound(UpdateExampleWhere, "where_id", Int(1));
    UpdateExampleSetBinding();
    UpdateExampleWhereBinding();
    UpdateExampleText();
    UpdateExampleUnmarked();
    AddOneBinding(map[], assignment);
    AddOneBinding(map["set_body" := Str("x")], where);
    var params := AddBindings(AddBindings(map[], [assignment]), [where]);
    assert |params| > 0 by { assert "where_id" in params; }
  }

  lemma UpdateExampleSetBinding()
    ensures BindAll([Entry("body" + " " + "tsvector", Str("x"))], "set", "=") == Ok([Bound(UpdateExampleSet, "set_body", Str("x"))])
  {
    BindTsvectorKey("body", Str("x"), "set", "=");
    assert "set" + "_" + "body" == "set_body";
  }

  lemma UpdateExampleWhereBinding()
    ensures BindAll([Entry("id", Int(1))], "where", "=") == Ok([Bound(UpdateExampleWhere, "where_id", Int(1))])
  {
    BindBareKey("id", Int(1), "where", "=");
    assert "where" + "_" + "id" == "where_id";
  }

  lemma UpdateExampleText()
    ensures UpdateText("t", [UpdateExampleSet], [UpdateExampleWhere]) == UpdateExampleSql
  {
    assert Join(", ", [UpdateExampleSet]) == UpdateExampleSet;
    assert Join("AND ", [UpdateExampleWhere]) == UpdateExampleWhere;
  }

  const UpdateExampleSql: string := "UPDATE " + "t" + " SET " + UpdateExampleSet + " WHERE " + UpdateExampleWhere

  const UpdateExampleSet: string := "body" + " " + "=" + " to_tsvector('english', " + ("%(" + "set" + "_" + "body" + ")s") + ")"

  const UpdateExampleWhere: string := "id" + " " + "=" + " " + ("%(" + "where" + "_" + "id" + ")s")

  lemma UpdateExampleUnmarked()
    ensures '@' !in UpdateExampleSql
  {
    assert '@' !in "UPDATE " + "t" + " SET ";
    assert '@' !in " to_tsvector('english', ";
    assert '@' !in UpdateExampleSet;
    assert '@' !in " WHERE " + UpdateExampleWhere;
  }

  // ---------------------------------------------------------------------
  // read

  /** `order_by`: absent, one column expression, or a list of them. */
  datatype OrderBy = NoOrder | OrderColumn(column: string) | OrderColumns(columns: seq<string>)

  /** The ORDER BY clause; a list is joined with `,`, and an empty result
      gives no clause. */
  function OrderClause(orderBy: OrderBy): (r: string)
    ensures orderBy.OrderColumn? && orderBy.column != "" ==> r == " ORDER BY " + orderBy.column
    ensures orderBy.NoOrder? ==> r == ""
  {
    var text := match orderBy
      case NoOrder => ""
      case OrderColumn(c) => c
      case OrderColumns(cs) => Join(",", cs);
    if text != "" then " ORDER BY " + text else ""
  }

  /** The direction: DESC whenever `desc` is set, ASC only with an ORDER BY
      clause. */
  function DirectionClause(desc: bool, orderClause: string): (r: string)
    ensures r == " DESC" <==> desc
    ensures r == " ASC" <==> !desc && orderClause != ""
    ensures r == "" <==> !desc && orderClause == ""
  {
    if desc then " DESC" else if orderClause != "" then " ASC" else ""
  }

  /** ` OFFSET n` or ` LIMIT n`, left out when `n` is None or 0. */
  function PagingClause(keyword: string, n: Option<int>): (r: string)
    ensures r == "" <==> n.None? || n.value == 0
    ensures r != "" ==> r == " " + keyword + " " + IntToString(n.value)
  {
    if n.Some? && n.value != 0 then " " + keyword + " " + IntToString(n.value) else ""
  }

  function WhereClause(conditions: seq<string>): (r: string)
    ensures conditions == [] <==> r == ""
  {
    if conditions != [] then " WHERE " + Join(" AND ", conditions) else ""
  }

  function ReadText(table: string, columnString: string, conditions: seq<string>, orderBy: OrderBy,
                    desc: bool, skip: Option<int>, take: Option<int>): string {
    var order := OrderClause(orderBy);
    "SELECT " + columnString + " FROM " + table + WhereClause(conditions) + order
      + DirectionClause(desc, order) + PagingClause("OFFSET", skip) + PagingClause("LIMIT", take) + ";"
  }

  /** What read computes: the equals, greater-than and less-than groups
      bound under `where_`, `gt_` and `lt_`, in that order. */
  function ReadSpec(table: string, equals: seq<Entry>, lessThan: seq<Entry>, greaterThan: seq<Entry>,
                    take: Option<int>, orderBy: OrderBy, desc: bool, columnString: string,
                    skip: Option<int>): Result<Command, TranslateError> {
    match BindAll(equals, "where", "=")
    case Err(e) => Err(e)
    case Ok(eqs) =>
      match BindAll(greaterThan, "gt", ">")
      case Err(e) => Err(e)
      case Ok(gts) =>
        match BindAll(lessThan, "lt", "<")
        case Err(e) => Err(e)
        case Ok(lts) =>
          Ok(CmdStr(ReadText(table, columnString, Fragments(eqs) + Fragments(gts) + Fragments(lts), orderBy, desc, skip, take),
                    AddBindings(AddBindings(AddBindings(map[], eqs), gts), lts)))
  }

  /** read. */
  method Read(table: string, equals: Dict, lessThan: Dict, greaterThan: Dict, take: Option<int>,
              orderBy: OrderBy, desc: bool, columnString: string, skip: Option<int>)
    returns (r: Result<Command, TranslateError>)
    ensures r == ReadSpec(table, equals, lessThan, greaterThan, take, orderBy, desc, columnString, skip)
  {
    var skipClause := PagingClause("OFFSET", skip);
    var takeClause := PagingClause("LIMIT", take);
    var order := OrderClause(orderBy);
    var direction := DirectionClause(desc, order);
    var equalsResult := ToParamDict(equals, "where", "=", [], map[]);
    if equalsResult.Err? {
      return Err(equalsResult.error);
    }
    var conditions, params := equalsResult.value.0, equalsResult.value.1;
    ghost var eqs := BindAll(equals, "where", "=").value;
    assert conditions == Fragments(eqs) && params == AddBindings(map[], eqs) by {
      assert [] + Fragments(eqs) == Fragments(eqs);
    }
    var greaterResult := ToParamDict(greaterThan, "gt", ">", conditions, params);
    if greaterResult.Err? {
      return Err(greaterResult.error);
    }
    conditions, params := greaterResult.value.0, greaterResult.value.1;
    ghost var gts := BindAll(greaterThan, "gt", ">").value;
    assert conditions == Fragments(eqs) + Fragments(gts) && params == AddBindings(AddBindings(map[], eqs), gts);
    var lessResult := ToParamDict(lessThan, "lt", "<", conditions, params);
    if lessResult.Err? {
      return Err(lessResult.error);
    }
    conditions, params := lessResult.value.0, lessResult.value.1;
    ghost var lts := BindAll(lessThan, "lt", "<").value;
    assert conditions == Fragments(eqs) + Fragments(gts) + Fragments(lts);
    assert params == AddBindings(AddBindings(AddBindings(map[], eqs), gts), lts);
    var where := WhereClause(conditions);
    var cmd := "SELECT " + columnString + " FROM " + table + where + order + direction + skipClause + takeClause + ";";
    assert cmd == ReadText(table, columnString, conditions, orderBy, desc, skip, take);
    r := Ok(CmdStr(cmd, params));
  }

  /** An order given as one column and as a one-element list give the same
      command. */
  lemma ReadOrderSingleEqualsList(table: string, equals: seq<Entry>, lessThan: seq<Entry>, greaterThan: seq<Entry>,
                                  take: Option<int>, column: string, desc: bool, columnString: string, skip: Option<int>)
    ensures ReadSpec(table, equals, lessThan, greaterThan, take, OrderColumn(column), desc, columnString, skip)
         == ReadSpec(table, equals, lessThan, greaterThan, take, OrderColumns([column]), desc, columnString, skip)
  {
    assert OrderClause(OrderColumn(column)) == OrderClause(OrderColumns([column]));
  }

  /** The groups bind into disjoint namespaces `where_`, `gt_` and `lt_`,
      and the parameter map is the union of the three groups' parameters. */
  lemma ReadNamespacesDisjoint(table: string, equals: seq<Entry>, lessThan: seq<Entry>, greaterThan: seq<Entry>,
                               take: Option<int>, orderBy: OrderBy, desc: bool, columnString: string, skip: Option<int>)
    requires ReadSpec(table, equals, lessThan, greaterThan, take, orderBy, desc, columnString, skip).Ok?
    ensures var eqs := BindAll(equals, "where", "=").value;
            var gts := BindAll(greaterThan, "gt", ">").value;
            var lts := BindAll(lessThan, "lt", "<").value;
            var params := ReadSpec(table, equals, lessThan, greaterThan, take, orderBy, desc, columnString, skip).value.params;
            (forall i, j :: 0 <= i < |eqs| && 0 <= j < |gts| ==> eqs[i].bindKey != gts[j].bindKey)
            && (forall i, j :: 0 <= i < |eqs| && 0 <= j < |lts| ==> eqs[i].bindKey != lts[j].bindKey)
            && (forall i, j :: 0 <= i < |gts| && 0 <= j < |lts| ==> gts[i].bindKey != lts[j].bindKey)
            && (params.Some? ==> params.value == AddBindings(map[], eqs) + AddBindings(map[], gts) + AddBindings(map[], lts))
  {
    var eqs := BindAll(equals, "where", "=").value;
    var gts := BindAll(greaterThan, "gt", ">").value;
    var lts := BindAll(lessThan, "lt", "<").value;
    ReadGroupsDisjoint(equals, lessThan, greaterThan);
    var vals := AddBindings(AddBindings(AddBindings(map[], eqs), gts), lts);
    assert ReadSpec(table, equals, lessThan, greaterThan, take, orderBy, desc, columnString, skip).value
        == CmdStr(ReadText(table, columnString, Fragments(eqs) + Fragments(gts) + Fragments(lts), orderBy, desc, skip, take), vals);
    AddBindingsUnion(AddBindings(map[], eqs), gts);
    AddBindingsUnion(AddBindings(AddBindings(map[], eqs), gts), lts);
  }

  lemma ReadGroupsDisjoint(equals: seq<Entry>, lessThan: seq<Entry>, greaterThan: seq<Entry>)
    requires BindAll(equals, "where", "=").Ok? && BindAll(greaterThan, "gt", ">").Ok? && BindAll(lessThan, "lt", "<").Ok?
    ensures var eqs := BindAll(equals, "where", "=").value;
            var gts := BindAll(greaterThan, "gt", ">").value;
            var lts := BindAll(lessThan, "lt", "<").value;
            (forall i, j :: 0 <= i < |eqs| && 0 <= j < |gts| ==> eqs[i].bindKey != gts[j].bindKey)
            && (forall i, j :: 0 <= i < |eqs| && 0 <= j < |lts| ==> eqs[i].bindKey != lts[j].bindKey)
            && (forall i, j :: 0 <= i < |gts| && 0 <= j < |lts| ==> gts[i].bindKey != lts[j].bindKey)
  {
    var eqs := BindAll(equals, "where", "=").value;
    var gts := BindAll(greaterThan, "gt", ">").value;
    var lts := BindAll(lessThan, "lt", "<").value;
    BindAllNamespaced(equals, "where", "=");
    BindAllNamespaced(greaterThan, "gt", ">");
    BindAllNamespaced(lessThan, "lt", "<");
    assert forall i :: 0 <= i < |eqs| ==> eqs[i].bindKey[0] == 'w';
    assert forall i :: 0 <= i < |gts| ==> gts[i].bindKey[..2] == "gt" && gts[i].bindKey[2] == '_';
    assert forall i :: 0 <= i < |lts| ==> lts[i].bindKey[0] == 'l';
  }

  /** A `column tsvector` key binds as a full-text match on the column. */
  lemma BindTsvectorKey(column: string, v: Value, prefix: string, op: string)
    requires column != [] && forall i :: 0 <= i < |column| ==> !IsSpace(column[i])
    ensures BindAll([Entry(column + " " + "tsvector", v)], prefix, op)
         == Ok([Bound(column + " " + op + " to_tsvector('english', " + Placeholder(prefix, column) + ")", prefix + "_" + column, v)])
  {
    var e := Entry(column + " " + "tsvector", v);
    WordsOfTwo(column, "tsvector");
    assert e.key[|column|] == ' ';
    BindEntryCases(e, prefix, op);
    BindSingle(e, prefix, op);
  }

  /** A group of one entry binds as that entry alone. */
  lemma BindSingle(e: Entry, prefix: string, op: string)
    ensures BindEntry(e, prefix, op).Ok? ==> BindAll([e], prefix, op) == Ok([BindEntry(e, prefix, op).value])
    ensures BindEntry(e, prefix, op).Err? ==> BindAll([e], prefix, op) == Err(BindEntry(e, prefix, op).error)
  {
    assert [e][..0] == [];
    assert BindAll([e][..0], prefix, op) == Ok([]);
    if BindEntry(e, prefix, op).Ok? {
      assert [] + [BindEntry(e, prefix, op).value] == [BindEntry(e, prefix, op).value];
    }
  }

  /** A key without a space binds as `key op %(prefix_key)s`. */
  lemma BindBareKey(key: string, v: Value, prefix: string, op: string)
    requires ' ' !in key
    ensures BindAll([Entry(key, v)], prefix, op)
         == Ok([Bound(key + " " + op + " " + Placeholder(prefix, key), prefix + "_" + key, v)])
  {
    var d := [Entry(key, v)];
    assert d[..|d| - 1] == [];
    assert BindAll(d[..|d| - 1], prefix, op) == Ok([]);
    var b := Bound(key + " " + op + " " + Placeholder(prefix, key), prefix + "_" + key, v);
    assert BindEntry(d[|d| - 1], prefix, op) == Ok(b);
    assert [] + [b] == [b];
  }

  /** The worked example of read: one key in each group, a two-column
      order, descending, skipping 5 and taking 10. */
  lemma ReadExample()
    ensures var r := ReadSpec("t", [Entry("a", Int(1))], [Entry("c", Int(9))], [Entry("b", Int(5))],
                              Some(10), OrderColumns(["c", "d"]), true, "*", Some(5));
            r.Ok?
            && r.value.sql == ReadExampleSql
            && r.value.params == Some(map["where_a" := Int(1), "gt_b" := Int(5), "lt_c" := Int(9)])
  {
    var a := Bound("a = %(where_a)s", "where_a", Int(1));
    var b := Bound("b > %(gt_b)s", "gt_b", Int(5));
    var c := Bound("c < %(lt_c)s", "lt_c", Int(9));
    ReadExampleBindings();
    ReadExampleText();
    ReadExampleUnmarked();
    var conditions := Fragments([a]) + Fragments([b]) + Fragments([c]);
    assert conditions == ["a = %(where_a)s", "b > %(gt_b)s", "c < %(lt_c)s"];
    var params := AddBindings(AddBindings(AddBindings(map[], [a]), [b]), [c]);
    AddOneBinding(map[], a);
    AddOneBinding(map["where_a" := Int(1)], b);
    AddOneBinding(map["where_a" := Int(1), "gt_b" := Int(5)], c);
    var r := CmdStr(ReadExampleSql, params);
    assert r.sql == ReadExampleSql;
    assert |params| > 0 by { assert "where_a" in params; }
    assert r.params == Some(params);
  }

  lemma AddOneBinding(m: map<string, Value>, b: Bound)
    ensures AddBindings(m, [b]) == m[b.bindKey := b.value]
  {
    assert [b][..0] == [];
  }

  /** `SELECT * FROM t WHERE a = %(where_a)s AND b > %(gt_b)s AND c < %(lt_c)s
      ORDER BY c,d DESC OFFSET 5 LIMIT 10;` on one line, in the pieces the
      query is assembled from. */
  const ReadExampleSql: string :=
    "SELECT " + "*" + " FROM " + "t" + ReadExampleWhereText + (" ORDER BY " + ("c" + "," + "d"))
      + " DESC" + (" " + "OFFSET" + " " + "5") + (" " + "LIMIT" + " " + ("1" + "0")) + ";"

  const ReadExampleWhereText: string :=
    " WHERE " + ("a = %(where_a)s" + " AND " + ("b > %(gt_b)s" + " AND " + "c < %(lt_c)s"))

  lemma ReadExampleBindings()
    ensures BindAll([Entry("a", Int(1))], "where", "=") == Ok([Bound("a = %(where_a)s", "where_a", Int(1))])
    ensures BindAll([Entry("b", Int(5))], "gt", ">") == Ok([Bound("b > %(gt_b)s", "gt_b", Int(5))])
    ensures BindAll([Entry("c", Int(9))], "lt", "<") == Ok([Bound("c < %(lt_c)s", "lt_c", Int(9))])
  {
    ReadExampleEqualsBinding();
    ReadExampleGreaterBinding();
    ReadExampleLessBinding();
  }

  lemma ReadExampleEqualsBinding()
    ensures BindAll([Entry("a", Int(1))], "where", "=") == Ok([Bound("a = %(where_a)s", "where_a", Int(1))])
  {
    BindBareKey("a", Int(1), "where", "=");
    assert "a" + " " + "=" + " " + Placeholder("where", "a") == "a = %(where_a)s";
    assert "where" + "_" + "a" == "where_a";
  }

  lemma ReadExampleGreaterBinding()
    ensures BindAll([Entry("b", Int(5))], "gt", ">") == Ok([Bound("b > %(gt_b)s", "gt_b", Int(5))])
  {
    BindBareKey("b", Int(5), "gt", ">");
    assert "b" + " " + ">" + " " + Placeholder("gt", "b") == "b > %(gt_b)s";
    assert "gt" + "_" + "b" == "gt_b";
  }

  lemma ReadExampleLessBinding()
    ensures BindAll([Entry("c", Int(9))], "lt", "<") == Ok([Bound("c < %(lt_c)s", "lt_c", Int(9))])
  {
    BindBareKey("c", Int(9), "lt", "<");
    assert "c" + " " + "<" + " " + Placeholder("lt", "c") == "c < %(lt_c)s";
    assert "lt" + "_" + "c" == "lt_c";
  }

  lemma ReadExampleText()
    ensures ReadText("t", "*", ["a = %(where_a)s", "b > %(gt_b)s", "c < %(lt_c)s"], OrderColumns(["c", "d"]),
                     true, Some(5), Some(10)) == ReadExampleSql
  {
    ReadExampleWhere();
    ReadExampleOrder();
    ReadExamplePaging();
  }

  lemma ReadExampleWhere()
    ensures WhereClause(["a = %(where_a)s", "b > %(gt_b)s", "c < %(lt_c)s"]) == ReadExampleWhereText
  {
    var cs := ["a = %(where_a)s", "b > %(gt_b)s", "c < %(lt_c)s"];
    assert cs[1..] == ["b > %(gt_b)s", "c < %(lt_c)s"];
    assert cs[1..][1..] == ["c < %(lt_c)s"];
  }

  lemma ReadExampleOrder()
    ensures OrderClause(OrderColumns(["c", "d"])) == " ORDER BY " + ("c" + "," + "d")
  {
    assert ["c", "d"][1..] == ["d"];
  }

  lemma ReadExamplePaging()
    ensures PagingClause("OFFSET", Some(5)) == " " + "OFFSET" + " " + "5"
    ensures PagingClause("LIMIT", Some(10)) == " " + "LIMIT" + " " + ("1" + "0")
  {
    assert IntToString(5) == "5";
    assert IntToString(10) == "1" + "0";
  }

  lemma ReadExampleUnmarked()
    ensures '@' !in ReadExampleSql
  {
    assert '@' !in "SELECT " + "*" + " FROM " + "t";
    assert '@' !in ReadExampleWhereText by {
      assert '@' !in " WHERE " + "a = %(where_a)s";
      assert '@' !in " AND " + "b > %(gt_b)s";
      assert '@' !in " AND " + "c < %(lt_c)s";
    }
    assert '@' !in " ORDER BY " + ("c" + "," + "d") + " DESC";
    assert '@' !in (" " + "OFFSET" + " " + "5") + (" " + "LIMIT" + " " + ("1" + "0")) + ";";
  }

  // ---------------------------------------------------------------------
  // get_table_schema

  /** The line break and indentation between the query's lines. */
  const Indent: string := "\n                "

  const SchemaSelect: string := "SELECT * From information_schema.columns"
  const SchemaWhere: string := "WHERE table_schema = %(schema_name)s"
  const SchemaCatalog: string := "AND table_catalog =  %(table_catalog)s"
  const SchemaTable: string := "AND table_name = %(table_name)s"
  const SchemaOrder: string := "ORDER BY table_name, column_name;"

  const TableSchemaSql: string :=
    SchemaSelect + Indent + SchemaWhere + Indent + SchemaCatalog + Indent + SchemaTable + Indent + SchemaOrder

  /** The query names its parameters directly and has no `@name` marker;
      the lines are checked a few at a time. */
  lemma TableSchemaSqlUnmarked()
    ensures '@' !in TableSchemaSql
  {
    SchemaHeadUnmarked();
    SchemaTailUnmarked();
    assert '@' !in Indent;
  }

  lemma SchemaHeadUnmarked()
    ensures '@' !in SchemaSelect && '@' !in SchemaWhere
  {
    assert '@' !in SchemaSelect;
  }

  lemma SchemaTailUnmarked()
    ensures '@' !in SchemaCatalog && '@' !in SchemaTable && '@' !in SchemaOrder
  {
    SchemaCatalogUnmarked();
    SchemaTableUnmarked();
    SchemaOrderUnmarked();
  }

  lemma SchemaCatalogUnmarked()
    ensures '@' !in SchemaCatalog
  {
  }

  lemma SchemaTableUnmarked()
    ensures '@' !in SchemaTable
  {
  }

  lemma SchemaOrderUnmarked()
    ensures '@' !in SchemaOrder
  {
  }

  function OptionalText(s: Option<string>): Value {
    match s
    case Some(v) => Str(v)
    case None => Null
  }

  /** get_table_schema: a fixed query; the catalog, schema and table names
      are bound, never written into the text. */
  function GetTableSchema(catalog: string, schemaName: Option<string>, tableName: string): (r: Command)
    ensures r.sql == TableSchemaSql
    ensures r.params == Some(map["schema_name" := OptionalText(schemaName), "table_name" := Str(tableName),
                                 "table_catalog" := Str(catalog)])
  {
    TableSchemaSqlUnmarked();
    CmdStr(TableSchemaSql, map["schema_name" := OptionalText(schemaName), "table_name" := Str(tableName),
                               "table_catalog" := Str(catalog)])
  }
}
