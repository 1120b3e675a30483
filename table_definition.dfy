/** The declared shape of a table (db_table_definition.py): a column
    definition and a table definition, both values fixed once built. */
module TableDefinition {
  import opened Wrappers
  import opened Text
  import opened Sequences

  /** Column names that collide with reserved words and are stored quoted. */
  const Reserved: set<string> := {"user", "object"}

  /** Type aliases applied after upper-casing. */
  const TypeMapping: map<string, string> := map["INT4" := "INT", "INTEGER" := "INT", "BOOLEAN" := "BOOL"]

  /** DbColumnDefinition. A `length` of 0 means "no explicit length". */
  datatype Column = Column(
    name: string,
    dataType: string,
    nullable: bool,
    isPrimaryKey: bool,
    isUnique: bool,
    length: int)

  /** A foreign key: local column, referenced table, referenced column. */
  datatype ForeignKey = ForeignKey(column: string, refTable: Table, refColumn: string)

  /** DbTableDefinition. An absent list of foreign keys or scripts is the
      empty sequence; `schema` is None when no schema was given. */
  datatype Table = Table(
    name: string,
    columns: seq<Column>,
    foreignKeys: seq<ForeignKey>,
    schema: Option<string>,
    scripts: seq<string>)

  function Quote(s: string): string {
    "\"" + s + "\""
  }

  /** The stored form of a column name: reserved names, and only they,
      are wrapped in double quotes. */
  function NormaliseName(name: string): (r: string)
    ensures r == Quote(name) <==> name in Reserved
    ensures name !in Reserved ==> r == name
  {
    if name in Reserved then Quote(name) else name
  }

  /** The stored form of a data type: upper-cased, then mapped through the
      alias table. */
  function NormaliseType(dataType: string): string {
    var upper := Upper(dataType);
    if upper in TypeMapping then TypeMapping[upper] else upper
  }

  /** A column whose name and type are already in stored form. */
  predicate Normalised(c: Column) {
    NormaliseName(c.name) == c.name && NormaliseType(c.dataType) == c.dataType
  }

  /** The aliases: INT4 and INTEGER become INT and BOOLEAN becomes BOOL,
      whatever their case; every other type is only upper-cased. */
  lemma NormaliseTypeAliases(dataType: string)
    ensures Upper(dataType) == "INT4" || Upper(dataType) == "INTEGER" ==> NormaliseType(dataType) == "INT"
    ensures Upper(dataType) == "BOOLEAN" ==> NormaliseType(dataType) == "BOOL"
    ensures Upper(dataType) !in {"INT4", "INTEGER", "BOOLEAN"} ==> NormaliseType(dataType) == Upper(dataType)
  {
  }

  lemma UpperKeepsUpperCase(s: string)
    requires forall i :: 0 <= i < |s| ==> !('a' <= s[i] <= 'z')
    ensures Upper(s) == s
  {
  }

  /** Normalising a normalised type changes nothing. */
  lemma NormaliseTypeIdempotent(dataType: string)
    ensures NormaliseType(NormaliseType(dataType)) == NormaliseType(dataType)
  {
    var upper := Upper(dataType);
    if upper in TypeMapping {
      UpperKeepsUpperCase("INT");
      UpperKeepsUpperCase("BOOL");
    } else {
      UpperIdempotent(dataType);
    }
  }

  /** DbColumnDefinition.__init__: the column's name and type are put in
      stored form; flags and length are kept as given. */
  function NewColumn(name: string, dataType: string, nullable: bool, isPrimaryKey: bool, isUnique: bool, length: int): (c: Column)
    ensures Normalised(c)
    ensures c.name == Quote(name) <==> name in Reserved
    ensures name !in Reserved ==> c.name == name
    ensures Upper(dataType) !in TypeMapping ==> c.dataType == Upper(dataType)
    ensures c.nullable == nullable && c.isPrimaryKey == isPrimaryKey && c.isUnique == isUnique && c.length == length
  {
    NormaliseTypeIdempotent(dataType);
    assert Quote("user")[0] == '"' && Quote("object")[0] == '"';
    Column(NormaliseName(name), NormaliseType(dataType), nullable, isPrimaryKey, isUnique, length)
  }

  /** Building a column again from a normalised column's fields gives it back. */
  lemma NewColumnFixpoint(c: Column)
    requires Normalised(c)
    ensures NewColumn(c.name, c.dataType, c.nullable, c.isPrimaryKey, c.isUnique, c.length) == c
  {
  }

  function TypeString(c: Column): string {
    if c.length != 0 then c.dataType + "(" + IntToString(c.length) + ")" else c.dataType
  }

  function NullString(nullable: bool): string {
    if nullable then "NULL" else "NOT NULL"
  }

  /** DbColumnDefinition.__str__: `name TYPE(len) NULL|NOT NULL`, the
      length shown only when it is nonzero. */
  function Render(c: Column): string {
    c.name + " " + TypeString(c) + " " + NullString(c.nullable)
  }

  /** `__eq__`: two columns are equal when they render the same. */
  predicate SameColumn(a: Column, b: Column) {
    Render(a) == Render(b)
  }

  /** `__le__`. */
  predicate ColumnLe(a: Column, b: Column) {
    Render(a) == Render(b) || StrLess(Render(a), Render(b))
  }

  /** `__gt__`; Python's `a < b` falls back to `b.__gt__(a)`, which is
      what `sorted` uses. */
  predicate ColumnGt(a: Column, b: Column) {
    StrLess(Render(b), Render(a))
  }

  /** The key flags take no part in equality or ordering. */
  lemma KeyFlagsIgnored(a: Column, b: Column, pk: bool, unique: bool)
    ensures SameColumn(a, b) <==> SameColumn(a.(isPrimaryKey := pk, isUnique := unique), b)
    ensures ColumnLe(a, b) <==> ColumnLe(a.(isPrimaryKey := pk, isUnique := unique), b)
    ensures ColumnGt(a, b) <==> ColumnGt(a.(isPrimaryKey := pk, isUnique := unique), b)
  {
  }

  lemma {:induction false} SplitAtFirst(x: string, y: string, x': string, y': string, sep: char)
    requires sep !in x && sep !in x'
    requires x + [sep] + y == x' + [sep] + y'
    ensures x == x' && y == y'
  {
    var whole := x + [sep] + y;
    assert whole == x' + [sep] + y';
    IndexOfAfterPrefix(x, sep, y);
    IndexOfAfterPrefix(x', sep, y');
    assert x == whole[..|x|] == x';
    assert y == whole[|x| + 1..] == y';
  }

  lemma TypeStringInjective(a: Column, b: Column)
    requires '(' !in a.dataType && '(' !in b.dataType
    requires TypeString(a) == TypeString(b)
    ensures a.dataType == b.dataType && a.length == b.length
  {
    assert a.length != 0 <==> '(' in TypeString(a);
    assert b.length != 0 <==> '(' in TypeString(b);
    if a.length != 0 {
      assert TypeString(a) == a.dataType + ['('] + (IntToString(a.length) + ")");
      assert TypeString(b) == b.dataType + ['('] + (IntToString(b.length) + ")");
      SplitAtFirst(a.dataType, IntToString(a.length) + ")", b.dataType, IntToString(b.length) + ")", '(');
      assert IntToString(a.length) == (IntToString(a.length) + ")")[..|IntToString(a.length) + ")"| - 1];
      assert IntToString(b.length) == (IntToString(b.length) + ")")[..|IntToString(b.length) + ")"| - 1];
      IntToStringInjective(a.length, b.length);
    }
  }

  lemma TypeStringHasNoSpace(c: Column)
    requires ' ' !in c.dataType
    ensures ' ' !in TypeString(c)
  {
    if c.length != 0 {
      var digits := IntToString(c.length);
      assert forall k :: 0 <= k < |digits| ==> digits[k] != ' ';
      assert TypeString(c) == c.dataType + "(" + digits + ")";
    }
  }

  /** For names without spaces and types without spaces or parentheses,
      rendered equality is field equality on name, type, length and
      nullability: comparing rendered text is a structural comparison. */
  lemma RenderEqualIffFieldsEqual(a: Column, b: Column)
    requires ' ' !in a.name && ' ' !in b.name
    requires ' ' !in a.dataType && ' ' !in b.dataType && '(' !in a.dataType && '(' !in b.dataType
    ensures SameColumn(a, b) <==>
      a.name == b.name && a.dataType == b.dataType && a.length == b.length && a.nullable == b.nullable
  {
    if SameColumn(a, b) {
      assert Render(a) == a.name + [' '] + (TypeString(a) + " " + NullString(a.nullable));
      assert Render(b) == b.name + [' '] + (TypeString(b) + " " + NullString(b.nullable));
      SplitAtFirst(a.name, TypeString(a) + " " + NullString(a.nullable),
                   b.name, TypeString(b) + " " + NullString(b.nullable), ' ');
      TypeStringHasNoSpace(a);
      TypeStringHasNoSpace(b);
      SplitAtFirst(TypeString(a), NullString(a.nullable), TypeString(b), NullString(b.nullable), ' ');
      TypeStringInjective(a, b);
    }
  }

  /** DbTableDefinition.__init__: the columns are stored sorted by their
      rendered form, as a permutation of the given ones (duplicates kept),
      with equally-rendered columns left in their given order. */
  function NewTable(name: string, columns: seq<Column>, foreignKeys: seq<ForeignKey>,
                    schema: Option<string>, scripts: seq<string>): (t: Table)
    ensures t.name == name && t.foreignKeys == foreignKeys && t.schema == schema && t.scripts == scripts
    ensures SortedBy(t.columns, Render)
    ensures multiset(t.columns) == multiset(columns)
    ensures forall k :: WithKey(t.columns, Render, k) == WithKey(columns, Render, k)
  {
    SortByCorrect(columns, Render);
    Table(name, SortBy(columns, Render), foreignKeys, schema, scripts)
  }

  /** get_primary_key_columns: the flagged columns, each as often as it is
      stored, in stored order. */
  function PrimaryKeyColumns(t: Table): (r: seq<Column>)
    ensures forall c :: multiset(r)[c] == if c.isPrimaryKey then multiset(t.columns)[c] else 0
    ensures Subsequence(r, t.columns)
  {
    FilterBySubsequence(t.columns, (c: Column) => c.isPrimaryKey);
    FilterBy(t.columns, (c: Column) => c.isPrimaryKey)
  }

  /** get_unique_columns: the flagged columns, each as often as it is
      stored, in stored order. */
  function UniqueColumns(t: Table): (r: seq<Column>)
    ensures forall c :: multiset(r)[c] == if c.isUnique then multiset(t.columns)[c] else 0
    ensures Subsequence(r, t.columns)
  {
    FilterBySubsequence(t.columns, (c: Column) => c.isUnique);
    FilterBy(t.columns, (c: Column) => c.isUnique)
  }

  /** DbTableDefinition.__str__: the table name, qualified as
      `schema.name` exactly when a non-empty schema is set. */
  function TableString(t: Table): (r: string)
    ensures |t.name| <= |r| && r[|r| - |t.name|..] == t.name
    ensures r != t.name <==> t.schema.Some? && t.schema.value != ""
    ensures r != t.name ==> r == t.schema.value + "." + t.name
  {
    match t.schema
    case Some(s) => if s != "" then s + "." + t.name else t.name
    case None => t.name
  }

  /** The three-way match of get_column: stored name, rendered form, or
      the stored name wrapped in quotes. */
  predicate Matches(c: Column, s: string) {
    c.name == s || Render(c) == s || Quote(c.name) == s
  }

  /** get_column: the first stored column that matches `s`, or None when
      no column matches. */
  function GetColumn(columns: seq<Column>, s: string): (r: Option<Column>)
    ensures r.None? <==> forall c :: c in columns ==> !Matches(c, s)
    ensures r.Some? ==> exists i :: 0 <= i < |columns| && columns[i] == r.value && Matches(r.value, s)
                                    && forall j :: 0 <= j < i ==> !Matches(columns[j], s)
  {
    if columns == [] then None
    else if Matches(columns[0], s) then Some(columns[0])
    else
      var r := GetColumn(columns[1..], s);
      assert forall c :: c in columns ==> c == columns[0] || c in columns[1..];
      assert r.Some? ==> exists i :: 0 < i < |columns| && columns[i] == r.value && Matches(r.value, s)
                                      && forall j :: 0 <= j < i ==> !Matches(columns[j], s) by {
        if r.Some? {
          var i :| 0 <= i < |columns[1..]| && columns[1..][i] == r.value && Matches(r.value, s)
                   && forall j :: 0 <= j < i ==> !Matches(columns[1..][j], s);
          assert columns[i + 1] == r.value;
          assert forall j :: 0 < j < i + 1 ==> columns[j] == columns[1..][j - 1];
        }
      }
      r
  }

  /** Every stored column is found by its own stored name. */
  lemma FoundByOwnName(columns: seq<Column>, c: Column)
    requires c in columns
    ensures GetColumn(columns, c.name).Some?
  {
    assert Matches(c, c.name);
  }

  /** Looking up the bare reserved word finds nothing among normalised
      columns: the stored name is quoted, the rendered form contains a
      space and the re-quoted name starts with a quote. */
  lemma ReservedLookupFindsNothing(columns: seq<Column>, word: string)
    requires word in Reserved
    requires forall c :: c in columns ==> Normalised(c)
    ensures GetColumn(columns, word).None?
  {
    forall c | c in columns ensures !Matches(c, word) {
      assert Render(c)[|c.name|] == ' ';
      assert ' ' !in word;
      assert Quote(c.name)[0] == '"' && word[0] != '"';
    }
  }
}
