# crudepg in Dafny

A model of the core of crudepg, a small PostgreSQL helper library. The model has three parts.

- **Column and table definitions** (`db_table_definition.py`). These are modelled in `table_definition.dfy`, module `TableDefinition`:
  - Declaring a column quotes the reserved names `user` and `object`. It upper-cases the type and maps the aliases `INT4`, `INTEGER` and `BOOLEAN`.
  - A column renders as `name TYPE[(length)] NULL|NOT NULL`. Columns are compared by that rendering.
  - A table keeps its columns sorted by rendering and can filter the primary-key and unique columns.
  - A table renders as `schema.name`, and a column can be looked up by name.
- **The SQL translator** (`pg_cmd_translator.py`). This is modelled in `translator.dfy`, module `Translator`:
  - `cmd_str` rewrites each `@word` marker to a `%(word)s` placeholder.
  - The module builds the DDL statements: DROP SCHEMA, DROP TABLE, CREATE SCHEMA, and CREATE TABLE with foreign-key, primary-key and unique constraints.
  - It builds INSERT and DELETE.
  - The predicate builder `_to_param_dict` is a `method` with a loop, proved against the function `BindAll`. It is shared by UPDATE and SELECT (`read`), which are also methods.
  - `pull_column_names` and the information-schema query are modelled too.
- **The database facade** (`db_base.py`). This is modelled in `db_base.dfy`, module `PostgresDb`:
  - The facade is a `class Database` over a `class Executor`. The executor records every command it is given in `log`.
  - It registers tables and procedure scripts, and issues the column DDL statements.
  - It creates a table together with its scripts.
  - It reads the live columns of a table from `information_schema.columns`.
  - `resolve_table_differences` walks the union of the live and the declared column names. Behind one prompt per differing column, it adds, drops or alters that column. It is proved against the function `ResolveSpec`, whose own properties are lemmas.

Two supporting modules hold the Python built-ins the library relies on, restricted to ASCII:
- `text.dfy`, module `Text`: `str.upper`, `str.lower`, `str.strip`, `str.split`, `str.join`, `\w`, string ordering and `str(int)`.
- `sequences.dfy`, module `Sequences`: the stable `sorted` with a key, and `filter`.

`wrappers.dfy` holds `Option` and `Result`.

Python dictionaries are modelled as sequences of entries with distinct keys, in insertion order. A `None` dictionary argument to `cmd_str`, `update` or `read` behaves as an empty one. The database driver is replaced by the executor's log. The information-schema rows a query returns are a constructor argument of the executor. The console prompt is replaced by a reply function: `replies(k)` answers the k-th prompt.

The model follows the code where the code's own documentation says otherwise:
- `pull_column_names` documents `day int NOT NULL, week int NOT NULL` as giving `[day, week]`. The code splits on `,` and then takes the text before the first space. The second piece, ` week int NOT NULL`, starts with a space, so its name is empty. `ColumnNameOfLeadingSpace` states this.
- `update` joins its WHERE fragments with `"AND "`, without a leading space, and the model does the same.
- `read` writes ` DESC` whenever `desc` is set, even without an ORDER BY.
- `alter_column_type` is also issued when only the length differs, but the statement names the bare type without the length (`AlterTypeSqlIgnoresLength`).

## Model

| member | source | states |
|---|---|---|
| Text.PrefixRun | pg_cmd_translator.py:99 | the longest prefix whose characters all satisfy a predicate: every character before the returned index satisfies it, the one at the index does not; `str.split()` uses it for non-space runs and the placeholder rewrite for `\w` runs |
| Text.PrefixRunOfRun | pg_cmd_translator.py:99 | a run of matching characters followed by a non-matching one is exactly the prefix run |
| Text.IndexOf | db_table_definition.py:29 | the first occurrence of a character, or the length when it is absent; nothing before it is that character |
| Text.IndexOfAfterPrefix | db_table_definition.py:29 | in `x + [c] + y` with `c` absent from `x`, the first `c` is at index `|x|` |
| Text.Upper | db_table_definition.py:19 | `str.upper`: same length, each character upper-cased |
| Text.Lower | db_base.py:167 | `str.lower`: same length, each character lower-cased |
| Text.UpperIdempotent | db_table_definition.py:19-20 | upper-casing an upper-cased type changes nothing |
| Text.StripLeft | db_base.py:167 | the result is a suffix of the input, starts with a non-space, and everything removed is white space |
| Text.StripRight | db_base.py:167 | the result is a prefix of the input, ends with a non-space, and everything removed is white space |
| Text.Strip | db_base.py:167 | `str.strip`: the result is the slice of the input left after removing its leading and trailing white space, so all of the input outside the slice is white space and the result neither starts nor ends with it |
| Text.StripTrimmed | db_base.py:167 | right-stripping the left-stripped text leaves a slice of the input with only white space before and after it |
| Text.StripStart | db_base.py:167 | the stripped reply is empty exactly when the reply is all white space, and otherwise starts with its first non-space character |
| Text.StripKeepsAbsent | pg_cmd_translator.py:42 | stripping introduces no character |
| Text.Split | pg_cmd_translator.py:42 | `str.split(sep)`: at least one piece, and no piece contains the separator |
| Text.JoinSplit | pg_cmd_translator.py:42 | joining the pieces of a split with the separator gives back the text |
| Text.SplitWithoutSeparator | pg_cmd_translator.py:42 | text without the separator splits into itself alone |
| Text.SplitAtSeparator | pg_cmd_translator.py:42 | the first piece of a split ends at the first separator |
| Text.SplitPieceAbsent | pg_cmd_translator.py:42 | a character absent from the text is absent from every piece |
| Text.Words | pg_cmd_translator.py:99 | `str.split()` with no argument: the pieces are non-empty and hold no white space |
| Text.WordsOfTwo | pg_cmd_translator.py:99-101 | two space-free words separated by a space split into exactly those two words, so `col tsvector` gives the column and the modifier |
| Text.Join | pg_cmd_translator.py:44 | `sep.join(parts)`; `JoinSplit` states that it undoes a split |
| Text.StrLessIrreflexive | db_table_definition.py:34-38 | no rendering is less than itself |
| Text.StrLessAsymmetric | db_table_definition.py:34-38 | string order is asymmetric |
| Text.StrLessTotal | db_table_definition.py:34-38 | of two different strings, one is less than the other |
| Text.StrLessTransitive | db_table_definition.py:34-38 | string order is transitive |
| Text.DigitChar | pg_cmd_translator.py:114-115 | a digit renders as a digit character |
| Text.NatToString | pg_cmd_translator.py:114-115 | `str(n)` for a natural number is a non-empty string of digits |
| Text.IntToString | pg_cmd_translator.py:114-115 | `str(i)`: digits after an optional leading `-`, which is there exactly when `i` is negative |
| Text.DigitValue | pg_cmd_translator.py:114-115 | a digit character reads back as its digit: the result is below ten and `DigitChar` of it is the character |
| Text.NatToStringRoundTrip | pg_cmd_translator.py:114-115 | reading the decimal rendering back gives the number |
| Text.IntToStringInjective | pg_cmd_translator.py:114-115 | two integers with the same rendering are equal, so different OFFSET and LIMIT values render differently |
| Sequences.SortBy | db_table_definition.py:48 | `sorted(key=str)` by insertion; `SortByCorrect` states that it sorts stably and permutes |
| Sequences.InsertBy | db_table_definition.py:48 | inserting adds exactly the inserted element to the multiset |
| Sequences.InsertBySorted | db_table_definition.py:48 | inserting into a sorted sequence keeps it sorted |
| Sequences.InsertByStable | db_table_definition.py:48 | insertion puts the element before every element with the same key and keeps the others in order |
| Sequences.SortByCorrect | db_table_definition.py:48 | `sorted(key=str)` is ordered, is a permutation of its input, and keeps equal-keyed columns in input order |
| Sequences.SortedPairwise | db_table_definition.py:48 | adjacent order implies that every pair is in order |
| Sequences.FilterBy | db_table_definition.py:53-57 | `filter` keeps each element that satisfies the predicate as often as it occurs, and drops every other |
| Sequences.FilterBySubsequence | db_table_definition.py:53-57 | `filter` keeps the input order |
| TableDefinition.NormaliseName | db_table_definition.py:16-18 | a name is quoted exactly when it is reserved, and is otherwise kept |
| TableDefinition.NormaliseType | db_table_definition.py:19-20 | the upper-cased type through the alias table; `NormaliseTypeAliases` and `NormaliseTypeIdempotent` state its results |
| TableDefinition.NormaliseTypeAliases | db_table_definition.py:2-6 | `INT4` and `INTEGER` become `INT`, `BOOLEAN` becomes `BOOL`, any other type is upper-cased |
| TableDefinition.UpperKeepsUpperCase | db_table_definition.py:19 | text with no lower-case letter is unchanged by upper-casing |
| TableDefinition.NormaliseTypeIdempotent | db_table_definition.py:19-20 | normalising a normalised type changes nothing |
| TableDefinition.NewColumn | db_table_definition.py:10-24 | the column is normalised, has a quoted name exactly for a reserved name and the upper-cased type for a non-alias, and keeps the flags and the length |
| TableDefinition.NewColumnFixpoint | db_table_definition.py:10-24 | re-declaring a normalised column from its own fields gives the same column |
| TableDefinition.Render | db_table_definition.py:26-29 | `name type null`, the length in parentheses only when non-zero; `RenderEqualIffFieldsEqual` states what it determines |
| TableDefinition.SameColumn | db_table_definition.py:31-32 | `==` compares renderings; `RenderEqualIffFieldsEqual` and `KeyFlagsIgnored` state what that means |
| TableDefinition.ColumnLe | db_table_definition.py:34-35 | `<=` compares renderings; `KeyFlagsIgnored` states the flags do not matter |
| TableDefinition.ColumnGt | db_table_definition.py:37-38 | `>` compares renderings; `KeyFlagsIgnored` states the flags do not matter |
| TableDefinition.KeyFlagsIgnored | db_table_definition.py:26-38 | equality and ordering do not depend on the primary-key and unique flags |
| TableDefinition.SplitAtFirst | db_table_definition.py:29 | the text before the first separator, and the rest, are determined by the whole |
| TableDefinition.TypeStringInjective | db_table_definition.py:28 | the rendered type determines the bare type and the length |
| TableDefinition.TypeStringHasNoSpace | db_table_definition.py:28 | a type without spaces renders without spaces |
| TableDefinition.RenderEqualIffFieldsEqual | db_table_definition.py:26-32 | two columns compare equal exactly when name, type, length and nullability agree |
| TableDefinition.NewTable | db_table_definition.py:43-51 | the columns are sorted by rendering, are a permutation of the given ones and keep the order of equal renderings; the other fields are kept |
| TableDefinition.PrimaryKeyColumns | db_table_definition.py:53-54 | exactly the primary-key columns, each as often as in the table, in table order |
| TableDefinition.UniqueColumns | db_table_definition.py:56-57 | exactly the unique columns, each as often as in the table, in table order |
| TableDefinition.TableString | db_table_definition.py:58-61 | `schema.name` when the schema is a non-empty string, the bare name otherwise, and it always ends with the name |
| TableDefinition.GetColumn | db_table_definition.py:63-67 | None exactly when no column matches; otherwise a column of the table that matches |
| TableDefinition.FoundByOwnName | db_table_definition.py:63-67 | every column of a table is found under its own name |
| TableDefinition.ReservedLookupFindsNothing | db_table_definition.py:63-67 | looking up a reserved word unquoted finds nothing among declared columns |
| Translator.Keys | pg_cmd_translator.py:72 | the keys of a dictionary, in insertion order |
| Translator.ToMap | pg_cmd_translator.py:18-21 | the dictionary as a map: the same keys, and each key bound to its value |
| Translator.WordRun | pg_cmd_translator.py:16 | the length of the `\w+` run at the head of the text |
| Translator.Rewrite | pg_cmd_translator.py:12-16 | `re.sub(r"@\w+", ...)`: `RewriteLeavesSettled`, `RewriteIdempotent` and `RewritePlaceholder` state what it produces |
| Translator.RewriteSettled | pg_cmd_translator.py:16 | settled text is a fixed point of the rewrite |
| Translator.NoMarkerUnchanged | pg_cmd_translator.py:16 | SQL without `@` is left as it is |
| Translator.RewriteHead | pg_cmd_translator.py:16 | the first character after rewriting is `%` exactly for a marker |
| Translator.SettledConcat | pg_cmd_translator.py:16 | two settled texts stay settled when joined, unless a trailing `@` meets a word |
| Translator.RewriteLeavesSettled | pg_cmd_translator.py:12-16 | the rewritten SQL has no `@` followed by a word character |
| Translator.RewriteIdempotent | pg_cmd_translator.py:16 | rewriting twice is rewriting once |
| Translator.RewritePlaceholder | pg_cmd_translator.py:12-16 | `@name` followed by a non-word character becomes `%(name)s` |
| Translator.CmdStr | pg_cmd_translator.py:10-23 | parameters are attached exactly when the dictionary is non-empty; the SQL is settled and unchanged when it has no `@` |
| Translator.DropSchema | pg_cmd_translator.py:25-26 | `DROP SCHEMA IF EXISTS s CASCADE;` without parameters |
| Translator.DropTable | pg_cmd_translator.py:28-32 | `DROP TABLE IF EXISTS t;` or `DROP TABLE t;` as asked, without parameters |
| Translator.CreateSchema | pg_cmd_translator.py:47-48 | `CREATE SCHEMA s;` without parameters |
| Translator.ColumnNameOf | pg_cmd_translator.py:42 | `c.split(' ')[0].strip()`; `ColumnNameOfClean` and `ColumnNameOfFirstWord` state what it gives |
| Translator.ColumnNameOfClean | pg_cmd_translator.py:42 | a pulled name has no space, and no comma when its piece has none |
| Translator.ColumnNamesOf | pg_cmd_translator.py:42 | one name per piece, each the name of its piece |
| Translator.PullColumnNames | pg_cmd_translator.py:34-45 | a joined string exactly when `join` is a non-empty string; otherwise one name per comma-separated piece, each free of spaces and commas |
| Translator.ColumnNameOfFirstWord | pg_cmd_translator.py:42 | the name is the stripped text before the first space |
| Translator.ColumnNameOfLeadingSpace | pg_cmd_translator.py:35-42 | a piece that starts with a space, as the documented example's second piece does, has the empty name |
| Translator.RenderAll | pg_cmd_translator.py:52 | one rendering per column, in column order |
| Translator.NamesOf | pg_cmd_translator.py:60 | one name per column, in column order |
| Translator.ForeignKeyConstraint | pg_cmd_translator.py:54-55 | `CONSTRAINT fk_col_table_ref FOREIGN KEY(col) REFERENCES table(ref)`; counted by `Constraints` |
| Translator.PrimaryKeyConstraint | pg_cmd_translator.py:58-61 | `CONSTRAINT name_pk PRIMARY KEY (cols)`; `CreateTableKeyConstraints` states it names exactly the key columns |
| Translator.UniqueConstraint | pg_cmd_translator.py:63-66 | `CONSTRAINT name_unique UNIQUE(cols)`; `CreateTableKeyConstraints` states it names exactly the unique columns |
| Translator.ForeignKeyConstraints | pg_cmd_translator.py:54-55 | one constraint per foreign key, in order |
| Translator.Constraints | pg_cmd_translator.py:54-68 | one constraint per foreign key, plus one when there are primary-key columns and one when there are unique columns |
| Translator.CreateTableText | pg_cmd_translator.py:50-69 | the CREATE TABLE text; `CreateTableWithoutConstraints` states its form without constraints |
| Translator.CreateTable | pg_cmd_translator.py:50-69 | CREATE TABLE without parameters, the text kept when it has no `@` |
| Translator.NoFlaggedColumns | pg_cmd_translator.py:58-66 | without flagged columns there are no key or unique columns |
| Translator.CreateTableWithoutConstraints | pg_cmd_translator.py:50-69 | without keys and flags the statement is `CREATE TABLE name (columns);` |
| Translator.CreateTableKeyConstraints | pg_cmd_translator.py:58-66 | the primary-key constraint names exactly the key columns and the unique constraint exactly the unique ones |
| Translator.InsertColumns | pg_cmd_translator.py:72-74 | the keys sorted and a permutation of the data's keys, one placeholder per key, `to_tsvector` exactly for keys starting with `searchable` |
| Translator.InsertText | pg_cmd_translator.py:72-75 | the INSERT text over the sorted keys; `InsertColumns` states the keys and binds |
| Translator.Insert | pg_cmd_translator.py:71-75 | parameters exactly when the data is non-empty, holding every key with its value |
| Translator.DeleteText | pg_cmd_translator.py:78-80 | the DELETE text; `DeleteOneKey` and `DeleteExample` state its form |
| Translator.Delete | pg_cmd_translator.py:77-80 | parameters exactly when the condition is non-empty, holding exactly the condition's keys, each bound to its value under its own unprefixed name |
| Translator.DeleteOneKey | pg_cmd_translator.py:78-80 | a one-key delete is `DELETE FROM table WHERE key = %(key)s` |
| Translator.DeleteExample | pg_cmd_translator.py:77-80 | a worked two-key delete: `DELETE FROM t WHERE id = %(id)s AND x = %(x)s`, and the condition itself as the parameters |
| Translator.DeleteExampleText | pg_cmd_translator.py:78-79 | the fragments of the two keys joined with ` AND ` |
| Translator.DeleteExampleUnmarked | pg_cmd_translator.py:80 | the worked DELETE has no `@`, so `cmd_str` keeps it |
| Translator.DeleteExampleParams | pg_cmd_translator.py:80 | the parameters of the worked delete are the condition itself |
| Translator.BindEntry | pg_cmd_translator.py:97-109 | one key's fragment and parameter; `BindEntryCases` states the four cases |
| Translator.BindAll | pg_cmd_translator.py:94-109 | the fragments of a whole dictionary in key order, or the first error; `BindAllOkIff` states when it succeeds |
| Translator.BindEntryCases | pg_cmd_translator.py:97-109 | a bare key gives `k op %(prefix_k)s` bound as `prefix_k`; `col tsvector` gives `col op to_tsvector('english', %(prefix_col)s)` bound as `prefix_col`; a spaced key with one word fails as a missing type hint, any other modifier as an unhandled one; it succeeds exactly for these two accepted forms |
| Translator.BindAllOkIff | pg_cmd_translator.py:94-109 | a dictionary binds exactly when every key is bare or `col tsvector`; then binding `i` carries entry `i`'s value, and otherwise the error is that of the first key that is neither |
| Translator.BindTsvectorKey | pg_cmd_translator.py:98-106 | a `col tsvector` key binds as a full-text match on `col` under `prefix_col` |
| Translator.BindSingle | pg_cmd_translator.py:96-109 | a one-key dictionary binds as that key alone |
| Translator.BindKey | pg_cmd_translator.py:98-109 | the loop body for one key: a fragment and a parameter name exactly when the key is bindable, those of `BindEntry`; otherwise `BindEntry`'s error |
| Translator.BindAllExtend | pg_cmd_translator.py:97-109 | binding one more key appends its binding, or fails with its error |
| Translator.BoundAppend | pg_cmd_translator.py:103-109 | one more binding appends one fragment and writes one parameter |
| Translator.Fragments | pg_cmd_translator.py:94-109 | one fragment per binding, in order |
| Translator.ToParamDict | pg_cmd_translator.py:94-109 | the loop appends the fragments and writes the parameters that `BindAll` computes, or stops with its error |
| Translator.BindAllFailsFromPrefix | pg_cmd_translator.py:97-105 | once a key fails, the later keys do not change the error |
| Translator.BindAllNamespaced | pg_cmd_translator.py:106-109 | every parameter is named `prefix_column` |
| Translator.AddBindingsKeys | pg_cmd_translator.py:106-109 | writing bindings adds exactly their names to the map and keeps every other key |
| Translator.BindAllIgnoresValues | pg_cmd_translator.py:97-108 | the fragments and errors depend on the keys only, not on the values |
| Translator.UpdateText | pg_cmd_translator.py:90-92 | the UPDATE text, the SET fragments joined with `, ` and the WHERE fragments with `AND ` |
| Translator.UpdateSpec | pg_cmd_translator.py:82-92 | what update computes; `UpdateParamsDisjoint`, `UpdateSqlIgnoresValues` and `UpdateExample` state its properties |
| Translator.Update | pg_cmd_translator.py:82-92 | the method computes `UpdateSpec`: SET fragments under `set_`, WHERE fragments under `where_`, or the first error |
| Translator.UpdateParamsDisjoint | pg_cmd_translator.py:83-88 | the SET and WHERE parameters never collide, and the parameter map is the union of the two groups' parameters |
| Translator.AddBindingsUnion | pg_cmd_translator.py:87-88 | writing bindings into a map is a map union |
| Translator.UpdateSqlIgnoresValues | pg_cmd_translator.py:90-92 | the UPDATE text depends on the keys only |
| Translator.UpdateExample | pg_cmd_translator.py:82-109 | a worked full-text update: `UPDATE t SET body = to_tsvector('english', %(set_body)s) WHERE id = %(where_id)s` with parameters `set_body` and `where_id` |
| Translator.UpdateExampleSetBinding | pg_cmd_translator.py:98-106 | the SET fragment and parameter of `body tsvector` |
| Translator.UpdateExampleWhereBinding | pg_cmd_translator.py:107-109 | the WHERE fragment and parameter of `id` |
| Translator.UpdateExampleText | pg_cmd_translator.py:90-92 | the UPDATE text of the worked example |
| Translator.UpdateExampleUnmarked | pg_cmd_translator.py:90-92 | the worked UPDATE has no `@`, so `cmd_str` keeps it |
| Translator.OrderClause | pg_cmd_translator.py:116-120 | a single column orders by that column; no order gives no clause |
| Translator.DirectionClause | pg_cmd_translator.py:121 | ` DESC` exactly when descending, ` ASC` exactly when ascending with an order, nothing otherwise |
| Translator.PagingClause | pg_cmd_translator.py:114-115 | no clause exactly for None or 0; otherwise the keyword and the number |
| Translator.WhereClause | pg_cmd_translator.py:130-134 | no WHERE exactly when there are no conditions |
| Translator.ReadText | pg_cmd_translator.py:114-136 | the SELECT text; `ReadExampleText` states a worked one |
| Translator.ReadSpec | pg_cmd_translator.py:111-138 | what read computes; `ReadNamespacesDisjoint`, `ReadOrderSingleEqualsList` and `ReadExample` state its properties |
| Translator.Read | pg_cmd_translator.py:111-138 | the method computes `ReadSpec`: equals, greater-than and less-than fragments in that order under `where_`, `gt_` and `lt_` |
| Translator.ReadOrderSingleEqualsList | pg_cmd_translator.py:116-120 | ordering by a column and by the one-element list of it give the same query |
| Translator.ReadNamespacesDisjoint | pg_cmd_translator.py:123-138 | the three groups' parameters never collide, and the parameter map is their union |
| Translator.ReadGroupsDisjoint | pg_cmd_translator.py:126-128 | the `where_`, `gt_` and `lt_` bindings have pairwise different names |
| Translator.BindBareKey | pg_cmd_translator.py:107-109 | a key without a space binds as `key op %(prefix_key)s` |
| Translator.ReadExample | pg_cmd_translator.py:111-138 | a worked query: the full SELECT text and its three parameters |
| Translator.AddOneBinding | pg_cmd_translator.py:109 | writing one binding sets its name to its value |
| Translator.ReadExampleBindings | pg_cmd_translator.py:126-128 | the three fragments and parameter names of the worked query |
| Translator.ReadExampleEqualsBinding | pg_cmd_translator.py:126 | `a = %(where_a)s` bound as `where_a` |
| Translator.ReadExampleGreaterBinding | pg_cmd_translator.py:127 | `b > %(gt_b)s` bound as `gt_b` |
| Translator.ReadExampleLessBinding | pg_cmd_translator.py:128 | `c < %(lt_c)s` bound as `lt_c` |
| Translator.ReadExampleText | pg_cmd_translator.py:136 | the SELECT text of the worked query |
| Translator.ReadExampleWhere | pg_cmd_translator.py:130-132 | the WHERE clause of the worked query |
| Translator.ReadExampleOrder | pg_cmd_translator.py:118-120 | a column list is joined with `,` |
| Translator.ReadExamplePaging | pg_cmd_translator.py:114-115 | ` OFFSET 5` and ` LIMIT 10` |
| Translator.ReadExampleUnmarked | pg_cmd_translator.py:136-138 | the worked query has no `@`, so `cmd_str` keeps it |
| Translator.TableSchemaSqlUnmarked | pg_cmd_translator.py:141-145 | the information-schema query has no `@` |
| Translator.SchemaHeadUnmarked | pg_cmd_translator.py:141-142 | its first lines have no `@` |
| Translator.SchemaTailUnmarked | pg_cmd_translator.py:143-145 | its last lines have no `@` |
| Translator.SchemaCatalogUnmarked | pg_cmd_translator.py:143 | the catalog line has no `@` |
| Translator.SchemaTableUnmarked | pg_cmd_translator.py:144 | the table-name line has no `@` |
| Translator.SchemaOrderUnmarked | pg_cmd_translator.py:145 | the ORDER BY line has no `@` |
| Translator.GetTableSchema | pg_cmd_translator.py:140-148 | the fixed query text, bound to the schema, table name and catalog |
| PostgresDb.LiveLength | db_base.py:148-149 | 0 exactly for a missing, zero or unbounded (1073741824) octet length; the octet length otherwise |
| PostgresDb.RowToColumn | db_base.py:145-155 | a normalised column, nullable exactly unless the row says `NO`, with the live length and no key flags |
| PostgresDb.LiveColumns | db_base.py:143-156 | one column per row, in row order |
| PostgresDb.AddColumnSql | db_base.py:99-100 | `ALTER TABLE t ADD <rendering>`, the column's full rendering with no `COLUMN` keyword; `AddColumnSqlRendersColumn` states what it depends on |
| PostgresDb.DropColumnSql | db_base.py:102-103 | `ALTER TABLE t DROP <name>`, with no `COLUMN` keyword; `DropColumnSqlNamesOnly` states what it depends on |
| PostgresDb.AlterTypeSql | db_base.py:105-106 | `ALTER TABLE t ALTER <name> TYPE <type> USING <name>::<type>`, with the bare type; `AlterTypeSqlIgnoresLength` states what it depends on |
| PostgresDb.AlterNullableSql | db_base.py:108-112 | DROP or SET NOT NULL; `AlterNullableSqlFollowsNullability` states which |
| PostgresDb.RemoveColumnSql | db_base.py:114-115 | the DROP of the full rendering; `RemoveColumnSqlExtendsDrop` relates it to `DropColumnSql` |
| PostgresDb.AddColumnSqlRendersColumn | db_base.py:99-100 | two ADD statements agree exactly when the columns compare equal |
| PostgresDb.DropColumnSqlNamesOnly | db_base.py:102-103 | two DROP statements agree exactly when the names do |
| PostgresDb.AlterTypeSqlIgnoresLength | db_base.py:105-106 | two ALTER TYPE statements agree exactly when name and bare type do, whatever the lengths |
| PostgresDb.AlterNullableSqlFollowsNullability | db_base.py:108-112 | DROP NOT NULL for a nullable column and SET NOT NULL otherwise; two statements agree exactly when name and nullability do |
| PostgresDb.AlterNullableSqlShape | db_base.py:108-112 | the nullability statement is the prefix, the name, a space and DROP or SET NOT NULL |
| PostgresDb.AlterStatementsDiffer | db_base.py:105-112 | the type and nullability statements for a column are different texts |
| PostgresDb.RemoveColumnSqlExtendsDrop | db_base.py:114-115 | remove_column's statement is drop_column's followed by the type and nullability |
| PostgresDb.Affirmative | db_base.py:166-167 | a non-empty reply that, stripped and lower-cased, starts with `y`; `AffirmativeIffFirstCharacterY` characterises it |
| PostgresDb.Gate | db_base.py:163-167 | every prompt approved without interaction, the reply deciding otherwise; `PlanIgnoresReplies` and `PlanAllDeclined` state its effect |
| PostgresDb.AffirmativeIffFirstCharacterY | db_base.py:163-167 | a reply approves exactly when its first non-space character is `y` or `Y` |
| PostgresDb.AffirmativeStartsWithY | db_base.py:167 | an approving reply has `y` or `Y` after its leading white space |
| PostgresDb.StartingWithYIsAffirmative | db_base.py:167 | a reply with `y` or `Y` after its leading white space approves |
| PostgresDb.Classify | db_base.py:174-187 | add exactly when only declared, drop exactly when only live, alter exactly when both exist and compare unequal |
| PostgresDb.TypeChanged | db_base.py:190 | the type statement is due when the bare type or the length differs; `VerdictSql` states its use |
| PostgresDb.VerdictSql | db_base.py:178-193 | add and drop issue one statement each; alter issues the type change exactly when type or length differs and the nullability change exactly when nullability differs, the type change first |
| PostgresDb.CreateTableCommands | db_base.py:39-44 | the CREATE TABLE, then each script; `Database.CreateTable` executes exactly these |
| PostgresDb.Commands | db_base.py:42-43 | each statement through `cmd_str` without parameters |
| PostgresDb.Dedup | db_base.py:173 | the same names, each once |
| PostgresDb.UnionNames | db_base.py:173 | exactly the names of the live or the declared columns, each once |
| PostgresDb.LiveTable | db_base.py:160 | the declared name and schema over a permutation of the live columns |
| PostgresDb.ColumnStep | db_base.py:178-193 | nothing when in sync or declined; the verdict's statements when approved |
| PostgresDb.Plan | db_base.py:172-193 | the per-column statements over the union of names; `PlanIgnoresReplies`, `PlanAllDeclined` and `NullabilityOnlyMismatch` state its properties |
| PostgresDb.PlanHead | db_base.py:174-193 | the plan from a name on is that name's step followed by the plan for the rest |
| PostgresDb.ResolveSpec | db_base.py:169-171 | with no live column, the table's creation exactly when the first prompt approves |
| PostgresDb.PlanIgnoresReplies | db_base.py:163-165 | without interaction the per-column plan does not depend on the replies |
| PostgresDb.PlanAllDeclined | db_base.py:163-167 | with every reply declining, the per-column plan issues nothing |
| PostgresDb.ResolveIgnoresReplies | db_base.py:163-165 | without interaction the outcome does not depend on the replies |
| PostgresDb.ResolveAllDeclined | db_base.py:158-193 | declining every prompt issues no statement at all |
| PostgresDb.UnionNamesFound | db_base.py:173-187 | every visited name is found on at least one side, and is in sync only when both sides have it and they compare equal |
| PostgresDb.NullabilityOnlyMismatch | db_base.py:187-193 | columns that differ in nullability alone get only the nullability statement |
| PostgresDb.NullabilityOnlyExample | db_base.py:187-193 | a declared `status VARCHAR(10) NOT NULL` against a live nullable one gives only `SET NOT NULL` |
| PostgresDb.SetNotNullText | db_base.py:112 | the SET NOT NULL text of the example |
| PostgresDb.Executor.constructor | pg_cmd_executor.py:9-15 | an executor for the database, with nothing run yet |
| PostgresDb.Executor.ExecuteVoid | pg_cmd_executor.py:57-74 | the command is appended to the log |
| PostgresDb.Executor.ExecuteReader | pg_cmd_executor.py:33-49 | the command is appended to the log and the live rows are returned |
| PostgresDb.Database.constructor | db_base.py:11-15 | no registered tables or scripts |
| PostgresDb.Database.RegisterTable | db_base.py:119-121 | the table is appended and returned; the scripts are unchanged |
| PostgresDb.Database.RegisterProcedureScript | db_base.py:123-125 | the script is appended and returned; the tables are unchanged |
| PostgresDb.Database.Void | db_base.py:88-90 | exactly the translated command is executed |
| PostgresDb.Database.AddColumn | db_base.py:99-100 | exactly the ADD statement is executed |
| PostgresDb.Database.DropColumn | db_base.py:102-103 | exactly the DROP statement is executed |
| PostgresDb.Database.AlterColumnType | db_base.py:105-106 | exactly the ALTER TYPE statement is executed |
| PostgresDb.Database.AlterColumnNullable | db_base.py:108-112 | exactly the nullability statement is executed |
| PostgresDb.Database.RemoveColumn | db_base.py:114-115 | exactly the DROP of the full rendering is executed |
| PostgresDb.Database.CreateTable | db_base.py:39-44 | the CREATE TABLE, then each script in order, are executed |
| PostgresDb.Database.RunScripts | db_base.py:42-43 | each script is executed through `cmd_str`, in order |
| PostgresDb.Database.QueryColumnsSchemas | db_base.py:137-156 | exactly the information-schema query is executed, and the result is one column per live row |
| PostgresDb.Database.ResolveColumn | db_base.py:174-193 | one prompt exactly when the column is not in sync, and the column step's statements are executed |
| PostgresDb.Database.AlterColumn | db_base.py:189-193 | the verdict's type and nullability statements are executed, in that order |
| PostgresDb.Database.ResolveTableDifferences | db_base.py:158-195 | the schema query, then exactly the commands of `ResolveSpec`, are executed; the returned differences are empty |

## Left out

- cmd_str's JSON round trip of the parameters (`json.dumps` with `default=str`, then `json.loads`) is not modelled. The parameters are kept as given, and a value is None, a boolean, an integer or text.
- The command type's other fields (the parameter string and the parsed copy) are not modelled. A command is its SQL and its optional parameter map.
- The driver (psycopg2), connecting, committing, disposing and the context-manager methods are not modelled. The executor records commands, and every query returns the information-schema rows the executor was built with.
- The return values of execute_void and of the facade methods that pass it on (the executed command) are not modelled. The executed commands are in the log instead.
- Exceptions raised by the driver, such as a duplicate table, are not modelled.
- The facade's thin wrappers drop_schema, drop_table, insert, delete, update, select, read, read_first, first and count are not modelled as methods. Each only passes a translated command to the executor, and the translations are modelled.
- recreate_schema and ensure_tables_and_scripts are not modelled. They are straight-line uses of the translator and the executor, and they print their output.
- Printing, and the console input of the prompts, are not modelled. The prompt text is not modelled either. The k-th answer is `replies(k)`.
- PostgresDb.UnionNames: Python iterates a set of names in an order of its own. The model takes the live names, then the declared ones, each once. Which statements are issued for a name does not depend on this order, but the order of the log and of the prompts does.
- Text.Upper, Text.Lower, Text.Strip, Text.Words, Text.IsWordChar, Text.IsSpace: Unicode case mapping and Unicode white space are not modelled. These cover ASCII only.
- db_stored_procedure_script.py is not part of this model. A procedure script is modelled as its text.
- Translator.Insert, Translator.Delete: a `None` dictionary raises in the source; the model's `Dict` cannot be None.
- A `read` whose order_by is neither a string nor an iterable of strings is not modelled.
