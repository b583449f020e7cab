/**
  The statement renderers of scheman.js (lines 108-133): `quoteId`, and the
  `sql.createTable`, `sql.addColumn` and `sql.modifyColumn` templates.
*/
module Sql {
  import opened Text
  import opened ColumnDefinition
  import opened Facts

  function Backquote(name: string): string {
    "`" + name + "`"
  }

  function Backquoted(names: seq<string>): (r: seq<string>)
    ensures |r| == |names|
  {
    if names == [] then [] else [Backquote(names[0])] + Backquoted(names[1..])
  }

  /** `quoteId`: a comma-separated id, each piece backquoted, rejoined with `, `. */
  function QuoteId(id: string): string {
    Join(", ", Backquoted(Split(id, ',')))
  }

  /** A key id made of column names quotes every column name, in order. */
  lemma QuoteIdColumns(names: seq<string>)
    requires |names| >= 1
    requires forall i :: 0 <= i < |names| ==> ',' !in names[i]
    ensures QuoteId(Join(",", names)) == Join(", ", Backquoted(names))
  {
    SplitJoin(names, ',');
  }

  /** A single column name is simply backquoted. */
  lemma QuoteIdOne(name: string)
    requires ',' !in name
    ensures QuoteId(name) == "`" + name + "`"
  {
    QuoteIdColumns([name]);
    assert Join(",", [name]) == name;
  }

  /**
    The definition `sql.createTable` destructures: the table name, its
    columns in order, its primary key, and the `id` of every unique key and
    key value, in order. Foreign keys are destructured but never rendered,
    so they are not part of it.
  */
  datatype CreateDef = CreateDef(
    tableName: string,
    columns: seq<(string, ColumnDef)>,
    primaryKey: PrimaryKeyDecl,
    uniqueKeys: seq<string>,
    keys: seq<string>)

  /**
    What `sql.createTable` needs of its input: an object-valued primary key
    has at least one id (an empty object has no first key, and quoting
    that missing id fails).
  */
  predicate Renderable(d: CreateDef) {
    d.primaryKey != PrimaryKeyIds([])
  }

  /** A column line: the backquoted name, then the rendered definition. */
  function ColumnLine(name: string, def: ColumnDef): string {
    "    `" + name + "` " + ColumnDefAsString(def)
  }

  function ColumnLines(columns: seq<(string, ColumnDef)>): (r: seq<string>)
    ensures |r| == |columns|
  {
    if columns == [] then []
    else [ColumnLine(columns[0].0, columns[0].1)] + ColumnLines(columns[1..])
  }

  /** The primary-key line: only when the attribute is truthy, naming only the first id. */
  function PrimaryKeyLine(pk: PrimaryKeyDecl): (r: seq<string>)
    requires pk != PrimaryKeyIds([])
    ensures |r| <= 1
  {
    match pk
    case NoPrimaryKey => []
    case PrimaryKeyName(name) => if name == "" then [] else [KeyLine("PRIMARY KEY", name)]
    case PrimaryKeyIds(ids) => [KeyLine("PRIMARY KEY", ids[0])]
  }

  /** A key line: the heading, then the quoted id in parentheses. */
  function KeyLine(heading: string, id: string): string {
    "    " + heading + " (" + QuoteId(id) + ")"
  }

  function KeyLines(heading: string, ids: seq<string>): (r: seq<string>)
    ensures |r| == |ids|
  {
    if ids == [] then [] else [KeyLine(heading, ids[0])] + KeyLines(heading, ids[1..])
  }

  /** The body lines: columns, then the primary key, then unique keys, then keys. */
  function CreateLines(d: CreateDef): seq<string>
    requires Renderable(d)
  {
    ColumnLines(d.columns) + PrimaryKeyLine(d.primaryKey) + KeyLines("UNIQUE KEY", d.uniqueKeys) + KeyLines("KEY", d.keys)
  }

  /** The CREATE TABLE query for a table definition. */
  function CreateTableSql(d: CreateDef): string
    requires Renderable(d)
  {
    "CREATE TABLE `" + d.tableName + "` (\n" + Join(",\n", CreateLines(d)) + "\n)"
  }

  /** The ADD COLUMN query for a column of a table, with its definition. */
  function AddColumnSql(tableName: string, columnName: string, def: ColumnDef): string {
    "ALTER TABLE `" + tableName + "` ADD COLUMN `" + columnName + "` " + ColumnDefAsString(def)
  }

  /** The MODIFY COLUMN query for a column of a table, with its definition. */
  function ModifyColumnSql(tableName: string, columnName: string, def: ColumnDef): string {
    "ALTER TABLE `" + tableName + "` MODIFY COLUMN `" + columnName + "` " + ColumnDefAsString(def)
  }

  /**
    A CREATE TABLE lists one line per column, at most one PRIMARY KEY line,
    and one line per unique key and per key; the primary-key line appears
    exactly when the attribute is truthy.
  */
  lemma CreateLineCount(d: CreateDef)
    requires Renderable(d)
    ensures |CreateLines(d)| == |d.columns| + |PrimaryKeyLine(d.primaryKey)| + |d.uniqueKeys| + |d.keys|
    ensures |PrimaryKeyLine(d.primaryKey)| == 1 <==> (d.primaryKey.PrimaryKeyIds? || (d.primaryKey.PrimaryKeyName? && d.primaryKey.name != ""))
  {
  }

  lemma {:induction false} ColumnLinesEach(columns: seq<(string, ColumnDef)>)
    ensures forall i :: 0 <= i < |columns| ==> ColumnLines(columns)[i] == ColumnLine(columns[i].0, columns[i].1)
  {
    if columns != [] {
      ColumnLinesEach(columns[1..]);
      assert ColumnLines(columns) == [ColumnLine(columns[0].0, columns[0].1)] + ColumnLines(columns[1..]);
    }
  }

  lemma {:induction false} KeyLinesEach(heading: string, ids: seq<string>)
    ensures forall i :: 0 <= i < |ids| ==> KeyLines(heading, ids)[i] == KeyLine(heading, ids[i])
  {
    if ids != [] {
      KeyLinesEach(heading, ids[1..]);
      assert KeyLines(heading, ids) == [KeyLine(heading, ids[0])] + KeyLines(heading, ids[1..]);
    }
  }

  /** A column line names the column and lists its definition's clauses in their fixed order. */
  lemma ColumnLineClauses(name: string, def: ColumnDef)
    ensures ColumnLine(name, def) == "    `" + name + "` " + Join(" ", Clauses(def))
  {
    RenderedClauses(def);
  }

  /** Where each part of a four-part concatenation sits. */
  lemma PartsAt<T>(a: seq<T>, b: seq<T>, c: seq<T>, e: seq<T>)
    ensures |a + b + c + e| == |a| + |b| + |c| + |e|
    ensures forall i :: 0 <= i < |a| ==> (a + b + c + e)[i] == a[i]
    ensures forall i :: 0 <= i < |b| ==> (a + b + c + e)[|a| + i] == b[i]
    ensures forall i :: 0 <= i < |c| ==> (a + b + c + e)[|a| + |b| + i] == c[i]
    ensures forall i :: 0 <= i < |e| ==> (a + b + c + e)[|a| + |b| + |c| + i] == e[i]
  {
  }

  /**
    What the lines of a CREATE TABLE are, in order: one column line per
    column, then the PRIMARY KEY line when the attribute is truthy, naming the
    first id (or the string), then one UNIQUE KEY line per unique key and one
    KEY line per key, each naming the key's id.
  */
  lemma CreateClauses(d: CreateDef)
    requires Renderable(d)
    ensures var lines, n, p, u := CreateLines(d), |d.columns|, |PrimaryKeyLine(d.primaryKey)|, |d.uniqueKeys|;
      && |lines| == n + p + u + |d.keys|
      && (forall i :: 0 <= i < n ==> lines[i] == ColumnLine(d.columns[i].0, d.columns[i].1))
      && (d.primaryKey.PrimaryKeyIds? ==> p == 1 && lines[n] == KeyLine("PRIMARY KEY", d.primaryKey.ids[0]))
      && (d.primaryKey.PrimaryKeyName? && d.primaryKey.name != "" ==>
            p == 1 && lines[n] == KeyLine("PRIMARY KEY", d.primaryKey.name))
      && (forall i :: 0 <= i < u ==> lines[n + p + i] == KeyLine("UNIQUE KEY", d.uniqueKeys[i]))
      && (forall i :: 0 <= i < |d.keys| ==> lines[n + p + u + i] == KeyLine("KEY", d.keys[i]))
  {
    var a, b, c, e := ColumnLines(d.columns), PrimaryKeyLine(d.primaryKey), KeyLines("UNIQUE KEY", d.uniqueKeys), KeyLines("KEY", d.keys);
    PartsAt(a, b, c, e);
    ColumnLinesEach(d.columns);
    KeyLinesEach("UNIQUE KEY", d.uniqueKeys);
    KeyLinesEach("KEY", d.keys);
  }

  /** Only the first id of an object-valued primary key is rendered. */
  lemma PrimaryKeyFirstIdOnly(d: CreateDef, first: string, rest: seq<string>)
    ensures var one := d.(primaryKey := PrimaryKeyIds([first]));
            var all := d.(primaryKey := PrimaryKeyIds([first] + rest));
            CreateTableSql(all) == CreateTableSql(one)
  {
    assert ([first] + rest)[0] == first;
  }

  /** An object-valued primary key with one id renders like the same id given as a string. */
  lemma PrimaryKeyStringOrObject(d: CreateDef, id: string)
    requires id != ""
    ensures CreateTableSql(d.(primaryKey := PrimaryKeyIds([id]))) == CreateTableSql(d.(primaryKey := PrimaryKeyName(id)))
  {
  }

  /** The ALTER statements end with the definition's clauses in their fixed order. */
  lemma AlterClauses(tableName: string, columnName: string, def: ColumnDef)
    ensures AddColumnSql(tableName, columnName, def)
            == "ALTER TABLE `" + tableName + "` ADD COLUMN `" + columnName + "` " + Join(" ", Clauses(def))
    ensures ModifyColumnSql(tableName, columnName, def)
            == "ALTER TABLE `" + tableName + "` MODIFY COLUMN `" + columnName + "` " + Join(" ", Clauses(def))
  {
    RenderedClauses(def);
  }
}
