/**
  The schema model that `load` builds from the catalog rows (scheman.js,
  lines 153-202): one entry per table with its columns and its keys by kind,
  flat lookup maps by global id, and the `objects` membership set.
  Key ids are the sorted, comma-joined column names; foreign-key ids are
  `<from columns>><referenced table>:<to columns>`.
*/
module Catalog {
  import opened JsValue
  import opened Text

  datatype KeyKind = PrimaryKey | Key | UniqueKey | ForeignKey

  /** The name of a kind in the fact ledger, in `objects` tags and in `addKey:<kind>`. */
  function KindName(k: KeyKind): string {
    match k
    case PrimaryKey => "primaryKey"
    case Key => "key"
    case UniqueKey => "uniqueKey"
    case ForeignKey => "foreignKey"
  }

  /** The table property that holds the keys of a kind. */
  function KindProperty(k: KeyKind): string {
    match k
    case PrimaryKey => "primaryKey"
    case Key => "keys"
    case UniqueKey => "uniqueKeys"
    case ForeignKey => "foreignKeys"
  }

  /** The `objects` entry of a key: `<kind>:<table>:<id>`. */
  function Tag(k: KeyKind, table: string, id: string): string {
    KindName(k) + ":" + table + ":" + id
  }

  // ---- Catalog rows, with the fields the engine reads ----

  datatype TableRow = TableRow(tableName: string)
  datatype ColumnRow = ColumnRow(tableName: string, columnName: string, columnType: string, columnDefault: JsVal)
  datatype IndexRow = IndexRow(tableName: string, indexName: string, columnName: string, nonUnique: JsVal)
  datatype ConstraintRow = ConstraintRow(
    tableName: string, columnName: string, referencedTableName: string, referencedColumnName: string)

  // ---- The model ----

  datatype Table = Table(
    name: string,
    columns: map<string, ColumnRow>,
    primaryKey: map<string, seq<IndexRow>>,
    uniqueKeys: map<string, seq<IndexRow>>,
    keys: map<string, seq<IndexRow>>,
    foreignKeys: map<string, seq<ConstraintRow>>)

  function EmptyTable(name: string): Table {
    Table(name, map[], map[], map[], map[], map[])
  }

  /** The ids of a table's keys of one kind. */
  function KeyIds(t: Table, k: KeyKind): set<string> {
    match k
    case PrimaryKey => t.primaryKey.Keys
    case Key => t.keys.Keys
    case UniqueKey => t.uniqueKeys.Keys
    case ForeignKey => t.foreignKeys.Keys
  }

  datatype Schema = Schema(
    tables: map<string, Table>,
    primaryKeys: map<string, seq<IndexRow>>,
    uniqueKeys: map<string, seq<IndexRow>>,
    keys: map<string, seq<IndexRow>>,
    foreignKeys: map<string, seq<ConstraintRow>>,
    objects: set<string>)

  const EmptySchema: Schema := Schema(map[], map[], map[], map[], map[], {})

  /** A table's index map of an index-derived kind. */
  function TableIndexes(t: Table, k: KeyKind): map<string, seq<IndexRow>>
    requires k != ForeignKey
  {
    match k
    case PrimaryKey => t.primaryKey
    case Key => t.keys
    case UniqueKey => t.uniqueKeys
  }

  /** The flat lookup map of an index-derived kind. */
  function SchemaIndexes(s: Schema, k: KeyKind): map<string, seq<IndexRow>>
    requires k != ForeignKey
  {
    match k
    case PrimaryKey => s.primaryKeys
    case Key => s.keys
    case UniqueKey => s.uniqueKeys
  }

  // ---- Key identities ----

  /** The column names of an index's rows, in fetched order. */
  function IndexColumns(g: seq<IndexRow>): seq<string> {
    seq(|g|, i requires 0 <= i < |g| => g[i].columnName)
  }

  /** The referencing column names of a foreign key's rows. */
  function FromColumns(g: seq<ConstraintRow>): seq<string> {
    seq(|g|, i requires 0 <= i < |g| => g[i].columnName)
  }

  /** The referenced column names of a foreign key's rows. */
  function ToColumns(g: seq<ConstraintRow>): seq<string> {
    seq(|g|, i requires 0 <= i < |g| => g[i].referencedColumnName)
  }

  /** The column names of an index group, sorted and joined with commas. */
  function KeyId(g: seq<IndexRow>): string {
    Join(",", Sort(IndexColumns(g)))
  }

  /** The flat-map id of an index group: `<table>:<id>`. */
  function GlobalKeyId(g: seq<IndexRow>): string
    requires g != []
  {
    g[0].tableName + ":" + KeyId(g)
  }

  /** The id of a foreign key: its sorted columns, `>`, the referenced table, `:`, the sorted referenced columns. */
  function ForeignKeyId(g: seq<ConstraintRow>): string
    requires g != []
  {
    Join(",", Sort(FromColumns(g))) + ">" + g[0].referencedTableName + ":" + Join(",", Sort(ToColumns(g)))
  }

  /** The flat-map id of a constraint group: `<table>:<foreign-key id>`. */
  function GlobalForeignKeyId(g: seq<ConstraintRow>): string
    requires g != []
  {
    g[0].tableName + ":" + ForeignKeyId(g)
  }

  /** An index's id depends on its set of columns, not on their order. */
  lemma KeyIdIgnoresOrder(g1: seq<IndexRow>, g2: seq<IndexRow>)
    requires multiset(IndexColumns(g1)) == multiset(IndexColumns(g2))
    ensures KeyId(g1) == KeyId(g2)
  {
    SortCanonical(IndexColumns(g1), IndexColumns(g2));
  }

  /** So does a foreign key's, on both its column lists. */
  lemma ForeignKeyIdIgnoresOrder(g1: seq<ConstraintRow>, g2: seq<ConstraintRow>)
    requires g1 != [] && g2 != []
    requires g1[0].referencedTableName == g2[0].referencedTableName
    requires multiset(FromColumns(g1)) == multiset(FromColumns(g2))
    requires multiset(ToColumns(g1)) == multiset(ToColumns(g2))
    ensures ForeignKeyId(g1) == ForeignKeyId(g2)
  {
    SortCanonical(FromColumns(g1), FromColumns(g2));
    SortCanonical(ToColumns(g1), ToColumns(g2));
  }

  // ---- The build steps of `load`, one row or row group at a time ----

  /** A fresh record for a table: no columns, no keys, replacing any earlier record of that name. */
  function AddTable(s: Schema, row: TableRow): (r: Schema)
    ensures r.tables.Keys == s.tables.Keys + {row.tableName}
    ensures r.tables[row.tableName] == EmptyTable(row.tableName)
    ensures forall u :: u in s.tables && u != row.tableName ==> r.tables[u] == s.tables[u]
    ensures r.primaryKeys == s.primaryKeys && r.uniqueKeys == s.uniqueKeys && r.keys == s.keys
    ensures r.foreignKeys == s.foreignKeys && r.objects == s.objects
  {
    s.(tables := s.tables[row.tableName := EmptyTable(row.tableName)])
  }

  /** A column row goes under its table and registers `column:<table>:<column>`. */
  function AddColumn(s: Schema, row: ColumnRow): (r: Schema)
    requires row.tableName in s.tables
    ensures r.tables.Keys == s.tables.Keys
    ensures forall u :: u in s.tables && u != row.tableName ==> r.tables[u] == s.tables[u]
    ensures r.tables[row.tableName] == s.tables[row.tableName].(columns := s.tables[row.tableName].columns[row.columnName := row])
    ensures r.objects == s.objects + {"column:" + row.tableName + ":" + row.columnName}
    ensures r.primaryKeys == s.primaryKeys && r.uniqueKeys == s.uniqueKeys && r.keys == s.keys
    ensures r.foreignKeys == s.foreignKeys
  {
    var t := s.tables[row.tableName];
    s.(tables := s.tables[row.tableName := t.(columns := t.columns[row.columnName := row])],
       objects := s.objects + {"column:" + row.tableName + ":" + row.columnName})
  }

  /** The kind an index lands in: PRIMARY, else non-unique, else unique. */
  function IndexKind(def: IndexRow): (k: KeyKind)
    ensures k != ForeignKey
  {
    if def.indexName == "PRIMARY" then PrimaryKey
    else if Truthy(def.nonUnique) then Key
    else UniqueKey
  }

  /** Files an index group under its id in the key map of its kind on its table record, for an index-derived kind. */
  function FileIndex(t: Table, k: KeyKind, id: string, g: seq<IndexRow>): (r: Table)
    requires k != ForeignKey
    ensures TableIndexes(r, k) == TableIndexes(t, k)[id := g]
    ensures k != PrimaryKey ==> r.primaryKey == t.primaryKey
    ensures k != Key ==> r.keys == t.keys
    ensures k != UniqueKey ==> r.uniqueKeys == t.uniqueKeys
    ensures r.columns == t.columns && r.foreignKeys == t.foreignKeys
  {
    match k
    case PrimaryKey => t.(primaryKey := t.primaryKey[id := g])
    case Key => t.(keys := t.keys[id := g])
    case UniqueKey => t.(uniqueKeys := t.uniqueKeys[id := g])
  }

  /** Registers an index group under its global id in the flat map of an index-derived kind. */
  function FileGlobalIndex(s: Schema, k: KeyKind, globalId: string, g: seq<IndexRow>): (r: Schema)
    requires k != ForeignKey
    ensures SchemaIndexes(r, k) == SchemaIndexes(s, k)[globalId := g]
    ensures k != PrimaryKey ==> r.primaryKeys == s.primaryKeys
    ensures k != Key ==> r.keys == s.keys
    ensures k != UniqueKey ==> r.uniqueKeys == s.uniqueKeys
    ensures r.tables == s.tables && r.foreignKeys == s.foreignKeys && r.objects == s.objects
  {
    match k
    case PrimaryKey => s.(primaryKeys := s.primaryKeys[globalId := g])
    case Key => s.(keys := s.keys[globalId := g])
    case UniqueKey => s.(uniqueKeys := s.uniqueKeys[globalId := g])
  }

  /**
    An index group (all rows of one index) is filed, under its sorted-column
    id, into its table's map of its kind (PRIMARY, else non-unique, else
    unique) and into the flat map of that kind, and `<kind>:<table>:<id>` is
    registered; nothing else changes.
  */
  function AddIndex(s: Schema, g: seq<IndexRow>): (r: Schema)
    requires g != [] && g[0].tableName in s.tables
    ensures r.tables.Keys == s.tables.Keys
    ensures forall u :: u in s.tables && u != g[0].tableName ==> r.tables[u] == s.tables[u]
  {
    var name := g[0].tableName;
    var k := IndexKind(g[0]);
    var id := KeyId(g);
    var filed := s.(tables := s.tables[name := FileIndex(s.tables[name], k, id, g)],
                    objects := s.objects + {Tag(k, name, id)});
    FileGlobalIndex(filed, k, name + ":" + id, g)
  }

  /**
    What filing an index group does to its own table: the group goes under
    its id in the map of its kind and under `<table>:<id>` in the flat map
    of that kind, `<kind>:<table>:<id>` is registered, and the other kinds,
    the columns and the foreign keys stay as they were.
  */
  lemma AddIndexFiles(s: Schema, g: seq<IndexRow>)
    requires g != [] && g[0].tableName in s.tables
    ensures var r, t, id := AddIndex(s, g), g[0].tableName, KeyId(g);
      var k := if g[0].indexName == "PRIMARY" then PrimaryKey else if Truthy(g[0].nonUnique) then Key else UniqueKey;
      && TableIndexes(r.tables[t], k) == TableIndexes(s.tables[t], k)[id := g]
      && SchemaIndexes(r, k) == SchemaIndexes(s, k)[t + ":" + id := g]
      && r.objects == s.objects + {Tag(k, t, id)}
      && (forall k' :: k' != k && k' != ForeignKey ==>
            TableIndexes(r.tables[t], k') == TableIndexes(s.tables[t], k')
            && SchemaIndexes(r, k') == SchemaIndexes(s, k'))
      && r.tables[t].columns == s.tables[t].columns
      && r.tables[t].foreignKeys == s.tables[t].foreignKeys
      && r.foreignKeys == s.foreignKeys
  {
  }

  /** An index group is filed under its id in its table's map of its kind, and registered. */
  predicate IndexFiled(s: Schema, h: seq<IndexRow>) {
    && h != [] && h[0].tableName in s.tables
    && KeyId(h) in TableIndexes(s.tables[h[0].tableName], IndexKind(h[0]))
    && GlobalKeyId(h) in SchemaIndexes(s, IndexKind(h[0]))
    && Tag(IndexKind(h[0]), h[0].tableName, KeyId(h)) in s.objects
  }

  /** The group just added is filed. */
  lemma AddIndexFilesIt(s: Schema, g: seq<IndexRow>)
    requires g != [] && g[0].tableName in s.tables
    ensures IndexFiled(AddIndex(s, g), g)
  {
    AddIndexFiles(s, g);
  }

  /** Filing one more index group keeps every group filed before it. */
  lemma AddIndexKeepsFiled(s: Schema, g: seq<IndexRow>, h: seq<IndexRow>)
    requires g != [] && g[0].tableName in s.tables
    requires IndexFiled(s, h)
    ensures IndexFiled(AddIndex(s, g), h)
  {
    var r, t, k := AddIndex(s, g), h[0].tableName, IndexKind(h[0]);
    AddIndexFiles(s, g);
    if t != g[0].tableName {
      assert r.tables[t] == s.tables[t];
    } else if k == IndexKind(g[0]) {
      assert TableIndexes(r.tables[t], k) == TableIndexes(s.tables[t], k)[KeyId(g) := g];
    } else {
      assert TableIndexes(r.tables[t], k) == TableIndexes(s.tables[t], k);
    }
    if k == IndexKind(g[0]) {
      assert SchemaIndexes(r, k) == SchemaIndexes(s, k)[GlobalKeyId(g) := g];
    } else {
      assert SchemaIndexes(r, k) == SchemaIndexes(s, k);
    }
  }

  /** A constraint group is filed as a foreign key of its table and registered. */
  function AddConstraint(s: Schema, g: seq<ConstraintRow>): (r: Schema)
    requires g != [] && g[0].tableName in s.tables
    ensures r.tables.Keys == s.tables.Keys
    ensures forall u :: u in s.tables && u != g[0].tableName ==> r.tables[u] == s.tables[u]
    ensures var t, id := g[0].tableName, ForeignKeyId(g);
      && r.tables[t] == s.tables[t].(foreignKeys := s.tables[t].foreignKeys[id := g])
      && r.foreignKeys == s.foreignKeys[t + ":" + id := g]
      && r.objects == s.objects + {Tag(ForeignKey, t, id)}
    ensures r.primaryKeys == s.primaryKeys && r.uniqueKeys == s.uniqueKeys && r.keys == s.keys
  {
    var def := g[0];
    var name := def.tableName;
    var id := ForeignKeyId(g);
    var globalId := name + ":" + id;
    var t := s.tables[name];
    s.(tables := s.tables[name := t.(foreignKeys := t.foreignKeys[id := g])],
       foreignKeys := s.foreignKeys[globalId := g],
       objects := s.objects + {Tag(ForeignKey, name, id)})
  }

  // ---- The four passes of `load` ----

  function TableNames(rows: seq<TableRow>): set<string> {
    set i | 0 <= i < |rows| :: rows[i].tableName
  }

  function LoadTables(s: Schema, rows: seq<TableRow>): (r: Schema)
    ensures r.tables.Keys == s.tables.Keys + TableNames(rows)
  {
    if rows == [] then s
    else
      var last := rows[|rows| - 1];
      assert TableNames(rows) == TableNames(rows[..|rows| - 1]) + {last.tableName} by {
        assert forall i :: 0 <= i < |rows| - 1 ==> rows[..|rows| - 1][i] == rows[i];
      }
      AddTable(LoadTables(s, rows[..|rows| - 1]), last)
  }

  predicate ColumnsKnown(s: Schema, rows: seq<ColumnRow>) {
    forall i :: 0 <= i < |rows| ==> rows[i].tableName in s.tables
  }

  function LoadColumns(s: Schema, rows: seq<ColumnRow>): (r: Schema)
    requires ColumnsKnown(s, rows)
    ensures r.tables.Keys == s.tables.Keys
  {
    if rows == [] then s
    else AddColumn(LoadColumns(s, rows[..|rows| - 1]), rows[|rows| - 1])
  }

  predicate IndexesKnown(s: Schema, groups: seq<seq<IndexRow>>) {
    forall i :: 0 <= i < |groups| ==> groups[i] != [] && groups[i][0].tableName in s.tables
  }

  function LoadIndexes(s: Schema, groups: seq<seq<IndexRow>>): (r: Schema)
    requires IndexesKnown(s, groups)
    ensures r.tables.Keys == s.tables.Keys
  {
    if groups == [] then s
    else AddIndex(LoadIndexes(s, groups[..|groups| - 1]), groups[|groups| - 1])
  }

  predicate ConstraintsKnown(s: Schema, groups: seq<seq<ConstraintRow>>) {
    forall i :: 0 <= i < |groups| ==> groups[i] != [] && groups[i][0].tableName in s.tables
  }

  function LoadConstraints(s: Schema, groups: seq<seq<ConstraintRow>>): (r: Schema)
    requires ConstraintsKnown(s, groups)
    ensures r.tables.Keys == s.tables.Keys
  {
    if groups == [] then s
    else AddConstraint(LoadConstraints(s, groups[..|groups| - 1]), groups[|groups| - 1])
  }

  /**
    What the catalog must satisfy: every column, index and constraint names a
    table that is known once the tables rows are in (the source fails with a
    TypeError otherwise), and every group has a row.
  */
  predicate Consistent(s: Schema, tableRows: seq<TableRow>, columnRows: seq<ColumnRow>,
                       indexGroups: seq<seq<IndexRow>>, constraintGroups: seq<seq<ConstraintRow>>) {
    var known := LoadTables(s, tableRows);
    ColumnsKnown(known, columnRows) && IndexesKnown(known, indexGroups) && ConstraintsKnown(known, constraintGroups)
  }

  /** The synchronous fold of `load`: tables, then columns, then indexes, then constraints. */
  function Load(s: Schema, tableRows: seq<TableRow>, columnRows: seq<ColumnRow>,
                indexGroups: seq<seq<IndexRow>>, constraintGroups: seq<seq<ConstraintRow>>): Schema
    requires Consistent(s, tableRows, columnRows, indexGroups, constraintGroups)
  {
    var s1 := LoadTables(s, tableRows);
    var s2 := LoadColumns(s1, columnRows);
    var s3 := LoadIndexes(s2, indexGroups);
    LoadConstraints(s3, constraintGroups)
  }

  /** One more index group: the fold over a longer prefix adds that group to the fold over the shorter one. */
  lemma LoadIndexesPrefix(s: Schema, groups: seq<seq<IndexRow>>, i: int)
    requires IndexesKnown(s, groups) && 0 <= i < |groups|
    ensures IndexesKnown(s, groups[..i]) && IndexesKnown(s, groups[..i + 1])
    ensures groups[i] != [] && groups[i][0].tableName in LoadIndexes(s, groups[..i]).tables
    ensures LoadIndexes(s, groups[..i + 1]) == AddIndex(LoadIndexes(s, groups[..i]), groups[i])
  {
    assert groups[..i + 1][..i] == groups[..i];
  }

  /** One more constraint group, likewise. */
  lemma LoadConstraintsPrefix(s: Schema, groups: seq<seq<ConstraintRow>>, i: int)
    requires ConstraintsKnown(s, groups) && 0 <= i < |groups|
    ensures ConstraintsKnown(s, groups[..i]) && ConstraintsKnown(s, groups[..i + 1])
    ensures groups[i] != [] && groups[i][0].tableName in LoadConstraints(s, groups[..i]).tables
    ensures LoadConstraints(s, groups[..i + 1]) == AddConstraint(LoadConstraints(s, groups[..i]), groups[i])
  {
    assert groups[..i + 1][..i] == groups[..i];
  }

  // ---- What `load` leaves in the model ----

  /** Every column row is filed under its table and registered in `objects`. */
  lemma {:induction false} LoadColumnsRegisters(s: Schema, rows: seq<ColumnRow>, i: int)
    requires ColumnsKnown(s, rows) && 0 <= i < |rows|
    ensures var r, row := LoadColumns(s, rows), rows[i];
      && row.columnName in r.tables[row.tableName].columns
      && "column:" + row.tableName + ":" + row.columnName in r.objects
  {
    if i < |rows| - 1 {
      LoadColumnsRegisters(s, rows[..|rows| - 1], i);
    }
  }

  /** Every index group is filed under its id in its table's map of its kind and registered. */
  lemma {:induction false} LoadIndexesRegisters(s: Schema, groups: seq<seq<IndexRow>>, i: int)
    requires IndexesKnown(s, groups) && 0 <= i < |groups|
    ensures IndexFiled(LoadIndexes(s, groups), groups[i])
  {
    if i < |groups| - 1 {
      LoadIndexesRegisters(s, groups[..|groups| - 1], i);
      LaterIndexKeepsFiled(s, groups, i);
    } else {
      LastIndexFiled(s, groups);
    }
  }

  /** The last group of the pass is filed. */
  lemma LastIndexFiled(s: Schema, groups: seq<seq<IndexRow>>)
    requires IndexesKnown(s, groups) && groups != []
    ensures IndexFiled(LoadIndexes(s, groups), groups[|groups| - 1])
  {
    AddIndexFilesIt(LoadIndexes(s, groups[..|groups| - 1]), groups[|groups| - 1]);
  }

  /** A group filed by the shorter pass stays filed once the last group is added. */
  lemma LaterIndexKeepsFiled(s: Schema, groups: seq<seq<IndexRow>>, i: int)
    requires IndexesKnown(s, groups) && 0 <= i < |groups| - 1
    requires IndexFiled(LoadIndexes(s, groups[..|groups| - 1]), groups[i])
    ensures IndexFiled(LoadIndexes(s, groups), groups[i])
  {
    AddIndexKeepsFiled(LoadIndexes(s, groups[..|groups| - 1]), groups[|groups| - 1], groups[i]);
  }

  /** Every constraint group is filed as a foreign key of its table and registered. */
  lemma {:induction false} LoadConstraintsRegisters(s: Schema, groups: seq<seq<ConstraintRow>>, i: int)
    requires ConstraintsKnown(s, groups) && 0 <= i < |groups|
    ensures var r, g := LoadConstraints(s, groups), groups[i];
      && ForeignKeyId(g) in r.tables[g[0].tableName].foreignKeys
      && GlobalForeignKeyId(g) in r.foreignKeys
      && Tag(ForeignKey, g[0].tableName, ForeignKeyId(g)) in r.objects
  {
    if i < |groups| - 1 {
      LoadConstraintsRegisters(s, groups[..|groups| - 1], i);
    }
  }

  /** The index pass leaves columns and registrations in place. */
  lemma {:induction false} LoadIndexesKeeps(s: Schema, groups: seq<seq<IndexRow>>)
    requires IndexesKnown(s, groups)
    ensures var r := LoadIndexes(s, groups);
      && s.objects <= r.objects
      && forall u :: u in s.tables ==> r.tables[u].columns == s.tables[u].columns
  {
    if groups != [] {
      var init, g := groups[..|groups| - 1], groups[|groups| - 1];
      var p := LoadIndexes(s, init);
      var r := AddIndex(p, g);
      assert LoadIndexes(s, groups) == r;
      LoadIndexesKeeps(s, init);
      AddIndexFiles(p, g);
      forall u | u in s.tables
        ensures r.tables[u].columns == p.tables[u].columns
      {
      }
    }
  }

  /** The constraint pass leaves columns, index keys and registrations in place. */
  lemma {:induction false} LoadConstraintsKeeps(s: Schema, groups: seq<seq<ConstraintRow>>)
    requires ConstraintsKnown(s, groups)
    ensures var r := LoadConstraints(s, groups);
      && s.objects <= r.objects
      && r.primaryKeys == s.primaryKeys && r.uniqueKeys == s.uniqueKeys && r.keys == s.keys
      && forall u :: u in s.tables ==>
           && r.tables[u].columns == s.tables[u].columns
           && r.tables[u].primaryKey == s.tables[u].primaryKey
           && r.tables[u].keys == s.tables[u].keys
           && r.tables[u].uniqueKeys == s.tables[u].uniqueKeys
  {
    if groups != [] {
      var init, g := groups[..|groups| - 1], groups[|groups| - 1];
      var p := LoadConstraints(s, init);
      var r := AddConstraint(p, g);
      assert LoadConstraints(s, groups) == r;
      LoadConstraintsKeeps(s, init);
      forall u | u in s.tables
        ensures && r.tables[u].columns == p.tables[u].columns
                && r.tables[u].primaryKey == p.tables[u].primaryKey
                && r.tables[u].keys == p.tables[u].keys
                && r.tables[u].uniqueKeys == p.tables[u].uniqueKeys
      {
        if u == g[0].tableName {
          assert r.tables[u] == p.tables[u].(foreignKeys := p.tables[u].foreignKeys[ForeignKeyId(g) := g]);
        }
      }
    }
  }

  predicate ColumnsRegistered(r: Schema, rows: seq<ColumnRow>) {
    forall i :: 0 <= i < |rows| ==>
      && rows[i].tableName in r.tables
      && rows[i].columnName in r.tables[rows[i].tableName].columns
      && "column:" + rows[i].tableName + ":" + rows[i].columnName in r.objects
  }

  predicate IndexesRegistered(r: Schema, groups: seq<seq<IndexRow>>) {
    forall i :: 0 <= i < |groups| ==> IndexFiled(r, groups[i])
  }

  predicate ConstraintsRegistered(r: Schema, groups: seq<seq<ConstraintRow>>) {
    forall i :: 0 <= i < |groups| ==>
      && groups[i] != [] && groups[i][0].tableName in r.tables
      && ForeignKeyId(groups[i]) in r.tables[groups[i][0].tableName].foreignKeys
      && GlobalForeignKeyId(groups[i]) in r.foreignKeys
      && Tag(ForeignKey, groups[i][0].tableName, ForeignKeyId(groups[i])) in r.objects
  }

  lemma ColumnsLoaded(s: Schema, rows: seq<ColumnRow>)
    requires ColumnsKnown(s, rows)
    ensures ColumnsRegistered(LoadColumns(s, rows), rows)
  {
    forall i | 0 <= i < |rows| {
      LoadColumnsRegisters(s, rows, i);
    }
  }

  lemma IndexesLoaded(s: Schema, groups: seq<seq<IndexRow>>)
    requires IndexesKnown(s, groups)
    ensures IndexesRegistered(LoadIndexes(s, groups), groups)
  {
    forall i | 0 <= i < |groups| {
      LoadIndexesRegisters(s, groups, i);
    }
  }

  lemma ConstraintsLoaded(s: Schema, groups: seq<seq<ConstraintRow>>)
    requires ConstraintsKnown(s, groups)
    ensures ConstraintsRegistered(LoadConstraints(s, groups), groups)
  {
    forall i | 0 <= i < |groups| {
      LoadConstraintsRegisters(s, groups, i);
    }
  }

  lemma ColumnsSurviveIndexes(s: Schema, rows: seq<ColumnRow>, groups: seq<seq<IndexRow>>)
    requires ColumnsRegistered(s, rows) && IndexesKnown(s, groups)
    ensures ColumnsRegistered(LoadIndexes(s, groups), rows)
  {
    LoadIndexesKeeps(s, groups);
  }

  lemma ColumnsSurviveConstraints(s: Schema, rows: seq<ColumnRow>, groups: seq<seq<ConstraintRow>>)
    requires ColumnsRegistered(s, rows) && ConstraintsKnown(s, groups)
    ensures ColumnsRegistered(LoadConstraints(s, groups), rows)
  {
    LoadConstraintsKeeps(s, groups);
  }

  lemma IndexesSurviveConstraints(s: Schema, idx: seq<seq<IndexRow>>, groups: seq<seq<ConstraintRow>>)
    requires IndexesRegistered(s, idx) && ConstraintsKnown(s, groups)
    ensures IndexesRegistered(LoadConstraints(s, groups), idx)
  {
    LoadConstraintsKeeps(s, groups);
    var r := LoadConstraints(s, groups);
    forall i | 0 <= i < |idx|
      ensures IndexFiled(r, idx[i])
    {
      var t, k := idx[i][0].tableName, IndexKind(idx[i][0]);
      assert TableIndexes(r.tables[t], k) == TableIndexes(s.tables[t], k);
      assert SchemaIndexes(r, k) == SchemaIndexes(s, k);
    }
  }

  /**
    After `load`, the model knows every table, every column, every index and
    every foreign key of the catalog, under their ids and in `objects`.
  */
  lemma LoadKnowsCatalog(s: Schema, tableRows: seq<TableRow>, columnRows: seq<ColumnRow>,
                         indexGroups: seq<seq<IndexRow>>, constraintGroups: seq<seq<ConstraintRow>>)
    requires Consistent(s, tableRows, columnRows, indexGroups, constraintGroups)
    ensures var r := Load(s, tableRows, columnRows, indexGroups, constraintGroups);
      && r.tables.Keys == s.tables.Keys + TableNames(tableRows)
      && ColumnsRegistered(r, columnRows)
      && IndexesRegistered(r, indexGroups)
      && ConstraintsRegistered(r, constraintGroups)
  {
    var s1 := LoadTables(s, tableRows);
    var s2 := LoadColumns(s1, columnRows);
    var s3 := LoadIndexes(s2, indexGroups);
    ColumnsLoaded(s1, columnRows);
    ColumnsSurviveIndexes(s2, columnRows, indexGroups);
    ColumnsSurviveConstraints(s3, columnRows, constraintGroups);
    IndexesLoaded(s2, indexGroups);
    IndexesSurviveConstraints(s3, indexGroups, constraintGroups);
    ConstraintsLoaded(s3, constraintGroups);
  }

  // ---- Which row or group a key ends up holding ----

  /** No later column row names the same table and column. */
  predicate LastColumnRow(rows: seq<ColumnRow>, i: int)
    requires 0 <= i < |rows|
  {
    forall j :: i < j < |rows| ==>
      rows[j].tableName != rows[i].tableName || rows[j].columnName != rows[i].columnName
  }

  /** No later index group has the same kind and the same `<table>:<id>`. */
  predicate LastIndexGroup(groups: seq<seq<IndexRow>>, i: int)
    requires 0 <= i < |groups| && groups[i] != []
  {
    forall j :: i < j < |groups| && groups[j] != [] ==>
      IndexKind(groups[j][0]) != IndexKind(groups[i][0]) || GlobalKeyId(groups[j]) != GlobalKeyId(groups[i])
  }

  /** No later constraint group has the same `<table>:<foreign-key id>`. */
  predicate LastConstraintGroup(groups: seq<seq<ConstraintRow>>, i: int)
    requires 0 <= i < |groups| && groups[i] != []
  {
    forall j :: i < j < |groups| && groups[j] != [] ==> GlobalForeignKeyId(groups[j]) != GlobalForeignKeyId(groups[i])
  }

  /** The index group `g` is what its kind's table map and flat map hold under its ids. */
  predicate IndexHeld(s: Schema, g: seq<IndexRow>) {
    && g != [] && g[0].tableName in s.tables
    && var k := IndexKind(g[0]);
       && KeyId(g) in TableIndexes(s.tables[g[0].tableName], k)
       && TableIndexes(s.tables[g[0].tableName], k)[KeyId(g)] == g
       && GlobalKeyId(g) in SchemaIndexes(s, k)
       && SchemaIndexes(s, k)[GlobalKeyId(g)] == g
  }

  /** The constraint group `g` is what its table's foreign keys and the flat map hold under its ids. */
  predicate ConstraintHeld(s: Schema, g: seq<ConstraintRow>) {
    && g != [] && g[0].tableName in s.tables
    && ForeignKeyId(g) in s.tables[g[0].tableName].foreignKeys
    && s.tables[g[0].tableName].foreignKeys[ForeignKeyId(g)] == g
    && GlobalForeignKeyId(g) in s.foreignKeys
    && s.foreignKeys[GlobalForeignKeyId(g)] == g
  }

  /** A column row that no later row overwrites is the row its table keeps for that column. */
  lemma {:induction false} LoadColumnsKeepsLast(s: Schema, rows: seq<ColumnRow>, i: int)
    requires ColumnsKnown(s, rows) && 0 <= i < |rows| && LastColumnRow(rows, i)
    ensures var r, row := LoadColumns(s, rows), rows[i];
      && row.columnName in r.tables[row.tableName].columns
      && r.tables[row.tableName].columns[row.columnName] == row
  {
    if i < |rows| - 1 {
      var init := rows[..|rows| - 1];
      assert LastColumnRow(init, i) by {
        forall j | i < j < |init| ensures init[j] == rows[j] { }
      }
      LoadColumnsKeepsLast(s, init, i);
    }
  }

  /** Filing an index group of another kind or another `<table>:<id>` leaves what `h` holds alone. */
  lemma AddIndexKeepsHeld(s: Schema, g: seq<IndexRow>, h: seq<IndexRow>)
    requires g != [] && g[0].tableName in s.tables && IndexHeld(s, h)
    requires IndexKind(g[0]) != IndexKind(h[0]) || GlobalKeyId(g) != GlobalKeyId(h)
    ensures IndexHeld(AddIndex(s, g), h)
  {
    var r, t, k := AddIndex(s, g), h[0].tableName, IndexKind(h[0]);
    AddIndexFiles(s, g);
    if t != g[0].tableName {
      assert r.tables[t] == s.tables[t];
    } else if k == IndexKind(g[0]) {
      assert TableIndexes(r.tables[t], k) == TableIndexes(s.tables[t], k)[KeyId(g) := g];
    } else {
      assert TableIndexes(r.tables[t], k) == TableIndexes(s.tables[t], k);
    }
    if k == IndexKind(g[0]) {
      assert SchemaIndexes(r, k) == SchemaIndexes(s, k)[GlobalKeyId(g) := g];
    } else {
      assert SchemaIndexes(r, k) == SchemaIndexes(s, k);
    }
  }

  /** An index group that no later group overwrites is what the pass leaves under its ids. */
  lemma {:induction false} LoadIndexesKeepsLast(s: Schema, groups: seq<seq<IndexRow>>, i: int)
    requires IndexesKnown(s, groups) && 0 <= i < |groups| && LastIndexGroup(groups, i)
    ensures IndexHeld(LoadIndexes(s, groups), groups[i])
  {
    var init, g := groups[..|groups| - 1], groups[|groups| - 1];
    if i < |groups| - 1 {
      assert LastIndexGroup(init, i) by {
        forall j | i < j < |init| ensures init[j] == groups[j] { }
      }
      LoadIndexesKeepsLast(s, init, i);
      AddIndexKeepsHeld(LoadIndexes(s, init), g, groups[i]);
    } else {
      AddIndexFiles(LoadIndexes(s, init), g);
    }
  }

  /** A constraint group that no later group overwrites is what the pass leaves under its ids. */
  lemma {:induction false} LoadConstraintsKeepsLast(s: Schema, groups: seq<seq<ConstraintRow>>, i: int)
    requires ConstraintsKnown(s, groups) && 0 <= i < |groups| && LastConstraintGroup(groups, i)
    ensures ConstraintHeld(LoadConstraints(s, groups), groups[i])
  {
    var init, g := groups[..|groups| - 1], groups[|groups| - 1];
    if i < |groups| - 1 {
      assert LastConstraintGroup(init, i) by {
        forall j | i < j < |init| ensures init[j] == groups[j] { }
      }
      LoadConstraintsKeepsLast(s, init, i);
      AddConstraintKeepsHeld(LoadConstraints(s, init), g, groups[i]);
    } else {
      AddConstraintHolds(LoadConstraints(s, init), g);
    }
  }

  lemma AddConstraintHolds(s: Schema, g: seq<ConstraintRow>)
    requires g != [] && g[0].tableName in s.tables
    ensures ConstraintHeld(AddConstraint(s, g), g)
  {
  }

  /** Filing a constraint group with another `<table>:<id>` leaves what `h` holds alone. */
  lemma AddConstraintKeepsHeld(s: Schema, g: seq<ConstraintRow>, h: seq<ConstraintRow>)
    requires g != [] && g[0].tableName in s.tables && ConstraintHeld(s, h)
    requires GlobalForeignKeyId(g) != GlobalForeignKeyId(h)
    ensures ConstraintHeld(AddConstraint(s, g), h)
  {
    if g[0].tableName == h[0].tableName {
      assert ForeignKeyId(g) != ForeignKeyId(h);
    }
  }

  /** Every column row that is the last for its table and column is the one its table holds. */
  predicate ColumnsHeld(r: Schema, rows: seq<ColumnRow>) {
    forall i :: 0 <= i < |rows| && LastColumnRow(rows, i) ==>
      && rows[i].tableName in r.tables
      && rows[i].columnName in r.tables[rows[i].tableName].columns
      && r.tables[rows[i].tableName].columns[rows[i].columnName] == rows[i]
  }

  predicate IndexesHeld(r: Schema, groups: seq<seq<IndexRow>>) {
    forall i :: 0 <= i < |groups| && groups[i] != [] && LastIndexGroup(groups, i) ==> IndexHeld(r, groups[i])
  }

  predicate ConstraintsHeld(r: Schema, groups: seq<seq<ConstraintRow>>) {
    forall i :: 0 <= i < |groups| && groups[i] != [] && LastConstraintGroup(groups, i) ==> ConstraintHeld(r, groups[i])
  }

  lemma ColumnsHeldAfterLoad(s: Schema, tableRows: seq<TableRow>, columnRows: seq<ColumnRow>,
                             indexGroups: seq<seq<IndexRow>>, constraintGroups: seq<seq<ConstraintRow>>)
    requires Consistent(s, tableRows, columnRows, indexGroups, constraintGroups)
    ensures ColumnsHeld(Load(s, tableRows, columnRows, indexGroups, constraintGroups), columnRows)
  {
    var s1 := LoadTables(s, tableRows);
    var s2 := LoadColumns(s1, columnRows);
    var s3 := LoadIndexes(s2, indexGroups);
    LoadIndexesKeeps(s2, indexGroups);
    LoadConstraintsKeeps(s3, constraintGroups);
    forall i | 0 <= i < |columnRows| && LastColumnRow(columnRows, i)
      ensures columnRows[i].columnName in s2.tables[columnRows[i].tableName].columns
      ensures s2.tables[columnRows[i].tableName].columns[columnRows[i].columnName] == columnRows[i]
    {
      LoadColumnsKeepsLast(s1, columnRows, i);
    }
  }

  lemma IndexesHeldAfterLoad(s: Schema, tableRows: seq<TableRow>, columnRows: seq<ColumnRow>,
                             indexGroups: seq<seq<IndexRow>>, constraintGroups: seq<seq<ConstraintRow>>)
    requires Consistent(s, tableRows, columnRows, indexGroups, constraintGroups)
    ensures IndexesHeld(Load(s, tableRows, columnRows, indexGroups, constraintGroups), indexGroups)
  {
    var s1 := LoadTables(s, tableRows);
    var s2 := LoadColumns(s1, columnRows);
    var s3 := LoadIndexes(s2, indexGroups);
    var r := LoadConstraints(s3, constraintGroups);
    LoadConstraintsKeeps(s3, constraintGroups);
    forall i | 0 <= i < |indexGroups| && indexGroups[i] != [] && LastIndexGroup(indexGroups, i)
      ensures IndexHeld(r, indexGroups[i])
    {
      LoadIndexesKeepsLast(s2, indexGroups, i);
      var t, k := indexGroups[i][0].tableName, IndexKind(indexGroups[i][0]);
      assert TableIndexes(r.tables[t], k) == TableIndexes(s3.tables[t], k);
      assert SchemaIndexes(r, k) == SchemaIndexes(s3, k);
    }
  }

  /**
    After `load`, every column, index and foreign key holds the last row or
    group the catalog gave for it: a later row for the same table and column,
    or a later group of the same kind with the same `<table>:<id>`, replaces
    an earlier one.
  */
  lemma LoadHoldsLastRows(s: Schema, tableRows: seq<TableRow>, columnRows: seq<ColumnRow>,
                          indexGroups: seq<seq<IndexRow>>, constraintGroups: seq<seq<ConstraintRow>>)
    requires Consistent(s, tableRows, columnRows, indexGroups, constraintGroups)
    ensures var r := Load(s, tableRows, columnRows, indexGroups, constraintGroups);
      && ColumnsHeld(r, columnRows)
      && IndexesHeld(r, indexGroups)
      && ConstraintsHeld(r, constraintGroups)
  {
    ColumnsHeldAfterLoad(s, tableRows, columnRows, indexGroups, constraintGroups);
    IndexesHeldAfterLoad(s, tableRows, columnRows, indexGroups, constraintGroups);
    var s3 := LoadIndexes(LoadColumns(LoadTables(s, tableRows), columnRows), indexGroups);
    forall i | 0 <= i < |constraintGroups| && constraintGroups[i] != [] && LastConstraintGroup(constraintGroups, i) {
      LoadConstraintsKeepsLast(s3, constraintGroups, i);
    }
  }
}
