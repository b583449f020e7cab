/**
  The fact ledger of scheman.js (lines 88-95 and 135-141): one append-only
  pair of `mustExist` / `mustNotExist` lists per object kind, and the way
  `queriesNeededToMaterializeFacts` (lines 216-244) expands each table fact
  into column facts and key facts.
*/
module Facts {
  import opened ColumnDefinition
  import opened Catalog

  /** A column that must exist: its table, its name, and the attributes of its definition. */
  datatype ColumnFact = ColumnFact(tableName: string, columnName: string, def: ColumnDef)

  /** A key that must exist: its table and its id; nothing reads its other attributes. */
  datatype KeyFact = KeyFact(tableName: string, id: string)

  /**
    The `primaryKey` attribute of a table: missing or another falsy value,
    a string naming the key id, or an object whose own keys are key ids.
  */
  datatype PrimaryKeyDecl = NoPrimaryKey | PrimaryKeyName(name: string) | PrimaryKeyIds(ids: seq<string>)

  /**
    A table that must exist: its columns in declaration order, its primary
    key, and the ids of its keys, unique keys and foreign keys.
  */
  datatype TableFact = TableFact(
    tableName: string,
    columns: seq<(string, ColumnDef)>,
    primaryKey: PrimaryKeyDecl,
    keys: seq<string>,
    uniqueKeys: seq<string>,
    foreignKeys: seq<string>)

  /** The empty ledger: every `mustExist` and `mustNotExist` list empty. */
  datatype Ledger<T> = Ledger(mustExist: seq<T>, mustNotExist: seq<T>)

  datatype Facts = Facts(
    table: Ledger<TableFact>,
    column: Ledger<ColumnFact>,
    primaryKey: Ledger<KeyFact>,
    uniqueKey: Ledger<KeyFact>,
    key: Ledger<KeyFact>,
    foreignKey: Ledger<KeyFact>)

  const NoFacts: Facts := Facts(Ledger([], []), Ledger([], []), Ledger([], []), Ledger([], []), Ledger([], []), Ledger([], []))

  /** The ledger entry of a key kind. */
  function KeyLedger(fs: Facts, k: KeyKind): Ledger<KeyFact> {
    match k
    case PrimaryKey => fs.primaryKey
    case Key => fs.key
    case UniqueKey => fs.uniqueKey
    case ForeignKey => fs.foreignKey
  }

  /** The tables some `mustExist` fact names: a table fact, a column fact, or a key fact of any kind. */
  function FactTables(fs: Facts): set<string> {
    (set f | f in fs.table.mustExist :: f.tableName)
    + (set g | g in fs.column.mustExist :: g.tableName)
    + (set h | h in fs.primaryKey.mustExist :: h.tableName)
    + (set h | h in fs.key.mustExist :: h.tableName)
    + (set h | h in fs.uniqueKey.mustExist :: h.tableName)
    + (set h | h in fs.foreignKey.mustExist :: h.tableName)
  }

  /** The ledger with the entry of key kind `kind` replaced by `l` and every other list as it was. */
  function WithKeyLedger(fs: Facts, k: KeyKind, l: Ledger<KeyFact>): (r: Facts)
    ensures KeyLedger(r, k) == l
    ensures forall k' :: k' != k ==> KeyLedger(r, k') == KeyLedger(fs, k')
    ensures r.table == fs.table && r.column == fs.column
  {
    match k
    case PrimaryKey => fs.(primaryKey := l)
    case Key => fs.(key := l)
    case UniqueKey => fs.(uniqueKey := l)
    case ForeignKey => fs.(foreignKey := l)
  }

  // ---- Expansion of a table fact ----

  /** The column facts a table fact pushes, one per column, in declaration order. */
  function ColumnFactsOf(tf: TableFact): seq<ColumnFact> {
    seq(|tf.columns|, j requires 0 <= j < |tf.columns| => ColumnFact(tf.tableName, tf.columns[j].0, tf.columns[j].1))
  }

  /** One key fact per id, in order. */
  function IdFacts(tableName: string, ids: seq<string>): seq<KeyFact> {
    seq(|ids|, j requires 0 <= j < |ids| => KeyFact(tableName, ids[j]))
  }

  /**
    The primary-key facts: none for a falsy attribute (the empty string
    included), the one named id for a string, one per id for an object.
  */
  function PrimaryKeyFactsOf(tf: TableFact): seq<KeyFact> {
    match tf.primaryKey
    case NoPrimaryKey => []
    case PrimaryKeyName(name) => if name == "" then [] else [KeyFact(tf.tableName, name)]
    case PrimaryKeyIds(ids) => IdFacts(tf.tableName, ids)
  }

  /** The key facts of one kind a table fact pushes. */
  function KeyFactsOf(tf: TableFact, k: KeyKind): seq<KeyFact> {
    match k
    case PrimaryKey => PrimaryKeyFactsOf(tf)
    case Key => IdFacts(tf.tableName, tf.keys)
    case UniqueKey => IdFacts(tf.tableName, tf.uniqueKeys)
    case ForeignKey => IdFacts(tf.tableName, tf.foreignKeys)
  }

  /** The column facts pushed for a list of table facts, in order. */
  function ColumnsOf(tfs: seq<TableFact>): seq<ColumnFact> {
    if tfs == [] then [] else ColumnsOf(tfs[..|tfs| - 1]) + ColumnFactsOf(tfs[|tfs| - 1])
  }

  /** The key facts of one kind pushed for a list of table facts, in order. */
  function KeysOf(tfs: seq<TableFact>, k: KeyKind): seq<KeyFact> {
    if tfs == [] then [] else KeysOf(tfs[..|tfs| - 1], k) + KeyFactsOf(tfs[|tfs| - 1], k)
  }

  /**
    The ledger after the expansion pass has visited the table facts `tfs`:
    their columns and keys appended, in order, to the `mustExist` list of
    their kind.
  */
  function ExpandBy(fs: Facts, tfs: seq<TableFact>): Facts {
    Facts(
      fs.table,
      fs.column.(mustExist := fs.column.mustExist + ColumnsOf(tfs)),
      fs.primaryKey.(mustExist := fs.primaryKey.mustExist + KeysOf(tfs, PrimaryKey)),
      fs.uniqueKey.(mustExist := fs.uniqueKey.mustExist + KeysOf(tfs, UniqueKey)),
      fs.key.(mustExist := fs.key.mustExist + KeysOf(tfs, Key)),
      fs.foreignKey.(mustExist := fs.foreignKey.mustExist + KeysOf(tfs, ForeignKey)))
  }

  /** The ledger after the expansion pass over every table fact. */
  function Expand(fs: Facts): Facts {
    ExpandBy(fs, fs.table.mustExist)
  }

  /** The ledger after one table fact has been expanded: its columns and keys pushed in order. */
  function PushTableFact(fs: Facts, tf: TableFact): Facts {
    Facts(
      fs.table,
      fs.column.(mustExist := fs.column.mustExist + ColumnFactsOf(tf)),
      fs.primaryKey.(mustExist := fs.primaryKey.mustExist + KeyFactsOf(tf, PrimaryKey)),
      fs.uniqueKey.(mustExist := fs.uniqueKey.mustExist + KeyFactsOf(tf, UniqueKey)),
      fs.key.(mustExist := fs.key.mustExist + KeyFactsOf(tf, Key)),
      fs.foreignKey.(mustExist := fs.foreignKey.mustExist + KeyFactsOf(tf, ForeignKey)))
  }

  /** Expanding one more table fact pushes its columns and keys after those of the facts before it. */
  lemma ExpandByStep(fs: Facts, tfs: seq<TableFact>, i: int)
    requires 0 <= i < |tfs|
    ensures ExpandBy(fs, tfs[..i + 1]) == PushTableFact(ExpandBy(fs, tfs[..i]), tfs[i])
  {
    var p, tf := tfs[..i + 1], tfs[i];
    assert p[..i] == tfs[..i] && p[i] == tf;
    var cs := ColumnsOf(tfs[..i]);
    assert ColumnsOf(p) == cs + ColumnFactsOf(tf);
    assert fs.column.mustExist + (cs + ColumnFactsOf(tf)) == (fs.column.mustExist + cs) + ColumnFactsOf(tf);
    forall k ensures KeyLedger(fs, k).mustExist + KeysOf(p, k)
                     == (KeyLedger(fs, k).mustExist + KeysOf(tfs[..i], k)) + KeyFactsOf(tf, k) {
      assert KeysOf(p, k) == KeysOf(tfs[..i], k) + KeyFactsOf(tf, k);
    }
    assert KeyLedger(fs, PrimaryKey) == fs.primaryKey && KeyLedger(fs, Key) == fs.key;
    assert KeyLedger(fs, UniqueKey) == fs.uniqueKey && KeyLedger(fs, ForeignKey) == fs.foreignKey;
  }

  /** Expansion only appends: the existing facts stay at the front, and `mustNotExist` is untouched. */
  lemma ExpandAppends(fs: Facts)
    ensures var r := Expand(fs);
      && r.table == fs.table
      && r.column.mustNotExist == fs.column.mustNotExist
      && fs.column.mustExist <= r.column.mustExist
      && forall k :: KeyLedger(r, k).mustNotExist == KeyLedger(fs, k).mustNotExist
                  && KeyLedger(fs, k).mustExist <= KeyLedger(r, k).mustExist
  {
    var r := Expand(fs);
    forall k ensures KeyLedger(fs, k).mustExist <= KeyLedger(r, k).mustExist {
      assert KeyLedger(r, k).mustExist == KeyLedger(fs, k).mustExist + KeysOf(fs.table.mustExist, k);
    }
  }

  /** Every column declared by a table fact becomes a column fact of that table. */
  lemma {:induction false} ColumnsOfContains(tfs: seq<TableFact>, i: int, j: int)
    requires 0 <= i < |tfs| && 0 <= j < |tfs[i].columns|
    ensures ColumnFact(tfs[i].tableName, tfs[i].columns[j].0, tfs[i].columns[j].1) in ColumnsOf(tfs)
  {
    var n := |tfs| - 1;
    if i == n {
      assert ColumnFactsOf(tfs[n])[j] == ColumnFact(tfs[i].tableName, tfs[i].columns[j].0, tfs[i].columns[j].1);
    } else {
      assert tfs[..n][i] == tfs[i];
      ColumnsOfContains(tfs[..n], i, j);
    }
  }

  /** Every column fact produced by expansion comes from a declared column. */
  lemma {:induction false} ColumnsOfOnly(tfs: seq<TableFact>, f: ColumnFact)
    requires f in ColumnsOf(tfs)
    ensures exists i, j ::
              0 <= i < |tfs| && 0 <= j < |tfs[i].columns| &&
              f == ColumnFact(tfs[i].tableName, tfs[i].columns[j].0, tfs[i].columns[j].1)
  {
    var n := |tfs| - 1;
    if f in ColumnsOf(tfs[..n]) {
      ColumnsOfOnly(tfs[..n], f);
      var i, j :| 0 <= i < n && 0 <= j < |tfs[..n][i].columns|
        && f == ColumnFact(tfs[..n][i].tableName, tfs[..n][i].columns[j].0, tfs[..n][i].columns[j].1);
      assert tfs[..n][i] == tfs[i];
    } else {
      var j :| 0 <= j < |ColumnFactsOf(tfs[n])| && ColumnFactsOf(tfs[n])[j] == f;
      assert f == ColumnFact(tfs[n].tableName, tfs[n].columns[j].0, tfs[n].columns[j].1);
    }
  }

  /** Every key id a table fact declares for a kind becomes a key fact of that table and kind. */
  lemma {:induction false} KeysOfContains(tfs: seq<TableFact>, k: KeyKind, i: int, f: KeyFact)
    requires 0 <= i < |tfs| && f in KeyFactsOf(tfs[i], k)
    ensures f in KeysOf(tfs, k)
  {
    var n := |tfs| - 1;
    if i < n {
      assert tfs[..n][i] == tfs[i];
      KeysOfContains(tfs[..n], k, i, f);
    }
  }

  /** Every key fact produced by expansion belongs to the table fact that declared it. */
  lemma {:induction false} KeysOfTables(tfs: seq<TableFact>, k: KeyKind, f: KeyFact)
    requires f in KeysOf(tfs, k)
    ensures exists i :: 0 <= i < |tfs| && f.tableName == tfs[i].tableName
  {
    var n := |tfs| - 1;
    if f in KeysOf(tfs[..n], k) {
      KeysOfTables(tfs[..n], k, f);
      var i :| 0 <= i < n && f.tableName == tfs[..n][i].tableName;
      assert tfs[..n][i] == tfs[i];
    } else {
      assert f in KeyFactsOf(tfs[n], k);
      assert f.tableName == tfs[n].tableName;
    }
  }
}
