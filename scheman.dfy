/**
  The object the `scheman` factory of scheman.js returns: the loaded model (the
  `tables`, `primaryKeys`, `uniqueKeys`, `keys`, `foreignKeys` and `objects`
  Maps), the `facts` ledger and the long-lived `blueprint`, all updated in
  place by `load`, by the `fact.<kind>` pushers and by
  `queriesNeededToMaterializeFacts`. The catalog rows that `load` fetches
  arrive here as parameters, already grouped the way `retrieve` groups them.
*/
module Engine {
  import JsValue
  import opened Catalog
  import opened Facts
  import opened PathTree
  import opened Differ
  import opened Render
  import opened Reconcile

  class Scheman {
    var tables: map<string, Table>
    var primaryKeys: map<string, seq<IndexRow>>
    var uniqueKeys: map<string, seq<IndexRow>>
    var keys: map<string, seq<IndexRow>>
    var foreignKeys: map<string, seq<ConstraintRow>>
    var objects: set<string>
    var facts: Facts
    var blueprint: Blueprint

    /** The loaded model as one value. */
    function Model(): Schema
      reads this
    {
      Schema(tables, primaryKeys, uniqueKeys, keys, foreignKeys, objects)
    }

    /** Empty Maps, empty fact lists, and a blueprint with its three empty sections. */
    constructor ()
      ensures Model() == EmptySchema && facts == NoFacts && blueprint == InitialBlueprint
    {
      tables, primaryKeys, uniqueKeys, keys, foreignKeys, objects := map[], map[], map[], map[], map[], {};
      facts := NoFacts;
      blueprint := InitialBlueprint;
    }

    // ---- load: the four forEach passes over the fetched rows ----

    /**
      Files every table, column, index group and constraint group into the
      model, in that order. Every row must name a table the table rows
      introduce (or one loaded before): the source dereferences
      the table record without a check.
    */
    method Load(tableRows: seq<TableRow>, columnRows: seq<ColumnRow>,
                indexGroups: seq<seq<IndexRow>>, constraintGroups: seq<seq<ConstraintRow>>)
      requires Consistent(Model(), tableRows, columnRows, indexGroups, constraintGroups)
      modifies this`tables, this`primaryKeys, this`uniqueKeys, this`keys, this`foreignKeys, this`objects
      ensures Model() == Catalog.Load(old(Model()), tableRows, columnRows, indexGroups, constraintGroups)
    {
      LoadTableRows(tableRows);
      LoadColumnRows(columnRows);
      LoadIndexGroups(indexGroups);
      LoadConstraintGroups(constraintGroups);
    }

    /** The loop over the table rows: a fresh empty record per table, replacing any earlier one. */
    method LoadTableRows(rows: seq<TableRow>)
      modifies this`tables, this`primaryKeys, this`uniqueKeys, this`keys, this`foreignKeys, this`objects
      ensures Model() == LoadTables(old(Model()), rows)
    {
      for i := 0 to |rows|
        invariant Model() == LoadTables(old(Model()), rows[..i])
      {
        assert rows[..i + 1][..i] == rows[..i];
        var name := rows[i].tableName;
        tables := tables[name := EmptyTable(name)];
      }
      assert rows[..|rows|] == rows;
    }

    /** The loop over the column rows: each column under its table, and registered under its global id. */
    method LoadColumnRows(rows: seq<ColumnRow>)
      requires ColumnsKnown(Model(), rows)
      modifies this`tables, this`primaryKeys, this`uniqueKeys, this`keys, this`foreignKeys, this`objects
      ensures Model() == LoadColumns(old(Model()), rows)
    {
      for i := 0 to |rows|
        invariant ColumnsKnown(old(Model()), rows[..i])
        invariant Model() == LoadColumns(old(Model()), rows[..i])
      {
        assert rows[..i + 1][..i] == rows[..i];
        var row := rows[i];
        objects := objects + {"column:" + row.tableName + ":" + row.columnName};
        var t := tables[row.tableName];
        tables := tables[row.tableName := t.(columns := t.columns[row.columnName := row])];
      }
      assert rows[..|rows|] == rows;
    }

    /** The loop over the index groups, in order. */
    method LoadIndexGroups(groups: seq<seq<IndexRow>>)
      requires IndexesKnown(Model(), groups)
      modifies this`tables, this`primaryKeys, this`uniqueKeys, this`keys, this`foreignKeys, this`objects
      ensures Model() == LoadIndexes(old(Model()), groups)
    {
      ghost var s0 := Model();
      for i := 0 to |groups|
        invariant IndexesKnown(s0, groups[..i])
        invariant Model() == LoadIndexes(s0, groups[..i])
      {
        LoadIndexesPrefix(s0, groups, i);
        LoadIndex(groups[i]);
      }
      assert groups[..|groups|] == groups;
    }

    /** The loop over the constraint groups: each filed as a foreign key under the id built from its columns and referenced table. */
    method LoadConstraintGroups(groups: seq<seq<ConstraintRow>>)
      requires ConstraintsKnown(Model(), groups)
      modifies this`tables, this`primaryKeys, this`uniqueKeys, this`keys, this`foreignKeys, this`objects
      ensures Model() == LoadConstraints(old(Model()), groups)
    {
      ghost var s0 := Model();
      for i := 0 to |groups|
        invariant ConstraintsKnown(s0, groups[..i])
        invariant Model() == LoadConstraints(s0, groups[..i])
      {
        LoadConstraintsPrefix(s0, groups, i);
        LoadConstraint(groups[i]);
      }
      assert groups[..|groups|] == groups;
    }

    /** One constraint group, filed as a foreign key. */
    method LoadConstraint(g: seq<ConstraintRow>)
      requires g != [] && g[0].tableName in tables
      modifies this`tables, this`primaryKeys, this`uniqueKeys, this`keys, this`foreignKeys, this`objects
      ensures Model() == AddConstraint(old(Model()), g)
    {
      var def := g[0];
      var name := def.tableName;
      var id := ForeignKeyId(g);
      var globalId := name + ":" + id;
      var t := tables[name];
      tables := tables[name := t.(foreignKeys := t.foreignKeys[id := g])];
      foreignKeys := foreignKeys[globalId := g];
      objects := objects + {Tag(ForeignKey, name, id)};
    }

    /** One index group: a primary key when named PRIMARY, else a key when non-unique, else a unique key. */
    method LoadIndex(g: seq<IndexRow>)
      requires g != [] && g[0].tableName in tables
      modifies this`tables, this`primaryKeys, this`uniqueKeys, this`keys, this`foreignKeys, this`objects
      ensures Model() == AddIndex(old(Model()), g)
    {
      var def := g[0];
      var name := def.tableName;
      var id := KeyId(g);
      var globalId := name + ":" + id;
      var t := tables[name];
      if def.indexName == "PRIMARY" {
        tables := tables[name := t.(primaryKey := t.primaryKey[id := g])];
        primaryKeys := primaryKeys[globalId := g];
        objects := objects + {Tag(PrimaryKey, name, id)};
      } else if JsValue.Truthy(def.nonUnique) {
        tables := tables[name := t.(keys := t.keys[id := g])];
        keys := keys[globalId := g];
        objects := objects + {Tag(Key, name, id)};
      } else {
        tables := tables[name := t.(uniqueKeys := t.uniqueKeys[id := g])];
        uniqueKeys := uniqueKeys[globalId := g];
        objects := objects + {Tag(UniqueKey, name, id)};
      }
    }

    // ---- The fact ledger: fact.<kind>.mustExist(def) / mustNotExist(def) ----

    method TableMustExist(def: TableFact)
      modifies this`facts
      ensures facts.table == Ledger(old(facts).table.mustExist + [def], old(facts).table.mustNotExist)
      ensures facts.(table := old(facts).table) == old(facts)
    {
      facts := facts.(table := facts.table.(mustExist := facts.table.mustExist + [def]));
    }

    method TableMustNotExist(def: TableFact)
      modifies this`facts
      ensures facts.table == Ledger(old(facts).table.mustExist, old(facts).table.mustNotExist + [def])
      ensures facts.(table := old(facts).table) == old(facts)
    {
      facts := facts.(table := facts.table.(mustNotExist := facts.table.mustNotExist + [def]));
    }

    method ColumnMustExist(def: ColumnFact)
      modifies this`facts
      ensures facts.column == Ledger(old(facts).column.mustExist + [def], old(facts).column.mustNotExist)
      ensures facts.(column := old(facts).column) == old(facts)
    {
      facts := facts.(column := facts.column.(mustExist := facts.column.mustExist + [def]));
    }

    method ColumnMustNotExist(def: ColumnFact)
      modifies this`facts
      ensures facts.column == Ledger(old(facts).column.mustExist, old(facts).column.mustNotExist + [def])
      ensures facts.(column := old(facts).column) == old(facts)
    {
      facts := facts.(column := facts.column.(mustNotExist := facts.column.mustNotExist + [def]));
    }

    method KeyMustExist(k: KeyKind, def: KeyFact)
      modifies this`facts
      ensures KeyLedger(facts, k) == Ledger(KeyLedger(old(facts), k).mustExist + [def], KeyLedger(old(facts), k).mustNotExist)
      ensures facts == WithKeyLedger(old(facts), k, KeyLedger(facts, k))
    {
      var l := KeyLedger(facts, k);
      facts := WithKeyLedger(facts, k, l.(mustExist := l.mustExist + [def]));
    }

    method KeyMustNotExist(k: KeyKind, def: KeyFact)
      modifies this`facts
      ensures KeyLedger(facts, k) == Ledger(KeyLedger(old(facts), k).mustExist, KeyLedger(old(facts), k).mustNotExist + [def])
      ensures facts == WithKeyLedger(old(facts), k, KeyLedger(facts, k))
    {
      var l := KeyLedger(facts, k);
      facts := WithKeyLedger(facts, k, l.(mustNotExist := l.mustNotExist + [def]));
    }

    // ---- queriesNeededToMaterializeFacts ----

    /** The loop over a table fact's columns: one column fact per column, in order. */
    method PushColumnFacts(tf: TableFact)
      modifies this`facts
      ensures facts == old(facts).(column := old(facts).column.(mustExist := old(facts).column.mustExist + ColumnFactsOf(tf)))
    {
      var pushed := ColumnFactsOf(tf);
      for j := 0 to |tf.columns|
        invariant facts == old(facts).(column := old(facts).column.(mustExist := old(facts).column.mustExist + pushed[..j]))
      {
        ColumnMustExist(ColumnFact(tf.tableName, tf.columns[j].0, tf.columns[j].1));
        assert old(facts).column.mustExist + pushed[..j + 1] == (old(facts).column.mustExist + pushed[..j]) + [pushed[j]];
      }
      assert pushed[..|tf.columns|] == pushed;
    }

    /** The loop over a table fact's keys of one kind: one key fact of kind `k` per id, in order. */
    method PushKeyFacts(k: KeyKind, tableName: string, ids: seq<string>)
      modifies this`facts
      ensures facts == WithKeyLedger(old(facts), k, KeyLedger(old(facts), k).(mustExist := KeyLedger(old(facts), k).mustExist + IdFacts(tableName, ids)))
    {
      var l := KeyLedger(facts, k);
      var pushed := IdFacts(tableName, ids);
      for j := 0 to |ids|
        invariant facts == WithKeyLedger(old(facts), k, l.(mustExist := l.mustExist + pushed[..j]))
      {
        KeyMustExist(k, KeyFact(tableName, ids[j]));
        assert l.mustExist + pushed[..j + 1] == (l.mustExist + pushed[..j]) + [pushed[j]];
      }
      assert pushed[..|ids|] == pushed;
    }

    /** One table fact: mark a missing table, push its columns and keys. */
    method ExpandTableFact(tf: TableFact)
      modifies this`facts, this`blueprint
      ensures facts == PushTableFact(old(facts), tf)
      ensures blueprint == StageTableFact(old(blueprint), tables, tf)
    {
      var tableName := tf.tableName;
      if tableName !in tables {
        blueprint := Set(blueprint, ["createTable", tableName, "tableName"], Leaf(TableName(tableName)));
      }
      PushColumnFacts(tf);
      match tf.primaryKey {
        case NoPrimaryKey =>
        case PrimaryKeyName(name) =>
          if name != "" {
            KeyMustExist(PrimaryKey, KeyFact(tableName, name));
          }
        case PrimaryKeyIds(ids) =>
          PushKeyFacts(PrimaryKey, tableName, ids);
      }
      PushKeyFacts(Key, tableName, tf.keys);
      PushKeyFacts(UniqueKey, tableName, tf.uniqueKeys);
      PushKeyFacts(ForeignKey, tableName, tf.foreignKeys);
    }

    /** One column fact. */
    method StageColumn(f: ColumnFact)
      modifies this`blueprint
      ensures blueprint == StageColumnFact(old(blueprint), tables, f)
    {
      var tableName, columnName := f.tableName, f.columnName;
      if tableName in tables {
        var tableDef := tables[tableName];
        if columnName in tableDef.columns {
          if !CompareColumnDefinition(tableDef.columns[columnName], f.def) {
            blueprint := Set(blueprint, ["modifyColumn", tableName, columnName], Leaf(ColumnEntry(f)));
          }
        } else {
          blueprint := Set(blueprint, ["addColumn", tableName, columnName], Leaf(ColumnEntry(f)));
        }
      } else {
        blueprint := Set(blueprint, ["createTable", tableName, "tableName"], Leaf(TableName(tableName)));
        blueprint := Set(blueprint, ["createTable", tableName, "columns", columnName], Leaf(ColumnEntry(f)));
      }
    }

    /** One key fact. */
    method StageKey(k: KeyKind, f: KeyFact)
      modifies this`blueprint
      ensures blueprint == StageKeyFact(old(blueprint), tables, k, f)
    {
      var tableName, id := f.tableName, f.id;
      if tableName in tables {
        if id !in KeyIds(tables[tableName], k) {
          blueprint := Set(blueprint, [AddKeySection(k), tableName, id], Leaf(KeyEntry(f)));
        }
      } else {
        blueprint := Set(blueprint, ["createTable", tableName, "tableName"], Leaf(TableName(tableName)));
        blueprint := Set(blueprint, ["createTable", tableName, KindProperty(k), id], Leaf(KeyEntry(f)));
      }
    }

    /** One pass over the key facts of kind `k`. */
    method StageKeyPass(k: KeyKind)
      modifies this`blueprint
      ensures blueprint == StageKeys(old(blueprint), tables, k, KeyLedger(facts, k).mustExist)
    {
      var fs := KeyLedger(facts, k).mustExist;
      for i := 0 to |fs|
        invariant blueprint == StageKeys(old(blueprint), tables, k, fs[..i])
      {
        StageKeysPrefix(old(blueprint), tables, k, fs, i);
        StageKey(k, fs[i]);
      }
      assert fs[..|fs|] == fs;
    }

    /** The pass over the table facts, in order. */
    method ExpandTablePass()
      modifies this`facts, this`blueprint
      ensures facts == Expand(old(facts))
      ensures blueprint == StageTables(old(blueprint), tables, old(facts).table.mustExist)
    {
      var tableFacts := facts.table.mustExist;
      for i := 0 to |tableFacts|
        invariant facts == ExpandBy(old(facts), tableFacts[..i])
        invariant blueprint == StageTables(old(blueprint), tables, tableFacts[..i])
      {
        ExpandByStep(old(facts), tableFacts, i);
        StageTablesPrefix(old(blueprint), tables, tableFacts, i);
        ExpandTableFact(tableFacts[i]);
      }
      assert tableFacts[..|tableFacts|] == tableFacts;
    }

    /** The pass over the column facts, in order. */
    method StageColumnPass()
      modifies this`blueprint
      ensures blueprint == StageColumns(old(blueprint), tables, facts.column.mustExist)
    {
      var columnFacts := facts.column.mustExist;
      for i := 0 to |columnFacts|
        invariant blueprint == StageColumns(old(blueprint), tables, columnFacts[..i])
      {
        StageColumnsPrefix(old(blueprint), tables, columnFacts, i);
        StageColumn(columnFacts[i]);
      }
      assert columnFacts[..|columnFacts|] == columnFacts;
    }

    /** The four key passes, in the order of the key kinds. */
    method StageKeyPasses()
      modifies this`blueprint
      ensures blueprint == StageAllKeys(old(blueprint), tables, facts)
    {
      ghost var b0 := blueprint;
      StageKeyPass(PrimaryKey);
      ghost var b1 := blueprint;
      StageKeyPass(Key);
      ghost var b2 := blueprint;
      StageKeyPass(UniqueKey);
      ghost var b3 := blueprint;
      StageKeyPass(ForeignKey);
      assert KeyLedger(facts, PrimaryKey) == facts.primaryKey && KeyLedger(facts, Key) == facts.key;
      assert KeyLedger(facts, UniqueKey) == facts.uniqueKey && KeyLedger(facts, ForeignKey) == facts.foreignKey;
      StageAllKeysPasses(b0, b1, b2, b3, blueprint, tables, facts);
    }

    /**
      Expands the table facts, files every fact that the model does not
      satisfy yet into the blueprint, and returns the queries the blueprint
      calls for. The ledger keeps the expanded facts and the blueprint keeps
      every entry, so both carry over to the next call.
    */
    method QueriesNeededToMaterializeFacts() returns (queries: seq<string>)
      modifies this`facts, this`blueprint
      ensures facts == Expand(old(facts))
      ensures blueprint == Plan(old(blueprint), tables, old(facts))
      ensures queries == Statements(blueprint)
      ensures WellStaged(old(blueprint), tables) ==>
        WellStaged(blueprint, tables) && forall s :: s in Planned(blueprint) ==> Justified(s, tables)
    {
      ghost var facts0, blueprint0 := facts, blueprint;
      ExpandTablePass();
      ghost var afterTables := blueprint;
      StageColumnPass();
      ghost var afterColumns := blueprint;
      StageKeyPasses();
      PlanPasses(blueprint0, afterTables, afterColumns, blueprint, tables, facts0, facts);
      queries := RenderQueries(blueprint);
      if WellStaged(blueprint0, tables) {
        PlanSound(blueprint0, tables, facts0);
      }
    }
  }
}
