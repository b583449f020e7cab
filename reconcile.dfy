/**
  What `queriesNeededToMaterializeFacts` (scheman.js, lines 214-311)
  promises as a whole, for a blueprint the differ itself has filled: every
  statement is called for by the loaded model, every fact that does not
  hold yet is acted upon, facts that already hold produce nothing, and the
  `mustNotExist` lists play no part.
*/
module Reconcile {
  import opened Options
  import opened PathTree
  import opened Catalog
  import opened Facts
  import opened Differ
  import opened Render

  /** A blueprint the differ has only ever written: the invariant for the model, and distinct keys. */
  ghost predicate WellStaged(bp: Blueprint, cat: map<string, Table>) {
    Inv(bp, cat) && Tidy(bp)
  }

  lemma InitialStaged(cat: map<string, Table>)
    ensures WellStaged(InitialBlueprint, cat)
  {
    InitialInv(cat);
    InitialTidy();
  }

  /** Planning keeps the blueprint staged, whatever the facts. */
  lemma PlanStaged(bp: Blueprint, cat: map<string, Table>, fs: Facts)
    requires WellStaged(bp, cat)
    ensures WellStaged(Plan(bp, cat, fs), cat)
  {
    PlanInv(bp, cat, fs);
    PlanTidy(bp, cat, fs);
  }

  /**
    Soundness: every statement planned is called for by the model; no
    existing table is created, no existing column added, and no column
    that compares equal modified.
  */
  lemma PlanSound(bp: Blueprint, cat: map<string, Table>, fs: Facts)
    requires WellStaged(bp, cat)
    ensures WellStaged(Plan(bp, cat, fs), cat)
    ensures forall s :: s in Planned(Plan(bp, cat, fs)) ==> Justified(s, cat)
  {
    PlanStaged(bp, cat, fs);
    PlannedJustified(Plan(bp, cat, fs), cat);
  }

  /** The statement, when it alters a column, comes from a column fact of `ls` for that table and column, with that definition. */
  ghost predicate AlterFrom(s: Statement, ls: seq<ColumnFact>) {
    (s.AddColumnStmt? || s.ModifyColumnStmt?) ==>
      exists g :: g in ls && g.tableName == s.tableName && g.columnName == s.columnName && g.def == s.column
  }

  /** The statement, when it creates a table, names one of `names`, and each of its columns comes from a fact of `ls`. */
  ghost predicate CreateFrom(s: Statement, ls: seq<ColumnFact>, names: set<string>) {
    s.CreateTableStmt? ==>
      && s.table.tableName in names
      && forall c, def :: (c, def) in s.table.columns ==>
           exists g :: g in ls && g.tableName == s.table.tableName && g.columnName == c && g.def == def
  }

  /** One planned statement of a backed, staged blueprint comes from the facts behind it. */
  lemma StatementFromFacts(r: Blueprint, cat: map<string, Table>, ls: seq<ColumnFact>, names: set<string>, s: Statement)
    requires Backed(r, ls, names) && Tidy(r) && CreatesValid(Section(r, "createTable"), cat)
    requires s in Planned(r)
    ensures AlterFrom(s, ls) && CreateFrom(s, ls, names)
  {
    var cs := CreateStmts(Props(Section(r, "createTable")));
    var adds := AlterSectionStmts(false, Props(Section(r, "addColumn")));
    var mods := AlterSectionStmts(true, Props(Section(r, "modifyColumn")));
    assert s in cs || s in adds || s in mods;
    if s in cs {
      CreateFromFacts(r, cat, ls, names, s);
    } else if s in adds {
      AlterFromFacts(r, ls, names, false, s);
    } else {
      AlterFromFacts(r, ls, names, true, s);
    }
  }

  /** Every planned statement of a backed, staged blueprint comes from the facts behind it. */
  lemma PlannedFrom(r: Blueprint, cat: map<string, Table>, ls: seq<ColumnFact>, names: set<string>)
    requires Backed(r, ls, names) && Tidy(r) && CreatesValid(Section(r, "createTable"), cat)
    ensures forall s :: s in Planned(r) ==> AlterFrom(s, ls) && CreateFrom(s, ls, names)
  {
    forall s | s in Planned(r) ensures AlterFrom(s, ls) && CreateFrom(s, ls, names) {
      StatementFromFacts(r, cat, ls, names, s);
    }
  }

  /** The plan on a fresh blueprint is backed by the expanded ledger, tidy, and creates only missing tables. */
  lemma InitialPlanBacked(cat: map<string, Table>, fs: Facts)
    ensures var ex, r := Expand(fs), Plan(InitialBlueprint, cat, fs);
      Backed(r, ex.column.mustExist, FactTables(ex)) && Tidy(r) && CreatesValid(Section(r, "createTable"), cat)
  {
    var ex := Expand(fs);
    InitialBacked(ex.column.mustExist, FactTables(ex));
    PlanBacked(InitialBlueprint, cat, fs);
    InitialStaged(cat);
    PlanStaged(InitialBlueprint, cat, fs);
  }

  /** Every statement planned on a fresh blueprint comes from the expanded ledger. */
  lemma InitialPlanFrom(cat: map<string, Table>, fs: Facts)
    ensures var ex := Expand(fs);
      forall s :: s in Planned(Plan(InitialBlueprint, cat, fs)) ==>
        AlterFrom(s, ex.column.mustExist) && CreateFrom(s, ex.column.mustExist, FactTables(ex))
  {
    var ex := Expand(fs);
    InitialPlanBacked(cat, fs);
    PlannedFrom(Plan(InitialBlueprint, cat, fs), cat, ex.column.mustExist, FactTables(ex));
  }

  /**
    Provenance: on a fresh blueprint, every ADD COLUMN and MODIFY COLUMN
    carries the table, column and definition of some column fact of the
    expanded ledger; every CREATE TABLE is for the table of some table,
    column or key fact, and each column it lists carries the definition of
    a column fact for that table and column.
  */
  lemma PlannedFromFacts(cat: map<string, Table>, fs: Facts)
    ensures var ex, ss := Expand(fs), Planned(Plan(InitialBlueprint, cat, fs));
      && (forall t, c, d :: AddColumnStmt(t, c, d) in ss ==>
            exists g :: g in ex.column.mustExist && g.tableName == t && g.columnName == c && g.def == d)
      && (forall t, c, d :: ModifyColumnStmt(t, c, d) in ss ==>
            exists g :: g in ex.column.mustExist && g.tableName == t && g.columnName == c && g.def == d)
      && (forall d :: CreateTableStmt(d) in ss ==> d.tableName in FactTables(ex))
      && (forall d, c, def :: CreateTableStmt(d) in ss && (c, def) in d.columns ==>
            exists g :: g in ex.column.mustExist && g.tableName == d.tableName && g.columnName == c && g.def == def)
  {
    var ex, ss := Expand(fs), Planned(Plan(InitialBlueprint, cat, fs));
    var ls := ex.column.mustExist;
    InitialPlanFrom(cat, fs);
    forall t, c, d | AddColumnStmt(t, c, d) in ss
      ensures exists g :: g in ls && g.tableName == t && g.columnName == c && g.def == d
    {
      assert AlterFrom(AddColumnStmt(t, c, d), ls);
    }
    forall t, c, d | ModifyColumnStmt(t, c, d) in ss
      ensures exists g :: g in ls && g.tableName == t && g.columnName == c && g.def == d
    {
      assert AlterFrom(ModifyColumnStmt(t, c, d), ls);
    }
    forall d | CreateTableStmt(d) in ss
      ensures d.tableName in FactTables(ex)
      ensures forall c, def :: (c, def) in d.columns ==>
        exists g :: g in ls && g.tableName == d.tableName && g.columnName == c && g.def == def
    {
      assert CreateFrom(CreateTableStmt(d), ls, FactTables(ex));
    }
  }

  /** Facts that all hold already need no query, on a fresh blueprint. */
  lemma SatisfiedNeedsNothing(cat: map<string, Table>, fs: Facts)
    requires Satisfied(cat, fs)
    ensures Statements(Plan(InitialBlueprint, cat, fs)) == []
  {
    PlanSatisfied(InitialBlueprint, cat, fs);
    InitialPlansNothing();
  }

  /** The blueprint after the table and column passes. */
  function AfterColumns(bp: Blueprint, cat: map<string, Table>, fs: Facts): Blueprint {
    StageColumns(StageTables(bp, cat, fs.table.mustExist), cat, Expand(fs).column.mustExist)
  }

  /** A column fact that needs work leaves its entry in the final blueprint. */
  lemma ColumnFactInPlan(bp: Blueprint, cat: map<string, Table>, fs: Facts, f: ColumnFact)
    requires f in Expand(fs).column.mustExist && ColumnNeedsWork(cat, f)
    ensures Get(Plan(bp, cat, fs), ColumnSlot(cat, f)).Some?
    ensures f.tableName !in cat ==> Get(Plan(bp, cat, fs), ["createTable", f.tableName, "tableName"]).Some?
  {
    var b1 := StageTables(bp, cat, fs.table.mustExist);
    var b2 := AfterColumns(bp, cat, fs);
    StageColumnsStages(b1, cat, Expand(fs).column.mustExist, f);
    StageAllKeysKeepPresent(b2, cat, Expand(fs), ColumnSlot(cat, f));
    if f.tableName !in cat {
      StageAllKeysKeepPresent(b2, cat, Expand(fs), ["createTable", f.tableName, "tableName"]);
    }
  }

  /** The slot of the last column fact that does anything holds that fact in the final blueprint. */
  lemma ColumnSlotHoldsLast(bp: Blueprint, cat: map<string, Table>, fs: Facts, i: int)
    requires 0 <= i < |Expand(fs).column.mustExist|
    requires ColumnNeedsWork(cat, Expand(fs).column.mustExist[i]) && LastStaged(cat, Expand(fs).column.mustExist, i)
    ensures var f := Expand(fs).column.mustExist[i];
      Get(Plan(bp, cat, fs), ColumnSlot(cat, f)) == Some(Leaf(ColumnEntry(f)))
  {
    var l := Expand(fs).column.mustExist;
    StageColumnsHoldsLast(StageTables(bp, cat, fs.table.mustExist), cat, l, i);
    StageAllKeysKeepColumnSlot(AfterColumns(bp, cat, fs), cat, Expand(fs), l[i]);
  }

  /**
    The last column fact that does anything for its (table, column) is
    rendered with its own definition: as an ADD COLUMN when the existing
    table lacks the column, as a MODIFY COLUMN when the existing column
    differs, and as a column of the CREATE TABLE when the table is missing.
  */
  lemma LastColumnFactRendered(bp: Blueprint, cat: map<string, Table>, fs: Facts, i: int)
    requires WellStaged(bp, cat) && 0 <= i < |Expand(fs).column.mustExist|
    requires ColumnNeedsWork(cat, Expand(fs).column.mustExist[i]) && LastStaged(cat, Expand(fs).column.mustExist, i)
    ensures var f := Expand(fs).column.mustExist[i];
      var t, c, ss := f.tableName, f.columnName, Planned(Plan(bp, cat, fs));
      && (t in cat && c !in cat[t].columns ==> AddColumnStmt(t, c, f.def) in ss)
      && (t in cat && c in cat[t].columns ==> ModifyColumnStmt(t, c, f.def) in ss)
      && (t !in cat && t != "" ==> exists d :: CreateTableStmt(d) in ss && d.tableName == t && (c, f.def) in d.columns)
  {
    var f := Expand(fs).column.mustExist[i];
    var r := Plan(bp, cat, fs);
    ColumnSlotHoldsLast(bp, cat, fs, i);
    if f.tableName in cat {
      AlterEntryPlanned(r, f.columnName in cat[f.tableName].columns, f.tableName, f.columnName, f);
    } else if f.tableName != "" {
      ColumnFactInPlan(bp, cat, fs, f);
      PlanStaged(bp, cat, fs);
      CreatedColumnPlanned(r, cat, f.tableName, f.columnName, f);
    }
  }

  /** The last fact that does anything for the column of fact `f`, found in the expanded ledger. */
  lemma LastFactFor(cat: map<string, Table>, fs: Facts, f: ColumnFact) returns (j: int)
    requires f in Expand(fs).column.mustExist && ColumnNeedsWork(cat, f)
    ensures var l := Expand(fs).column.mustExist;
      && 0 <= j < |l| && ColumnNeedsWork(cat, l[j]) && LastStaged(cat, l, j)
      && l[j].tableName == f.tableName && l[j].columnName == f.columnName
  {
    var l := Expand(fs).column.mustExist;
    var i :| 0 <= i < |l| && l[i] == f;
    j := LastStagedExists(cat, l, i);
  }

  /**
    A column fact for a column its existing table lacks yields an ADD COLUMN
    of that column, with the definition of a column fact for it (the last).
  */
  lemma MissingColumnAdded(bp: Blueprint, cat: map<string, Table>, fs: Facts, f: ColumnFact)
    requires WellStaged(bp, cat) && f in Expand(fs).column.mustExist
    requires f.tableName in cat && f.columnName !in cat[f.tableName].columns
    ensures exists g :: && g in Expand(fs).column.mustExist
                        && g.tableName == f.tableName && g.columnName == f.columnName
                        && AddColumnStmt(f.tableName, f.columnName, g.def) in Planned(Plan(bp, cat, fs))
  {
    var j := LastFactFor(cat, fs, f);
    LastColumnFactRendered(bp, cat, fs, j);
    var g := Expand(fs).column.mustExist[j];
    assert g in Expand(fs).column.mustExist;
  }

  /**
    A column fact for an existing column that compares unequal yields a
    MODIFY COLUMN of it, with the definition of a column fact for it that
    compares unequal (the last).
  */
  lemma DifferingColumnModified(bp: Blueprint, cat: map<string, Table>, fs: Facts, f: ColumnFact)
    requires WellStaged(bp, cat) && f in Expand(fs).column.mustExist
    requires f.tableName in cat && f.columnName in cat[f.tableName].columns
    requires !CompareColumnDefinition(cat[f.tableName].columns[f.columnName], f.def)
    ensures exists g :: && g in Expand(fs).column.mustExist
                        && g.tableName == f.tableName && g.columnName == f.columnName
                        && !CompareColumnDefinition(cat[f.tableName].columns[f.columnName], g.def)
                        && ModifyColumnStmt(f.tableName, f.columnName, g.def) in Planned(Plan(bp, cat, fs))
  {
    var j := LastFactFor(cat, fs, f);
    LastColumnFactRendered(bp, cat, fs, j);
    var g := Expand(fs).column.mustExist[j];
    assert g in Expand(fs).column.mustExist;
  }

  /** A table fact for a missing table (with a non-empty name) yields a CREATE TABLE of it. */
  lemma MissingTableCreated(bp: Blueprint, cat: map<string, Table>, fs: Facts, tf: TableFact)
    requires WellStaged(bp, cat) && tf in fs.table.mustExist
    requires tf.tableName !in cat && tf.tableName != ""
    ensures exists d :: CreateTableStmt(d) in Planned(Plan(bp, cat, fs)) && d.tableName == tf.tableName
  {
    var n := ["createTable", tf.tableName, "tableName"];
    var b1 := StageTables(bp, cat, fs.table.mustExist);
    StageTablesStages(bp, cat, fs.table.mustExist, tf);
    StageColumnsKeepPresent(b1, cat, Expand(fs).column.mustExist, n);
    StageAllKeysKeepPresent(AfterColumns(bp, cat, fs), cat, Expand(fs), n);
    PlanStaged(bp, cat, fs);
    CreateTablePlanned(Plan(bp, cat, fs), cat, tf.tableName);
  }

  /**
    A column fact whose table is missing yields a CREATE TABLE of that table
    that lists the column, with the definition of a column fact for it (the last).
  */
  lemma TableOfColumnCreated(bp: Blueprint, cat: map<string, Table>, fs: Facts, f: ColumnFact)
    requires WellStaged(bp, cat) && f in Expand(fs).column.mustExist
    requires f.tableName !in cat && f.tableName != ""
    ensures exists d, g :: && CreateTableStmt(d) in Planned(Plan(bp, cat, fs)) && d.tableName == f.tableName
                           && g in Expand(fs).column.mustExist
                           && g.tableName == f.tableName && g.columnName == f.columnName
                           && (f.columnName, g.def) in d.columns
  {
    var j := LastFactFor(cat, fs, f);
    LastColumnFactRendered(bp, cat, fs, j);
    var g := Expand(fs).column.mustExist[j];
    assert g in Expand(fs).column.mustExist;
  }

  /**
    A key fact whose table is missing yields a CREATE TABLE of that table
    that lists it: a unique key or key by its id, a primary key among the ids
    of the primary-key object (only the first of which is rendered).
  */
  lemma TableOfKeyCreated(bp: Blueprint, cat: map<string, Table>, fs: Facts, k: KeyKind, f: KeyFact)
    requires WellStaged(bp, cat) && f in KeyLedger(Expand(fs), k).mustExist
    requires f.tableName !in cat && f.tableName != ""
    ensures exists d :: && CreateTableStmt(d) in Planned(Plan(bp, cat, fs)) && d.tableName == f.tableName
                        && (k == UniqueKey ==> f.id in d.uniqueKeys)
                        && (k == Key ==> f.id in d.keys)
                        && (k == PrimaryKey ==> d.primaryKey.PrimaryKeyIds? && f.id in d.primaryKey.ids)
  {
    var b2 := AfterColumns(bp, cat, fs);
    StageAllKeysStages(b2, cat, Expand(fs), k, f);
    StageAllKeysHoldsCreateKey(b2, cat, Expand(fs), k, f);
    PlanStaged(bp, cat, fs);
    CreatedKeyPlanned(Plan(bp, cat, fs), cat, k, f.tableName, f.id, f);
  }

  /** A key fact whose id its existing table lacks is filed under `addKey:<kind>`, which renders nothing. */
  lemma MissingKeyFiled(bp: Blueprint, cat: map<string, Table>, fs: Facts, k: KeyKind, f: KeyFact)
    requires f in KeyLedger(Expand(fs), k).mustExist
    requires f.tableName in cat && f.id !in KeyIds(cat[f.tableName], k)
    ensures Get(Plan(bp, cat, fs), [AddKeySection(k), f.tableName, f.id]).Some?
  {
    StageAllKeysStages(AfterColumns(bp, cat, fs), cat, Expand(fs), k, f);
  }

  /** Every column declared by a table fact is a column fact of the expanded ledger. */
  lemma DeclaredColumnExpanded(fs: Facts, i: int, j: int)
    requires 0 <= i < |fs.table.mustExist| && 0 <= j < |fs.table.mustExist[i].columns|
    ensures var tf := fs.table.mustExist[i];
      ColumnFact(tf.tableName, tf.columns[j].0, tf.columns[j].1) in Expand(fs).column.mustExist
  {
    ColumnsOfContains(fs.table.mustExist, i, j);
  }

  /** The same `mustExist` lists. */
  predicate SameDemands(fs: Facts, fs': Facts) {
    && fs.table.mustExist == fs'.table.mustExist
    && fs.column.mustExist == fs'.column.mustExist
    && fs.primaryKey.mustExist == fs'.primaryKey.mustExist
    && fs.uniqueKey.mustExist == fs'.uniqueKey.mustExist
    && fs.key.mustExist == fs'.key.mustExist
    && fs.foreignKey.mustExist == fs'.foreignKey.mustExist
  }

  /** The `mustNotExist` lists never change the plan: nothing drops a table, column or key. */
  lemma MustNotExistIgnored(bp: Blueprint, cat: map<string, Table>, fs: Facts, fs': Facts)
    requires SameDemands(fs, fs')
    ensures Plan(bp, cat, fs) == Plan(bp, cat, fs')
  {
    assert SameDemands(Expand(fs), Expand(fs'));
  }

  /** No (table, column) pair ever receives both an ADD COLUMN and a MODIFY COLUMN entry. */
  lemma NeverBothAddedAndModified(bp: Blueprint, cat: map<string, Table>, fs: Facts, t: string, c: string)
    requires WellStaged(bp, cat)
    ensures var r := Plan(bp, cat, fs);
      !(Get(r, ["addColumn", t, c]).Some? && Get(r, ["modifyColumn", t, c]).Some?)
  {
    PlanStaged(bp, cat, fs);
    NeverAddedAndModified(Plan(bp, cat, fs), cat, t, c);
  }
}
