/**
  The rendering half of `queriesNeededToMaterializeFacts` (scheman.js,
  lines 293-311): the blueprint becomes the statement list, every
  `CREATE TABLE` first, then every `ADD COLUMN`, then every `MODIFY COLUMN`;
  the `addKey:<kind>` sections are never read.
*/
module Render {
  import opened Options
  import opened OrderedMap
  import opened PathTree
  import opened ColumnDefinition
  import opened Catalog
  import opened Facts
  import opened Sql
  import opened Differ

  datatype Statement =
    | CreateTableStmt(table: CreateDef)
    | AddColumnStmt(tableName: string, columnName: string, column: ColumnDef)
    | ModifyColumnStmt(tableName: string, columnName: string, column: ColumnDef)

  predicate Renders(s: Statement) {
    s.CreateTableStmt? ==> Renderable(s.table)
  }

  function SqlOf(s: Statement): string
    requires Renders(s)
  {
    match s
    case CreateTableStmt(d) => CreateTableSql(d)
    case AddColumnStmt(t, c, d) => AddColumnSql(t, c, d)
    case ModifyColumnStmt(t, c, d) => ModifyColumnSql(t, c, d)
  }

  /** Every statement of the list can be rendered. */
  predicate AllRender(ss: seq<Statement>) {
    forall s :: s in ss ==> Renders(s)
  }

  function SqlAll(ss: seq<Statement>): (r: seq<string>)
    requires AllRender(ss)
    ensures |r| == |ss|
  {
    if ss == [] then [] else [SqlOf(ss[0])] + SqlAll(ss[1..])
  }

  lemma {:induction false} SqlAllAppend(a: seq<Statement>, b: seq<Statement>)
    requires AllRender(a) && AllRender(b)
    ensures AllRender(a + b)
    ensures SqlAll(a + b) == SqlAll(a) + SqlAll(b)
  {
    if a == [] {
      assert a + b == b;
    } else {
      var ab := a + b;
      assert ab[0] == a[0] && ab[1..] == a[1..] + b;
      SqlAllAppend(a[1..], b);
    }
  }

  // ---- Reading a createTable entry as the definition `sql.createTable` receives ----

  /** The column facts staged under a table, in insertion order, with their definitions. */
  function ColumnList(es: seq<(string, Blueprint)>): seq<(string, ColumnDef)> {
    if es == [] then []
    else
      (match es[0].1 case Leaf(ColumnEntry(f)) => [(es[0].0, f.def)] case _ => [])
      + ColumnList(es[1..])
  }

  /** The ids of the key facts staged under a table, in insertion order. */
  function KeyIdList(es: seq<(string, Blueprint)>): seq<string> {
    if es == [] then []
    else
      (match es[0].1 case Leaf(KeyEntry(f)) => [f.id] case _ => [])
      + KeyIdList(es[1..])
  }

  /** The `primaryKey` property of an entry: an object of key ids, or nothing. */
  function PrimaryKeyOf(entry: Blueprint): (r: PrimaryKeyDecl)
    ensures r != PrimaryKeyIds([])
  {
    var pk: Option<Blueprint> := Lookup(Props(entry), "primaryKey");
    match pk
    case Some(Branch(es)) => if es == [] then NoPrimaryKey else PrimaryKeyIds(Keys(es))
    case _ => NoPrimaryKey
  }

  /**
    The definition a `createTable` entry stands for: its other properties,
    when its `tableName` property is set and not empty; nothing otherwise.
  */
  function CreateEntryDef(entry: Blueprint): (r: Option<CreateDef>)
    ensures r.Some? ==> Renderable(r.value)
    ensures r.Some? ==> r.value.tableName != ""
    ensures r.Some? ==> Lookup(Props(entry), "tableName") == Some(Leaf(TableName(r.value.tableName)))
  {
    var name: Option<Blueprint> := Lookup(Props(entry), "tableName");
    match name
    case Some(Leaf(TableName(n))) =>
      if n == "" then None
      else Some(CreateDef(
        n,
        ColumnList(Props(Section(entry, "columns"))),
        PrimaryKeyOf(entry),
        KeyIdList(Props(Section(entry, "uniqueKeys"))),
        KeyIdList(Props(Section(entry, "keys")))))
    case _ => None
  }

  /** Every staged column entry is listed, by name, with its definition. */
  lemma {:induction false} ColumnListHas(es: seq<(string, Blueprint)>, c: string, f: ColumnFact)
    requires (c, Leaf(ColumnEntry(f))) in es
    ensures (c, f.def) in ColumnList(es)
  {
    if es[0] != (c, Leaf(ColumnEntry(f))) {
      assert es == [es[0]] + es[1..];
      ColumnListHas(es[1..], c, f);
    }
  }

  /** Only staged column entries are listed. */
  lemma {:induction false} ColumnListOnly(es: seq<(string, Blueprint)>, c: string, def: ColumnDef)
    requires (c, def) in ColumnList(es)
    ensures exists f :: (c, Leaf(ColumnEntry(f))) in es && f.def == def
  {
    match es[0].1
    case Leaf(ColumnEntry(f)) =>
      if (c, def) != (es[0].0, f.def) {
        ColumnListOnly(es[1..], c, def);
      }
    case _ =>
      ColumnListOnly(es[1..], c, def);
  }

  /** The id of every staged key entry is listed. */
  lemma {:induction false} KeyIdListHas(es: seq<(string, Blueprint)>, id: string, f: KeyFact)
    requires (id, Leaf(KeyEntry(f))) in es
    ensures f.id in KeyIdList(es)
  {
    if es[0] != (id, Leaf(KeyEntry(f))) {
      assert es == [es[0]] + es[1..];
      KeyIdListHas(es[1..], id, f);
    }
  }

  /** Only ids of staged key entries are listed. */
  lemma {:induction false} KeyIdListOnly(es: seq<(string, Blueprint)>, x: string)
    requires x in KeyIdList(es)
    ensures exists id, f :: (id, Leaf(KeyEntry(f))) in es && f.id == x
  {
    match es[0].1
    case Leaf(KeyEntry(f)) =>
      if x != f.id {
        KeyIdListOnly(es[1..], x);
      }
    case _ =>
      KeyIdListOnly(es[1..], x);
  }

  /** A column staged under a `createTable` entry is a column of its CREATE TABLE, with its definition. */
  lemma CreateEntryColumn(entry: Blueprint, c: string, f: ColumnFact)
    requires CreateEntryDef(entry).Some? && Get(entry, ["columns", c]) == Some(Leaf(ColumnEntry(f)))
    ensures (c, f.def) in CreateEntryDef(entry).value.columns
  {
    var tb := SlotLookups(entry, "columns", c);
    ColumnListHas(Props(tb), c, f);
  }

  /** A unique key or key staged under a `createTable` entry has its id listed in its CREATE TABLE. */
  lemma CreateEntryKey(entry: Blueprint, k: KeyKind, id: string, f: KeyFact)
    requires k == UniqueKey || k == Key
    requires CreateEntryDef(entry).Some? && Get(entry, [KindProperty(k), id]) == Some(Leaf(KeyEntry(f)))
    ensures var d := CreateEntryDef(entry).value;
      f.id in (if k == UniqueKey then d.uniqueKeys else d.keys)
  {
    var tb := SlotLookups(entry, KindProperty(k), id);
    KeyIdListHas(Props(tb), id, f);
  }

  /** A primary key staged under a `createTable` entry makes its CREATE TABLE carry an id list holding it. */
  lemma CreateEntryPrimaryKey(entry: Blueprint, id: string)
    requires CreateEntryDef(entry).Some? && Get(entry, ["primaryKey", id]).Some?
    ensures CreateEntryDef(entry).value.primaryKey.PrimaryKeyIds?
    ensures id in CreateEntryDef(entry).value.primaryKey.ids
  {
    var tb := SlotLookups(entry, "primaryKey", id);
    assert tb.Branch? && tb.entries != [];
    var i :| 0 <= i < |tb.entries| && tb.entries[i].0 == id;
    assert Keys(tb.entries)[i] == id;
  }

  // ---- The three loops ----

  /** The statement of one `createTable` entry: none unless its `tableName` is set. */
  function CreateHead(e: (string, Blueprint)): (r: seq<Statement>)
    ensures forall s :: s in r ==> s.CreateTableStmt? && Renders(s)
  {
    match CreateEntryDef(e.1) case Some(d) => [CreateTableStmt(d)] case None => []
  }

  function CreateStmts(es: seq<(string, Blueprint)>): (r: seq<Statement>)
    ensures forall s :: s in r ==> s.CreateTableStmt? && Renders(s)
  {
    if es == [] then [] else CreateHead(es[0]) + CreateStmts(es[1..])
  }

  /** The kind of statement an alter section produces. */
  predicate AlterKind(modifying: bool, s: Statement) {
    if modifying then s.ModifyColumnStmt? else s.AddColumnStmt?
  }

  /** The statement for one staged column: ADD, or MODIFY in the `modifyColumn` section. */
  function AlterStmt(modifying: bool, f: ColumnFact): Statement {
    if modifying then ModifyColumnStmt(f.tableName, f.columnName, f.def)
    else AddColumnStmt(f.tableName, f.columnName, f.def)
  }

  /** The statement for one column entry; anything else under the table is skipped. */
  function ColumnHead(modifying: bool, c: (string, Blueprint)): (r: seq<Statement>)
    ensures forall s :: s in r ==> AlterKind(modifying, s) && Renders(s)
  {
    match c.1 case Leaf(ColumnEntry(f)) => [AlterStmt(modifying, f)] case _ => []
  }

  /** The columns of one table of an alter section. */
  function ColumnStmts(modifying: bool, cs: seq<(string, Blueprint)>): (r: seq<Statement>)
    ensures forall s :: s in r ==> AlterKind(modifying, s) && Renders(s)
  {
    if cs == [] then [] else ColumnHead(modifying, cs[0]) + ColumnStmts(modifying, cs[1..])
  }

  /** An alter section: tables in order, and within each its columns in order. */
  function AlterSectionStmts(modifying: bool, es: seq<(string, Blueprint)>): (r: seq<Statement>)
    ensures forall s :: s in r ==> AlterKind(modifying, s) && Renders(s)
  {
    if es == [] then [] else ColumnStmts(modifying, Props(es[0].1)) + AlterSectionStmts(modifying, es[1..])
  }

  /** The statements of a blueprint, in the order they are pushed. */
  function Planned(bp: Blueprint): (r: seq<Statement>)
    ensures AllRender(r)
  {
    CreateStmts(Props(Section(bp, "createTable")))
    + AlterSectionStmts(false, Props(Section(bp, "addColumn")))
    + AlterSectionStmts(true, Props(Section(bp, "modifyColumn")))
  }

  /** The query list returned for a blueprint. */
  function Statements(bp: Blueprint): seq<string> {
    SqlAll(Planned(bp))
  }

  // ---- Order ----

  function Rank(s: Statement): nat {
    match s
    case CreateTableStmt(_) => 0
    case AddColumnStmt(_, _, _) => 1
    case ModifyColumnStmt(_, _, _) => 2
  }

  predicate Ordered(ss: seq<Statement>) {
    forall i, j :: 0 <= i < j < |ss| ==> Rank(ss[i]) <= Rank(ss[j])
  }

  lemma OrderedConcat(c: seq<Statement>, a: seq<Statement>, m: seq<Statement>)
    requires forall s :: s in c ==> Rank(s) == 0
    requires forall s :: s in a ==> Rank(s) == 1
    requires forall s :: s in m ==> Rank(s) == 2
    ensures Ordered(c + a + m)
  {
    var p := c + a + m;
    forall i | 0 <= i < |p|
      ensures Rank(p[i]) == if i < |c| then 0 else if i < |c| + |a| then 1 else 2
    {
      if i < |c| {
        assert p[i] == c[i];
      } else if i < |c| + |a| {
        assert p[i] == a[i - |c|];
      } else {
        assert p[i] == m[i - |c| - |a|];
      }
    }
  }

  /** Every CREATE TABLE comes before every ADD COLUMN, which comes before every MODIFY COLUMN. */
  lemma PlannedOrdered(bp: Blueprint)
    ensures Ordered(Planned(bp))
  {
    var c := CreateStmts(Props(Section(bp, "createTable")));
    var a := AlterSectionStmts(false, Props(Section(bp, "addColumn")));
    var m := AlterSectionStmts(true, Props(Section(bp, "modifyColumn")));
    assert forall s :: s in a ==> AlterKind(false, s);
    assert forall s :: s in m ==> AlterKind(true, s);
    OrderedConcat(c, a, m);
  }

  /** The initial blueprint produces no statement. */
  lemma InitialPlansNothing()
    ensures Planned(InitialBlueprint) == []
  {
    assert Section(InitialBlueprint, "createTable") == Branch([]);
    assert Section(InitialBlueprint, "addColumn") == Branch([]);
    assert Section(InitialBlueprint, "modifyColumn") == Branch([]);
  }

  /** Whatever is filed under `addKey:<kind>` never changes the statements. */
  lemma AddKeyNotRendered(bp: Blueprint, k: KeyKind, t: string, id: string, v: Blueprint)
    ensures Planned(Set(bp, [AddKeySection(k), t, id], v)) == Planned(bp)
  {
    var p := [AddKeySection(k), t, id];
    SectionsDistinct(k);
    SectionOfSetOther(bp, p, v, "createTable");
    SectionOfSetOther(bp, p, v, "addColumn");
    SectionOfSetOther(bp, p, v, "modifyColumn");
  }

  // ---- Every statement is called for by the model ----

  /** What the model says about a statement: the table to create is missing, the column to add is missing, the column to modify differs. */
  predicate Justified(s: Statement, cat: map<string, Table>) {
    match s
    case CreateTableStmt(d) => d.tableName !in cat
    case AddColumnStmt(t, c, _) => t in cat && c !in cat[t].columns
    case ModifyColumnStmt(t, c, d) => t in cat && c in cat[t].columns && !CompareColumnDefinition(cat[t].columns[c], d)
  }

  lemma TidyChild(t: Blueprint, e: (string, Blueprint))
    requires Tidy(t) && e in Props(t)
    ensures Tidy(e.1) && Lookup(Props(t), e.0) == Some(e.1)
  {
    var i :| 0 <= i < |Props(t)| && Props(t)[i] == e;
    LookupEntry(Props(t), e.0, e.1);
  }

  lemma TidySection(bp: Blueprint, s: string)
    requires Tidy(bp)
    ensures Tidy(Section(bp, s))
  {
    if Lookup(Props(bp), s).Some? {
      TidyChild(bp, (s, Lookup(Props(bp), s).value));
    }
  }

  /** In a tidy section, an entry met while iterating is the one the path reaches. */
  lemma SlotOf(sec: Blueprint, e: (string, Blueprint), ce: (string, Blueprint))
    requires Tidy(sec) && e in Props(sec) && ce in Props(e.1)
    ensures Get(sec, [e.0]) == Some(e.1)
    ensures Get(sec, [e.0, ce.0]) == Some(ce.1)
  {
    TidyChild(sec, e);
    TidyChild(e.1, ce);
    GetOne(sec, e.0);
    GetTwo(sec, e.0, ce.0);
  }

  lemma CreateEntryJustified(sec: Blueprint, cat: map<string, Table>, e: (string, Blueprint))
    requires Tidy(sec) && CreatesValid(sec, cat) && e in Props(sec)
    requires CreateEntryDef(e.1).Some?
    ensures CreateEntryDef(e.1).value.tableName == e.0 && e.0 !in cat
  {
    TidyChild(sec, e);
    GetOne(sec, e.0);
    GetTwo(sec, e.0, "tableName");
  }

  lemma {:induction false} CreateStmtsJustified(sec: Blueprint, cat: map<string, Table>, es: seq<(string, Blueprint)>)
    requires Tidy(sec) && CreatesValid(sec, cat)
    requires forall i :: 0 <= i < |es| ==> es[i] in Props(sec)
    ensures forall s :: s in CreateStmts(es) ==> Justified(s, cat)
  {
    if es != [] {
      if CreateEntryDef(es[0].1).Some? {
        CreateEntryJustified(sec, cat, es[0]);
      }
      CreateStmtsJustified(sec, cat, es[1..]);
    }
  }

  ghost predicate AlterValid(modifying: bool, sec: Blueprint, cat: map<string, Table>) {
    if modifying then ModifyColumnsValid(sec, cat) else AddColumnsValid(sec, cat)
  }

  lemma ColumnEntryJustified(modifying: bool, sec: Blueprint, cat: map<string, Table>,
                             e: (string, Blueprint), ce: (string, Blueprint))
    requires Tidy(sec) && AlterValid(modifying, sec, cat) && e in Props(sec) && ce in Props(e.1)
    ensures forall s :: s in ColumnHead(modifying, ce) ==> Justified(s, cat)
  {
    SlotOf(sec, e, ce);
    assert Get(sec, [e.0, ce.0]).Some?;
  }

  lemma {:induction false} ColumnStmtsJustified(modifying: bool, sec: Blueprint, cat: map<string, Table>,
                                                e: (string, Blueprint), cs: seq<(string, Blueprint)>)
    requires Tidy(sec) && AlterValid(modifying, sec, cat) && e in Props(sec)
    requires forall i :: 0 <= i < |cs| ==> cs[i] in Props(e.1)
    ensures forall s :: s in ColumnStmts(modifying, cs) ==> Justified(s, cat)
  {
    if cs != [] {
      ColumnEntryJustified(modifying, sec, cat, e, cs[0]);
      ColumnStmtsJustified(modifying, sec, cat, e, cs[1..]);
    }
  }

  lemma {:induction false} AlterSectionJustified(modifying: bool, sec: Blueprint, cat: map<string, Table>,
                                                 es: seq<(string, Blueprint)>)
    requires Tidy(sec) && AlterValid(modifying, sec, cat)
    requires forall i :: 0 <= i < |es| ==> es[i] in Props(sec)
    ensures forall s :: s in AlterSectionStmts(modifying, es) ==> Justified(s, cat)
  {
    if es != [] {
      ColumnStmtsJustified(modifying, sec, cat, es[0], Props(es[0].1));
      AlterSectionJustified(modifying, sec, cat, es[1..]);
    }
  }

  /**
    Under the differ's invariant, every statement is called for by the
    model: CREATE TABLE only for a missing table, ADD COLUMN only for a
    column its table lacks, MODIFY COLUMN only for a column that exists
    and compares unequal.
  */
  lemma PlannedJustified(bp: Blueprint, cat: map<string, Table>)
    requires Inv(bp, cat) && Tidy(bp)
    ensures forall s :: s in Planned(bp) ==> Justified(s, cat)
  {
    TidySection(bp, "createTable");
    TidySection(bp, "addColumn");
    TidySection(bp, "modifyColumn");
    CreateStmtsJustified(Section(bp, "createTable"), cat, Props(Section(bp, "createTable")));
    AlterSectionJustified(false, Section(bp, "addColumn"), cat, Props(Section(bp, "addColumn")));
    AlterSectionJustified(true, Section(bp, "modifyColumn"), cat, Props(Section(bp, "modifyColumn")));
  }

  // ---- Every staged entry is rendered ----

  /** The two lookups a slot `[t, c]` of a section goes through. */
  lemma SlotLookups(sec: Blueprint, t: string, c: string) returns (tb: Blueprint)
    requires Get(sec, [t, c]).Some?
    ensures Lookup(Props(sec), t) == Some(tb)
    ensures Lookup(Props(tb), c) == Get(sec, [t, c])
    ensures (t, tb) in Props(sec) && (c, Get(sec, [t, c]).value) in Props(tb)
  {
    assert [t, c][0] == t && [t, c][1..] == [c];
    tb := Lookup(Props(sec), t).value;
    assert Get(sec, [t, c]) == Get(tb, [c]);
    assert [c][0] == c && [c][1..] == [];
    var x := Lookup(Props(tb), c).value;
    assert Get(x, []) == Some(x);
  }

  lemma {:induction false} ColumnStmtsHas(modifying: bool, cs: seq<(string, Blueprint)>, c: string, f: ColumnFact)
    requires (c, Leaf(ColumnEntry(f))) in cs
    ensures AlterStmt(modifying, f) in ColumnStmts(modifying, cs)
  {
    if cs[0] != (c, Leaf(ColumnEntry(f))) {
      assert cs == [cs[0]] + cs[1..];
      ColumnStmtsHas(modifying, cs[1..], c, f);
    }
  }

  lemma {:induction false} AlterSectionHas(modifying: bool, es: seq<(string, Blueprint)>, e: (string, Blueprint), s: Statement)
    requires e in es && s in ColumnStmts(modifying, Props(e.1))
    ensures s in AlterSectionStmts(modifying, es)
  {
    if es[0] != e {
      assert es == [es[0]] + es[1..];
      AlterSectionHas(modifying, es[1..], e, s);
    }
  }

  lemma {:induction false} CreateStmtsHas(es: seq<(string, Blueprint)>, e: (string, Blueprint))
    requires e in es && CreateEntryDef(e.1).Some?
    ensures CreateTableStmt(CreateEntryDef(e.1).value) in CreateStmts(es)
  {
    if es[0] != e {
      assert e in es[1..];
      CreateStmtsHas(es[1..], e);
    }
  }

  /** A column staged in an alter section yields its ALTER statement. */
  lemma AlterSlotPlanned(modifying: bool, sec: Blueprint, t: string, c: string, f: ColumnFact)
    requires Get(sec, [t, c]) == Some(Leaf(ColumnEntry(f)))
    ensures AlterStmt(modifying, f) in AlterSectionStmts(modifying, Props(sec))
  {
    var tb := SlotLookups(sec, t, c);
    ColumnStmtsHas(modifying, Props(tb), c, f);
    AlterSectionHas(modifying, Props(sec), (t, tb), AlterStmt(modifying, f));
  }

  /** A column fact staged under `addColumn` or `modifyColumn` yields its statement, with its definition. */
  lemma AlterEntryPlanned(bp: Blueprint, modifying: bool, t: string, c: string, f: ColumnFact)
    requires Get(bp, [if modifying then "modifyColumn" else "addColumn", t, c]) == Some(Leaf(ColumnEntry(f)))
    ensures AlterStmt(modifying, f) in Planned(bp)
  {
    var name := if modifying then "modifyColumn" else "addColumn";
    var sec := Section(bp, name);
    GetSection(bp, name, [t, c]);
    AlterSlotPlanned(modifying, sec, t, c, f);
    var creates := CreateStmts(Props(Section(bp, "createTable")));
    var adds := AlterSectionStmts(false, Props(Section(bp, "addColumn")));
    var mods := AlterSectionStmts(true, Props(Section(bp, "modifyColumn")));
    assert Planned(bp) == creates + adds + mods;
  }

  /** Under the invariant, a column staged under `addColumn` yields an ADD COLUMN for it. */
  lemma AddColumnPlanned(bp: Blueprint, cat: map<string, Table>, t: string, c: string)
    requires Inv(bp, cat) && Get(bp, ["addColumn", t, c]).Some?
    ensures exists d :: AddColumnStmt(t, c, d) in Planned(bp)
  {
    var sec := Section(bp, "addColumn");
    GetSection(bp, "addColumn", [t, c]);
    var f := Get(sec, [t, c]).value.value.column;
    AlterSlotPlanned(false, sec, t, c, f);
    var stmts := AlterSectionStmts(false, Props(sec));
    var all := CreateStmts(Props(Section(bp, "createTable"))) + stmts
      + AlterSectionStmts(true, Props(Section(bp, "modifyColumn")));
    assert AddColumnStmt(t, c, f.def) in all;
  }

  /** Under the invariant, a column staged under `modifyColumn` yields a MODIFY COLUMN for it. */
  lemma ModifyColumnPlanned(bp: Blueprint, cat: map<string, Table>, t: string, c: string)
    requires Inv(bp, cat) && Get(bp, ["modifyColumn", t, c]).Some?
    ensures exists d :: ModifyColumnStmt(t, c, d) in Planned(bp)
  {
    var sec := Section(bp, "modifyColumn");
    GetSection(bp, "modifyColumn", [t, c]);
    var f := Get(sec, [t, c]).value.value.column;
    AlterSlotPlanned(true, sec, t, c, f);
    var stmts := AlterSectionStmts(true, Props(sec));
    var all := CreateStmts(Props(Section(bp, "createTable")))
      + AlterSectionStmts(false, Props(Section(bp, "addColumn"))) + stmts;
    assert ModifyColumnStmt(t, c, f.def) in all;
  }

  /** A table marked for creation has an entry in the section that yields a CREATE TABLE of it. */
  lemma CreateEntryOf(sec: Blueprint, cat: map<string, Table>, t: string) returns (e: Blueprint)
    requires CreatesValid(sec, cat) && Get(sec, [t, "tableName"]).Some? && t != ""
    ensures (t, e) in Props(sec) && Lookup(Props(sec), t) == Some(e)
    ensures CreateEntryDef(e).Some? && CreateEntryDef(e).value.tableName == t
  {
    GetTwo(sec, t, "tableName");
    e := Lookup(Props(sec), t).value;
    GetOne(sec, t);
    assert Get(sec, [t, "tableName"]) == Some(Leaf(TableName(t)));
    assert Lookup(Props(e), "tableName") == Some(Leaf(TableName(t)));
  }

  /** Every CREATE TABLE of the `createTable` section is among the planned statements. */
  lemma CreatePlanned(bp: Blueprint, s: Statement)
    requires s in CreateStmts(Props(Section(bp, "createTable")))
    ensures s in Planned(bp)
  {
  }

  /**
    Under the invariant, a table staged under `createTable` yields a CREATE
    TABLE of that name, unless the name is empty (a falsy `tableName`).
  */
  lemma CreateTablePlanned(bp: Blueprint, cat: map<string, Table>, t: string)
    requires Inv(bp, cat) && Get(bp, ["createTable", t, "tableName"]).Some? && t != ""
    ensures exists d :: CreateTableStmt(d) in Planned(bp) && d.tableName == t
  {
    var sec := Section(bp, "createTable");
    GetSection(bp, "createTable", [t, "tableName"]);
    var e := CreateEntryOf(sec, cat, t);
    CreateStmtsHas(Props(sec), (t, e));
    CreatePlanned(bp, CreateTableStmt(CreateEntryDef(e).value));
  }

  /** The entry of table `t` in the `createTable` section, and the CREATE TABLE it yields. */
  lemma CreateEntryPlanned(bp: Blueprint, cat: map<string, Table>, t: string) returns (e: Blueprint)
    requires CreatesValid(Section(bp, "createTable"), cat) && Get(bp, ["createTable", t, "tableName"]).Some? && t != ""
    ensures Lookup(Props(Section(bp, "createTable")), t) == Some(e)
    ensures CreateEntryDef(e).Some? && CreateEntryDef(e).value.tableName == t
    ensures CreateTableStmt(CreateEntryDef(e).value) in Planned(bp)
  {
    var sec := Section(bp, "createTable");
    GetSection(bp, "createTable", [t, "tableName"]);
    e := CreateEntryOf(sec, cat, t);
    CreateStmtsHas(Props(sec), (t, e));
    CreatePlanned(bp, CreateTableStmt(CreateEntryDef(e).value));
  }

  /** Below the entry of table `t`, a path reads the entry itself. */
  lemma CreateEntryPath(bp: Blueprint, t: string, e: Blueprint, a: string, b: string)
    requires Lookup(Props(Section(bp, "createTable")), t) == Some(e)
    ensures Get(bp, ["createTable", t, a, b]) == Get(e, [a, b])
  {
    GetSection(bp, "createTable", [t, a, b]);
    assert [t, a, b][0] == t && [t, a, b][1..] == [a, b];
  }

  /** A column staged under a table to create is a column, with that definition, of the table's CREATE TABLE. */
  lemma CreatedColumnPlanned(bp: Blueprint, cat: map<string, Table>, t: string, c: string, f: ColumnFact)
    requires CreatesValid(Section(bp, "createTable"), cat) && Get(bp, ["createTable", t, "tableName"]).Some? && t != ""
    requires Get(bp, ["createTable", t, "columns", c]) == Some(Leaf(ColumnEntry(f)))
    ensures exists d :: CreateTableStmt(d) in Planned(bp) && d.tableName == t && (c, f.def) in d.columns
  {
    var e := CreateEntryPlanned(bp, cat, t);
    CreateEntryPath(bp, t, e, "columns", c);
    CreateEntryColumn(e, c, f);
    var d := CreateEntryDef(e).value;
    assert CreateTableStmt(d) in Planned(bp) && d.tableName == t && (c, f.def) in d.columns;
  }

  /**
    A key staged under a table to create is listed by the table's CREATE
    TABLE: a unique key or key by its id, a primary key among the ids of
    the primary-key object.
  */
  lemma CreatedKeyPlanned(bp: Blueprint, cat: map<string, Table>, k: KeyKind, t: string, id: string, f: KeyFact)
    requires CreatesValid(Section(bp, "createTable"), cat) && Get(bp, ["createTable", t, "tableName"]).Some? && t != ""
    requires Get(bp, ["createTable", t, KindProperty(k), id]) == Some(Leaf(KeyEntry(f)))
    ensures exists d :: && CreateTableStmt(d) in Planned(bp) && d.tableName == t
                        && (k == UniqueKey ==> f.id in d.uniqueKeys)
                        && (k == Key ==> f.id in d.keys)
                        && (k == PrimaryKey ==> d.primaryKey.PrimaryKeyIds? && id in d.primaryKey.ids)
  {
    var e := CreateEntryPlanned(bp, cat, t);
    CreateEntryPath(bp, t, e, KindProperty(k), id);
    CreateEntryKeyListed(e, k, id, f);
    var d := CreateEntryDef(e).value;
    assert CreateTableStmt(d) in Planned(bp) && d.tableName == t;
  }

  /** A key of any kind staged under a `createTable` entry is listed by its CREATE TABLE. */
  lemma CreateEntryKeyListed(e: Blueprint, k: KeyKind, id: string, f: KeyFact)
    requires CreateEntryDef(e).Some? && Get(e, [KindProperty(k), id]) == Some(Leaf(KeyEntry(f)))
    ensures var d := CreateEntryDef(e).value;
      && (k == UniqueKey ==> f.id in d.uniqueKeys)
      && (k == Key ==> f.id in d.keys)
      && (k == PrimaryKey ==> d.primaryKey.PrimaryKeyIds? && id in d.primaryKey.ids)
  {
    if k == PrimaryKey {
      assert [KindProperty(k), id] == ["primaryKey", id];
      CreateEntryPrimaryKey(e, id);
    } else if k == UniqueKey || k == Key {
      CreateEntryKey(e, k, id, f);
    }
  }

  // ---- Every statement comes from a staged entry ----

  /** A statement of a table's columns comes from one of its column entries. */
  lemma {:induction false} ColumnStmtsFrom(modifying: bool, cs: seq<(string, Blueprint)>, s: Statement)
    returns (c: string, f: ColumnFact)
    requires s in ColumnStmts(modifying, cs)
    ensures (c, Leaf(ColumnEntry(f))) in cs && s == AlterStmt(modifying, f)
    decreases |cs|
  {
    if s in ColumnHead(modifying, cs[0]) {
      c, f := cs[0].0, cs[0].1.value.column;
      assert cs[0] == (c, Leaf(ColumnEntry(f)));
    } else {
      c, f := ColumnStmtsFrom(modifying, cs[1..], s);
    }
  }

  /** A statement of an alter section comes from a column entry of one of its tables. */
  lemma {:induction false} AlterSectionFrom(modifying: bool, es: seq<(string, Blueprint)>, s: Statement)
    returns (e: (string, Blueprint), c: string, f: ColumnFact)
    requires s in AlterSectionStmts(modifying, es)
    ensures e in es && (c, Leaf(ColumnEntry(f))) in Props(e.1) && s == AlterStmt(modifying, f)
    decreases |es|
  {
    if s in ColumnStmts(modifying, Props(es[0].1)) {
      e := es[0];
      c, f := ColumnStmtsFrom(modifying, Props(e.1), s);
    } else {
      e, c, f := AlterSectionFrom(modifying, es[1..], s);
    }
  }

  /** A CREATE TABLE comes from an entry of the `createTable` section. */
  lemma {:induction false} CreateStmtsFrom(es: seq<(string, Blueprint)>, s: Statement) returns (e: (string, Blueprint))
    requires s in CreateStmts(es)
    ensures e in es && CreateEntryDef(e.1).Some? && s == CreateTableStmt(CreateEntryDef(e.1).value)
    decreases |es|
  {
    if s in CreateHead(es[0]) {
      e := es[0];
    } else {
      e := CreateStmtsFrom(es[1..], s);
    }
  }

  /** In a tidy blueprint, every ADD COLUMN and MODIFY COLUMN is the statement of the fact in a slot of its section. */
  lemma AlterSlotOf(bp: Blueprint, name: string, modifying: bool, s: Statement) returns (t: string, c: string, f: ColumnFact)
    requires Tidy(bp) && s in AlterSectionStmts(modifying, Props(Section(bp, name)))
    ensures Get(Section(bp, name), [t, c]) == Some(Leaf(ColumnEntry(f)))
    ensures s == AlterStmt(modifying, f)
  {
    TidySection(bp, name);
    var e;
    e, c, f := AlterSectionFrom(modifying, Props(Section(bp, name)), s);
    t := e.0;
    SlotOf(Section(bp, name), e, (c, Leaf(ColumnEntry(f))));
  }

  /** In a tidy blueprint under the invariant, every CREATE TABLE is that of the entry of its own table. */
  lemma CreateSlotOf(bp: Blueprint, cat: map<string, Table>, s: Statement) returns (e: (string, Blueprint))
    requires Tidy(bp) && CreatesValid(Section(bp, "createTable"), cat)
    requires s in CreateStmts(Props(Section(bp, "createTable")))
    ensures e in Props(Section(bp, "createTable")) && Get(Section(bp, "createTable"), [e.0]).Some?
    ensures CreateEntryDef(e.1).Some? && s == CreateTableStmt(CreateEntryDef(e.1).value) && s.table.tableName == e.0
    ensures s.table.columns == ColumnList(Props(Section(e.1, "columns")))
  {
    var sec := Section(bp, "createTable");
    TidySection(bp, "createTable");
    e := CreateStmtsFrom(Props(sec), s);
    CreateEntryJustified(sec, cat, e);
    GetOne(sec, e.0);
  }

  /** A column listed by a `createTable` entry of a tidy blueprint is the fact in its slot. */
  lemma CreateColumnFrom(bp: Blueprint, e: (string, Blueprint), c: string, def: ColumnDef) returns (f: ColumnFact)
    requires Tidy(bp) && e in Props(Section(bp, "createTable"))
    requires (c, def) in ColumnList(Props(Section(e.1, "columns")))
    ensures Get(bp, ["createTable", e.0, "columns", c]) == Some(Leaf(ColumnEntry(f))) && f.def == def
  {
    var sec := Section(bp, "createTable");
    TidySection(bp, "createTable");
    TidyChild(sec, e);
    ColumnListOnly(Props(Section(e.1, "columns")), c, def);
    f :| (c, Leaf(ColumnEntry(f))) in Props(Section(e.1, "columns")) && f.def == def;
    var cols := Section(e.1, "columns");
    assert Lookup(Props(e.1), "columns") == Some(cols);
    TidySection(e.1, "columns");
    TidyChild(cols, (c, Leaf(ColumnEntry(f))));
    GetTwo(e.1, "columns", c);
    CreateEntryPath(bp, e.0, e.1, "columns", c);
  }

  /**
    In a blueprint whose column slots all hold facts of `ls`, every ADD
    COLUMN and MODIFY COLUMN is the statement of one of those facts.
  */
  lemma AlterFromFacts(bp: Blueprint, ls: seq<ColumnFact>, names: set<string>, modifying: bool, s: Statement)
    requires Backed(bp, ls, names) && Tidy(bp)
    requires s in AlterSectionStmts(modifying, Props(Section(bp, if modifying then "modifyColumn" else "addColumn")))
    ensures exists g :: g in ls && s == AlterStmt(modifying, g)
  {
    var name := if modifying then "modifyColumn" else "addColumn";
    var t, c, f := AlterSlotOf(bp, name, modifying, s);
    BackedAlterSlot(bp, ls, names, name, t, c);
  }

  /** In a backed, tidy blueprint, a column listed by a `createTable` entry comes from a fact of `ls` for that table and column. */
  lemma CreateColumnBacked(bp: Blueprint, ls: seq<ColumnFact>, names: set<string>, e: (string, Blueprint), c: string, def: ColumnDef)
    requires Backed(bp, ls, names) && Tidy(bp) && e in Props(Section(bp, "createTable"))
    requires (c, def) in ColumnList(Props(Section(e.1, "columns")))
    ensures exists g :: g in ls && g.tableName == e.0 && g.columnName == c && g.def == def
  {
    var f := CreateColumnFrom(bp, e, c, def);
    BackedSlot(bp, ls, names, ["createTable", e.0, "columns", c]);
  }

  /**
    In a blueprint whose entries all come from the facts, every CREATE TABLE
    names a table of `names`, and each of its columns is a fact of `ls` for
    that table and column, with that definition.
  */
  lemma CreateFromFacts(bp: Blueprint, cat: map<string, Table>, ls: seq<ColumnFact>, names: set<string>, s: Statement)
    requires Backed(bp, ls, names) && Tidy(bp) && CreatesValid(Section(bp, "createTable"), cat)
    requires s in CreateStmts(Props(Section(bp, "createTable")))
    ensures s.CreateTableStmt? && s.table.tableName in names
    ensures forall c, def :: (c, def) in s.table.columns ==>
      exists g :: g in ls && g.tableName == s.table.tableName && g.columnName == c && g.def == def
  {
    var e := CreateSlotOf(bp, cat, s);
    BackedName(bp, ls, names, e.0);
    forall c, def | (c, def) in s.table.columns
      ensures exists g :: g in ls && g.tableName == e.0 && g.columnName == c && g.def == def
    {
      CreateColumnBacked(bp, ls, names, e, c, def);
    }
  }

  // ---- The loops that push the queries ----

  lemma {:induction false} CreateStmtsAppend(a: seq<(string, Blueprint)>, b: seq<(string, Blueprint)>)
    ensures CreateStmts(a + b) == CreateStmts(a) + CreateStmts(b)
  {
    if a == [] {
      assert a + b == b;
    } else {
      var ab := a + b;
      assert ab[0] == a[0] && ab[1..] == a[1..] + b;
      CreateStmtsAppend(a[1..], b);
    }
  }

  lemma {:induction false} ColumnStmtsAppend(modifying: bool, a: seq<(string, Blueprint)>, b: seq<(string, Blueprint)>)
    ensures ColumnStmts(modifying, a + b) == ColumnStmts(modifying, a) + ColumnStmts(modifying, b)
  {
    if a == [] {
      assert a + b == b;
    } else {
      assert (a + b)[1..] == a[1..] + b;
      ColumnStmtsAppend(modifying, a[1..], b);
    }
  }

  lemma {:induction false} AlterSectionStmtsAppend(modifying: bool, a: seq<(string, Blueprint)>, b: seq<(string, Blueprint)>)
    ensures AlterSectionStmts(modifying, a + b) == AlterSectionStmts(modifying, a) + AlterSectionStmts(modifying, b)
  {
    if a == [] {
      assert a + b == b;
    } else {
      assert (a + b)[1..] == a[1..] + b;
      AlterSectionStmtsAppend(modifying, a[1..], b);
    }
  }

  /** The query one `createTable` entry pushes: none unless its `tableName` is set. */
  function CreateQuery(e: (string, Blueprint)): seq<string> {
    match CreateEntryDef(e.1)
    case Some(d) => [CreateTableSql(d)]
    case None => []
  }

  /** The query one staged column pushes. */
  function AlterQuery(modifying: bool, c: (string, Blueprint)): seq<string> {
    if c.1.Leaf? && c.1.value.ColumnEntry? then [SqlOf(AlterStmt(modifying, c.1.value.column))] else []
  }

  lemma CreateQueriesStep(es: seq<(string, Blueprint)>, i: int)
    requires 0 <= i < |es|
    ensures SqlAll(CreateStmts(es[..i + 1])) == SqlAll(CreateStmts(es[..i])) + CreateQuery(es[i])
  {
    assert es[..i + 1] == es[..i] + [es[i]];
    CreateStmtsAppend(es[..i], [es[i]]);
    SqlAllAppend(CreateStmts(es[..i]), CreateStmts([es[i]]));
    CreateQueryOne(es[i]);
  }

  lemma CreateQueryOne(e: (string, Blueprint))
    ensures SqlAll(CreateStmts([e])) == CreateQuery(e)
  {
    assert [e][1..] == [];
    match CreateEntryDef(e.1)
    case Some(d) =>
      assert CreateStmts([e]) == [CreateTableStmt(d)];
    case None =>
      assert CreateStmts([e]) == [];
  }

  lemma ColumnQueryOne(modifying: bool, c: (string, Blueprint))
    ensures SqlAll(ColumnStmts(modifying, [c])) == AlterQuery(modifying, c)
  {
    assert [c][1..] == [];
    match c.1
    case Leaf(ColumnEntry(f)) =>
      assert ColumnStmts(modifying, [c]) == [AlterStmt(modifying, f)];
    case _ =>
      assert ColumnStmts(modifying, [c]) == [];
  }

  lemma AlterQueryOf(modifying: bool, c: (string, Blueprint), f: ColumnFact)
    requires c.1 == Leaf(ColumnEntry(f))
    ensures AlterQuery(modifying, c) == if modifying then [ModifyColumnSql(f.tableName, f.columnName, f.def)]
                                        else [AddColumnSql(f.tableName, f.columnName, f.def)]
  {
  }

  lemma ColumnQueriesStep(modifying: bool, cs: seq<(string, Blueprint)>, j: int)
    requires 0 <= j < |cs|
    ensures SqlAll(ColumnStmts(modifying, cs[..j + 1])) == SqlAll(ColumnStmts(modifying, cs[..j])) + AlterQuery(modifying, cs[j])
  {
    assert cs[..j + 1] == cs[..j] + [cs[j]];
    ColumnStmtsAppend(modifying, cs[..j], [cs[j]]);
    SqlAllAppend(ColumnStmts(modifying, cs[..j]), ColumnStmts(modifying, [cs[j]]));
    ColumnQueryOne(modifying, cs[j]);
  }

  lemma AlterQueriesStep(modifying: bool, es: seq<(string, Blueprint)>, i: int)
    requires 0 <= i < |es|
    ensures SqlAll(AlterSectionStmts(modifying, es[..i + 1]))
         == SqlAll(AlterSectionStmts(modifying, es[..i])) + SqlAll(ColumnStmts(modifying, Props(es[i].1)))
  {
    assert es[..i + 1] == es[..i] + [es[i]];
    AlterSectionStmtsAppend(modifying, es[..i], [es[i]]);
    assert [es[i]][1..] == [];
    assert AlterSectionStmts(modifying, [es[i]]) == ColumnStmts(modifying, Props(es[i].1));
    SqlAllAppend(AlterSectionStmts(modifying, es[..i]), ColumnStmts(modifying, Props(es[i].1)));
  }

  /** The loop over the `createTable` entries, in insertion order, pushing one query per entry that has a name. */
  method CreateQueries(es: seq<(string, Blueprint)>) returns (qs: seq<string>)
    ensures qs == SqlAll(CreateStmts(es))
  {
    qs := [];
    for i := 0 to |es|
      invariant qs == SqlAll(CreateStmts(es[..i]))
    {
      CreateQueriesStep(es, i);
      var def := CreateEntryDef(es[i].1);
      if def.Some? {
        qs := qs + [CreateTableSql(def.value)];
      }
    }
    assert es[..|es|] == es;
  }

  /**
    The nested loops over the `addColumn` (or `modifyColumn`) section:
    tables in order, and within each table its columns in order.
  */
  method AlterQueries(modifying: bool, es: seq<(string, Blueprint)>) returns (qs: seq<string>)
    ensures qs == SqlAll(AlterSectionStmts(modifying, es))
  {
    qs := [];
    for i := 0 to |es|
      invariant qs == SqlAll(AlterSectionStmts(modifying, es[..i]))
    {
      var columns := Props(es[i].1);
      // the queries of this table's columns, pushed after those of the tables before it
      var pushed := [];
      for j := 0 to |columns|
        invariant pushed == SqlAll(ColumnStmts(modifying, columns[..j]))
      {
        ColumnQueriesStep(modifying, columns, j);
        var entry := columns[j].1;
        if entry.Leaf? && entry.value.ColumnEntry? {
          var f := entry.value.column;
          AlterQueryOf(modifying, columns[j], f);
          if modifying {
            pushed := pushed + [ModifyColumnSql(f.tableName, f.columnName, f.def)];
          } else {
            pushed := pushed + [AddColumnSql(f.tableName, f.columnName, f.def)];
          }
        }
      }
      assert columns[..|columns|] == columns;
      AlterQueriesStep(modifying, es, i);
      qs := qs + pushed;
    }
    assert es[..|es|] == es;
  }

  /** The rendering loops: the queries are the blueprint's statements, in order. */
  method RenderQueries(bp: Blueprint) returns (queries: seq<string>)
    ensures queries == Statements(bp)
  {
    var c := CreateStmts(Props(Section(bp, "createTable")));
    var a := AlterSectionStmts(false, Props(Section(bp, "addColumn")));
    var m := AlterSectionStmts(true, Props(Section(bp, "modifyColumn")));
    queries := CreateQueries(Props(Section(bp, "createTable")));
    var adds := AlterQueries(false, Props(Section(bp, "addColumn")));
    queries := queries + adds;
    var changes := AlterQueries(true, Props(Section(bp, "modifyColumn")));
    queries := queries + changes;
    SqlAllAppend(c, a);
    SqlAllAppend(c + a, m);
  }
}
