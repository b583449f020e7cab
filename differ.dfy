/**
  The differ of scheman.js: `compareColumnDefinition` (lines 21-35) and the
  classification half of `queriesNeededToMaterializeFacts` (lines 216-291),
  which files every fact that is not yet true of the loaded model into the
  blueprint through `set`.
*/
module Differ {
  import opened Options
  import opened JsValue
  import opened OrderedMap
  import opened PathTree
  import opened ColumnDefinition
  import opened Catalog
  import opened Facts

  /** What the blueprint stores: a table name, a column fact or a key fact. */
  datatype Staged = TableName(name: string) | ColumnEntry(column: ColumnFact) | KeyEntry(key: KeyFact)

  type Blueprint = Tree<Staged>

  /** The blueprint as the engine starts it: three empty sections. */
  const InitialBlueprint: Blueprint :=
    Branch([("createTable", Branch([])), ("addColumn", Branch([])), ("modifyColumn", Branch([]))])

  /** The section name `addKey:<kind>` under which keys of existing tables are filed. */
  function AddKeySection(k: KeyKind): string {
    "addKey:" + KindName(k)
  }

  // ---- compareColumnDefinition ----

  /** The wanted type, followed by its length in parentheses when the length is truthy. */
  function WantedColumnType(wanted: ColumnDef): string {
    ToStr(wanted.typeName) + ToStr(Or(And(wanted.length, Str("(" + ToStr(wanted.length) + ")")), Str("")))
  }

  /** The catalog default as compared: a falsy one counts as `NULL`. */
  function CurrentDefaultText(v: JsVal): string {
    if Truthy(v) then ToStr(v) else "NULL"
  }

  /** The wanted default as compared: `null` and a missing default count as `NULL`. */
  function WantedDefaultText(v: JsVal): string {
    if LooselyNull(v) then "NULL" else ToStr(v)
  }

  /**
    The column comparison of the differ: true exactly when the catalog
    type is the wanted type followed by `(length)` when the length is set,
    and the two defaults agree once missing ones are read as `NULL`.
  */
  function CompareColumnDefinition(current: ColumnRow, wanted: ColumnDef): (r: bool)
    ensures r <==>
      && current.columnType == ToStr(wanted.typeName) + (if Truthy(wanted.length) then "(" + ToStr(wanted.length) + ")" else "")
      && CurrentDefaultText(current.columnDefault) == WantedDefaultText(wanted.default)
  {
    if current.columnType != WantedColumnType(wanted)
       || ToStr(Or(current.columnDefault, Str("NULL")))
          != ToStr(Or(And(Bool(LooselyNull(wanted.default)), Str("NULL")), wanted.default))
    then false
    else true
  }

  /**
    Only the type, the length and the default are compared: a change of
    precision, scale, nullability, comment or any other attribute alone is
    never reported.
  */
  lemma CompareReadsTypeLengthDefault(current: ColumnRow, a: ColumnDef, b: ColumnDef)
    requires a.typeName == b.typeName && a.length == b.length && a.default == b.default
    ensures CompareColumnDefinition(current, a) == CompareColumnDefinition(current, b)
  {
  }

  /** A wanted default of `''` never matches, whatever the catalog holds. */
  lemma EmptyDefaultNeverMatches(current: ColumnRow, wanted: ColumnDef)
    requires wanted.default == Str("")
    ensures !CompareColumnDefinition(current, wanted)
  {
    assert WantedDefaultText(wanted.default) == "";
  }

  /** Without precision, the compared type is the type the renderer writes. */
  lemma ComparedTypeIsRenderedType(wanted: ColumnDef)
    requires wanted.typeName.Str? && wanted.typeName.s != "" && !Truthy(wanted.precision)
    ensures WantedColumnType(wanted) == TypeText(wanted)
  {
  }

  // ---- Staging one fact ----

  /** Marks a table for creation: its name is written under `createTable`, at its own `tableName` slot. */
  function MarkCreate(bp: Blueprint, t: string): Blueprint {
    Set(bp, ["createTable", t, "tableName"], Leaf(TableName(t)))
  }

  /** A table fact: a table missing from the model is marked for creation. */
  function StageTableFact(bp: Blueprint, cat: map<string, Table>, tf: TableFact): Blueprint {
    if tf.tableName in cat then bp else MarkCreate(bp, tf.tableName)
  }

  /**
    A column fact: nothing when the column exists and compares equal;
    `modifyColumn` when it exists and differs; `addColumn` when the table
    exists without it; a column of the table to create otherwise.
  */
  function StageColumnFact(bp: Blueprint, cat: map<string, Table>, f: ColumnFact): Blueprint {
    var t, c := f.tableName, f.columnName;
    if t in cat then
      if c in cat[t].columns then
        if !CompareColumnDefinition(cat[t].columns[c], f.def) then
          Set(bp, ["modifyColumn", t, c], Leaf(ColumnEntry(f)))
        else bp
      else Set(bp, ["addColumn", t, c], Leaf(ColumnEntry(f)))
    else Set(MarkCreate(bp, t), ["createTable", t, "columns", c], Leaf(ColumnEntry(f)))
  }

  /**
    A key fact: nothing when its id is among the table's keys of the kind;
    `addKey:<kind>` when the table exists without it; a key of the table to
    create otherwise.
  */
  function StageKeyFact(bp: Blueprint, cat: map<string, Table>, k: KeyKind, f: KeyFact): Blueprint {
    var t, id := f.tableName, f.id;
    if t in cat then
      if id in KeyIds(cat[t], k) then bp
      else Set(bp, [AddKeySection(k), t, id], Leaf(KeyEntry(f)))
    else Set(MarkCreate(bp, t), ["createTable", t, KindProperty(k), id], Leaf(KeyEntry(f)))
  }

  // ---- The passes ----

  function StageTables(bp: Blueprint, cat: map<string, Table>, tfs: seq<TableFact>): Blueprint {
    if tfs == [] then bp else StageTableFact(StageTables(bp, cat, tfs[..|tfs| - 1]), cat, tfs[|tfs| - 1])
  }

  function StageColumns(bp: Blueprint, cat: map<string, Table>, fs: seq<ColumnFact>): Blueprint {
    if fs == [] then bp else StageColumnFact(StageColumns(bp, cat, fs[..|fs| - 1]), cat, fs[|fs| - 1])
  }

  function StageKeys(bp: Blueprint, cat: map<string, Table>, k: KeyKind, fs: seq<KeyFact>): Blueprint {
    if fs == [] then bp else StageKeyFact(StageKeys(bp, cat, k, fs[..|fs| - 1]), cat, k, fs[|fs| - 1])
  }

  lemma StageTablesPrefix(bp: Blueprint, cat: map<string, Table>, tfs: seq<TableFact>, i: int)
    requires 0 <= i < |tfs|
    ensures StageTables(bp, cat, tfs[..i + 1]) == StageTableFact(StageTables(bp, cat, tfs[..i]), cat, tfs[i])
  {
    assert tfs[..i + 1][..i] == tfs[..i];
  }

  lemma StageColumnsPrefix(bp: Blueprint, cat: map<string, Table>, fs: seq<ColumnFact>, i: int)
    requires 0 <= i < |fs|
    ensures StageColumns(bp, cat, fs[..i + 1]) == StageColumnFact(StageColumns(bp, cat, fs[..i]), cat, fs[i])
  {
    assert fs[..i + 1][..i] == fs[..i];
  }

  lemma StageKeysPrefix(bp: Blueprint, cat: map<string, Table>, k: KeyKind, fs: seq<KeyFact>, i: int)
    requires 0 <= i < |fs|
    ensures StageKeys(bp, cat, k, fs[..i + 1]) == StageKeyFact(StageKeys(bp, cat, k, fs[..i]), cat, k, fs[i])
  {
    assert fs[..i + 1][..i] == fs[..i];
  }

  /** The key passes, in the order of `keyTypes`: primary keys, keys, unique keys, foreign keys. */
  function StageAllKeys(bp: Blueprint, cat: map<string, Table>, fs: Facts): Blueprint {
    var b1 := StageKeys(bp, cat, PrimaryKey, fs.primaryKey.mustExist);
    var b2 := StageKeys(b1, cat, Key, fs.key.mustExist);
    var b3 := StageKeys(b2, cat, UniqueKey, fs.uniqueKey.mustExist);
    StageKeys(b3, cat, ForeignKey, fs.foreignKey.mustExist)
  }

  /** The four key passes, run one after the other, make up the key stage. */
  lemma StageAllKeysPasses(b0: Blueprint, b1: Blueprint, b2: Blueprint, b3: Blueprint, b4: Blueprint,
                           cat: map<string, Table>, fs: Facts)
    requires b1 == StageKeys(b0, cat, PrimaryKey, fs.primaryKey.mustExist)
    requires b2 == StageKeys(b1, cat, Key, fs.key.mustExist)
    requires b3 == StageKeys(b2, cat, UniqueKey, fs.uniqueKey.mustExist)
    requires b4 == StageKeys(b3, cat, ForeignKey, fs.foreignKey.mustExist)
    ensures b4 == StageAllKeys(b0, cat, fs)
  {
  }

  /**
    The blueprint after one run of the differ from ledger `fs`: table facts,
    then the (expanded) column facts, then the key facts. Only `mustExist`
    lists are read.
  */
  function Plan(bp: Blueprint, cat: map<string, Table>, fs: Facts): Blueprint {
    var ex := Expand(fs);
    StageAllKeys(StageColumns(StageTables(bp, cat, fs.table.mustExist), cat, ex.column.mustExist), cat, ex)
  }

  /** The table pass, the column pass over the expanded ledger, then the key stage, make up a plan. */
  lemma PlanPasses(b0: Blueprint, b1: Blueprint, b2: Blueprint, b3: Blueprint,
                   cat: map<string, Table>, fs: Facts, ex: Facts)
    requires ex == Expand(fs)
    requires b1 == StageTables(b0, cat, fs.table.mustExist)
    requires b2 == StageColumns(b1, cat, ex.column.mustExist)
    requires b3 == StageAllKeys(b2, cat, ex)
    ensures b3 == Plan(b0, cat, fs)
  {
  }

  // ---- Reading the blueprint by section ----

  /** The section `s` of a blueprint, an empty object when the section was never written. */
  function Section(bp: Blueprint, s: string): Blueprint {
    match Lookup(Props(bp), s)
    case Some(c) => c
    case None => Branch([])
  }

  lemma GetSection(bp: Blueprint, s: string, q: seq<string>)
    requires q != []
    ensures Get(bp, [s] + q) == Get(Section(bp, s), q)
  {
    assert ([s] + q)[0] == s && ([s] + q)[1..] == q;
  }

  /** Writing into one section leaves every other section as it was. */
  lemma SectionOfSetOther(bp: Blueprint, p: seq<string>, v: Blueprint, s: string)
    requires p != [] && p[0] != s
    ensures Section(Set(bp, p, v), s) == Section(bp, s)
  {
    var child := match Lookup(Props(bp), p[0]) case Some(c) => c case None => Branch([]);
    var next := if |p| == 1 then v else Set(child, p[1..], v);
    LookupPutOther(Props(bp), p[0], next, s);
  }

  /** Writing into a section is writing the rest of the path inside it. */
  lemma SectionOfSetSame(bp: Blueprint, p: seq<string>, v: Blueprint)
    requires |p| >= 2
    ensures Section(Set(bp, p, v), p[0]) == Set(Section(bp, p[0]), p[1..], v)
  {
    var child := match Lookup(Props(bp), p[0]) case Some(c) => c case None => Branch([]);
    LookupPutSame(Props(bp), p[0], Set(child, p[1..], v));
  }

  /** Within a section, a write at `[a, b]` changes the slot `[a, b]` only. */
  lemma SetSlot(sec: Blueprint, a: string, b: string, v: Blueprint, x: string, y: string)
    ensures Get(Set(sec, [a, b], v), [x, y]) == if x == a && y == b then Some(v) else Get(sec, [x, y])
  {
    if x == a && y == b {
      SetReadBack(sec, [a, b], v);
    } else {
      assert [a, b][1..] == [b] && [x, y][1..] == [y];
      assert Diverge([a, b], [x, y]);
      SetKeepsSiblings(sec, [a, b], v, [x, y]);
    }
  }

  /** Within a section, a write below `[a]` creates `[a]` and leaves every other entry. */
  lemma SetEntry(sec: Blueprint, p: seq<string>, v: Blueprint, x: string)
    requires |p| >= 2
    ensures Get(Set(sec, p, v), [x]).Some? <==> x == p[0] || Get(sec, [x]).Some?
  {
    if x == p[0] {
      SetCreatesIntermediates(sec, p, v, 1);
      assert p[..1] == [x];
    } else {
      assert Diverge(p, [x]);
      SetKeepsSiblings(sec, p, v, [x]);
    }
  }

  /** Within a section, a write below `[a, b]` with `b != y` leaves `[x, y]` as it was. */
  lemma SetBesideSlot(sec: Blueprint, p: seq<string>, v: Blueprint, x: string, y: string)
    requires |p| >= 2 && p[1] != y
    ensures Get(Set(sec, p, v), [x, y]) == Get(sec, [x, y])
  {
    if x == p[0] {
      assert [x, y][1..] == [y];
      assert Diverge(p[1..], [x, y][1..]);
    }
    assert Diverge(p, [x, y]);
    SetKeepsSiblings(sec, p, v, [x, y]);
  }

  lemma KindNamesDistinct(k: KeyKind, k': KeyKind)
    requires k != k'
    ensures AddKeySection(k) != AddKeySection(k')
  {
    var a, b := AddKeySection(k), AddKeySection(k');
    assert a[7..] == KindName(k) && b[7..] == KindName(k');
  }

  /** The section names are pairwise distinct. */
  lemma SectionsDistinct(k: KeyKind)
    ensures "createTable" != "addColumn" && "createTable" != "modifyColumn" && "addColumn" != "modifyColumn"
    ensures AddKeySection(k) != "createTable" && AddKeySection(k) != "addColumn" && AddKeySection(k) != "modifyColumn"
  {
    assert |AddKeySection(k)| == 7 + |KindName(k)|;
  }

  // ---- The blueprint invariant for a fixed model ----

  /** An `addColumn` entry: a column fact for a column the existing table lacks. */
  predicate AddColumnEntry(x: Blueprint, cat: map<string, Table>, t: string, c: string) {
    x.Leaf? && x.value.ColumnEntry? && x.value.column.tableName == t && x.value.column.columnName == c
    && t in cat && c !in cat[t].columns
  }

  /** A `modifyColumn` entry: a column fact for an existing column that compares unequal. */
  predicate ModifyColumnEntry(x: Blueprint, cat: map<string, Table>, t: string, c: string) {
    x.Leaf? && x.value.ColumnEntry? && x.value.column.tableName == t && x.value.column.columnName == c
    && t in cat && c in cat[t].columns && !CompareColumnDefinition(cat[t].columns[c], x.value.column.def)
  }

  /** An `addKey:<kind>` entry: a key fact whose id the existing table lacks. */
  predicate AddKeyEntry(x: Blueprint, cat: map<string, Table>, k: KeyKind, t: string, id: string) {
    x.Leaf? && x.value.KeyEntry? && x.value.key.tableName == t && x.value.key.id == id
    && t in cat && id !in KeyIds(cat[t], k)
  }

  ghost predicate AddColumnsValid(sec: Blueprint, cat: map<string, Table>) {
    forall t, c :: Get(sec, [t, c]).Some? ==> AddColumnEntry(Get(sec, [t, c]).value, cat, t, c)
  }

  ghost predicate ModifyColumnsValid(sec: Blueprint, cat: map<string, Table>) {
    forall t, c :: Get(sec, [t, c]).Some? ==> ModifyColumnEntry(Get(sec, [t, c]).value, cat, t, c)
  }

  ghost predicate AddKeysValid(sec: Blueprint, cat: map<string, Table>, k: KeyKind) {
    forall t, id :: Get(sec, [t, id]).Some? ==> AddKeyEntry(Get(sec, [t, id]).value, cat, k, t, id)
  }

  /** A `createTable` entry exists only for a missing table, and carries its name. */
  ghost predicate CreatesValid(sec: Blueprint, cat: map<string, Table>) {
    forall t :: Get(sec, [t]).Some? ==> t !in cat && Get(sec, [t, "tableName"]) == Some(Leaf(TableName(t)))
  }

  /**
    What the differ keeps true of the blueprint while the model stays as
    loaded: every entry is filed under its own table and name, and in the
    section its comparison with the model calls for.
  */
  ghost predicate Inv(bp: Blueprint, cat: map<string, Table>) {
    && CreatesValid(Section(bp, "createTable"), cat)
    && AddColumnsValid(Section(bp, "addColumn"), cat)
    && ModifyColumnsValid(Section(bp, "modifyColumn"), cat)
    && forall k :: AddKeysValid(Section(bp, AddKeySection(k)), cat, k)
  }

  lemma InitialSections()
    ensures Section(InitialBlueprint, "createTable") == Branch([])
    ensures Section(InitialBlueprint, "addColumn") == Branch([])
    ensures Section(InitialBlueprint, "modifyColumn") == Branch([])
    ensures forall k :: Section(InitialBlueprint, AddKeySection(k)) == Branch([])
  {
    forall k ensures Section(InitialBlueprint, AddKeySection(k)) == Branch([]) {
      SectionsDistinct(k);
    }
  }

  /** An empty section holds no entry, so every section predicate holds of it. */
  lemma EmptySectionValid(cat: map<string, Table>)
    ensures CreatesValid(Branch([]), cat)
    ensures AddColumnsValid(Branch([]), cat) && ModifyColumnsValid(Branch([]), cat)
    ensures forall k :: AddKeysValid(Branch([]), cat, k)
  {
    var empty: Blueprint := Branch([]);
    forall q: seq<string> | q != [] ensures Get(empty, q) == None {
    }
  }

  lemma InitialTidy()
    ensures Tidy(InitialBlueprint)
  {
    var es := InitialBlueprint.entries;
    assert Keys(es) == ["createTable", "addColumn", "modifyColumn"];
    assert forall i :: 0 <= i < |es| ==> es[i].1 == Branch([]);
  }

  lemma InitialInv(cat: map<string, Table>)
    ensures Inv(InitialBlueprint, cat)
  {
    InitialSections();
    EmptySectionValid(cat);
  }

  /** No (table, column) pair is ever staged both to be added and to be modified. */
  lemma NeverAddedAndModified(bp: Blueprint, cat: map<string, Table>, t: string, c: string)
    requires Inv(bp, cat)
    ensures !(Get(bp, ["addColumn", t, c]).Some? && Get(bp, ["modifyColumn", t, c]).Some?)
  {
    GetSection(bp, "addColumn", [t, c]);
    GetSection(bp, "modifyColumn", [t, c]);
  }

  // ---- Staging keeps the invariant ----

  lemma AddColumnsValidSet(sec: Blueprint, cat: map<string, Table>, f: ColumnFact)
    requires AddColumnsValid(sec, cat)
    requires f.tableName in cat && f.columnName !in cat[f.tableName].columns
    ensures AddColumnsValid(Set(sec, [f.tableName, f.columnName], Leaf(ColumnEntry(f))), cat)
  {
    var t, c, v := f.tableName, f.columnName, Leaf(ColumnEntry(f));
    forall x, y | Get(Set(sec, [t, c], v), [x, y]).Some?
      ensures AddColumnEntry(Get(Set(sec, [t, c], v), [x, y]).value, cat, x, y)
    {
      SetSlot(sec, t, c, v, x, y);
    }
  }

  lemma ModifyColumnsValidSet(sec: Blueprint, cat: map<string, Table>, f: ColumnFact)
    requires ModifyColumnsValid(sec, cat)
    requires f.tableName in cat && f.columnName in cat[f.tableName].columns
    requires !CompareColumnDefinition(cat[f.tableName].columns[f.columnName], f.def)
    ensures ModifyColumnsValid(Set(sec, [f.tableName, f.columnName], Leaf(ColumnEntry(f))), cat)
  {
    var t, c, v := f.tableName, f.columnName, Leaf(ColumnEntry(f));
    forall x, y | Get(Set(sec, [t, c], v), [x, y]).Some?
      ensures ModifyColumnEntry(Get(Set(sec, [t, c], v), [x, y]).value, cat, x, y)
    {
      SetSlot(sec, t, c, v, x, y);
    }
  }

  lemma AddKeysValidSet(sec: Blueprint, cat: map<string, Table>, k: KeyKind, f: KeyFact)
    requires AddKeysValid(sec, cat, k)
    requires f.tableName in cat && f.id !in KeyIds(cat[f.tableName], k)
    ensures AddKeysValid(Set(sec, [f.tableName, f.id], Leaf(KeyEntry(f))), cat, k)
  {
    var t, id, v := f.tableName, f.id, Leaf(KeyEntry(f));
    forall x, y | Get(Set(sec, [t, id], v), [x, y]).Some?
      ensures AddKeyEntry(Get(Set(sec, [t, id], v), [x, y]).value, cat, k, x, y)
    {
      SetSlot(sec, t, id, v, x, y);
    }
  }

  lemma WriteAddColumn(bp: Blueprint, cat: map<string, Table>, f: ColumnFact)
    requires Inv(bp, cat)
    requires f.tableName in cat && f.columnName !in cat[f.tableName].columns
    ensures Inv(Set(bp, ["addColumn", f.tableName, f.columnName], Leaf(ColumnEntry(f))), cat)
  {
    var t, c, v := f.tableName, f.columnName, Leaf(ColumnEntry(f));
    var p := ["addColumn", t, c];
    var r := Set(bp, p, v);
    SectionsDistinct(PrimaryKey);
    SectionOfSetOther(bp, p, v, "createTable");
    SectionOfSetOther(bp, p, v, "modifyColumn");
    forall k ensures Section(r, AddKeySection(k)) == Section(bp, AddKeySection(k)) {
      SectionsDistinct(k);
      SectionOfSetOther(bp, p, v, AddKeySection(k));
    }
    SectionOfSetSame(bp, p, v);
    assert p[1..] == [t, c];
    AddColumnsValidSet(Section(bp, "addColumn"), cat, f);
  }

  lemma WriteModifyColumn(bp: Blueprint, cat: map<string, Table>, f: ColumnFact)
    requires Inv(bp, cat)
    requires f.tableName in cat && f.columnName in cat[f.tableName].columns
    requires !CompareColumnDefinition(cat[f.tableName].columns[f.columnName], f.def)
    ensures Inv(Set(bp, ["modifyColumn", f.tableName, f.columnName], Leaf(ColumnEntry(f))), cat)
  {
    var t, c, v := f.tableName, f.columnName, Leaf(ColumnEntry(f));
    var p := ["modifyColumn", t, c];
    var r := Set(bp, p, v);
    SectionsDistinct(PrimaryKey);
    SectionOfSetOther(bp, p, v, "createTable");
    SectionOfSetOther(bp, p, v, "addColumn");
    forall k ensures Section(r, AddKeySection(k)) == Section(bp, AddKeySection(k)) {
      SectionsDistinct(k);
      SectionOfSetOther(bp, p, v, AddKeySection(k));
    }
    SectionOfSetSame(bp, p, v);
    assert p[1..] == [t, c];
    ModifyColumnsValidSet(Section(bp, "modifyColumn"), cat, f);
  }

  /** A write into `addKey:<k>` changes that section only, and changes it by a write below it. */
  lemma AddKeyWriteSections(bp: Blueprint, k: KeyKind, p: seq<string>, v: Blueprint)
    requires |p| == 3 && p[0] == AddKeySection(k)
    ensures var r := Set(bp, p, v);
      && Section(r, "createTable") == Section(bp, "createTable")
      && Section(r, "addColumn") == Section(bp, "addColumn")
      && Section(r, "modifyColumn") == Section(bp, "modifyColumn")
      && (forall k' :: k' != k ==> Section(r, AddKeySection(k')) == Section(bp, AddKeySection(k')))
      && Section(r, AddKeySection(k)) == Set(Section(bp, AddKeySection(k)), [p[1], p[2]], v)
  {
    var r := Set(bp, p, v);
    SectionsDistinct(k);
    SectionOfSetOther(bp, p, v, "createTable");
    SectionOfSetOther(bp, p, v, "addColumn");
    SectionOfSetOther(bp, p, v, "modifyColumn");
    forall k' | k' != k ensures Section(r, AddKeySection(k')) == Section(bp, AddKeySection(k')) {
      KindNamesDistinct(k, k');
      SectionOfSetOther(bp, p, v, AddKeySection(k'));
    }
    SectionOfSetSame(bp, p, v);
    assert p[1..] == [p[1], p[2]];
  }

  lemma WriteAddKey(bp: Blueprint, cat: map<string, Table>, k: KeyKind, f: KeyFact)
    requires Inv(bp, cat)
    requires f.tableName in cat && f.id !in KeyIds(cat[f.tableName], k)
    ensures Inv(Set(bp, [AddKeySection(k), f.tableName, f.id], Leaf(KeyEntry(f))), cat)
  {
    var p, v := [AddKeySection(k), f.tableName, f.id], Leaf(KeyEntry(f));
    var r := Set(bp, p, v);
    AddKeyWriteSections(bp, k, p, v);
    AddKeysValidSet(Section(bp, AddKeySection(k)), cat, k, f);
    forall k' ensures AddKeysValid(Section(r, AddKeySection(k')), cat, k') {
      if k' != k {
        assert Section(r, AddKeySection(k')) == Section(bp, AddKeySection(k'));
      }
    }
  }

  /** Marking a missing table for creation keeps the invariant and names the entry. */
  lemma WriteMarkCreate(bp: Blueprint, cat: map<string, Table>, t: string)
    requires Inv(bp, cat) && t !in cat
    ensures Inv(MarkCreate(bp, t), cat)
    ensures Get(Section(MarkCreate(bp, t), "createTable"), [t, "tableName"]) == Some(Leaf(TableName(t)))
  {
    var v: Blueprint := Leaf(TableName(t));
    var p := ["createTable", t, "tableName"];
    var r := Set(bp, p, v);
    SectionsDistinct(PrimaryKey);
    SectionOfSetOther(bp, p, v, "addColumn");
    SectionOfSetOther(bp, p, v, "modifyColumn");
    forall k ensures Section(r, AddKeySection(k)) == Section(bp, AddKeySection(k)) {
      SectionsDistinct(k);
      SectionOfSetOther(bp, p, v, AddKeySection(k));
    }
    SectionOfSetSame(bp, p, v);
    assert p[1..] == [t, "tableName"];
    var sec := Section(bp, "createTable");
    SetSlot(sec, t, "tableName", v, t, "tableName");
    forall x | Get(Set(sec, [t, "tableName"], v), [x]).Some?
      ensures x !in cat && Get(Set(sec, [t, "tableName"], v), [x, "tableName"]) == Some(Leaf(TableName(x)))
    {
      SetEntry(sec, [t, "tableName"], v, x);
      SetSlot(sec, t, "tableName", v, x, "tableName");
    }
  }

  /** Writing below a marked entry, beside its name, keeps the invariant. */
  lemma WriteCreateChild(bp: Blueprint, cat: map<string, Table>, t: string, prop: string, name: string, v: Blueprint)
    requires Inv(bp, cat) && t !in cat && prop != "tableName"
    requires Get(Section(bp, "createTable"), [t, "tableName"]) == Some(Leaf(TableName(t)))
    ensures Inv(Set(bp, ["createTable", t, prop, name], v), cat)
  {
    var p := ["createTable", t, prop, name];
    var r := Set(bp, p, v);
    SectionsDistinct(PrimaryKey);
    SectionOfSetOther(bp, p, v, "addColumn");
    SectionOfSetOther(bp, p, v, "modifyColumn");
    forall k ensures Section(r, AddKeySection(k)) == Section(bp, AddKeySection(k)) {
      SectionsDistinct(k);
      SectionOfSetOther(bp, p, v, AddKeySection(k));
    }
    SectionOfSetSame(bp, p, v);
    var q := p[1..];
    assert q == [t, prop, name];
    var sec := Section(bp, "createTable");
    forall x | Get(Set(sec, q, v), [x]).Some?
      ensures x !in cat && Get(Set(sec, q, v), [x, "tableName"]) == Some(Leaf(TableName(x)))
    {
      SetEntry(sec, q, v, x);
      SetBesideSlot(sec, q, v, x, "tableName");
    }
  }

  lemma StageTableFactInv(bp: Blueprint, cat: map<string, Table>, tf: TableFact)
    requires Inv(bp, cat)
    ensures Inv(StageTableFact(bp, cat, tf), cat)
  {
    if tf.tableName !in cat {
      WriteMarkCreate(bp, cat, tf.tableName);
    }
  }

  lemma StageColumnFactInv(bp: Blueprint, cat: map<string, Table>, f: ColumnFact)
    requires Inv(bp, cat)
    ensures Inv(StageColumnFact(bp, cat, f), cat)
  {
    var t, c := f.tableName, f.columnName;
    if t in cat {
      if c in cat[t].columns {
        if !CompareColumnDefinition(cat[t].columns[c], f.def) {
          WriteModifyColumn(bp, cat, f);
        }
      } else {
        WriteAddColumn(bp, cat, f);
      }
    } else {
      WriteMarkCreate(bp, cat, t);
      WriteCreateChild(MarkCreate(bp, t), cat, t, "columns", c, Leaf(ColumnEntry(f)));
    }
  }

  lemma StageKeyFactInv(bp: Blueprint, cat: map<string, Table>, k: KeyKind, f: KeyFact)
    requires Inv(bp, cat)
    ensures Inv(StageKeyFact(bp, cat, k, f), cat)
  {
    var t, id := f.tableName, f.id;
    if t in cat {
      if id !in KeyIds(cat[t], k) {
        WriteAddKey(bp, cat, k, f);
      }
    } else {
      WriteMarkCreate(bp, cat, t);
      WriteCreateChild(MarkCreate(bp, t), cat, t, KindProperty(k), id, Leaf(KeyEntry(f)));
    }
  }

  lemma {:induction false} StageTablesInv(bp: Blueprint, cat: map<string, Table>, tfs: seq<TableFact>)
    requires Inv(bp, cat)
    ensures Inv(StageTables(bp, cat, tfs), cat)
  {
    if tfs != [] {
      StageTablesInv(bp, cat, tfs[..|tfs| - 1]);
      StageTableFactInv(StageTables(bp, cat, tfs[..|tfs| - 1]), cat, tfs[|tfs| - 1]);
    }
  }

  lemma {:induction false} StageColumnsInv(bp: Blueprint, cat: map<string, Table>, fs: seq<ColumnFact>)
    requires Inv(bp, cat)
    ensures Inv(StageColumns(bp, cat, fs), cat)
  {
    if fs != [] {
      StageColumnsInv(bp, cat, fs[..|fs| - 1]);
      StageColumnFactInv(StageColumns(bp, cat, fs[..|fs| - 1]), cat, fs[|fs| - 1]);
    }
  }

  lemma {:induction false} StageKeysInv(bp: Blueprint, cat: map<string, Table>, k: KeyKind, fs: seq<KeyFact>)
    requires Inv(bp, cat)
    ensures Inv(StageKeys(bp, cat, k, fs), cat)
  {
    if fs != [] {
      StageKeysInv(bp, cat, k, fs[..|fs| - 1]);
      StageKeyFactInv(StageKeys(bp, cat, k, fs[..|fs| - 1]), cat, k, fs[|fs| - 1]);
    }
  }

  /**
    One run of the differ keeps the invariant; so, from the initial
    blueprint and a fixed model, no column is ever both added and modified.
  */
  lemma PlanInv(bp: Blueprint, cat: map<string, Table>, fs: Facts)
    requires Inv(bp, cat)
    ensures Inv(Plan(bp, cat, fs), cat)
  {
    var ex := Expand(fs);
    var b1 := StageTables(bp, cat, fs.table.mustExist);
    StageTablesInv(bp, cat, fs.table.mustExist);
    var b2 := StageColumns(b1, cat, ex.column.mustExist);
    StageColumnsInv(b1, cat, ex.column.mustExist);
    var k1 := StageKeys(b2, cat, PrimaryKey, ex.primaryKey.mustExist);
    StageKeysInv(b2, cat, PrimaryKey, ex.primaryKey.mustExist);
    var k2 := StageKeys(k1, cat, Key, ex.key.mustExist);
    StageKeysInv(k1, cat, Key, ex.key.mustExist);
    var k3 := StageKeys(k2, cat, UniqueKey, ex.uniqueKey.mustExist);
    StageKeysInv(k2, cat, UniqueKey, ex.uniqueKey.mustExist);
    StageKeysInv(k3, cat, ForeignKey, ex.foreignKey.mustExist);
  }

  // ---- Where each fact lands ----

  /** A table fact: a missing table is marked for creation under its own name; an existing one changes nothing. */
  lemma TableFactOutcome(bp: Blueprint, cat: map<string, Table>, tf: TableFact)
    ensures tf.tableName in cat ==> StageTableFact(bp, cat, tf) == bp
    ensures tf.tableName !in cat ==>
      Get(StageTableFact(bp, cat, tf), ["createTable", tf.tableName, "tableName"]) == Some(Leaf(TableName(tf.tableName)))
  {
    if tf.tableName !in cat {
      SetReadBack(bp, ["createTable", tf.tableName, "tableName"], Leaf(TableName(tf.tableName)));
    }
  }

  /** A column fact lands in exactly the place its comparison with the model calls for. */
  lemma ColumnFactOutcome(bp: Blueprint, cat: map<string, Table>, f: ColumnFact)
    ensures var t, c, r := f.tableName, f.columnName, StageColumnFact(bp, cat, f);
      && (t in cat && c in cat[t].columns && CompareColumnDefinition(cat[t].columns[c], f.def) ==> r == bp)
      && (t in cat && c in cat[t].columns && !CompareColumnDefinition(cat[t].columns[c], f.def) ==>
            Get(r, ["modifyColumn", t, c]) == Some(Leaf(ColumnEntry(f))))
      && (t in cat && c !in cat[t].columns ==> Get(r, ["addColumn", t, c]) == Some(Leaf(ColumnEntry(f))))
      && (t !in cat ==>
            && Get(r, ["createTable", t, "tableName"]) == Some(Leaf(TableName(t)))
            && Get(r, ["createTable", t, "columns", c]) == Some(Leaf(ColumnEntry(f))))
  {
    var t, c := f.tableName, f.columnName;
    var v: Blueprint := Leaf(ColumnEntry(f));
    if t in cat {
      if c in cat[t].columns {
        SetReadBack(bp, ["modifyColumn", t, c], v);
      } else {
        SetReadBack(bp, ["addColumn", t, c], v);
      }
    } else {
      var b1 := MarkCreate(bp, t);
      var p := ["createTable", t, "columns", c];
      SetReadBack(bp, ["createTable", t, "tableName"], Leaf(TableName(t)));
      SetReadBack(b1, p, v);
      assert p[1..][1..] == ["columns", c] && ["createTable", t, "tableName"][1..][1..] == ["tableName"];
      assert Diverge(p, ["createTable", t, "tableName"]);
      SetKeepsSiblings(b1, p, v, ["createTable", t, "tableName"]);
    }
  }

  /** Staging a column fact touches no path outside the slots it may write. */
  lemma ColumnFactLocal(bp: Blueprint, cat: map<string, Table>, f: ColumnFact, q: seq<string>)
    requires Diverge(["createTable", f.tableName, "tableName"], q)
    requires Diverge(["createTable", f.tableName, "columns", f.columnName], q)
    requires Diverge(["addColumn", f.tableName, f.columnName], q)
    requires Diverge(["modifyColumn", f.tableName, f.columnName], q)
    ensures Get(StageColumnFact(bp, cat, f), q) == Get(bp, q)
  {
    var t, c := f.tableName, f.columnName;
    var v: Blueprint := Leaf(ColumnEntry(f));
    if t in cat {
      if c in cat[t].columns {
        SetKeepsSiblings(bp, ["modifyColumn", t, c], v, q);
      } else {
        SetKeepsSiblings(bp, ["addColumn", t, c], v, q);
      }
    } else {
      SetKeepsSiblings(bp, ["createTable", t, "tableName"], Leaf(TableName(t)), q);
      SetKeepsSiblings(MarkCreate(bp, t), ["createTable", t, "columns", c], v, q);
    }
  }

  /** A key fact: nothing if the table has the id; `addKey:<kind>` if it lacks it; a key of the table to create otherwise. */
  lemma KeyFactOutcome(bp: Blueprint, cat: map<string, Table>, k: KeyKind, f: KeyFact)
    ensures var t, id, r := f.tableName, f.id, StageKeyFact(bp, cat, k, f);
      && (t in cat && id in KeyIds(cat[t], k) ==> r == bp)
      && (t in cat && id !in KeyIds(cat[t], k) ==> Get(r, [AddKeySection(k), t, id]) == Some(Leaf(KeyEntry(f))))
      && (t !in cat ==>
            && Get(r, ["createTable", t, "tableName"]) == Some(Leaf(TableName(t)))
            && Get(r, ["createTable", t, KindProperty(k), id]) == Some(Leaf(KeyEntry(f))))
  {
    var t, id := f.tableName, f.id;
    var v: Blueprint := Leaf(KeyEntry(f));
    if t in cat {
      if id !in KeyIds(cat[t], k) {
        SetReadBack(bp, [AddKeySection(k), t, id], v);
      }
    } else {
      var b1 := MarkCreate(bp, t);
      var p := ["createTable", t, KindProperty(k), id];
      SetReadBack(bp, ["createTable", t, "tableName"], Leaf(TableName(t)));
      SetReadBack(b1, p, v);
      assert p[1..][1..] == [KindProperty(k), id] && ["createTable", t, "tableName"][1..][1..] == ["tableName"];
      assert Diverge(p, ["createTable", t, "tableName"]);
      SetKeepsSiblings(b1, p, v, ["createTable", t, "tableName"]);
    }
  }

  /**
    A declared key id is looked up as written, without sorting: a table whose
    loaded unique key has the id `a,b` still gets an `addKey:uniqueKey` entry
    for a unique key declared as `b,a`.
  */
  lemma DeclaredKeyIdNotSorted(bp: Blueprint, cat: map<string, Table>)
    requires "t" in cat && cat["t"].uniqueKeys.Keys == {"a,b"}
    ensures Get(StageKeyFact(bp, cat, UniqueKey, KeyFact("t", "b,a")), ["addKey:uniqueKey", "t", "b,a"])
      == Some(Leaf(KeyEntry(KeyFact("t", "b,a"))))
  {
    var f := KeyFact("t", "b,a");
    assert f.id !in KeyIds(cat[f.tableName], UniqueKey) by {
      assert "b,a"[0] != "a,b"[0];
    }
    assert AddKeySection(UniqueKey) == "addKey:uniqueKey";
    KeyFactOutcome(bp, cat, UniqueKey, f);
  }

  /** Staging a key fact touches no path outside the slots it may write. */
  lemma KeyFactLocal(bp: Blueprint, cat: map<string, Table>, k: KeyKind, f: KeyFact, q: seq<string>)
    requires Diverge(["createTable", f.tableName, "tableName"], q)
    requires Diverge(["createTable", f.tableName, KindProperty(k), f.id], q)
    requires Diverge([AddKeySection(k), f.tableName, f.id], q)
    ensures Get(StageKeyFact(bp, cat, k, f), q) == Get(bp, q)
  {
    var t, id := f.tableName, f.id;
    var v: Blueprint := Leaf(KeyEntry(f));
    if t in cat {
      if id !in KeyIds(cat[t], k) {
        SetKeepsSiblings(bp, [AddKeySection(k), t, id], v, q);
      }
    } else {
      SetKeepsSiblings(bp, ["createTable", t, "tableName"], Leaf(TableName(t)), q);
      SetKeepsSiblings(MarkCreate(bp, t), ["createTable", t, KindProperty(k), id], v, q);
    }
  }

  // ---- Facts already true change nothing ----

  predicate ColumnSatisfied(cat: map<string, Table>, f: ColumnFact) {
    f.tableName in cat && f.columnName in cat[f.tableName].columns
    && CompareColumnDefinition(cat[f.tableName].columns[f.columnName], f.def)
  }

  predicate KeySatisfied(cat: map<string, Table>, k: KeyKind, f: KeyFact) {
    f.tableName in cat && f.id in KeyIds(cat[f.tableName], k)
  }

  /** Every fact of the (expanded) ledger already holds of the model. */
  predicate Satisfied(cat: map<string, Table>, fs: Facts) {
    var ex := Expand(fs);
    && (forall i :: 0 <= i < |fs.table.mustExist| ==> fs.table.mustExist[i].tableName in cat)
    && (forall i :: 0 <= i < |ex.column.mustExist| ==> ColumnSatisfied(cat, ex.column.mustExist[i]))
    && (forall k, i :: 0 <= i < |KeyLedger(ex, k).mustExist| ==> KeySatisfied(cat, k, KeyLedger(ex, k).mustExist[i]))
  }

  lemma {:induction false} StageTablesSatisfied(bp: Blueprint, cat: map<string, Table>, tfs: seq<TableFact>)
    requires forall i :: 0 <= i < |tfs| ==> tfs[i].tableName in cat
    ensures StageTables(bp, cat, tfs) == bp
  {
    if tfs != [] {
      StageTablesSatisfied(bp, cat, tfs[..|tfs| - 1]);
    }
  }

  lemma {:induction false} StageColumnsSatisfied(bp: Blueprint, cat: map<string, Table>, fs: seq<ColumnFact>)
    requires forall i :: 0 <= i < |fs| ==> ColumnSatisfied(cat, fs[i])
    ensures StageColumns(bp, cat, fs) == bp
  {
    if fs != [] {
      StageColumnsSatisfied(bp, cat, fs[..|fs| - 1]);
    }
  }

  lemma {:induction false} StageKeysSatisfied(bp: Blueprint, cat: map<string, Table>, k: KeyKind, fs: seq<KeyFact>)
    requires forall i :: 0 <= i < |fs| ==> KeySatisfied(cat, k, fs[i])
    ensures StageKeys(bp, cat, k, fs) == bp
  {
    if fs != [] {
      StageKeysSatisfied(bp, cat, k, fs[..|fs| - 1]);
    }
  }

  /** When every fact already holds, the differ leaves the blueprint as it was. */
  lemma PlanSatisfied(bp: Blueprint, cat: map<string, Table>, fs: Facts)
    requires Satisfied(cat, fs)
    ensures Plan(bp, cat, fs) == bp
  {
    var ex := Expand(fs);
    StageTablesSatisfied(bp, cat, fs.table.mustExist);
    StageColumnsSatisfied(bp, cat, ex.column.mustExist);
    assert KeyLedger(ex, PrimaryKey) == ex.primaryKey && KeyLedger(ex, Key) == ex.key;
    assert KeyLedger(ex, UniqueKey) == ex.uniqueKey && KeyLedger(ex, ForeignKey) == ex.foreignKey;
    StageKeysSatisfied(bp, cat, PrimaryKey, ex.primaryKey.mustExist);
    StageKeysSatisfied(bp, cat, Key, ex.key.mustExist);
    StageKeysSatisfied(bp, cat, UniqueKey, ex.uniqueKey.mustExist);
    StageKeysSatisfied(bp, cat, ForeignKey, ex.foreignKey.mustExist);
  }

  // ---- Every object keeps distinct property names ----

  /** Every object in the tree has distinct property names. */
  predicate Tidy(t: Blueprint) {
    t.Branch? ==> DistinctKeys(t.entries) && forall i :: 0 <= i < |t.entries| ==> Tidy(t.entries[i].1)
  }

  lemma PutTidy(a: seq<(string, Blueprint)>, k: string, v: Blueprint)
    requires Tidy(Branch(a)) && Tidy(v)
    ensures Tidy(Branch(Put(a, k, v)))
  {
    var r := Put(a, k, v);
    PutDistinct(a, k, v);
    PutEntries(a, k, v);
    forall i | 0 <= i < |r| ensures Tidy(r[i].1) {
      assert r[i] in r;
      if r[i] != (k, v) {
        var j :| 0 <= j < |a| && a[j] == r[i];
      }
    }
  }

  /** `set` keeps every object's property names distinct. */
  lemma {:induction false} SetTidy(t: Blueprint, path: seq<string>, v: Blueprint)
    requires Tidy(t) && Tidy(v)
    ensures Tidy(Set(t, path, v))
    decreases |path|
  {
    if path != [] {
      var child := match Lookup(Props(t), path[0]) case Some(c) => c case None => Branch([]);
      assert Tidy(child) by {
        if Lookup(Props(t), path[0]).Some? {
          var i :| 0 <= i < |Props(t)| && Props(t)[i] == (path[0], child);
        }
      }
      var next := if |path| == 1 then v else Set(child, path[1..], v);
      if |path| > 1 {
        SetTidy(child, path[1..], v);
      }
      assert Tidy(Branch(Props(t)));
      PutTidy(Props(t), path[0], next);
    }
  }

  lemma TableFactTidy(bp: Blueprint, cat: map<string, Table>, tf: TableFact)
    requires Tidy(bp)
    ensures Tidy(StageTableFact(bp, cat, tf))
  {
    SetTidy(bp, ["createTable", tf.tableName, "tableName"], Leaf(TableName(tf.tableName)));
  }

  lemma ColumnFactTidy(bp: Blueprint, cat: map<string, Table>, f: ColumnFact)
    requires Tidy(bp)
    ensures Tidy(StageColumnFact(bp, cat, f))
  {
    var t, c := f.tableName, f.columnName;
    if t in cat {
      if c in cat[t].columns {
        SetTidy(bp, ["modifyColumn", t, c], Leaf(ColumnEntry(f)));
      } else {
        SetTidy(bp, ["addColumn", t, c], Leaf(ColumnEntry(f)));
      }
    } else {
      SetTidy(bp, ["createTable", t, "tableName"], Leaf(TableName(t)));
      SetTidy(MarkCreate(bp, t), ["createTable", t, "columns", c], Leaf(ColumnEntry(f)));
    }
  }

  lemma KeyFactTidy(bp: Blueprint, cat: map<string, Table>, k: KeyKind, f: KeyFact)
    requires Tidy(bp)
    ensures Tidy(StageKeyFact(bp, cat, k, f))
  {
    var t, id := f.tableName, f.id;
    if t in cat {
      SetTidy(bp, [AddKeySection(k), t, id], Leaf(KeyEntry(f)));
    } else {
      SetTidy(bp, ["createTable", t, "tableName"], Leaf(TableName(t)));
      SetTidy(MarkCreate(bp, t), ["createTable", t, KindProperty(k), id], Leaf(KeyEntry(f)));
    }
  }

  lemma {:induction false} StageTablesTidy(bp: Blueprint, cat: map<string, Table>, tfs: seq<TableFact>)
    requires Tidy(bp)
    ensures Tidy(StageTables(bp, cat, tfs))
  {
    if tfs != [] {
      StageTablesTidy(bp, cat, tfs[..|tfs| - 1]);
      var b := StageTables(bp, cat, tfs[..|tfs| - 1]);
      TableFactTidy(b, cat, tfs[|tfs| - 1]);
    }
  }

  lemma {:induction false} StageColumnsTidy(bp: Blueprint, cat: map<string, Table>, fs: seq<ColumnFact>)
    requires Tidy(bp)
    ensures Tidy(StageColumns(bp, cat, fs))
  {
    if fs != [] {
      StageColumnsTidy(bp, cat, fs[..|fs| - 1]);
      var b := StageColumns(bp, cat, fs[..|fs| - 1]);
      ColumnFactTidy(b, cat, fs[|fs| - 1]);
    }
  }

  lemma {:induction false} StageKeysTidy(bp: Blueprint, cat: map<string, Table>, k: KeyKind, fs: seq<KeyFact>)
    requires Tidy(bp)
    ensures Tidy(StageKeys(bp, cat, k, fs))
  {
    if fs != [] {
      StageKeysTidy(bp, cat, k, fs[..|fs| - 1]);
      var b := StageKeys(bp, cat, k, fs[..|fs| - 1]);
      KeyFactTidy(b, cat, k, fs[|fs| - 1]);
    }
  }

  lemma PlanTidy(bp: Blueprint, cat: map<string, Table>, fs: Facts)
    requires Tidy(bp)
    ensures Tidy(Plan(bp, cat, fs))
  {
    var ex := Expand(fs);
    var b1 := StageTables(bp, cat, fs.table.mustExist);
    StageTablesTidy(bp, cat, fs.table.mustExist);
    var b2 := StageColumns(b1, cat, ex.column.mustExist);
    StageColumnsTidy(b1, cat, ex.column.mustExist);
    var k1 := StageKeys(b2, cat, PrimaryKey, ex.primaryKey.mustExist);
    StageKeysTidy(b2, cat, PrimaryKey, ex.primaryKey.mustExist);
    var k2 := StageKeys(k1, cat, Key, ex.key.mustExist);
    StageKeysTidy(k1, cat, Key, ex.key.mustExist);
    var k3 := StageKeys(k2, cat, UniqueKey, ex.uniqueKey.mustExist);
    StageKeysTidy(k2, cat, UniqueKey, ex.uniqueKey.mustExist);
    StageKeysTidy(k3, cat, ForeignKey, ex.foreignKey.mustExist);
  }

  // ---- Staged entries stay staged ----

  /** The paths the differ reads back: a section slot, or an entry under a table to create. */
  predicate SlotPath(q: seq<string>) {
    |q| <= 3 || (|q| == 4 && q[0] == "createTable" && q[2] != "tableName")
  }

  /** A write at a section slot, or at or under a table to create, is never above a path the differ reads back. */
  lemma SetKeepsSlot(bp: Blueprint, p: seq<string>, v: Blueprint, q: seq<string>)
    requires Get(bp, q).Some? && SlotPath(q)
    requires |p| >= 4 || (|p| == 3 && (p[0] != "createTable" || p[2] == "tableName"))
    ensures Get(Set(bp, p, v), q).Some?
  {
    if |q| == 4 && |p| == 3 {
      assert q[..3][0] == q[0] && q[..3][2] == q[2];
    }
    SetKeepsPresent(bp, p, v, q);
  }

  lemma TableFactKeepsPresent(bp: Blueprint, cat: map<string, Table>, tf: TableFact, q: seq<string>)
    requires Get(bp, q).Some? && SlotPath(q)
    ensures Get(StageTableFact(bp, cat, tf), q).Some?
  {
    SetKeepsSlot(bp, ["createTable", tf.tableName, "tableName"], Leaf(TableName(tf.tableName)), q);
  }

  lemma ColumnFactKeepsPresent(bp: Blueprint, cat: map<string, Table>, f: ColumnFact, q: seq<string>)
    requires Get(bp, q).Some? && SlotPath(q)
    ensures Get(StageColumnFact(bp, cat, f), q).Some?
  {
    var t, c := f.tableName, f.columnName;
    if t in cat {
      if c in cat[t].columns {
        SetKeepsSlot(bp, ["modifyColumn", t, c], Leaf(ColumnEntry(f)), q);
      } else {
        SetKeepsSlot(bp, ["addColumn", t, c], Leaf(ColumnEntry(f)), q);
      }
    } else {
      SetKeepsSlot(bp, ["createTable", t, "tableName"], Leaf(TableName(t)), q);
      SetKeepsSlot(MarkCreate(bp, t), ["createTable", t, "columns", c], Leaf(ColumnEntry(f)), q);
    }
  }

  lemma KeyFactKeepsPresent(bp: Blueprint, cat: map<string, Table>, k: KeyKind, f: KeyFact, q: seq<string>)
    requires Get(bp, q).Some? && SlotPath(q)
    ensures Get(StageKeyFact(bp, cat, k, f), q).Some?
  {
    var t, id := f.tableName, f.id;
    if t in cat {
      if id !in KeyIds(cat[t], k) {
        var p := [AddKeySection(k), t, id];
        assert p[0] != "createTable" by { match k case _ => }
        SetKeepsSlot(bp, p, Leaf(KeyEntry(f)), q);
      }
    } else {
      SetKeepsSlot(bp, ["createTable", t, "tableName"], Leaf(TableName(t)), q);
      SetKeepsSlot(MarkCreate(bp, t), ["createTable", t, KindProperty(k), id], Leaf(KeyEntry(f)), q);
    }
  }

  lemma {:induction false} StageTablesKeepPresent(bp: Blueprint, cat: map<string, Table>, tfs: seq<TableFact>, q: seq<string>)
    requires Get(bp, q).Some? && SlotPath(q)
    ensures Get(StageTables(bp, cat, tfs), q).Some?
  {
    if tfs != [] {
      var m := |tfs| - 1;
      StageTablesKeepPresent(bp, cat, tfs[..m], q);
      TableFactKeepsPresent(StageTables(bp, cat, tfs[..m]), cat, tfs[m], q);
    }
  }

  lemma StageColumnsStep(bp: Blueprint, cat: map<string, Table>, fs: seq<ColumnFact>, q: seq<string>)
    requires fs != [] && SlotPath(q)
    requires Get(StageColumns(bp, cat, fs[..|fs| - 1]), q).Some?
    ensures Get(StageColumns(bp, cat, fs), q).Some?
  {
    ColumnFactKeepsPresent(StageColumns(bp, cat, fs[..|fs| - 1]), cat, fs[|fs| - 1], q);
  }

  lemma {:induction false} StageColumnsKeepPresent(bp: Blueprint, cat: map<string, Table>, fs: seq<ColumnFact>, q: seq<string>)
    requires Get(bp, q).Some? && SlotPath(q)
    ensures Get(StageColumns(bp, cat, fs), q).Some?
  {
    if fs != [] {
      StageColumnsKeepPresent(bp, cat, fs[..|fs| - 1], q);
      StageColumnsStep(bp, cat, fs, q);
    }
  }

  lemma StageKeysStep(bp: Blueprint, cat: map<string, Table>, k: KeyKind, fs: seq<KeyFact>, q: seq<string>)
    requires fs != [] && SlotPath(q)
    requires Get(StageKeys(bp, cat, k, fs[..|fs| - 1]), q).Some?
    ensures Get(StageKeys(bp, cat, k, fs), q).Some?
  {
    KeyFactKeepsPresent(StageKeys(bp, cat, k, fs[..|fs| - 1]), cat, k, fs[|fs| - 1], q);
  }

  lemma {:induction false} StageKeysKeepPresent(bp: Blueprint, cat: map<string, Table>, k: KeyKind, fs: seq<KeyFact>, q: seq<string>)
    requires Get(bp, q).Some? && SlotPath(q)
    ensures Get(StageKeys(bp, cat, k, fs), q).Some?
  {
    if fs != [] {
      StageKeysKeepPresent(bp, cat, k, fs[..|fs| - 1], q);
      StageKeysStep(bp, cat, k, fs, q);
    }
  }

  /** The key passes never remove a staged entry. */
  lemma StageAllKeysKeepPresent(bp: Blueprint, cat: map<string, Table>, fs: Facts, q: seq<string>)
    requires Get(bp, q).Some? && SlotPath(q)
    ensures Get(StageAllKeys(bp, cat, fs), q).Some?
  {
    var b1 := StageKeys(bp, cat, PrimaryKey, fs.primaryKey.mustExist);
    var b2 := StageKeys(b1, cat, Key, fs.key.mustExist);
    var b3 := StageKeys(b2, cat, UniqueKey, fs.uniqueKey.mustExist);
    StageKeysKeepPresent(bp, cat, PrimaryKey, fs.primaryKey.mustExist, q);
    StageKeysKeepPresent(b1, cat, Key, fs.key.mustExist, q);
    StageKeysKeepPresent(b2, cat, UniqueKey, fs.uniqueKey.mustExist, q);
    StageKeysKeepPresent(b3, cat, ForeignKey, fs.foreignKey.mustExist, q);
  }

  // ---- Every fact that needs work leaves an entry ----

  /** Where a column fact that needs work is staged. */
  function ColumnSlot(cat: map<string, Table>, f: ColumnFact): seq<string> {
    var t, c := f.tableName, f.columnName;
    if t !in cat then ["createTable", t, "columns", c]
    else if c in cat[t].columns then ["modifyColumn", t, c]
    else ["addColumn", t, c]
  }

  /** A column fact needs work unless its column exists and compares equal. */
  predicate ColumnNeedsWork(cat: map<string, Table>, f: ColumnFact) {
    var t, c := f.tableName, f.columnName;
    !(t in cat && c in cat[t].columns && CompareColumnDefinition(cat[t].columns[c], f.def))
  }

  lemma StageColumnsLast(bp: Blueprint, cat: map<string, Table>, fs: seq<ColumnFact>)
    requires fs != [] && ColumnNeedsWork(cat, fs[|fs| - 1])
    ensures Get(StageColumns(bp, cat, fs), ColumnSlot(cat, fs[|fs| - 1])).Some?
    ensures fs[|fs| - 1].tableName !in cat ==>
      Get(StageColumns(bp, cat, fs), ["createTable", fs[|fs| - 1].tableName, "tableName"]).Some?
  {
    ColumnFactOutcome(StageColumns(bp, cat, fs[..|fs| - 1]), cat, fs[|fs| - 1]);
  }

  /** A column fact that needs work leaves an entry in its slot, whatever facts follow it. */
  lemma {:induction false} StageColumnsStages(bp: Blueprint, cat: map<string, Table>, fs: seq<ColumnFact>, f: ColumnFact)
    requires f in fs && ColumnNeedsWork(cat, f)
    ensures Get(StageColumns(bp, cat, fs), ColumnSlot(cat, f)).Some?
    ensures f.tableName !in cat ==> Get(StageColumns(bp, cat, fs), ["createTable", f.tableName, "tableName"]).Some?
  {
    var m := |fs| - 1;
    if fs[m] == f {
      StageColumnsLast(bp, cat, fs);
    } else {
      assert fs == fs[..m] + [fs[m]];
      assert f in fs[..m];
      StageColumnsStages(bp, cat, fs[..m], f);
      StageColumnsStep(bp, cat, fs, ColumnSlot(cat, f));
      if f.tableName !in cat {
        StageColumnsStep(bp, cat, fs, ["createTable", f.tableName, "tableName"]);
      }
    }
  }

  /** Where a key fact that needs work is staged. */
  function KeySlot(cat: map<string, Table>, k: KeyKind, f: KeyFact): seq<string> {
    if f.tableName !in cat then ["createTable", f.tableName, KindProperty(k), f.id]
    else [AddKeySection(k), f.tableName, f.id]
  }

  /** A key fact needs work unless its table exists and already has the id. */
  predicate KeyNeedsWork(cat: map<string, Table>, k: KeyKind, f: KeyFact) {
    !(f.tableName in cat && f.id in KeyIds(cat[f.tableName], k))
  }

  lemma StageKeysLast(bp: Blueprint, cat: map<string, Table>, k: KeyKind, fs: seq<KeyFact>)
    requires fs != [] && KeyNeedsWork(cat, k, fs[|fs| - 1])
    ensures Get(StageKeys(bp, cat, k, fs), KeySlot(cat, k, fs[|fs| - 1])).Some?
    ensures fs[|fs| - 1].tableName !in cat ==>
      Get(StageKeys(bp, cat, k, fs), ["createTable", fs[|fs| - 1].tableName, "tableName"]).Some?
  {
    KeyFactOutcome(StageKeys(bp, cat, k, fs[..|fs| - 1]), cat, k, fs[|fs| - 1]);
  }

  /** A key fact that needs work leaves an entry in its slot, whatever facts follow it. */
  lemma {:induction false} StageKeysStages(bp: Blueprint, cat: map<string, Table>, k: KeyKind, fs: seq<KeyFact>, f: KeyFact)
    requires f in fs && KeyNeedsWork(cat, k, f)
    ensures Get(StageKeys(bp, cat, k, fs), KeySlot(cat, k, f)).Some?
    ensures f.tableName !in cat ==> Get(StageKeys(bp, cat, k, fs), ["createTable", f.tableName, "tableName"]).Some?
  {
    var m := |fs| - 1;
    if fs[m] == f {
      StageKeysLast(bp, cat, k, fs);
    } else {
      assert fs == fs[..m] + [fs[m]];
      assert f in fs[..m];
      StageKeysStages(bp, cat, k, fs[..m], f);
      StageKeysStep(bp, cat, k, fs, KeySlot(cat, k, f));
      if f.tableName !in cat {
        StageKeysStep(bp, cat, k, fs, ["createTable", f.tableName, "tableName"]);
      }
    }
  }

  lemma {:induction false} StageTablesStages(bp: Blueprint, cat: map<string, Table>, tfs: seq<TableFact>, tf: TableFact)
    requires tf in tfs && tf.tableName !in cat
    ensures Get(StageTables(bp, cat, tfs), ["createTable", tf.tableName, "tableName"]).Some?
  {
    var m := |tfs| - 1;
    var prev := StageTables(bp, cat, tfs[..m]);
    if tfs[m] == tf {
      TableFactOutcome(prev, cat, tf);
    } else {
      var n := ["createTable", tf.tableName, "tableName"];
      assert tfs == tfs[..m] + [tfs[m]];
      assert tf in tfs[..m];
      StageTablesStages(bp, cat, tfs[..m], tf);
      assert Get(prev, n).Some? && |n| == 3;
      TableFactKeepsPresent(prev, cat, tfs[m], n);
    }
  }

  /** A key fact that needs work leaves an entry in its slot after all four key passes. */
  lemma KeySlotPaths(cat: map<string, Table>, k: KeyKind, f: KeyFact)
    ensures SlotPath(KeySlot(cat, k, f)) && SlotPath(["createTable", f.tableName, "tableName"])
  {
    assert KindProperty(k) != "tableName" by { match k case _ => }
  }

  /** A later key pass keeps both the slot of `f` and, for a missing table, its `tableName`. */
  lemma LaterKeyPassKeeps(b: Blueprint, cat: map<string, Table>, k: KeyKind, fs: seq<KeyFact>, q: seq<string>, n: seq<string>, creating: bool)
    requires Get(b, q).Some? && SlotPath(q) && SlotPath(n) && (creating ==> Get(b, n).Some?)
    ensures Get(StageKeys(b, cat, k, fs), q).Some? && (creating ==> Get(StageKeys(b, cat, k, fs), n).Some?)
  {
    StageKeysKeepPresent(b, cat, k, fs, q);
    if creating {
      StageKeysKeepPresent(b, cat, k, fs, n);
    }
  }

  lemma StageAllKeysStages(bp: Blueprint, cat: map<string, Table>, fs: Facts, k: KeyKind, f: KeyFact)
    requires f in KeyLedger(fs, k).mustExist && KeyNeedsWork(cat, k, f)
    ensures Get(StageAllKeys(bp, cat, fs), KeySlot(cat, k, f)).Some?
    ensures f.tableName !in cat ==> Get(StageAllKeys(bp, cat, fs), ["createTable", f.tableName, "tableName"]).Some?
  {
    var b1 := StageKeys(bp, cat, PrimaryKey, fs.primaryKey.mustExist);
    var b2 := StageKeys(b1, cat, Key, fs.key.mustExist);
    var b3 := StageKeys(b2, cat, UniqueKey, fs.uniqueKey.mustExist);
    var q := KeySlot(cat, k, f);
    var n := ["createTable", f.tableName, "tableName"];
    var creating := f.tableName !in cat;
    KeySlotPaths(cat, k, f);
    match k
    case PrimaryKey =>
      StageKeysStages(bp, cat, k, fs.primaryKey.mustExist, f);
      LaterKeyPassKeeps(b1, cat, Key, fs.key.mustExist, q, n, creating);
      LaterKeyPassKeeps(b2, cat, UniqueKey, fs.uniqueKey.mustExist, q, n, creating);
      LaterKeyPassKeeps(b3, cat, ForeignKey, fs.foreignKey.mustExist, q, n, creating);
    case Key =>
      StageKeysStages(b1, cat, k, fs.key.mustExist, f);
      LaterKeyPassKeeps(b2, cat, UniqueKey, fs.uniqueKey.mustExist, q, n, creating);
      LaterKeyPassKeeps(b3, cat, ForeignKey, fs.foreignKey.mustExist, q, n, creating);
    case UniqueKey =>
      StageKeysStages(b2, cat, k, fs.uniqueKey.mustExist, f);
      LaterKeyPassKeeps(b3, cat, ForeignKey, fs.foreignKey.mustExist, q, n, creating);
    case ForeignKey =>
      StageKeysStages(b3, cat, k, fs.foreignKey.mustExist, f);
  }

  // ---- What a staged slot holds at the end ----

  /** The section names a key pass writes under differ from the column sections, and from each other. */
  lemma KeyPathsApart(k: KeyKind, k': KeyKind)
    ensures AddKeySection(k)[3] == 'K'
    ensures KindProperty(k) != "columns" && KindProperty(k) != "tableName"
    ensures k != k' ==> KindProperty(k) != KindProperty(k')
  {
    match k case _ =>
  }

  /** A column fact for another (table, column) leaves the slot of `f` as it was. */
  lemma ColumnFactKeepsOtherSlot(b: Blueprint, cat: map<string, Table>, g: ColumnFact, f: ColumnFact)
    requires g.tableName != f.tableName || g.columnName != f.columnName
    ensures Get(StageColumnFact(b, cat, g), ColumnSlot(cat, f)) == Get(b, ColumnSlot(cat, f))
  {
    var q, gt, gc := ColumnSlot(cat, f), g.tableName, g.columnName;
    var i := if gt != f.tableName then 1 else 2;
    var p1, p2 := ["createTable", gt, "tableName"], ["createTable", gt, "columns", gc];
    var p3, p4 := ["addColumn", gt, gc], ["modifyColumn", gt, gc];
    if q[0] == "createTable" {
      DivergeAt(p1, q, i);
      DivergeAt(p2, q, if gt != f.tableName then 1 else 3);
      DivergeAt(p3, q, 0);
      DivergeAt(p4, q, 0);
    } else {
      DivergeAt(p1, q, 0);
      DivergeAt(p2, q, 0);
      if q[0] == "addColumn" {
        DivergeAt(p3, q, i);
        DivergeAt(p4, q, 0);
      } else {
        DivergeAt(p3, q, 0);
        DivergeAt(p4, q, i);
      }
    }
    ColumnFactLocal(b, cat, g, q);
  }

  /** A key fact never touches the slot of a column fact. */
  lemma KeyFactKeepsColumnSlot(b: Blueprint, cat: map<string, Table>, k: KeyKind, g: KeyFact, f: ColumnFact)
    ensures Get(StageKeyFact(b, cat, k, g), ColumnSlot(cat, f)) == Get(b, ColumnSlot(cat, f))
  {
    var q, gt := ColumnSlot(cat, f), g.tableName;
    KeyPathsApart(k, k);
    var p1, p2, p3 := ["createTable", gt, "tableName"], ["createTable", gt, KindProperty(k), g.id], [AddKeySection(k), gt, g.id];
    if q[0] == "createTable" {
      DivergeAt(p1, q, if gt != f.tableName then 1 else 2);
      DivergeAt(p2, q, if gt != f.tableName then 1 else 2);
    } else {
      DivergeAt(p1, q, 0);
      DivergeAt(p2, q, 0);
    }
    assert p3[0][3] != q[0][3];
    DivergeAt(p3, q, 0);
    KeyFactLocal(b, cat, k, g, q);
  }

  lemma {:induction false} StageKeysKeepColumnSlot(b: Blueprint, cat: map<string, Table>, k: KeyKind, fs: seq<KeyFact>, f: ColumnFact)
    ensures Get(StageKeys(b, cat, k, fs), ColumnSlot(cat, f)) == Get(b, ColumnSlot(cat, f))
  {
    if fs != [] {
      StageKeysKeepColumnSlot(b, cat, k, fs[..|fs| - 1], f);
      KeyFactKeepsColumnSlot(StageKeys(b, cat, k, fs[..|fs| - 1]), cat, k, fs[|fs| - 1], f);
    }
  }

  /** The key passes leave every column slot as the column pass left it. */
  lemma StageAllKeysKeepColumnSlot(b: Blueprint, cat: map<string, Table>, fs: Facts, f: ColumnFact)
    ensures Get(StageAllKeys(b, cat, fs), ColumnSlot(cat, f)) == Get(b, ColumnSlot(cat, f))
  {
    var b1 := StageKeys(b, cat, PrimaryKey, fs.primaryKey.mustExist);
    var b2 := StageKeys(b1, cat, Key, fs.key.mustExist);
    var b3 := StageKeys(b2, cat, UniqueKey, fs.uniqueKey.mustExist);
    StageKeysKeepColumnSlot(b, cat, PrimaryKey, fs.primaryKey.mustExist, f);
    StageKeysKeepColumnSlot(b1, cat, Key, fs.key.mustExist, f);
    StageKeysKeepColumnSlot(b2, cat, UniqueKey, fs.uniqueKey.mustExist, f);
    StageKeysKeepColumnSlot(b3, cat, ForeignKey, fs.foreignKey.mustExist, f);
  }

  /**
    Fact `i` is the last one for its (table, column) that does anything:
    every later fact for the same column already holds of the model.
  */
  predicate LastStaged(cat: map<string, Table>, fs: seq<ColumnFact>, i: int)
    requires 0 <= i < |fs|
  {
    forall j :: i < j < |fs| && fs[j].tableName == fs[i].tableName && fs[j].columnName == fs[i].columnName ==>
      !ColumnNeedsWork(cat, fs[j])
  }

  /** A later fact for the same column that holds of the model changes nothing. */
  lemma SatisfiedColumnFactKeeps(b: Blueprint, cat: map<string, Table>, g: ColumnFact)
    requires !ColumnNeedsWork(cat, g)
    ensures StageColumnFact(b, cat, g) == b
  {
  }

  /** Dropping the last fact keeps a fact the last that does anything for its column. */
  lemma LastStagedPrefix(cat: map<string, Table>, fs: seq<ColumnFact>, i: int)
    requires 0 <= i < |fs| - 1 && LastStaged(cat, fs, i)
    ensures LastStaged(cat, fs[..|fs| - 1], i)
  {
    var init := fs[..|fs| - 1];
    forall j | i < j < |init| ensures init[j] == fs[j] { }
  }

  /** The last fact of the column pass that needs work is staged as itself. */
  lemma StageColumnsLastHolds(bp: Blueprint, cat: map<string, Table>, fs: seq<ColumnFact>)
    requires fs != [] && ColumnNeedsWork(cat, fs[|fs| - 1])
    ensures Get(StageColumns(bp, cat, fs), ColumnSlot(cat, fs[|fs| - 1])) == Some(Leaf(ColumnEntry(fs[|fs| - 1])))
  {
    ColumnFactOutcome(StageColumns(bp, cat, fs[..|fs| - 1]), cat, fs[|fs| - 1]);
  }

  /** One more fact, for another column or already holding, keeps what the slot of `f` holds. */
  lemma StageColumnsStepHolds(bp: Blueprint, cat: map<string, Table>, fs: seq<ColumnFact>, f: ColumnFact)
    requires fs != [] && Get(StageColumns(bp, cat, fs[..|fs| - 1]), ColumnSlot(cat, f)) == Some(Leaf(ColumnEntry(f)))
    requires var g := fs[|fs| - 1];
      g.tableName != f.tableName || g.columnName != f.columnName || !ColumnNeedsWork(cat, g)
    ensures Get(StageColumns(bp, cat, fs), ColumnSlot(cat, f)) == Some(Leaf(ColumnEntry(f)))
  {
    var prev, g := StageColumns(bp, cat, fs[..|fs| - 1]), fs[|fs| - 1];
    if g.tableName != f.tableName || g.columnName != f.columnName {
      ColumnFactKeepsOtherSlot(prev, cat, g, f);
    } else {
      SatisfiedColumnFactKeeps(prev, cat, g);
    }
  }

  /** The slot of the last column fact that does anything holds that fact when the column pass ends. */
  lemma {:induction false} StageColumnsHoldsLast(bp: Blueprint, cat: map<string, Table>, fs: seq<ColumnFact>, i: int)
    requires 0 <= i < |fs| && ColumnNeedsWork(cat, fs[i]) && LastStaged(cat, fs, i)
    ensures Get(StageColumns(bp, cat, fs), ColumnSlot(cat, fs[i])) == Some(Leaf(ColumnEntry(fs[i])))
  {
    var m := |fs| - 1;
    if i == m {
      StageColumnsLastHolds(bp, cat, fs);
    } else {
      LastStagedPrefix(cat, fs, i);
      assert fs[..m][i] == fs[i];
      StageColumnsHoldsLast(bp, cat, fs[..m], i);
      StageColumnsStepHolds(bp, cat, fs, fs[i]);
    }
  }

  /** Every column fact that needs work has a last such fact for its column, at or after it. */
  lemma {:induction false} LastStagedExists(cat: map<string, Table>, fs: seq<ColumnFact>, i: int) returns (j: int)
    requires 0 <= i < |fs| && ColumnNeedsWork(cat, fs[i])
    ensures i <= j < |fs| && ColumnNeedsWork(cat, fs[j]) && LastStaged(cat, fs, j)
    ensures fs[j].tableName == fs[i].tableName && fs[j].columnName == fs[i].columnName
    decreases |fs| - i
  {
    if LastStaged(cat, fs, i) {
      j := i;
    } else {
      var n :| i < n < |fs| && fs[n].tableName == fs[i].tableName && fs[n].columnName == fs[i].columnName
        && ColumnNeedsWork(cat, fs[n]);
      j := LastStagedExists(cat, fs, n);
    }
  }

  /** A key fact of any pass leaves the entry of a key of a table to create as it was, or writes the same. */
  lemma KeyFactKeepsCreateKey(b: Blueprint, cat: map<string, Table>, k': KeyKind, g: KeyFact, k: KeyKind, f: KeyFact)
    requires f.tableName !in cat
    requires Get(b, KeySlot(cat, k, f)) == Some(Leaf(KeyEntry(f)))
    ensures Get(StageKeyFact(b, cat, k', g), KeySlot(cat, k, f)) == Some(Leaf(KeyEntry(f)))
  {
    if k' == k && g == f {
      KeyFactOutcome(b, cat, k, f);
    } else {
      CreateKeyApart(cat, k', g, k, f);
      KeyFactLocal(b, cat, k', g, KeySlot(cat, k, f));
    }
  }

  /** Another key fact writes nowhere at or below the entry of a key of a table to create. */
  lemma CreateKeyApart(cat: map<string, Table>, k': KeyKind, g: KeyFact, k: KeyKind, f: KeyFact)
    requires f.tableName !in cat && (k' != k || g != f)
    ensures var q := KeySlot(cat, k, f);
      && Diverge(["createTable", g.tableName, "tableName"], q)
      && Diverge(["createTable", g.tableName, KindProperty(k'), g.id], q)
      && Diverge([AddKeySection(k'), g.tableName, g.id], q)
  {
    var q, gt := KeySlot(cat, k, f), g.tableName;
    KeyPathsApart(k', k);
    KeyPathsApart(k, k');
    var p1, p2, p3 := ["createTable", gt, "tableName"], ["createTable", gt, KindProperty(k'), g.id], [AddKeySection(k'), gt, g.id];
    DivergeAt(p1, q, if gt != f.tableName then 1 else 2);
    DivergeAt(p2, q, if gt != f.tableName then 1 else if k' != k then 2 else 3);
    assert p3[0][3] != q[0][3];
    DivergeAt(p3, q, 0);
  }

  lemma {:induction false} StageKeysKeepCreateKey(b: Blueprint, cat: map<string, Table>, k': KeyKind, fs: seq<KeyFact>, k: KeyKind, f: KeyFact)
    requires f.tableName !in cat
    requires Get(b, KeySlot(cat, k, f)) == Some(Leaf(KeyEntry(f)))
    ensures Get(StageKeys(b, cat, k', fs), KeySlot(cat, k, f)) == Some(Leaf(KeyEntry(f)))
  {
    if fs != [] {
      StageKeysKeepCreateKey(b, cat, k', fs[..|fs| - 1], k, f);
      KeyFactKeepsCreateKey(StageKeys(b, cat, k', fs[..|fs| - 1]), cat, k', fs[|fs| - 1], k, f);
    }
  }

  /** The last fact of a pass, for a table to create, is staged as itself. */
  lemma StageKeysLastHolds(b: Blueprint, cat: map<string, Table>, k: KeyKind, fs: seq<KeyFact>)
    requires fs != [] && fs[|fs| - 1].tableName !in cat
    ensures Get(StageKeys(b, cat, k, fs), KeySlot(cat, k, fs[|fs| - 1])) == Some(Leaf(KeyEntry(fs[|fs| - 1])))
  {
    KeyFactOutcome(StageKeys(b, cat, k, fs[..|fs| - 1]), cat, k, fs[|fs| - 1]);
  }

  /** One more fact of the pass keeps a staged key of a table to create. */
  lemma StageKeysStepHolds(b: Blueprint, cat: map<string, Table>, k: KeyKind, fs: seq<KeyFact>, f: KeyFact)
    requires fs != [] && f.tableName !in cat
    requires Get(StageKeys(b, cat, k, fs[..|fs| - 1]), KeySlot(cat, k, f)) == Some(Leaf(KeyEntry(f)))
    ensures Get(StageKeys(b, cat, k, fs), KeySlot(cat, k, f)) == Some(Leaf(KeyEntry(f)))
  {
    KeyFactKeepsCreateKey(StageKeys(b, cat, k, fs[..|fs| - 1]), cat, k, fs[|fs| - 1], k, f);
  }

  /** A key of a table to create is staged, as its fact, by its own pass. */
  lemma {:induction false} StageKeysHoldsCreateKey(b: Blueprint, cat: map<string, Table>, k: KeyKind, fs: seq<KeyFact>, f: KeyFact)
    requires f in fs && f.tableName !in cat
    ensures Get(StageKeys(b, cat, k, fs), KeySlot(cat, k, f)) == Some(Leaf(KeyEntry(f)))
  {
    var m := |fs| - 1;
    if fs[m] == f {
      StageKeysLastHolds(b, cat, k, fs);
    } else {
      assert fs == fs[..m] + [fs[m]];
      assert f in fs[..m];
      StageKeysHoldsCreateKey(b, cat, k, fs[..m], f);
      StageKeysStepHolds(b, cat, k, fs, f);
    }
  }

  /** After all four key passes, a key of a table to create is staged as its fact. */
  lemma StageAllKeysHoldsCreateKey(bp: Blueprint, cat: map<string, Table>, fs: Facts, k: KeyKind, f: KeyFact)
    requires f in KeyLedger(fs, k).mustExist && f.tableName !in cat
    ensures Get(StageAllKeys(bp, cat, fs), KeySlot(cat, k, f)) == Some(Leaf(KeyEntry(f)))
  {
    var b1 := StageKeys(bp, cat, PrimaryKey, fs.primaryKey.mustExist);
    var b2 := StageKeys(b1, cat, Key, fs.key.mustExist);
    var b3 := StageKeys(b2, cat, UniqueKey, fs.uniqueKey.mustExist);
    match k
    case PrimaryKey =>
      StageKeysHoldsCreateKey(bp, cat, k, fs.primaryKey.mustExist, f);
      StageKeysKeepCreateKey(b1, cat, Key, fs.key.mustExist, k, f);
      StageKeysKeepCreateKey(b2, cat, UniqueKey, fs.uniqueKey.mustExist, k, f);
      StageKeysKeepCreateKey(b3, cat, ForeignKey, fs.foreignKey.mustExist, k, f);
    case Key =>
      StageKeysHoldsCreateKey(b1, cat, k, fs.key.mustExist, f);
      StageKeysKeepCreateKey(b2, cat, UniqueKey, fs.uniqueKey.mustExist, k, f);
      StageKeysKeepCreateKey(b3, cat, ForeignKey, fs.foreignKey.mustExist, k, f);
    case UniqueKey =>
      StageKeysHoldsCreateKey(b2, cat, k, fs.uniqueKey.mustExist, f);
      StageKeysKeepCreateKey(b3, cat, ForeignKey, fs.foreignKey.mustExist, k, f);
    case ForeignKey =>
      StageKeysHoldsCreateKey(b3, cat, k, fs.foreignKey.mustExist, f);
  }

  // ---- Every entry comes from a fact ----

  /** A column slot: `addColumn[t][c]`, `modifyColumn[t][c]` or `createTable[t].columns[c]`. */
  predicate ColumnPath(q: seq<string>) {
    || (|q| == 3 && (q[0] == "addColumn" || q[0] == "modifyColumn"))
    || (|q| == 4 && q[0] == "createTable" && q[2] == "columns")
  }

  /** An entry holding a column fact of `ls` for table `t` and column `c`. */
  predicate EntryFrom(x: Blueprint, ls: seq<ColumnFact>, t: string, c: string) {
    && x.Leaf? && x.value.ColumnEntry? && x.value.column in ls
    && x.value.column.tableName == t && x.value.column.columnName == c
  }

  /**
    What the differ keeps true of the blueprint with respect to the facts it
    is given: every column slot holds a fact of `ls` for that table and
    column, and every table to create is one of `names`.
  */
  ghost predicate Backed(bp: Blueprint, ls: seq<ColumnFact>, names: set<string>) {
    && (forall q :: ColumnPath(q) && Get(bp, q).Some? ==> EntryFrom(Get(bp, q).value, ls, q[1], q[|q| - 1]))
    && (forall t :: Get(Section(bp, "createTable"), [t]).Some? ==> t in names)
  }

  /** The empty blueprint holds nothing in any column slot. */
  lemma InitialColumnSlot(q: seq<string>)
    requires ColumnPath(q)
    ensures Get(InitialBlueprint, q) == None
  {
    InitialSections();
    GetSection(InitialBlueprint, q[0], q[1..]);
    assert [q[0]] + q[1..] == q;
    var empty: Blueprint := Branch([]);
    assert Get(empty, q[1..]) == None;
  }

  lemma InitialBacked(ls: seq<ColumnFact>, names: set<string>)
    ensures Backed(InitialBlueprint, ls, names)
  {
    InitialSections();
    forall q | ColumnPath(q) ensures Get(InitialBlueprint, q) == None {
      InitialColumnSlot(q);
    }
    var empty: Blueprint := Branch([]);
    forall t ensures Get(empty, [t]) == None {
      GetOne(empty, t);
    }
  }

  /** A column slot parts ways with the `tableName` slot of every table to create. */
  lemma ApartFromMark(q: seq<string>, t: string)
    requires ColumnPath(q)
    ensures Diverge(["createTable", t, "tableName"], q)
  {
    var p := ["createTable", t, "tableName"];
    if q[0] != "createTable" {
      DivergeAt(p, q, 0);
    } else if q[1] != t {
      DivergeAt(p, q, 1);
    } else {
      DivergeAt(p, q, 2);
    }
  }

  /** Two column slots of different (table, column) pairs part ways. */
  lemma ColumnSlotsApart(p: seq<string>, q: seq<string>)
    requires ColumnPath(p) && ColumnPath(q) && (p[1] != q[1] || p[|p| - 1] != q[|q| - 1])
    ensures Diverge(p, q)
  {
    if p[1] != q[1] {
      DivergeAt(p, q, 1);
    } else if p[0] != q[0] {
      DivergeAt(p, q, 0);
    } else {
      assert |p| == |q|;
      DivergeAt(p, q, |p| - 1);
    }
  }

  /** A column slot of another (table, column) parts ways with every slot a column fact may write. */
  lemma ApartFromColumnSlots(q: seq<string>, g: ColumnFact)
    requires ColumnPath(q) && (q[1] != g.tableName || q[|q| - 1] != g.columnName)
    ensures Diverge(["createTable", g.tableName, "columns", g.columnName], q)
    ensures Diverge(["addColumn", g.tableName, g.columnName], q)
    ensures Diverge(["modifyColumn", g.tableName, g.columnName], q)
  {
    var t, c := g.tableName, g.columnName;
    ColumnSlotsApart(["createTable", t, "columns", c], q);
    ColumnSlotsApart(["addColumn", t, c], q);
    ColumnSlotsApart(["modifyColumn", t, c], q);
  }

  /** Writing one column slot changes another slot of the same (table, column) not at all. */
  lemma SameColumnWrite(b: Blueprint, p: seq<string>, v: Blueprint, q: seq<string>)
    requires ColumnPath(p) && ColumnPath(q) && p[1] == q[1] && p[|p| - 1] == q[|q| - 1]
    ensures Get(Set(b, p, v), q) == Get(b, q) || Get(Set(b, p, v), q) == Some(v)
  {
    if p[0] != q[0] {
      DivergeAt(p, q, 0);
      SetKeepsSiblings(b, p, v, q);
    } else {
      assert p == q;
      SetReadBack(b, p, v);
    }
  }

  /** A column fact writes its own fact, or nothing, into the slots of its own (table, column). */
  lemma ColumnFactSameSlot(b: Blueprint, cat: map<string, Table>, g: ColumnFact, q: seq<string>)
    requires ColumnPath(q) && q[1] == g.tableName && q[|q| - 1] == g.columnName
    ensures var r := StageColumnFact(b, cat, g);
      Get(r, q) == Get(b, q) || Get(r, q) == Some(Leaf(ColumnEntry(g)))
  {
    var t, c, v := g.tableName, g.columnName, Leaf(ColumnEntry(g));
    if t in cat {
      if c in cat[t].columns {
        if !CompareColumnDefinition(cat[t].columns[c], g.def) {
          SameColumnWrite(b, ["modifyColumn", t, c], v, q);
        }
      } else {
        SameColumnWrite(b, ["addColumn", t, c], v, q);
      }
    } else {
      ApartFromMark(q, t);
      SetKeepsSiblings(b, ["createTable", t, "tableName"], Leaf(TableName(t)), q);
      SameColumnWrite(MarkCreate(b, t), ["createTable", t, "columns", c], v, q);
    }
  }

  lemma TableFactBacked(b: Blueprint, cat: map<string, Table>, tf: TableFact, ls: seq<ColumnFact>, names: set<string>)
    requires Backed(b, ls, names) && tf.tableName in names
    ensures Backed(StageTableFact(b, cat, tf), ls, names)
  {
    var t := tf.tableName;
    if t !in cat {
      var p, r := ["createTable", t, "tableName"], StageTableFact(b, cat, tf);
      forall q | ColumnPath(q) ensures Get(r, q) == Get(b, q) {
        ApartFromMark(q, t);
        SetKeepsSiblings(b, p, Leaf(TableName(t)), q);
      }
      forall u | Get(Section(r, "createTable"), [u]).Some? ensures u in names {
        if u != t {
          DivergeAt(p, ["createTable", u], 1);
          SetKeepsSiblings(b, p, Leaf(TableName(t)), ["createTable", u]);
          GetSection(r, "createTable", [u]);
          GetSection(b, "createTable", [u]);
        }
      }
    }
  }

  /** A column fact changes a column slot of another (table, column) not at all. */
  lemma ColumnFactKeepsColumnPath(b: Blueprint, cat: map<string, Table>, g: ColumnFact, q: seq<string>)
    requires ColumnPath(q) && (q[1] != g.tableName || q[|q| - 1] != g.columnName)
    ensures Get(StageColumnFact(b, cat, g), q) == Get(b, q)
  {
    ApartFromMark(q, g.tableName);
    ApartFromColumnSlots(q, g);
    ColumnFactLocal(b, cat, g, q);
  }

  /** A column fact adds no table to create but its own. */
  lemma ColumnFactKeepsName(b: Blueprint, cat: map<string, Table>, g: ColumnFact, u: string)
    requires u != g.tableName
    ensures Get(Section(StageColumnFact(b, cat, g), "createTable"), [u]) == Get(Section(b, "createTable"), [u])
  {
    var q, t, c := ["createTable", u], g.tableName, g.columnName;
    DivergeAt(["createTable", t, "tableName"], q, 1);
    DivergeAt(["createTable", t, "columns", c], q, 1);
    DivergeAt(["addColumn", t, c], q, 0);
    DivergeAt(["modifyColumn", t, c], q, 0);
    ColumnFactLocal(b, cat, g, q);
    GetSection(StageColumnFact(b, cat, g), "createTable", [u]);
    GetSection(b, "createTable", [u]);
  }

  lemma ColumnFactBacked(b: Blueprint, cat: map<string, Table>, g: ColumnFact, ls: seq<ColumnFact>, names: set<string>)
    requires Backed(b, ls, names) && g in ls && g.tableName in names
    ensures Backed(StageColumnFact(b, cat, g), ls, names)
  {
    var r := StageColumnFact(b, cat, g);
    forall q | ColumnPath(q) && Get(r, q).Some? ensures EntryFrom(Get(r, q).value, ls, q[1], q[|q| - 1]) {
      if q[1] != g.tableName || q[|q| - 1] != g.columnName {
        ColumnFactKeepsColumnPath(b, cat, g, q);
      } else {
        ColumnFactSameSlot(b, cat, g, q);
      }
    }
    forall u | Get(Section(r, "createTable"), [u]).Some? ensures u in names {
      if u != g.tableName {
        ColumnFactKeepsName(b, cat, g, u);
      }
    }
  }

  /** A column slot parts ways with every slot a key fact may write. */
  lemma ApartFromKeySlots(q: seq<string>, k: KeyKind, f: KeyFact)
    requires ColumnPath(q)
    ensures Diverge(["createTable", f.tableName, KindProperty(k), f.id], q)
    ensures Diverge([AddKeySection(k), f.tableName, f.id], q)
  {
    var p2, p3 := ["createTable", f.tableName, KindProperty(k), f.id], [AddKeySection(k), f.tableName, f.id];
    KeyPathsApart(k, k);
    if q[0] != "createTable" {
      DivergeAt(p2, q, 0);
    } else if q[1] != f.tableName {
      DivergeAt(p2, q, 1);
    } else {
      DivergeAt(p2, q, 2);
    }
    assert p3[0][3] != q[0][3];
    DivergeAt(p3, q, 0);
  }

  /** A key fact changes no column slot. */
  lemma KeyFactKeepsColumnPath(b: Blueprint, cat: map<string, Table>, k: KeyKind, f: KeyFact, q: seq<string>)
    requires ColumnPath(q)
    ensures Get(StageKeyFact(b, cat, k, f), q) == Get(b, q)
  {
    ApartFromMark(q, f.tableName);
    ApartFromKeySlots(q, k, f);
    KeyFactLocal(b, cat, k, f, q);
  }

  /** A key fact adds no table to create but its own. */
  lemma KeyFactKeepsName(b: Blueprint, cat: map<string, Table>, k: KeyKind, f: KeyFact, u: string)
    requires u != f.tableName
    ensures Get(Section(StageKeyFact(b, cat, k, f), "createTable"), [u]) == Get(Section(b, "createTable"), [u])
  {
    var q, t := ["createTable", u], f.tableName;
    var p3 := [AddKeySection(k), t, f.id];
    KeyPathsApart(k, k);
    DivergeAt(["createTable", t, "tableName"], q, 1);
    DivergeAt(["createTable", t, KindProperty(k), f.id], q, 1);
    assert p3[0][3] != q[0][3];
    DivergeAt(p3, q, 0);
    KeyFactLocal(b, cat, k, f, q);
    GetSection(StageKeyFact(b, cat, k, f), "createTable", [u]);
    GetSection(b, "createTable", [u]);
  }

  lemma KeyFactBacked(b: Blueprint, cat: map<string, Table>, k: KeyKind, f: KeyFact, ls: seq<ColumnFact>, names: set<string>)
    requires Backed(b, ls, names) && f.tableName in names
    ensures Backed(StageKeyFact(b, cat, k, f), ls, names)
  {
    var r := StageKeyFact(b, cat, k, f);
    forall q | ColumnPath(q) ensures Get(r, q) == Get(b, q) {
      KeyFactKeepsColumnPath(b, cat, k, f, q);
    }
    forall u | Get(Section(r, "createTable"), [u]).Some? ensures u in names {
      if u != f.tableName {
        KeyFactKeepsName(b, cat, k, f, u);
      }
    }
  }

  lemma {:induction false} StageTablesBacked(b: Blueprint, cat: map<string, Table>, tfs: seq<TableFact>,
                                             ls: seq<ColumnFact>, names: set<string>)
    requires Backed(b, ls, names) && forall f :: f in tfs ==> f.tableName in names
    ensures Backed(StageTables(b, cat, tfs), ls, names)
  {
    if tfs != [] {
      var m := |tfs| - 1;
      assert forall f :: f in tfs[..m] ==> f in tfs;
      StageTablesBacked(b, cat, tfs[..m], ls, names);
      TableFactBacked(StageTables(b, cat, tfs[..m]), cat, tfs[m], ls, names);
    }
  }

  lemma {:induction false} StageColumnsBacked(b: Blueprint, cat: map<string, Table>, fs: seq<ColumnFact>,
                                              ls: seq<ColumnFact>, names: set<string>)
    requires Backed(b, ls, names) && forall g :: g in fs ==> g in ls && g.tableName in names
    ensures Backed(StageColumns(b, cat, fs), ls, names)
  {
    if fs != [] {
      var m := |fs| - 1;
      assert forall g :: g in fs[..m] ==> g in fs;
      StageColumnsBacked(b, cat, fs[..m], ls, names);
      ColumnFactBacked(StageColumns(b, cat, fs[..m]), cat, fs[m], ls, names);
    }
  }

  lemma {:induction false} StageKeysBacked(b: Blueprint, cat: map<string, Table>, k: KeyKind, fs: seq<KeyFact>,
                                           ls: seq<ColumnFact>, names: set<string>)
    requires Backed(b, ls, names) && forall f :: f in fs ==> f.tableName in names
    ensures Backed(StageKeys(b, cat, k, fs), ls, names)
  {
    if fs != [] {
      var m := |fs| - 1;
      assert forall f :: f in fs[..m] ==> f in fs;
      StageKeysBacked(b, cat, k, fs[..m], ls, names);
      KeyFactBacked(StageKeys(b, cat, k, fs[..m]), cat, k, fs[m], ls, names);
    }
  }

  /**
    A plan from a blueprint whose entries all come from the expanded ledger
    keeps every entry coming from it: a column slot holds a column fact for
    that table and column, and a table to create is named by some fact.
  */
  lemma PlanBacked(bp: Blueprint, cat: map<string, Table>, fs: Facts)
    requires var ex := Expand(fs); Backed(bp, ex.column.mustExist, FactTables(ex))
    ensures var ex := Expand(fs); Backed(Plan(bp, cat, fs), ex.column.mustExist, FactTables(ex))
  {
    var ex := Expand(fs);
    var ls, names := ex.column.mustExist, FactTables(ex);
    ExpandAppends(fs);
    var b1 := StageTables(bp, cat, fs.table.mustExist);
    StageTablesBacked(bp, cat, fs.table.mustExist, ls, names);
    var b2 := StageColumns(b1, cat, ls);
    StageColumnsBacked(b1, cat, ls, ls, names);
    var k1 := StageKeys(b2, cat, PrimaryKey, ex.primaryKey.mustExist);
    StageKeysBacked(b2, cat, PrimaryKey, ex.primaryKey.mustExist, ls, names);
    var k2 := StageKeys(k1, cat, Key, ex.key.mustExist);
    StageKeysBacked(k1, cat, Key, ex.key.mustExist, ls, names);
    var k3 := StageKeys(k2, cat, UniqueKey, ex.uniqueKey.mustExist);
    StageKeysBacked(k2, cat, UniqueKey, ex.uniqueKey.mustExist, ls, names);
    StageKeysBacked(k3, cat, ForeignKey, ex.foreignKey.mustExist, ls, names);
  }

  /** What a column slot of a backed blueprint holds. */
  lemma BackedSlot(bp: Blueprint, ls: seq<ColumnFact>, names: set<string>, q: seq<string>)
    requires Backed(bp, ls, names) && ColumnPath(q) && Get(bp, q).Some?
    ensures EntryFrom(Get(bp, q).value, ls, q[1], q[|q| - 1])
  {
  }

  /** A table to create in a backed blueprint is one of the names. */
  lemma BackedName(bp: Blueprint, ls: seq<ColumnFact>, names: set<string>, t: string)
    requires Backed(bp, ls, names) && Get(Section(bp, "createTable"), [t]).Some?
    ensures t in names
  {
  }

  /** What an `addColumn` or `modifyColumn` slot of a backed blueprint holds. */
  lemma BackedAlterSlot(bp: Blueprint, ls: seq<ColumnFact>, names: set<string>, name: string, t: string, c: string)
    requires Backed(bp, ls, names) && (name == "addColumn" || name == "modifyColumn")
    requires Get(Section(bp, name), [t, c]).Some?
    ensures EntryFrom(Get(Section(bp, name), [t, c]).value, ls, t, c)
  {
    GetSection(bp, name, [t, c]);
    assert [name] + [t, c] == [name, t, c];
    BackedSlot(bp, ls, names, [name, t, c]);
  }
}
