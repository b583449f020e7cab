# sqlscheman: a verified model of the schema-reconciliation engine

sqlscheman is a MySQL migration helper. It has three parts:

- It loads the current schema from `information_schema` into an in-memory model.
- A caller records facts: "this table, column or key must exist".
- `queriesNeededToMaterializeFacts` works out the DDL that makes those facts
  hold. It stages work in a nested `blueprint` object, then renders it as
  `CREATE TABLE`, then `ALTER TABLE ... ADD COLUMN`, then
  `ALTER TABLE ... MODIFY COLUMN` statements.

This project models that engine in Dafny and proves what it promises. The
files are:

- `js_value.dfy` (`JsValue`): the JavaScript values the engine tests for
  truthiness, with `&&`, `||` and `String(...)`.
- `ordered_map.dfy` (`OrderedMap`): objects as insertion-ordered
  association lists, since statements follow `Object.entries` order.
- `path_tree.dfy` (`PathTree`): nested objects and the `set(obj, path, value)`
  path writer.
- `text.dfy` (`Text`): `join`, `split` and the default string `sort`.
  Sorting is specified as a sorted permutation, and any two orders of the
  same names are proved to sort to the same list.
- `column_def.dfy` (`ColumnDefinition`): the column-definition renderer of
  `columnDefAsString.js`. It is written as the filtered, joined array the
  source builds. It is proved equal to a clause list, in a fixed order,
  with a three-state default (missing, explicit `null`, value).
- `sql.dfy` (`Sql`): `quoteId` and the `sql.createTable`, `sql.addColumn`
  and `sql.modifyColumn` renderers.
- `catalog.dfy` (`Catalog`): the model `load` builds from catalog rows. This
  is one table record per table, the flat key maps and the `objects` set,
  with order-independent key ids.
- `facts.dfy` (`Facts`): the fact ledger, and the expansion of table facts
  into column and key facts.
- `differ.dfy` (`Differ`): `compareColumnDefinition` and the three
  classification passes that write the blueprint. It also holds the blueprint
  invariant: every entry is called for by the model, and no object has
  duplicate keys.
- `render.dfy` (`Render`): the three render loops. These are the statement
  order, the justification of every statement, and the loops that push the
  queries.
- `reconcile.dfy` (`Reconcile`): end-to-end theorems about one call of
  `queriesNeededToMaterializeFacts`.
- `scheman.dfy` (`Engine`): the `scheman` object as a class. Its fields are
  the loaded Maps, the ledger and the long-lived blueprint. Its methods are
  the `forEach`/`for` loops of the source, each proved equal to the
  functions above.

The catalog rows that `load` fetches are parameters of `Engine.Scheman.Load`.
They arrive already grouped as `retrieve` groups them: indexes and constraints
by `(table, name)`, in query order.

## Model

| member | source | states |
|---|---|---|
| JsValue.And | scheman.js:22 | `a && b` is `a` when `a` is falsy and `b` otherwise; it is truthy exactly when both are |
| JsValue.Or | scheman.js:26 | `a \|\| b` is `a` when `a` is truthy and `b` otherwise; it is truthy exactly when either is |
| JsValue.ToStr | scheman.js:26 | `String(v)` of a string is that string; a truthy value never prints as the empty string |
| OrderedMap.Lookup | scheman.js:15 | a property is undefined exactly when its key is not among the object's keys, and a found value is one of the entries |
| OrderedMap.Put | scheman.js:16 | assigning an existing property keeps the key order; a new property goes last |
| OrderedMap.LookupPutSame | scheman.js:16 | after `o[k] = v`, `o[k]` reads `v` |
| OrderedMap.LookupPutOther | scheman.js:16 | `o[k] = v` leaves every other property as it was |
| OrderedMap.PutDistinct | scheman.js:15-16 | assignment never creates a duplicate key |
| PathTree.Set | scheman.js:10-19 | `set` keeps the root's keys in order, adding the first path step last when it is new; an empty path changes nothing |
| PathTree.SetReadBack | scheman.js:10-19 | after `set(t, path, v)`, `path` reads back `v` |
| PathTree.SetCreatesIntermediates | scheman.js:14-17 | every proper prefix of the path now names an object holding the next step |
| PathTree.SetKeepsSiblings | scheman.js:14-18 | every path that parts ways with the written one reads as before |
| PathTree.SetKeepsPresent | scheman.js:14-18 | a write never removes an existing path unless that path runs strictly below the written one |
| Text.SplitJoin | scheman.js:108 | `split(',')` undoes `join(',')` for comma-free names |
| Text.Sort | scheman.js:174 | the sorted list is ordered and a permutation of the input |
| Text.SortCanonical | scheman.js:174 | two lists holding the same names, in any order, sort to the same list |
| ColumnDefinition.SegmentsKept | columnDefAsString.js:21-30 | the array left after `filter(v => v)` is the clause list: type, `unsigned`, `NOT NULL`, `AUTO_INCREMENT`, default, `extra`, `COMMENT '...'`, each present only when set |
| ColumnDefinition.RenderedClauses | columnDefAsString.js:21-31 | the rendered definition is that clause list joined by single spaces |
| ColumnDefinition.TypeSegmentIsText | columnDefAsString.js:22 | the type segment is `type`, then `(length)` when length is truthy, then `(precision, scale)` when precision is truthy, with `scale` 0 when missing |
| ColumnDefinition.ClausesNonEmpty | columnDefAsString.js:30-31 | no clause is empty, so an unset attribute adds no text and no extra space |
| ColumnDefinition.IgnoredAttributesNotRendered | columnDefAsString.js:1-20 | definitions that differ only in `dataType`, `colType`, `nullable`, `fixed`, `unique`, `custom`, `charset`, `collation` or `check` render alike |
| ColumnDefinition.TypeOnly | columnDefAsString.js:21-31 | with no optional attribute set, only the type text is rendered |
| ColumnDefinition.ExampleIntColumn | columnDefAsString.js:21-31 | `{type:'int', length:11, unsigned:true, notnull:true, default:null}` renders `int(11) unsigned NOT NULL DEFAULT NULL` |
| ColumnDefinition.ExampleVarcharColumn | columnDefAsString.js:21-31 | `{type:'varchar', length:255, default:'abc'}` renders `varchar(255) DEFAULT abc` |
| ColumnDefinition.ExampleMissingVersusNullDefault | columnDefAsString.js:26 | a missing default renders no clause, an explicit `null` renders `DEFAULT NULL` |
| Sql.QuoteIdColumns | scheman.js:108 | `quoteId` of a comma-joined key id is the back-quoted column names joined by `, ` |
| Sql.QuoteIdOne | scheman.js:108 | `quoteId` of a comma-free name back-quotes it |
| Sql.CreateLineCount | scheman.js:114-121 | `CREATE TABLE` has one line per column, per unique key and per key, plus one primary-key line exactly when a primary key is given |
| Sql.CreateClauses | scheman.js:114-121 | line by line: the i-th column line is the i-th column's name and definition, the primary-key line (when there is one) names the first id or the string, then the i-th `UNIQUE KEY` and `KEY` lines name the i-th ids, in that order |
| Sql.ColumnLineClauses | scheman.js:116 | a column line is four spaces, the back-quoted name, a space and the column's clauses joined by spaces |
| Sql.ColumnLinesEach | scheman.js:116 | the i-th column line renders the i-th declared column |
| Sql.KeyLinesEach | scheman.js:118-119 | the i-th key line names the i-th key id under the given heading |
| Sql.PrimaryKeyFirstIdOnly | scheman.js:117 | only the first id of an object-valued primary key is rendered |
| Sql.PrimaryKeyStringOrObject | scheman.js:117 | a string primary key renders like an object with that one id |
| Sql.AlterClauses | scheman.js:125-131 | `ADD COLUMN` and `MODIFY COLUMN` statements end with the column's clauses joined by spaces |
| Catalog.KeyIdIgnoresOrder | scheman.js:174 | two index groups over the same columns, in any order, get the same key id |
| Catalog.ForeignKeyIdIgnoresOrder | scheman.js:195-197 | two constraint groups with the same referenced table and the same from/to columns, in any order, get the same foreign-key id |
| Catalog.AddTable | scheman.js:153-162 | a table row (re)sets its table to an empty record and adds its name; every other table, every flat key map and `objects` are unchanged |
| Catalog.AddColumn | scheman.js:164-169 | a column row files the row under its table's columns, tags `column:<table>:<column>`, and leaves other tables alone |
| Catalog.AddIndexFiles | scheman.js:171-190 | an index group is filed under exactly one kind: `PRIMARY` as the primary key, otherwise a key when `nonUnique` is truthy, otherwise a unique key. It goes in that kind's table map and flat map under the sorted id, with the matching `<kind>:<table>:<id>` tag, and every other kind is unchanged |
| Catalog.AddIndexKeepsFiled | scheman.js:171-190 | filing a later index group never unfiles an earlier one |
| Catalog.AddConstraint | scheman.js:192-202 | a constraint group is filed under its table's foreign keys and the flat map with id `from>refTable:to`, tagged `foreignKey:<table>:<id>`; other tables and the index-derived flat maps are unchanged |
| Catalog.LoadTables | scheman.js:153-162 | the loaded tables are the previous ones plus every table row's name |
| Catalog.LoadColumnsRegisters | scheman.js:164-169 | every column row's name is a key of its table's columns and its tag is in `objects` after the pass; which row the key holds is `Catalog.LoadColumnsKeepsLast` |
| Catalog.LoadIndexesRegisters | scheman.js:171-190 | every index group's id is a key of its kind's table map and of the flat map, and its tag is in `objects`, after the pass |
| Catalog.LoadConstraintsRegisters | scheman.js:192-202 | every constraint group's id is a key of its table's foreign keys and of the flat map, and its tag is in `objects`, after the pass |
| Catalog.LoadIndexesKeeps | scheman.js:171-190 | the index pass keeps every column and every `objects` entry |
| Catalog.LoadConstraintsKeeps | scheman.js:192-202 | the constraint pass keeps every column, index-derived key and `objects` entry |
| Catalog.LoadKnowsCatalog | scheman.js:153-202 | after `load`, the tables are the previous ones plus the fetched ones, and every column, index group and constraint group of the catalog has its key in the table maps and the flat maps and its tag in `objects` |
| Catalog.LoadColumnsKeepsLast | scheman.js:164-169 | a column row that no later row of the same table and column follows is the value its table holds for that column |
| Catalog.LoadIndexesKeepsLast | scheman.js:171-190 | an index group that no later group of the same kind and `<table>:<id>` follows is the value held under its id in its table's map and in the flat map |
| Catalog.LoadConstraintsKeepsLast | scheman.js:192-202 | a constraint group that no later group with the same `<table>:<id>` follows is the value held under its id in its table's foreign keys and in the flat map |
| Catalog.LoadHoldsLastRows | scheman.js:153-202 | after `load`, every column row, index group and constraint group not overwritten by a later one with the same key is exactly the value stored under that key |
| Facts.WithKeyLedger | scheman.js:138-139 | replacing one kind's lists leaves every other kind's lists unchanged |
| Facts.ExpandAppends | scheman.js:216-244 | expansion only appends to the `mustExist` lists; the table list and every `mustNotExist` list are unchanged |
| Facts.ColumnsOfContains | scheman.js:224-226 | every declared column of every table fact becomes a column fact |
| Facts.ColumnsOfOnly | scheman.js:224-226 | every expanded column fact comes from a declared column of some table fact |
| Facts.KeysOfContains | scheman.js:228-242 | every key of every table fact becomes a key fact of its kind |
| Facts.KeysOfTables | scheman.js:228-242 | every expanded key fact names the table of some table fact |
| Differ.CompareColumnDefinition | scheman.js:21-35 | true exactly when the column type equals `type` plus `(length)` for a truthy length, and the defaults agree after a falsy current default and a `null`/missing wanted default both read `NULL` |
| Differ.CompareReadsTypeLengthDefault | scheman.js:21-35 | the comparison reads only `type`, `length` and `default` |
| Differ.EmptyDefaultNeverMatches | scheman.js:26 | a wanted default of `''` never compares equal, since a current default of `''` reads as `NULL` |
| Differ.ComparedTypeIsRenderedType | scheman.js:22 | for a non-empty type without precision, the compared type is the rendered type text |
| Differ.TableFactOutcome | scheman.js:220-222 | a table fact stages nothing for an existing table and `createTable[t].tableName` for a missing one |
| Differ.ColumnFactOutcome | scheman.js:246-264 | a column fact stages nothing when the column exists and compares equal; `modifyColumn` when it differs; `addColumn` when the table lacks it; `createTable[t].tableName` and `createTable[t].columns[c]` when the table is missing |
| Differ.ColumnFactLocal | scheman.js:246-264 | staging a column fact touches no path outside its own slots |
| Differ.KeyFactOutcome | scheman.js:268-291 | a key fact stages nothing when its id is in the table's map of that kind; `addKey:<kind>[t][id]` when it is not; `createTable[t].tableName` and `createTable[t][<kind property>][id]` when the table is missing |
| Differ.KeyFactLocal | scheman.js:268-291 | staging a key fact touches no path outside its own slots |
| Differ.DeclaredKeyIdNotSorted | scheman.js:271-283 | a declared unique key `b,a` on a table that holds `a,b` is still staged under `addKey:uniqueKey`, because the declared id is compared as written while loaded ids are sorted |
| Differ.NeverAddedAndModified | scheman.js:251-258 | under the blueprint invariant no (table, column) pair is in both `addColumn` and `modifyColumn` |
| Differ.PlanInv | scheman.js:214-291 | the three staging passes keep the blueprint invariant: every entry is called for by the model |
| Differ.PlanTidy | scheman.js:214-291 | the staging passes keep every object of the blueprint free of duplicate keys |
| Differ.PlanSatisfied | scheman.js:214-291 | when every fact already holds, the blueprint is left exactly as it was |
| Differ.StageTablesStages | scheman.js:216-222 | every table fact for a missing table leaves `createTable[t].tableName` |
| Differ.StageColumnsStages | scheman.js:246-264 | every column fact that needs work leaves its entry, and later facts never remove it |
| Differ.StageKeysStages | scheman.js:268-291 | every key fact that needs work leaves its entry, and later facts never remove it |
| Differ.StageAllKeysStages | scheman.js:268-291 | across the four key passes, every key fact that needs work is staged |
| Differ.StageAllKeysKeepPresent | scheman.js:268-291 | the key passes never remove an entry staged earlier |
| Differ.ColumnFactKeepsOtherSlot | scheman.js:246-264 | a column fact leaves the slot of every other (table, column) pair as it was |
| Differ.StageColumnsHoldsLast | scheman.js:246-264 | after the column pass, the slot of a column holds the last fact for it that needs work, with that fact's definition |
| Differ.LastStagedExists | scheman.js:246-264 | every column fact that needs work is followed, at or after it, by a last such fact for the same column |
| Differ.StageAllKeysKeepColumnSlot | scheman.js:268-291 | the key passes never change a column's slot |
| Differ.StageAllKeysHoldsCreateKey | scheman.js:285-287 | after the key passes, `createTable[t][<kind property>][id]` holds a key fact of a missing table |
| Render.CreateEntryDef | scheman.js:295-296 | an entry yields a definition only when its `tableName` is set and non-empty; that definition renders and carries that name |
| Render.PlannedOrdered | scheman.js:293-311 | every `CREATE TABLE` precedes every `ADD COLUMN`, which precedes every `MODIFY COLUMN` |
| Render.InitialPlansNothing | scheman.js:97-101 | the initial blueprint renders no statement |
| Render.AddKeyNotRendered | scheman.js:293-311 | whatever is staged under `addKey:<kind>` never changes the statements |
| Render.PlannedJustified | scheman.js:293-311 | under the invariant every statement is called for: `CREATE TABLE` only for a missing table, `ADD COLUMN` only for a missing column of an existing table, `MODIFY COLUMN` only for an existing column that compares unequal |
| Render.AddColumnPlanned | scheman.js:299-303 | every staged `addColumn[t][c]` yields an `ADD COLUMN` of `c` on `t` |
| Render.ModifyColumnPlanned | scheman.js:305-309 | every staged `modifyColumn[t][c]` yields a `MODIFY COLUMN` of `c` on `t` |
| Render.CreateTablePlanned | scheman.js:295-297 | every staged `createTable[t].tableName` with a non-empty name yields a `CREATE TABLE` of `t` |
| Render.ColumnListHas | scheman.js:116 | every column staged under `columns` is listed with its definition |
| Render.ColumnListOnly | scheman.js:116 | every listed column comes from a column staged under `columns` with that definition |
| Render.KeyIdListHas | scheman.js:118-119 | every key staged under `uniqueKeys` or `keys` is listed by its `id` |
| Render.KeyIdListOnly | scheman.js:118-119 | every listed key id is the `id` of a staged key |
| Render.CreateEntryColumn | scheman.js:112-116 | a column staged under a `createTable` entry is among the columns of its definition |
| Render.CreateEntryKey | scheman.js:112-119 | a unique key or key staged under a `createTable` entry is listed by its definition |
| Render.CreateEntryPrimaryKey | scheman.js:112-117 | a primary key staged under a `createTable` entry makes the definition carry an id list holding it |
| Render.CreateEntryKeyListed | scheman.js:112-119 | a key of any kind staged under a `createTable` entry is listed under its kind (foreign keys excepted) |
| Render.CreatedColumnPlanned | scheman.js:295-297 | a column staged under `createTable[t].columns[c]` is a column, with its definition, of the `CREATE TABLE` of `t` |
| Render.CreatedKeyPlanned | scheman.js:295-297 | a key staged under `createTable[t]` is listed by the `CREATE TABLE` of `t`: unique keys and keys by id, a primary key among the ids |
| Render.AlterEntryPlanned | scheman.js:299-309 | the fact staged under `addColumn[t][c]` or `modifyColumn[t][c]` is rendered, with its own definition |
| Render.CreateQueries | scheman.js:295-297 | the `createTable` loop pushes exactly the rendered `CREATE TABLE` statements, in entry order |
| Render.AlterQueries | scheman.js:299-309 | the nested `addColumn`/`modifyColumn` loops push exactly the rendered statements, table by table and column by column |
| Render.RenderQueries | scheman.js:293-311 | the returned list is the statements of the blueprint, in the three-section order |
| Differ.InitialBacked | scheman.js:97-101 | the empty blueprint holds no column entry and marks no table |
| Differ.TableFactBacked | scheman.js:220-222 | marking the table of a table fact keeps every column slot holding a fact of the ledger for that slot's table and column |
| Differ.ColumnFactBacked | scheman.js:246-262 | staging a column fact of the ledger puts it only in slots of its own table and column, and marks only its own table |
| Differ.KeyFactBacked | scheman.js:269-288 | staging a key fact touches no column slot and marks only its own table |
| Differ.StageTablesBacked | scheman.js:216-244 | the table pass keeps the blueprint backed by the ledger |
| Differ.StageColumnsBacked | scheman.js:246-264 | the column pass keeps the blueprint backed by the ledger |
| Differ.StageKeysBacked | scheman.js:269-290 | one key pass keeps the blueprint backed by the ledger |
| Differ.PlanBacked | scheman.js:214-291 | every column entry the differ stages comes from a column fact of the expanded ledger for that slot's table and column, and every table it marks is the table of some fact |
| Differ.BackedAlterSlot | scheman.js:254-257 | an `addColumn` or `modifyColumn` slot of a backed blueprint holds a column fact of the ledger for that table and column |
| Render.AlterSlotOf | scheman.js:299-309 | every `ADD COLUMN` or `MODIFY COLUMN` is the statement of the column fact in a slot of its section |
| Render.CreateSlotOf | scheman.js:295-297 | every `CREATE TABLE` is that of the entry of its own table |
| Render.CreateColumnFrom | scheman.js:295-297 | a column listed by a `CREATE TABLE` is the column fact in its slot, with its definition |
| Render.AlterFromFacts | scheman.js:299-309 | in a backed blueprint, every `ADD COLUMN` and `MODIFY COLUMN` is the statement of a column fact of the ledger |
| Render.CreateFromFacts | scheman.js:295-297 | in a backed blueprint, every `CREATE TABLE` names a fact's table and lists only columns of facts for that table, with their definitions |
| Reconcile.PlanStaged | scheman.js:214-291 | planning keeps the blueprint well staged, whatever the facts |
| Reconcile.PlanSound | scheman.js:214-311 | every statement of a call is called for by the loaded model |
| Reconcile.PlannedFromFacts | scheman.js:214-311 | on a fresh blueprint, every `ADD COLUMN` and `MODIFY COLUMN` carries the table, column and definition of a column fact of the expanded ledger; every `CREATE TABLE` is for the table of some table, column or key fact, and each column it lists carries the definition of a column fact for that table and column |
| Reconcile.StatementFromFacts | scheman.js:293-309 | one statement of a backed, tidy blueprint comes from the facts behind its slot |
| Reconcile.PlannedFrom | scheman.js:293-311 | every statement of a backed, tidy blueprint comes from the facts behind it |
| Reconcile.InitialPlanFrom | scheman.js:214-311 | every statement planned on a fresh blueprint comes from the expanded ledger |
| Reconcile.InitialPlanBacked | scheman.js:97-101 | the plan on a fresh blueprint is backed by the expanded ledger, tidy, and creates only missing tables |
| Reconcile.SatisfiedNeedsNothing | scheman.js:214-311 | facts that all hold already produce no query on a fresh blueprint |
| Reconcile.MissingColumnAdded | scheman.js:256-258 | a column fact for a column its existing table lacks produces an `ADD COLUMN` of it, with the definition of a fact for that column |
| Reconcile.DifferingColumnModified | scheman.js:252-255 | a column fact for an existing column that compares unequal produces a `MODIFY COLUMN` of it, with the definition of a fact for that column that also compares unequal |
| Reconcile.MissingTableCreated | scheman.js:220-222 | a table fact for a missing, non-empty table name produces a `CREATE TABLE` of it |
| Reconcile.TableOfColumnCreated | scheman.js:259-261 | a column fact on a missing table produces a `CREATE TABLE` of that table listing the column, with the definition of a fact for it |
| Reconcile.TableOfKeyCreated | scheman.js:285-287 | a key fact on a missing table produces a `CREATE TABLE` of that table listing it: a unique key or key by id, a primary key among the ids |
| Reconcile.ColumnSlotHoldsLast | scheman.js:246-291 | after planning, a column's slot holds the last fact for it that needs work |
| Reconcile.LastColumnFactRendered | scheman.js:246-309 | the last column fact that needs work is rendered with its own definition: `ADD COLUMN` for a missing column, `MODIFY COLUMN` for an existing one, a column of the `CREATE TABLE` for a missing table |
| Reconcile.LastFactFor | scheman.js:246-264 | every column fact that needs work has a last such fact for the same column in the expanded ledger |
| Reconcile.MissingKeyFiled | scheman.js:278-283 | a key fact whose id its existing table lacks is staged under `addKey:<kind>` |
| Reconcile.DeclaredColumnExpanded | scheman.js:224-226 | every column a table fact declares is a column fact the differ classifies |
| Reconcile.MustNotExistIgnored | scheman.js:214-311 | the `mustNotExist` lists never change the plan: nothing drops a table, column or key |
| Reconcile.NeverBothAddedAndModified | scheman.js:246-264 | after any call, no (table, column) pair is staged for both `ADD COLUMN` and `MODIFY COLUMN` |
| Engine.Scheman.constructor | scheman.js:83-101 | a new engine has empty Maps, empty fact lists, and a blueprint with three empty sections |
| Engine.Scheman.Load | scheman.js:153-202 | the four passes turn the model into the catalog fold of the rows |
| Engine.Scheman.LoadTableRows | scheman.js:153-162 | the table pass equals the table fold |
| Engine.Scheman.LoadColumnRows | scheman.js:164-169 | the column pass equals the column fold |
| Engine.Scheman.LoadIndexGroups | scheman.js:171-190 | the index pass equals the index fold |
| Engine.Scheman.LoadIndex | scheman.js:172-189 | one index group updates the Maps as the classification prescribes |
| Engine.Scheman.LoadConstraintGroups | scheman.js:192-202 | the constraint pass equals the constraint fold |
| Engine.Scheman.LoadConstraint | scheman.js:193-201 | one constraint group updates the Maps as prescribed |
| Engine.Scheman.TableMustExist | scheman.js:138 | `fact.table.mustExist(def)` appends `def` to that list only |
| Engine.Scheman.TableMustNotExist | scheman.js:139 | `fact.table.mustNotExist(def)` appends `def` to that list only |
| Engine.Scheman.ColumnMustExist | scheman.js:138 | `fact.column.mustExist(def)` appends `def` to that list only |
| Engine.Scheman.ColumnMustNotExist | scheman.js:139 | `fact.column.mustNotExist(def)` appends `def` to that list only |
| Engine.Scheman.KeyMustExist | scheman.js:138 | `fact.<kind>.mustExist(def)` appends `def` to that kind's list only |
| Engine.Scheman.KeyMustNotExist | scheman.js:139 | `fact.<kind>.mustNotExist(def)` appends `def` to that kind's list only |
| Engine.Scheman.PushColumnFacts | scheman.js:224-226 | the column loop of a table fact appends its column facts, in order, and changes nothing else |
| Engine.Scheman.PushKeyFacts | scheman.js:238-242 | the key loop of a table fact appends one fact per id to that kind's list only |
| Engine.Scheman.ExpandTableFact | scheman.js:216-244 | one table fact stages its table and pushes its column and key facts |
| Engine.Scheman.ExpandTablePass | scheman.js:216-244 | the table loop expands the ledger and stages every missing table |
| Engine.Scheman.StageColumn | scheman.js:246-264 | one column fact is classified as the differ prescribes |
| Engine.Scheman.StageColumnPass | scheman.js:246-264 | the column loop equals the column staging pass |
| Engine.Scheman.StageKey | scheman.js:269-290 | one key fact is classified as the differ prescribes |
| Engine.Scheman.StageKeyPass | scheman.js:269-290 | the loop over one kind's facts equals that kind's staging pass |
| Engine.Scheman.StageKeyPasses | scheman.js:268-291 | the loop over `keyTypes` stages the four kinds in order |
| Engine.Scheman.QueriesNeededToMaterializeFacts | scheman.js:214-312 | the call expands the ledger, plans the blueprint, and returns its statements; from a well-staged blueprint, every statement is called for by the model |

## Left out

- The asynchronous part of `load` is not modelled. This covers `Promise.all`, `retrieve`, the catalog SQL in `sources`, and the result object it returns. The fetched rows are parameters, grouped as `retrieve` groups them.
- `connection.js` is not part of this model; it is I/O only.
- `toCamelCase`, `camelCaseKeys`, `camelCaseSortedKeys`, `pick` and `pickAsList` are left out. Row fields arrive already named.
- The string-path branch of `set` is left out, since the engine only passes array paths.
- `sql.alterTable` is left out; it is empty.
- Catalog rows must name a loaded table (a `requires` of the load methods). The source dereferences `tables.get(tableName)` unchecked and throws otherwise.
- Objects and Maps are modelled as values. The blueprint and the model are only written through `set` and the load passes, so no aliasing is observable.
- `Set` treats an existing non-object value on the path as an empty object. No blueprint path runs through a stored value, so this case never arises.
- JavaScript enumerates integer-like property names first. Here properties keep insertion order, so table or column names such as `"1"` are not modelled.
- `in` also sees `Object.prototype` names such as `constructor`. These are not modelled.
- Numbers are integers only. Floating-point lengths and defaults are not modelled.
- `sort` compares UTF-16 code units. Here characters are compared by code point; the two differ only outside the Basic Multilingual Plane.
- Facts carry `tableName`, `columnName`/`id` and the column attributes as separate fields. The source spreads `...def` after `tableName` and `columnName`, so a definition carrying its own `tableName`, `columnName` or `id` overrides them there. That override is not modelled.
- Key facts keep only `tableName` and `id`, the only fields the engine reads.
- The `typeof _keys === 'string'` branch (scheman.js:276) is not modelled. A table record's key maps are always objects, so it is dead code.
- An object-valued primary key with no ids renders no primary-key line (`Render.PrimaryKeyOf`). The source would call `quoteId(undefined)` and throw. The blueprint never holds such an object, because entries are only added by `set`.
- Blueprint entries of an unexpected shape are skipped when rendering. The differ never writes them.
- The blueprint and the fact ledger persist across calls, as in the source. Each call appends the expanded column and key facts to the ledger again, so a second call sees them twice. The contracts of `Engine.Scheman.QueriesNeededToMaterializeFacts` are relative to the state before the call.
- Foreign-key facts of missing tables are staged under `createTable[t].foreignKeys` but never rendered, since `sql.createTable` ignores foreign keys. `addKey:<kind>` entries are never rendered. The model states both (`Render.AddKeyNotRendered`).
- A `createTable` entry named `""` renders nothing, as `tableName && ...` does. The theorems about `CREATE TABLE` therefore require a non-empty name.
- SQL escaping is not modelled; the source does none.
- CreateLineCount: states only how many lines a `CREATE TABLE` has; what each line says, in order, is stated by `Sql.CreateClauses`.
- The load methods' guarantee that nothing outside the Maps changes comes from their `modifies` frames.

## Behaviour worth noting

Each point below is what the code does where a reader might expect otherwise; the model follows the code.

- The blueprint is created once per `scheman` object and is never reset between calls (scheman.js:97-101), so entries staged by one call stay for the next.
- A column definition with both a length and a precision renders both, `(length)` and then `(precision, scale)` (columnDefAsString.js:22); neither excludes the other.
- A new table's `CREATE TABLE` lists its columns, the first primary-key id, its unique keys and its keys, but never its foreign keys (scheman.js:111-120).
- Loaded key ids are built from sorted column names (scheman.js:174), but a declared key's `id` is looked up as written (scheman.js:271-283). A key declared as `b,a` on a table that has `a,b` is staged under `addKey:<kind>` again (`Differ.DeclaredKeyIdNotSorted`).
- The rows backing an index or constraint are stored in fetched order; only the id is built from sorted column names (scheman.js:171-202).
- A later catalog row or group with the same key replaces an earlier one, since each is a plain assignment (`Catalog.LoadHoldsLastRows`).
