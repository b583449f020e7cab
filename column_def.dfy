/**
  The column-definition renderer of columnDefAsString.js: column attributes
  to the SQL fragment that follows a column name in CREATE TABLE and
  ALTER TABLE statements.
*/
module ColumnDefinition {
  import opened JsValue
  import opened Text

  /**
    The attributes the renderer destructures. Every one may be missing
    (`Undefined`); `default` distinguishes a missing key (`Undefined`) from
    an explicit `null` (`Null`) and from a value.
  */
  datatype ColumnDef = ColumnDef(
    typeName: JsVal, dataType: JsVal, colType: JsVal, notnull: JsVal, nullable: JsVal,
    autoIncrement: JsVal, fixed: JsVal, length: JsVal, precision: JsVal, scale: JsVal,
    unique: JsVal, unsigned: JsVal, comment: JsVal, custom: JsVal, charset: JsVal,
    collation: JsVal, check: JsVal, extra: JsVal, default: JsVal)

  /** A definition with no attribute set. */
  const Unset: ColumnDef := ColumnDef(
    Undefined, Undefined, Undefined, Undefined, Undefined,
    Undefined, Undefined, Undefined, Undefined, Undefined,
    Undefined, Undefined, Undefined, Undefined, Undefined,
    Undefined, Undefined, Undefined, Undefined)

  /** The values of `xs` that are truthy, in order. */
  function Present(xs: seq<JsVal>): seq<JsVal> {
    if xs == [] then []
    else (if Truthy(xs[0]) then [xs[0]] else []) + Present(xs[1..])
  }

  /** The strings `join` makes of the elements. */
  function Strings(xs: seq<JsVal>): seq<string> {
    if xs == [] then [] else [ToStr(xs[0])] + Strings(xs[1..])
  }

  lemma {:induction false} StringsAppend(a: seq<JsVal>, b: seq<JsVal>)
    ensures Strings(a + b) == Strings(a) + Strings(b)
  {
    if a == [] {
      assert a + b == b;
    } else {
      assert (a + b)[1..] == a[1..] + b;
      StringsAppend(a[1..], b);
    }
  }

  /** The `scale = 0` destructuring default: it applies to a missing key only. */
  function Scale(d: ColumnDef): JsVal {
    if d.scale == Undefined then Num(0) else d.scale
  }

  /** The first clause: the type, then the parenthesised length and precision when each is truthy, run together. */
  function TypeSegment(d: ColumnDef): string {
    Join("", Strings(Present([
      d.typeName,
      And(d.length, Str("(" + ToStr(d.length) + ")")),
      And(d.precision, Str("(" + ToStr(d.precision) + ", " + ToStr(Scale(d)) + ")"))])))
  }

  /** The default clause: `DEFAULT NULL` for a null default, the quoted default for any other defined one, nothing when it is undefined. */
  function DefaultSegment(d: ColumnDef): JsVal {
    Or(And(Bool(d.default == Null), Str("DEFAULT NULL")),
       And(Bool(d.default != Undefined), Str("DEFAULT " + ToStr(d.default))))
  }

  /** The array the renderer filters and joins. */
  function Segments(d: ColumnDef): seq<JsVal> {
    [ Str(TypeSegment(d)),
      And(d.unsigned, Str("unsigned")),
      And(d.notnull, Str("NOT NULL")),
      And(d.autoIncrement, Str("AUTO_INCREMENT")),
      DefaultSegment(d),
      d.extra,
      And(d.comment, Str("COMMENT '" + ToStr(d.comment) + "'")) ]
  }

  /** columnDefAsString(d): the segments, falsy ones dropped, joined by spaces. */
  function ColumnDefAsString(d: ColumnDef): string {
    Join(" ", Strings(Present(Segments(d))))
  }

  // ---- What the rendering means ----

  function When(c: bool, s: string): seq<string> {
    if c then [s] else []
  }

  /** The type: `type`, then `(length)`, then `(precision, scale)`, each only when set. */
  function TypeText(d: ColumnDef): string {
    (if Truthy(d.typeName) then ToStr(d.typeName) else "")
    + (if Truthy(d.length) then "(" + ToStr(d.length) + ")" else "")
    + (if Truthy(d.precision) then "(" + ToStr(d.precision) + ", " + ToStr(Scale(d)) + ")" else "")
  }

  /** The three states of a default: missing, explicit null, a value. */
  function DefaultClause(v: JsVal): seq<string> {
    if v == Undefined then []
    else if v == Null then ["DEFAULT NULL"]
    else ["DEFAULT " + ToStr(v)]
  }

  /** The clauses of a definition, in their fixed order, unset ones left out. */
  function Clauses(d: ColumnDef): seq<string> {
    When(TypeText(d) != "", TypeText(d))
    + When(Truthy(d.unsigned), "unsigned")
    + When(Truthy(d.notnull), "NOT NULL")
    + When(Truthy(d.autoIncrement), "AUTO_INCREMENT")
    + DefaultClause(d.default)
    + When(Truthy(d.extra), ToStr(d.extra))
    + When(Truthy(d.comment), "COMMENT '" + ToStr(d.comment) + "'")
  }

  /** A clause that survives the truthiness filter, as the join writes it. */
  function Kept(v: JsVal): seq<string> {
    if Truthy(v) then [ToStr(v)] else []
  }

  function KeptAll(xs: seq<JsVal>): seq<string> {
    if xs == [] then [] else Kept(xs[0]) + KeptAll(xs[1..])
  }

  lemma {:induction false} StringsPresent(xs: seq<JsVal>)
    ensures Strings(Present(xs)) == KeptAll(xs)
  {
    if xs != [] {
      StringsPresent(xs[1..]);
      var head := if Truthy(xs[0]) then [xs[0]] else [];
      assert Present(xs) == head + Present(xs[1..]);
      StringsAppend(head, Present(xs[1..]));
      assert Strings(head) == Kept(xs[0]);
    }
  }

  function Flatten(parts: seq<string>): string {
    if parts == [] then "" else parts[0] + Flatten(parts[1..])
  }

  lemma {:induction false} JoinEmptySeparator(parts: seq<string>)
    ensures Join("", parts) == Flatten(parts)
  {
    if |parts| > 1 {
      JoinEmptySeparator(parts[1..]);
    } else if |parts| == 1 {
      assert parts[1..] == [];
    }
  }

  lemma {:induction false} FlattenAppend(a: seq<string>, b: seq<string>)
    ensures Flatten(a + b) == Flatten(a) + Flatten(b)
  {
    if a != [] {
      assert (a + b)[1..] == a[1..] + b;
      FlattenAppend(a[1..], b);
    } else {
      assert a + b == b;
    }
  }

  function Shown(v: JsVal): string {
    if Truthy(v) then ToStr(v) else ""
  }

  lemma FlattenKept(v: JsVal)
    ensures Flatten(Kept(v)) == Shown(v)
  {
    if Truthy(v) {
      assert Flatten([ToStr(v)]) == ToStr(v) + Flatten([]);
    }
  }

  lemma {:induction false} KeptAllAppend(a: seq<JsVal>, b: seq<JsVal>)
    ensures KeptAll(a + b) == KeptAll(a) + KeptAll(b)
  {
    if a == [] {
      assert a + b == b;
    } else {
      assert (a + b)[1..] == a[1..] + b;
      KeptAllAppend(a[1..], b);
    }
  }

  lemma KeptAllOne(x: JsVal)
    ensures KeptAll([x]) == Kept(x)
  {
    assert [x][1..] == [];
  }

  lemma KeptThree(a: JsVal, b: JsVal, c: JsVal)
    ensures KeptAll([a, b, c]) == Kept(a) + Kept(b) + Kept(c)
  {
    assert [a, b, c] == [a] + [b] + [c];
    KeptAllAppend([a] + [b], [c]);
    KeptAllAppend([a], [b]);
    KeptAllOne(a);
    KeptAllOne(b);
    KeptAllOne(c);
  }

  lemma {:induction false} TypeSegmentText(a: JsVal, b: JsVal, c: JsVal)
    ensures Join("", Strings(Present([a, b, c]))) == Shown(a) + Shown(b) + Shown(c)
  {
    StringsPresent([a, b, c]);
    KeptThree(a, b, c);
    JoinEmptySeparator(Kept(a) + Kept(b) + Kept(c));
    FlattenAppend(Kept(a) + Kept(b), Kept(c));
    FlattenAppend(Kept(a), Kept(b));
    FlattenKept(a);
    FlattenKept(b);
    FlattenKept(c);
  }

  lemma KeptSeven(x0: JsVal, x1: JsVal, x2: JsVal, x3: JsVal, x4: JsVal, x5: JsVal, x6: JsVal)
    ensures KeptAll([x0, x1, x2, x3, x4, x5, x6])
         == Kept(x0) + Kept(x1) + Kept(x2) + Kept(x3) + Kept(x4) + Kept(x5) + Kept(x6)
  {
    assert [x0, x1, x2, x3, x4, x5, x6] == [x0] + [x1] + [x2] + [x3] + [x4] + [x5] + [x6];
    KeptAllAppend([x0] + [x1] + [x2] + [x3] + [x4] + [x5], [x6]);
    KeptAllAppend([x0] + [x1] + [x2] + [x3] + [x4], [x5]);
    KeptAllAppend([x0] + [x1] + [x2] + [x3], [x4]);
    KeptAllAppend([x0] + [x1] + [x2], [x3]);
    KeptAllAppend([x0] + [x1], [x2]);
    KeptAllAppend([x0], [x1]);
    KeptAllOne(x0); KeptAllOne(x1); KeptAllOne(x2); KeptAllOne(x3);
    KeptAllOne(x4); KeptAllOne(x5); KeptAllOne(x6);
  }

  lemma KeptAnd(x: JsVal, t: string)
    requires t != ""
    ensures Kept(And(x, Str(t))) == When(Truthy(x), t)
  {
  }

  /** The type segment is the type text: the filtered pieces joined with no separator. */
  lemma TypeSegmentIsText(d: ColumnDef)
    ensures TypeSegment(d) == TypeText(d)
  {
    TypeSegmentText(d.typeName, And(d.length, Str("(" + ToStr(d.length) + ")")),
      And(d.precision, Str("(" + ToStr(d.precision) + ", " + ToStr(Scale(d)) + ")")));
  }

  /** Each segment kept by the filter is the clause in the same position. */
  lemma SegmentsKept(d: ColumnDef)
    ensures KeptAll(Segments(d)) == Clauses(d)
  {
    TypeSegmentIsText(d);
    assert Kept(Str(TypeSegment(d))) == When(TypeText(d) != "", TypeText(d));
    KeptAnd(d.unsigned, "unsigned");
    KeptAnd(d.notnull, "NOT NULL");
    KeptAnd(d.autoIncrement, "AUTO_INCREMENT");
    assert Kept(DefaultSegment(d)) == DefaultClause(d.default);
    assert Kept(d.extra) == When(Truthy(d.extra), ToStr(d.extra));
    KeptAnd(d.comment, "COMMENT '" + ToStr(d.comment) + "'");
    var xs := Segments(d);
    KeptSeven(xs[0], xs[1], xs[2], xs[3], xs[4], xs[5], xs[6]);
    assert xs == [xs[0], xs[1], xs[2], xs[3], xs[4], xs[5], xs[6]];
  }

  /**
    The rendered definition is its clauses, in the fixed order type,
    `unsigned`, `NOT NULL`, `AUTO_INCREMENT`, default, `extra`, comment,
    with unset ones left out, joined by single spaces.
  */
  lemma RenderedClauses(d: ColumnDef)
    ensures ColumnDefAsString(d) == Join(" ", Clauses(d))
  {
    StringsPresent(Segments(d));
    SegmentsKept(d);
  }

  /** No clause is empty, so the single spaces are exactly the separators. */
  predicate NoneEmpty(xs: seq<string>) {
    forall i :: 0 <= i < |xs| ==> xs[i] != ""
  }

  lemma NoneEmptyAppend(a: seq<string>, b: seq<string>)
    requires NoneEmpty(a) && NoneEmpty(b)
    ensures NoneEmpty(a + b)
  {
  }

  lemma ClausesNonEmpty(d: ColumnDef)
    ensures NoneEmpty(Clauses(d))
  {
    var p0 := When(TypeText(d) != "", TypeText(d));
    var p1 := When(Truthy(d.unsigned), "unsigned");
    var p2 := When(Truthy(d.notnull), "NOT NULL");
    var p3 := When(Truthy(d.autoIncrement), "AUTO_INCREMENT");
    var p4 := DefaultClause(d.default);
    var p5 := When(Truthy(d.extra), ToStr(d.extra));
    var p6 := When(Truthy(d.comment), "COMMENT '" + ToStr(d.comment) + "'");
    assert NoneEmpty(p0) && NoneEmpty(p1) && NoneEmpty(p2) && NoneEmpty(p3);
    assert NoneEmpty(p4) && NoneEmpty(p5) && NoneEmpty(p6);
    NoneEmptyAppend(p0, p1);
    NoneEmptyAppend(p0 + p1, p2);
    NoneEmptyAppend(p0 + p1 + p2, p3);
    NoneEmptyAppend(p0 + p1 + p2 + p3, p4);
    NoneEmptyAppend(p0 + p1 + p2 + p3 + p4, p5);
    NoneEmptyAppend(p0 + p1 + p2 + p3 + p4 + p5, p6);
  }

  /** Two definitions that agree on the attributes the renderer reads render alike. */
  predicate SameRenderedAttributes(a: ColumnDef, b: ColumnDef) {
    && a.typeName == b.typeName && a.length == b.length && a.precision == b.precision
    && a.scale == b.scale && a.unsigned == b.unsigned && a.notnull == b.notnull
    && a.autoIncrement == b.autoIncrement && a.default == b.default
    && a.extra == b.extra && a.comment == b.comment
  }

  /**
    `dataType`, `colType`, `nullable`, `fixed`, `unique`, `custom`, `charset`,
    `collation` and `check` are accepted and never rendered.
  */
  lemma IgnoredAttributesNotRendered(a: ColumnDef, b: ColumnDef)
    requires SameRenderedAttributes(a, b)
    ensures ColumnDefAsString(a) == ColumnDefAsString(b)
  {
    assert Segments(a) == Segments(b);
  }

  /** With no optional attribute set, only the type is rendered. */
  lemma TypeOnly(d: ColumnDef)
    requires !Truthy(d.unsigned) && !Truthy(d.notnull) && !Truthy(d.autoIncrement)
    requires d.default == Undefined && !Truthy(d.extra) && !Truthy(d.comment)
    ensures ColumnDefAsString(d) == TypeText(d)
  {
    RenderedClauses(d);
    assert Clauses(d) == When(TypeText(d) != "", TypeText(d));
  }

  lemma JoinTwo(a: string, b: string)
    ensures Join(" ", [a, b]) == a + " " + b
  {
    JoinCons(" ", a, [b]);
  }

  lemma JoinFour(a: string, b: string, c: string, e: string)
    ensures Join(" ", [a, b, c, e]) == a + " " + b + " " + c + " " + e
  {
    JoinCons(" ", a, [b, c, e]);
    JoinCons(" ", b, [c, e]);
    JoinTwo(c, e);
    assert [a, b, c, e] == [a] + [b, c, e];
    assert [b, c, e] == [b] + [c, e];
  }

  lemma IntColumnClauseList(d: ColumnDef)
    requires d == Unset.(typeName := Str("int"), length := Num(11), unsigned := Bool(true),
                         notnull := Bool(true), default := Null)
    ensures Clauses(d) == ["int(11)", "unsigned", "NOT NULL", "DEFAULT NULL"]
  {
    assert TypeText(d) == "int(11)" by { assert Decimal(11) == "11" by { assert Decimal(1) == "1"; } }
    assert Clauses(d) == ["int(11)"] + ["unsigned"] + ["NOT NULL"] + [] + ["DEFAULT NULL"] + [] + [];
  }

  lemma IntColumnClauses(d: ColumnDef)
    requires d == Unset.(typeName := Str("int"), length := Num(11), unsigned := Bool(true),
                         notnull := Bool(true), default := Null)
    ensures Join(" ", Clauses(d)) == "int(11) unsigned NOT NULL DEFAULT NULL"
  {
    IntColumnClauseList(d);
    IntColumnJoined();
  }

  lemma IntColumnJoined()
    ensures Join(" ", ["int(11)", "unsigned", "NOT NULL", "DEFAULT NULL"]) == "int(11) unsigned NOT NULL DEFAULT NULL"
  {
    JoinFour("int(11)", "unsigned", "NOT NULL", "DEFAULT NULL");
    assert "int(11)" + " " + "unsigned" == "int(11) unsigned";
    assert "int(11) unsigned" + " " + "NOT NULL" == "int(11) unsigned NOT NULL";
    assert "int(11) unsigned NOT NULL" + " " + "DEFAULT NULL" == "int(11) unsigned NOT NULL DEFAULT NULL";
  }

  /** An unsigned, not-null `int` of length 11 whose default is null. */
  lemma ExampleIntColumn(d: ColumnDef)
    requires d == Unset.(typeName := Str("int"), length := Num(11), unsigned := Bool(true),
                         notnull := Bool(true), default := Null)
    ensures ColumnDefAsString(d) == "int(11) unsigned NOT NULL DEFAULT NULL"
  {
    RenderedClauses(d);
    IntColumnClauses(d);
  }

  lemma VarcharColumnClauseList(d: ColumnDef)
    requires d == Unset.(typeName := Str("varchar"), length := Num(255), default := Str("abc"))
    ensures Clauses(d) == ["varchar(255)", "DEFAULT abc"]
  {
    assert TypeText(d) == "varchar(255)" by {
      assert Decimal(255) == "255" by { assert Decimal(25) == "25" by { assert Decimal(2) == "2"; } }
    }
    assert DefaultClause(d.default) == ["DEFAULT abc"] by {
      assert ToStr(d.default) == "abc";
      assert "DEFAULT " + "abc" == "DEFAULT abc";
    }
    assert Clauses(d) == ["varchar(255)"] + [] + [] + [] + ["DEFAULT abc"] + [] + [];
  }

  lemma VarcharColumnClauses(d: ColumnDef)
    requires d == Unset.(typeName := Str("varchar"), length := Num(255), default := Str("abc"))
    ensures Join(" ", Clauses(d)) == "varchar(255) DEFAULT abc"
  {
    VarcharColumnClauseList(d);
    JoinTwo("varchar(255)", "DEFAULT abc");
  }

  /** A `varchar` of length 255 whose default is the string abc. */
  lemma ExampleVarcharColumn(d: ColumnDef)
    requires d == Unset.(typeName := Str("varchar"), length := Num(255), default := Str("abc"))
    ensures ColumnDefAsString(d) == "varchar(255) DEFAULT abc"
  {
    RenderedClauses(d);
    VarcharColumnClauses(d);
  }

  lemma NullDefaultClauseList(d: ColumnDef)
    requires d == Unset.(typeName := Str("text"), default := Null)
    ensures Clauses(d) == ["text", "DEFAULT NULL"]
  {
    assert TypeText(d) == "text";
    assert Clauses(d) == ["text"] + [] + [] + [] + ["DEFAULT NULL"] + [] + [];
  }

  lemma NullDefaultClauses(d: ColumnDef)
    requires d == Unset.(typeName := Str("text"), default := Null)
    ensures Join(" ", Clauses(d)) == "text DEFAULT NULL"
  {
    NullDefaultClauseList(d);
    JoinTwo("text", "DEFAULT NULL");
  }

  /** Without a `default` key no DEFAULT clause is rendered; with `default: null` one is. */
  lemma ExampleMissingVersusNullDefault(missing: ColumnDef, explicitNull: ColumnDef)
    requires missing == Unset.(typeName := Str("text"))
    requires explicitNull == missing.(default := Null)
    ensures ColumnDefAsString(missing) == "text"
    ensures ColumnDefAsString(explicitNull) == "text DEFAULT NULL"
  {
    TypeOnly(missing);
    RenderedClauses(explicitNull);
    NullDefaultClauses(explicitNull);
  }
}
