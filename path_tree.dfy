/**
  Nested JavaScript objects, and the `set` helper of
  scheman.js that writes a value at an array path, creating the missing
  objects on the way. Objects are modelled as values: the blueprint that
  `set` fills is only ever written through `set` and read at the end.
*/
module PathTree {
  import opened Options
  import opened OrderedMap

  /** A stored value, or an object whose properties are in insertion order. */
  datatype Tree<V> = Leaf(value: V) | Branch(entries: seq<(string, Tree<V>)>)

  /** The properties of a node; a stored value has none. */
  function Props<V>(t: Tree<V>): seq<(string, Tree<V>)> {
    if t.Branch? then t.entries else []
  }

  /** The node reached by following `path` one property at a time, if every step exists. */
  function Get<V>(t: Tree<V>, path: seq<string>): Option<Tree<V>>
    decreases |path|
  {
    if path == [] then Some(t)
    else
      match Lookup(Props(t), path[0])
      case None => None
      case Some(c) => Get(c, path[1..])
  }

  /**
    Writing `v` at `path` walks it, putting an empty object where a step is missing,
    and stores `v` at the last step. A new property goes last in its
    object; an existing one keeps its place. An empty path changes nothing.
  */
  function Set<V>(t: Tree<V>, path: seq<string>, v: Tree<V>): (r: Tree<V>)
    ensures path == [] ==> r == t
    ensures path != [] ==> r.Branch?
    ensures path != [] && path[0] in Keys(Props(t)) ==> Keys(Props(r)) == Keys(Props(t))
    ensures path != [] && path[0] !in Keys(Props(t)) ==> Keys(Props(r)) == Keys(Props(t)) + [path[0]]
    decreases |path|
  {
    if path == [] then t
    else
      var child := match Lookup(Props(t), path[0]) case Some(c) => c case None => Branch([]);
      Branch(Put(Props(t), path[0], if |path| == 1 then v else Set(child, path[1..], v)))
  }

  /** A one-step path is one property lookup. */
  lemma GetOne<V>(t: Tree<V>, a: string)
    ensures Get(t, [a]) == Lookup(Props(t), a)
  {
    assert [a][0] == a && [a][1..] == [];
    match Lookup(Props(t), a)
    case Some(c) => assert Get(c, []) == Some(c);
    case None =>
  }

  /** A two-step path is two property lookups. */
  lemma GetTwo<V>(t: Tree<V>, a: string, b: string)
    ensures Get(t, [a, b]) == match Lookup(Props(t), a) case Some(c) => Lookup(Props(c), b) case None => None
  {
    assert [a, b][0] == a && [a, b][1..] == [b];
    match Lookup(Props(t), a)
    case Some(c) => GetOne(c, b);
    case None =>
  }

  /** The path reads back the value just written. */
  lemma {:induction false} SetReadBack<V>(t: Tree<V>, path: seq<string>, v: Tree<V>)
    requires path != []
    ensures Get(Set(t, path, v), path) == Some(v)
    decreases |path|
  {
    var child := match Lookup(Props(t), path[0]) case Some(c) => c case None => Branch([]);
    var next := if |path| == 1 then v else Set(child, path[1..], v);
    LookupPutSame(Props(t), path[0], next);
    if |path| > 1 {
      SetReadBack(child, path[1..], v);
    }
  }

  /** Every proper prefix of the path now names an object holding the next step. */
  lemma {:induction false} SetCreatesIntermediates<V>(t: Tree<V>, path: seq<string>, v: Tree<V>, j: nat)
    requires j < |path|
    ensures Get(Set(t, path, v), path[..j]).Some?
    ensures Get(Set(t, path, v), path[..j]).value.Branch?
    ensures path[j] in Keys(Props(Get(Set(t, path, v), path[..j]).value))
    decreases |path|
  {
    var r := Set(t, path, v);
    if j == 0 {
      assert path[..j] == [];
    } else {
      var child := match Lookup(Props(t), path[0]) case Some(c) => c case None => Branch([]);
      var next := Set(child, path[1..], v);
      assert Props(r) == Put(Props(t), path[0], next);
      LookupPutSame(Props(t), path[0], next);
      var prefix := path[..j];
      assert prefix != [] && prefix[0] == path[0] && prefix[1..] == path[1..][..j - 1];
      assert Get(r, prefix) == Get(next, path[1..][..j - 1]);
      SetCreatesIntermediates(child, path[1..], v, j - 1);
    }
  }

  /** Two paths part ways: at some depth they name different properties. */
  predicate Diverge(p: seq<string>, q: seq<string>) {
    p != [] && q != [] && (p[0] != q[0] || Diverge(p[1..], q[1..]))
  }

  /** Paths that name different properties at the same depth part ways. */
  lemma {:induction false} DivergeAt(p: seq<string>, q: seq<string>, i: nat)
    requires i < |p| && i < |q| && p[i] != q[i]
    ensures Diverge(p, q)
  {
    if p[0] == q[0] {
      DivergeAt(p[1..], q[1..], i - 1);
    }
  }

  /** Writing at `p` leaves every path that parts ways with `p` as it was. */
  lemma {:induction false} SetKeepsSiblings<V>(t: Tree<V>, p: seq<string>, v: Tree<V>, q: seq<string>)
    requires Diverge(p, q)
    ensures Get(Set(t, p, v), q) == Get(t, q)
    decreases |p|
  {
    var child := match Lookup(Props(t), p[0]) case Some(c) => c case None => Branch([]);
    var next := if |p| == 1 then v else Set(child, p[1..], v);
    if p[0] != q[0] {
      LookupPutOther(Props(t), p[0], next, q[0]);
    } else {
      LookupPutSame(Props(t), p[0], next);
      SetKeepsSiblings(child, p[1..], v, q[1..]);
    }
  }

  /** A write never removes a path, unless that path runs strictly below the written one. */
  lemma {:induction false} SetKeepsPresent<V>(t: Tree<V>, p: seq<string>, v: Tree<V>, q: seq<string>)
    requires Get(t, q).Some? && (|q| <= |p| || q[..|p|] != p)
    ensures Get(Set(t, p, v), q).Some?
    decreases |p|
  {
    if q != [] {
      var child := match Lookup(Props(t), p[0]) case Some(c) => c case None => Branch([]);
      var next := if |p| == 1 then v else Set(child, p[1..], v);
      if p[0] != q[0] {
        LookupPutOther(Props(t), p[0], next, q[0]);
      } else {
        LookupPutSame(Props(t), p[0], next);
        if |p| > 1 {
          SetKeepsPresent(child, p[1..], v, q[1..]);
        }
      }
    }
  }
}
