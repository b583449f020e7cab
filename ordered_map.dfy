/**
  A JavaScript object or Map keyed by strings, as an association sequence in
  insertion order: `Object.keys`, `Object.values` and `Object.entries` walk
  it front to back, and assigning to an existing key keeps its place.
*/
module OrderedMap {
  import opened Options

  type Entries<V> = seq<(string, V)>

  function Keys<V>(a: Entries<V>): (ks: seq<string>)
    ensures |ks| == |a|
    ensures forall i :: 0 <= i < |a| ==> ks[i] == a[i].0
  {
    seq(|a|, i requires 0 <= i < |a| => a[i].0)
  }

  function Values<V>(a: Entries<V>): (vs: seq<V>)
    ensures |vs| == |a|
    ensures forall i :: 0 <= i < |a| ==> vs[i] == a[i].1
  {
    seq(|a|, i requires 0 <= i < |a| => a[i].1)
  }

  /** The value under `k`, if any. */
  function Lookup<V>(a: Entries<V>, k: string): (r: Option<V>)
    ensures r.None? <==> k !in Keys(a)
    ensures r.Some? ==> (k, r.value) in a
  {
    if a == [] then None
    else if a[0].0 == k then Some(a[0].1)
    else
      assert Keys(a) == [a[0].0] + Keys(a[1..]);
      Lookup(a[1..], k)
  }

  /** Assigning `v` under `k`: replaces the value in place, or appends a new last entry. */
  function Put<V>(a: Entries<V>, k: string, v: V): (r: Entries<V>)
    ensures k in Keys(a) ==> Keys(r) == Keys(a)
    ensures k !in Keys(a) ==> Keys(r) == Keys(a) + [k]
  {
    if a == [] then [(k, v)]
    else if a[0].0 == k then
      assert Keys([(k, v)] + a[1..]) == Keys(a);
      [(k, v)] + a[1..]
    else
      var rest := Put(a[1..], k, v);
      assert Keys(a) == [a[0].0] + Keys(a[1..]);
      assert Keys([a[0]] + rest) == [a[0].0] + Keys(rest);
      [a[0]] + rest
  }

  /** After assigning `v` under `k`, `k` reads back `v`. */
  lemma {:induction false} LookupPutSame<V>(a: Entries<V>, k: string, v: V)
    ensures Lookup(Put(a, k, v), k) == Some(v)
  {
    if a != [] && a[0].0 != k {
      LookupPutSame(a[1..], k, v);
    }
  }

  /** Assigning under `k` leaves every other key's value as it was. */
  lemma {:induction false} LookupPutOther<V>(a: Entries<V>, k: string, v: V, k': string)
    requires k' != k
    ensures Lookup(Put(a, k, v), k') == Lookup(a, k')
  {
    if a != [] && a[0].0 != k {
      LookupPutOther(a[1..], k, v, k');
    }
  }

  predicate DistinctKeys<V>(a: Entries<V>) {
    forall i, j :: 0 <= i < j < |a| ==> a[i].0 != a[j].0
  }

  /** Assignment keeps property names distinct. */
  lemma PutDistinct<V>(a: Entries<V>, k: string, v: V)
    requires DistinctKeys(a)
    ensures DistinctKeys(Put(a, k, v))
  {
    var r := Put(a, k, v);
    forall i, j | 0 <= i < j < |r| ensures r[i].0 != r[j].0 {
      assert r[i].0 == Keys(r)[i] && r[j].0 == Keys(r)[j];
      assert Keys(a)[i] == a[i].0;
      if j < |a| {
        assert Keys(a)[j] == a[j].0;
      }
    }
  }

  /** After assignment every entry is the one assigned or was already there. */
  lemma {:induction false} PutEntries<V>(a: Entries<V>, k: string, v: V)
    ensures forall e :: e in Put(a, k, v) ==> e == (k, v) || e in a
  {
    if a != [] && a[0].0 != k {
      PutEntries(a[1..], k, v);
      assert Put(a, k, v) == [a[0]] + Put(a[1..], k, v);
      assert forall e :: e in a[1..] ==> e in a;
    } else if a != [] {
      assert Put(a, k, v) == [(k, v)] + a[1..];
      assert forall e :: e in a[1..] ==> e in a;
    }
  }

  /** With distinct keys, an entry found by iteration is the one a lookup finds. */
  lemma {:induction false} LookupEntry<V>(a: Entries<V>, k: string, v: V)
    requires DistinctKeys(a)
    requires (k, v) in a
    ensures Lookup(a, k) == Some(v)
  {
    if a[0] != (k, v) {
      assert (k, v) in a[1..];
      var i :| 0 <= i < |a[1..]| && a[1..][i] == (k, v);
      assert a[i + 1] == (k, v);
      LookupEntry(a[1..], k, v);
    }
  }
}
