/**
 * JavaScript values and plain objects, as far as the route handlers and the
 * column mapper use them: property reads that yield `undefined` for a missing
 * key, property assignment that appends a new key at the end, and `delete`.
 * An object is an ordered list of (key, value) pairs, because `Object.keys`
 * order decides the CSV and spreadsheet header order.
 */
module JsObject {

  /** A scalar as it travels between the database driver, the handlers and the output.
      Numbers are exact rationals: floating point is not modelled. */
  datatype Value = Undefined | Null | Bool(b: bool) | Number(n: real) | Text(s: string)

  /** A plain object: its own properties in insertion order. */
  type Record = seq<(string, Value)>

  /** `Object.keys(r)`. */
  function Keys(r: Record): seq<string> {
    seq(|r|, i requires 0 <= i < |r| => r[i].0)
  }

  /** No key occurs twice (true of every object JavaScript builds). */
  predicate Distinct(ks: seq<string>) {
    forall i, j :: 0 <= i < j < |ks| ==> ks[i] != ks[j]
  }

  lemma KeysCons(r: Record)
    requires r != []
    ensures Keys(r) == [r[0].0] + Keys(r[1..])
  {
    assert Keys(r) == [r[0].0] + Keys(r[1..]);
  }

  /** `r[k]`: the value stored under the own key k, or `undefined` when there is none. */
  function Get(r: Record, k: string): (v: Value)
    ensures k !in Keys(r) ==> v == Undefined
    ensures k in Keys(r) ==> (k, v) in r
  {
    if r == [] then Undefined
    else (KeysCons(r); if r[0].0 == k then r[0].1 else Get(r[1..], k))
  }

  /** In an object with distinct keys, reading the key of entry i yields that entry's value. */
  lemma {:induction false} GetAt(r: Record, i: nat)
    requires Distinct(Keys(r)) && i < |r|
    ensures Get(r, r[i].0) == r[i].1
  {
    KeysCons(r);
    if i > 0 {
      assert Keys(r)[0] != Keys(r)[i];
      assert Distinct(Keys(r[1..])) by {
        forall p, q | 0 <= p < q < |Keys(r[1..])| ensures Keys(r[1..])[p] != Keys(r[1..])[q] {
          assert Keys(r[1..])[p] == Keys(r)[p + 1] && Keys(r[1..])[q] == Keys(r)[q + 1];
        }
      }
      GetAt(r[1..], i - 1);
    }
  }

  /** `r[k] = v`: overwrites an existing key in place, or appends a new key at the end. */
  function Assign(r: Record, k: string, v: Value): (s: Record)
    ensures Get(s, k) == v
    ensures forall k' :: k' != k ==> Get(s, k') == Get(r, k')
    ensures k in Keys(r) ==> Keys(s) == Keys(r)
    ensures k !in Keys(r) ==> Keys(s) == Keys(r) + [k]
  {
    if r == [] then [(k, v)]
    else
      KeysCons(r);
      var s := if r[0].0 == k then [(k, v)] + r[1..] else [r[0]] + Assign(r[1..], k, v);
      KeysCons(s);
      s
  }

  /** ks with every occurrence of k removed, the rest in order. */
  function Without(ks: seq<string>, k: string): (out: seq<string>)
    ensures k !in out
    ensures forall x :: x in out <==> x in ks && x != k
  {
    if ks == [] then []
    else if ks[0] == k then Without(ks[1..], k)
    else [ks[0]] + Without(ks[1..], k)
  }

  /** Removing a key that does not occur changes nothing. */
  lemma {:induction false} WithoutAbsent(ks: seq<string>, k: string)
    requires k !in ks
    ensures Without(ks, k) == ks
  {
    if ks != [] {
      WithoutAbsent(ks[1..], k);
    }
  }

  lemma {:induction false} WithoutConcat(a: seq<string>, b: seq<string>, k: string)
    ensures Without(a + b, k) == Without(a, k) + Without(b, k)
  {
    if a != [] {
      assert (a + b)[0] == a[0];
      assert (a + b)[1..] == a[1..] + b;
      WithoutConcat(a[1..], b, k);
      if a[0] != k {
        assert Without(a + b, k) == [a[0]] + Without(a[1..] + b, k);
        assert Without(a, k) == [a[0]] + Without(a[1..], k);
      }
    } else {
      assert a + b == b;
    }
  }

  /** Removing a key that occurs once leaves the keys before and after it, in order. */
  lemma WithoutOnce(a: seq<string>, k: string, b: seq<string>)
    requires k !in a && k !in b
    ensures Without(a + [k] + b, k) == a + b
  {
    WithoutConcat(a + [k], b, k);
    WithoutConcat(a, [k], k);
    WithoutAbsent(a, k);
    WithoutAbsent(b, k);
    assert [k][1..] == [];
    assert Without([k], k) == Without([], k) == [];
    assert Without(a + [k], k) == a;
  }

  /** `delete r[k]`: removes the key, keeping the order of the others. */
  function Delete(r: Record, k: string): (s: Record)
    ensures Keys(s) == Without(Keys(r), k)
    ensures Get(s, k) == Undefined
    ensures forall k' :: k' != k ==> Get(s, k') == Get(r, k')
  {
    if r == [] then []
    else
      KeysCons(r);
      var s := if r[0].0 == k then Delete(r[1..], k) else [r[0]] + Delete(r[1..], k);
      if s != [] then KeysCons(s); s else s
  }

  /** The own and inherited members of `Object.prototype`: reading any of them on a plain
      object yields a function or an object, which is truthy. */
  const ObjectPrototypeMembers: set<string> := {
    "constructor", "hasOwnProperty", "isPrototypeOf", "propertyIsEnumerable",
    "toLocaleString", "toString", "valueOf", "__proto__",
    "__defineGetter__", "__defineSetter__", "__lookupGetter__", "__lookupSetter__"
  }
}
