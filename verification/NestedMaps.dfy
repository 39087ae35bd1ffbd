/** Two-level maps, path then id, as the endpoint store and the pool manager keep them: an
    inner map that becomes empty is removed. */
module NestedMaps {

  type Nested<V> = map<string, map<string, V>>

  predicate Has<V>(s: Nested<V>, path: string, id: string) {
    path in s && id in s[path]
  }

  function At<V>(s: Nested<V>, path: string, id: string): V
    requires Has(s, path, id)
  {
    s[path][id]
  }

  function Put<V>(s: Nested<V>, path: string, id: string, v: V): Nested<V> {
    s[path := (if path in s then s[path] else map[])[id := v]]
  }

  function WithInner<V>(s: Nested<V>, path: string, inner: map<string, V>): Nested<V> {
    if |inner| == 0 then s - {path} else s[path := inner]
  }

  function Drop<V>(s: Nested<V>, path: string, id: string): Nested<V> {
    if path in s then WithInner(s, path, s[path] - {id}) else s
  }

  predicate NoEmptyInner<V>(s: Nested<V>) {
    forall path :: path in s ==> s[path] != map[]
  }

  ghost predicate EntryOf<V>(s: Nested<V>, path: string, v: V) {
    exists k :: Has(s, path, k) && v == At(s, path, k)
  }

  /** One entry of each inner map. */
  ghost predicate IsPick<V>(s: Nested<V>, reps: map<string, V>) {
    reps.Keys == s.Keys && forall p :: p in reps ==> EntryOf(s, p, reps[p])
  }

  lemma HasPut<V>(s: Nested<V>, path: string, id: string, v: V)
    ensures forall p, k :: Has(Put(s, path, id, v), p, k) <==> Has(s, p, k) || (p == path && k == id)
    ensures forall p, k :: Has(Put(s, path, id, v), p, k) ==>
              At(Put(s, path, id, v), p, k) == if p == path && k == id then v else At(s, p, k)
    ensures NoEmptyInner(s) ==> NoEmptyInner(Put(s, path, id, v))
  {
    assert id in Put(s, path, id, v)[path];
  }

  lemma HasWithInner<V>(s: Nested<V>, path: string, inner: map<string, V>)
    ensures forall p, k :: Has(WithInner(s, path, inner), p, k) <==> if p == path then k in inner else Has(s, p, k)
    ensures forall p, k :: Has(WithInner(s, path, inner), p, k) ==>
              At(WithInner(s, path, inner), p, k) == if p == path then inner[k] else At(s, p, k)
    ensures NoEmptyInner(s) ==> NoEmptyInner(WithInner(s, path, inner))
  {
    if |inner| == 0 {
      assert inner == map[];
    } else {
      assert inner != map[];
    }
  }

  lemma HasDrop<V>(s: Nested<V>, path: string, id: string)
    ensures forall p, k :: Has(Drop(s, path, id), p, k) <==> Has(s, p, k) && !(p == path && k == id)
    ensures forall p, k :: Has(Drop(s, path, id), p, k) ==> At(Drop(s, path, id), p, k) == At(s, p, k)
    ensures NoEmptyInner(s) ==> NoEmptyInner(Drop(s, path, id))
  {
    if path in s {
      HasWithInner(s, path, s[path] - {id});
    }
  }

  /** Two such maps without empty inner maps are equal when their entries are. */
  lemma Extensional<V>(a: Nested<V>, b: Nested<V>)
    requires NoEmptyInner(a) && NoEmptyInner(b)
    requires forall p, k :: Has(a, p, k) <==> Has(b, p, k)
    requires forall p, k :: Has(a, p, k) ==> At(a, p, k) == At(b, p, k)
    ensures a == b
  {
    forall p ensures p in a <==> p in b {
      if p in a {
        NonEmptyHas(a, p);
      }
      if p in b {
        NonEmptyHas(b, p);
      }
    }
    forall p | p in a ensures a[p] == b[p] {
      forall k ensures k in a[p] <==> k in b[p]
        ensures k in a[p] ==> a[p][k] == b[p][k]
      {
        assert Has(a, p, k) <==> Has(b, p, k);
        assert Has(a, p, k) ==> At(a, p, k) == At(b, p, k);
      }
    }
  }

  lemma NonEmptyHas<V>(a: Nested<V>, p: string)
    requires p in a && a[p] != map[]
    ensures exists k :: Has(a, p, k)
  {
    assert a[p].Keys != {};
    var k :| k in a[p].Keys;
    assert Has(a, p, k);
  }
}
