/**
 * Lists searched by id: the index rows and the envelopes. `Find` is the first match,
 * `Put` overwrites the first match or pushes, `Without` is `retain(id != ...)`.
 */
module KeyedLists {
  import opened Bytes
  import opened Types

  function Ids<V>(l: seq<Keyed<V>>): (ids: seq<Id>)
    ensures |ids| == |l|
  {
    seq(|l|, i requires 0 <= i < |l| => l[i].id)
  }

  function Find<V>(l: seq<Keyed<V>>, id: Id): (r: Option<V>)
    ensures r.Some? <==> id in Ids(l)
  {
    if l == [] then None
    else
      assert Ids(l) == [l[0].id] + Ids(l[1..]);
      if l[0].id == id then Some(l[0].body) else Find(l[1..], id)
  }

  function Put<V>(l: seq<Keyed<V>>, id: Id, v: V): seq<Keyed<V>> {
    if l == [] then [Keyed(id, v)]
    else if l[0].id == id then [Keyed(id, v)] + l[1..]
    else [l[0]] + Put(l[1..], id, v)
  }

  function Without<V>(l: seq<Keyed<V>>, id: Id): seq<Keyed<V>> {
    if l == [] then []
    else if l[0].id == id then Without(l[1..], id)
    else [l[0]] + Without(l[1..], id)
  }

  function WithoutId(ids: seq<Id>, id: Id): (r: seq<Id>)
    ensures forall x :: x in r <==> x in ids && x != id
  {
    if ids == [] then []
    else
      assert ids == [ids[0]] + ids[1..];
      if ids[0] == id then WithoutId(ids[1..], id) else [ids[0]] + WithoutId(ids[1..], id)
  }

  predicate NoDup<T(==)>(s: seq<T>) { forall i, j :: 0 <= i < j < |s| ==> s[i] != s[j] }

  /** Both lists duplicate-free and equal as sets. */
  ghost predicate SameIds(a: seq<Id>, b: seq<Id>) {
    NoDup(a) && NoDup(b) && forall id :: id in a <==> id in b
  }

  lemma {:induction false} FindPut<V>(l: seq<Keyed<V>>, id: Id, v: V, x: Id)
    ensures Find(Put(l, id, v), x) == if x == id then Some(v) else Find(l, x)
  {
    if l != [] && l[0].id != id {
      FindPut(l[1..], id, v, x);
    }
  }

  lemma {:induction false} FindWithout<V>(l: seq<Keyed<V>>, id: Id, x: Id)
    ensures Find(Without(l, id), x) == if x == id then None else Find(l, x)
  {
    if l != [] {
      FindWithout(l[1..], id, x);
    }
  }

  lemma {:induction false} IdsPut<V>(l: seq<Keyed<V>>, id: Id, v: V)
    ensures Ids(Put(l, id, v)) == if id in Ids(l) then Ids(l) else Ids(l) + [id]
  {
    if l != [] {
      assert Ids(l) == [l[0].id] + Ids(l[1..]);
      if l[0].id != id {
        IdsPut(l[1..], id, v);
        assert Ids(Put(l, id, v)) == [l[0].id] + Ids(Put(l[1..], id, v));
      } else {
        assert Ids(Put(l, id, v)) == [id] + Ids(l[1..]);
      }
    }
  }

  lemma {:induction false} IdsWithout<V>(l: seq<Keyed<V>>, id: Id)
    ensures Ids(Without(l, id)) == WithoutId(Ids(l), id)
  {
    if l != [] {
      assert Ids(l)[1..] == Ids(l[1..]);
      IdsWithout(l[1..], id);
      if l[0].id != id {
        assert Ids(Without(l, id)) == [l[0].id] + Ids(Without(l[1..], id));
      }
    }
  }

  lemma {:induction false} WithoutIdNoDup(ids: seq<Id>, id: Id)
    requires NoDup(ids)
    ensures NoDup(WithoutId(ids, id))
  {
    if ids != [] {
      WithoutIdNoDup(ids[1..], id);
      var rest := WithoutId(ids[1..], id);
      assert ids[0] !in ids[1..];
      assert ids[0] !in rest;
    }
  }

  lemma AppendNoDup(ids: seq<Id>, id: Id)
    requires NoDup(ids) && id !in ids
    ensures NoDup(ids + [id])
  {
  }

  /** Put and Without keep two lists in step. */
  lemma SameIdsPut<V, W>(l: seq<Keyed<V>>, m: seq<Keyed<W>>, id: Id, v: V, w: W)
    requires SameIds(Ids(l), Ids(m))
    ensures SameIds(Ids(Put(l, id, v)), Ids(Put(m, id, w)))
    ensures Ids(l) == Ids(m) ==> Ids(Put(l, id, v)) == Ids(Put(m, id, w))
  {
    IdsPut(l, id, v);
    IdsPut(m, id, w);
    if id !in Ids(l) {
      AppendNoDup(Ids(l), id);
      AppendNoDup(Ids(m), id);
    }
  }

  lemma SameIdsWithout<V, W>(l: seq<Keyed<V>>, m: seq<Keyed<W>>, id: Id)
    requires SameIds(Ids(l), Ids(m))
    ensures SameIds(Ids(Without(l, id)), Ids(Without(m, id)))
    ensures Ids(l) == Ids(m) ==> Ids(Without(l, id)) == Ids(Without(m, id))
  {
    IdsWithout(l, id);
    IdsWithout(m, id);
    WithoutIdNoDup(Ids(l), id);
    WithoutIdNoDup(Ids(m), id);
  }

  lemma {:induction false} PutNew<V>(l: seq<Keyed<V>>, id: Id, v: V)
    requires forall j :: 0 <= j < |l| ==> l[j].id != id
    ensures Put(l, id, v) == l + [Keyed(id, v)]
    ensures id !in Ids(l)
  {
    if l != [] {
      PutNew(l[1..], id, v);
      assert l + [Keyed(id, v)] == [l[0]] + (l[1..] + [Keyed(id, v)]);
    }
  }
}
