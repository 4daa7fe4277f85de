/** The document store underneath the handlers: one MongoDB collection, with
    its documents in the order the store returns them (insertion order). */
module Store {
  import opened Base

  /** The entries of `docs` listed in the order of `ids`. */
  function Entries<T>(ids: seq<Id>, docs: map<Id, T>): (es: seq<(Id, T)>)
    requires forall i :: 0 <= i < |ids| ==> ids[i] in docs
    ensures |es| == |ids|
    ensures forall i :: 0 <= i < |ids| ==> es[i] == (ids[i], docs[ids[i]])
  {
    if ids == [] then [] else [(ids[0], docs[ids[0]])] + Entries(ids[1..], docs)
  }

  /** `ids` with `id` taken out. */
  function Without(ids: seq<Id>, id: Id): (r: seq<Id>)
    ensures forall x :: x in r <==> x in ids && x != id
    ensures |r| <= |ids|
  {
    if ids == [] then []
    else if ids[0] == id then Without(ids[1..], id)
    else [ids[0]] + Without(ids[1..], id)
  }

  /** No identifier is listed twice. */
  predicate Distinct(ids: seq<Id>) {
    forall i, j :: 0 <= i < j < |ids| ==> ids[i] != ids[j]
  }

  /** Taking an element out of a list without repetitions leaves a list
      without repetitions. */
  lemma {:induction false} WithoutDistinct(ids: seq<Id>, id: Id)
    requires Distinct(ids)
    ensures Distinct(Without(ids, id))
  {
    if ids != [] {
      WithoutDistinct(ids[1..], id);
      var rest := Without(ids[1..], id);
      if ids[0] != id {
        assert Without(ids, id) == [ids[0]] + rest;
        assert ids[0] !in ids[1..];
        assert ids[0] !in rest;
        var r := [ids[0]] + rest;
        forall i, j | 0 <= i < j < |r| ensures r[i] != r[j] {
          if i > 0 { assert r[i] == rest[i - 1] && r[j] == rest[j - 1]; }
          else { assert r[j] in rest; }
        }
      }
    }
  }

  /** One collection of documents of type T. */
  class Collection<T> {
    /** The identifiers in the order the store lists them. */
    var ids: seq<Id>
    /** The stored documents. */
    var docs: map<Id, T>
    /** The next identifier to hand out; every stored one is smaller. */
    var nextId: Id

    ghost predicate Valid()
      reads this
    {
      && Distinct(ids)
      && (forall id :: id in docs <==> id in ids)
      && (forall id :: id in docs ==> id < nextId)
    }

    /** An empty collection. */
    constructor ()
      ensures Valid() && ids == [] && docs == map[]
    {
      ids := [];
      docs := map[];
      nextId := 0;
    }

    /** The documents in store order, as `find()` returns them. */
    function Contents(): (es: seq<(Id, T)>)
      reads this
      requires Valid()
      ensures |es| == |docs|
      ensures forall id :: id in docs <==> exists i :: 0 <= i < |es| && es[i].0 == id
      ensures forall i :: 0 <= i < |es| ==> es[i].0 in docs && es[i].1 == docs[es[i].0]
    {
      DistinctCard(ids, docs);
      var es := Entries(ids, docs);
      assert forall id :: id in docs ==> exists i :: 0 <= i < |ids| && ids[i] == id;
      es
    }

    /** `findById(id)`. */
    function Get(id: Id): (r: Option<T>)
      reads this
      ensures r.Some? <==> id in docs
      ensures r.Some? ==> r.value == docs[id]
    {
      if id in docs then Some(docs[id]) else None
    }

    /** `create(doc)`: stores `doc` under a fresh identifier at the end. */
    method Insert(doc: T) returns (id: Id)
      requires Valid()
      modifies this
      ensures Valid()
      ensures id !in old(docs)
      ensures docs == old(docs)[id := doc] && ids == old(ids) + [id]
    {
      id := nextId;
      assert id !in ids;
      ids := ids + [id];
      docs := docs[id := doc];
      nextId := nextId + 1;
    }

    /** Overwrites the stored document `id`; its place in the order is kept. */
    method Put(id: Id, doc: T)
      requires Valid() && id in docs
      modifies this
      ensures Valid()
      ensures docs == old(docs)[id := doc] && ids == old(ids)
    {
      docs := docs[id := doc];
    }

    /** `findByIdAndDelete(id)` / `remove()` on a stored document. */
    method Remove(id: Id)
      requires Valid() && id in docs
      modifies this
      ensures Valid()
      ensures docs == old(docs) - {id} && ids == Without(old(ids), id)
    {
      WithoutDistinct(ids, id);
      ids := Without(ids, id);
      docs := docs - {id};
    }
  }

  /** A list without repetitions that enumerates exactly the keys of `docs`
      has as many elements as `docs`. */
  lemma {:induction false} DistinctCard<T>(ids: seq<Id>, docs: map<Id, T>)
    requires Distinct(ids)
    requires forall id :: id in docs <==> id in ids
    ensures |ids| == |docs|
    decreases |ids|
  {
    if ids != [] {
      var rest := docs - {ids[0]};
      assert ids[0] !in ids[1..];
      forall id ensures id in rest <==> id in ids[1..] {
        if id in ids[1..] { assert id != ids[0]; }
      }
      DistinctCard(ids[1..], rest);
      assert docs.Keys == rest.Keys + {ids[0]};
    } else {
      assert docs.Keys == {};
    }
  }
}
