/**
  The document database as the pages see it: named collections of documents keyed by id.
  Each write call takes a `reachable` flag standing for the outcome of the network round trip
  (and the store's access rules); the store's own semantics decide the rest: `updateDoc` merges
  into an existing document and fails on a missing one, `setDoc` creates or overwrites,
  `addDoc` inserts under a fresh server-generated id, `deleteDoc` succeeds on a missing id.
*/
module Firestore {
  import opened JsValues

  type Collection = map<string, Doc>
  type Collections = map<string, Collection>

  function CollOf(cols: Collections, name: string): Collection {
    if name in cols then cols[name] else map[]
  }

  /** The collections after `updateDoc(doc(name, id), fields)` succeeded. */
  function Merged(cols: Collections, name: string, id: string, fields: Doc): Collections
    requires id in CollOf(cols, name)
  {
    cols[name := CollOf(cols, name)[id := CollOf(cols, name)[id] + fields]]
  }

  /** The collections after `setDoc(doc(name, id), d)` or an `addDoc` that generated `id`. */
  function Stored(cols: Collections, name: string, id: string, d: Doc): Collections {
    cols[name := CollOf(cols, name)[id := d]]
  }

  /** The collections after `deleteDoc(doc(name, id))`. */
  function Deleted(cols: Collections, name: string, id: string): Collections {
    cols[name := CollOf(cols, name) - {id}]
  }

  /**
    Each write touches one document of one collection: a stored document is there as given, a
    merged one takes the new fields over its old ones, a deleted one is gone; every other document
    of that collection and every other collection stay as they were.
  */
  lemma WritesTouchOneDocument(cols: Collections, name: string, id: string, d: Doc)
    ensures CollOf(Stored(cols, name, id, d), name)[id] == d
    ensures id !in CollOf(Deleted(cols, name, id), name)
    ensures id in CollOf(cols, name) ==>
      && CollOf(Merged(cols, name, id, d), name)[id].Keys == CollOf(cols, name)[id].Keys + d.Keys
      && (forall k :: k in d ==> CollOf(Merged(cols, name, id, d), name)[id][k] == d[k])
      && (forall k :: k in CollOf(cols, name)[id] && k !in d ==>
            CollOf(Merged(cols, name, id, d), name)[id][k] == CollOf(cols, name)[id][k])
    ensures forall n :: n != name ==>
      && CollOf(Stored(cols, name, id, d), n) == CollOf(cols, n)
      && CollOf(Deleted(cols, name, id), n) == CollOf(cols, n)
      && (id in CollOf(cols, name) ==> CollOf(Merged(cols, name, id, d), n) == CollOf(cols, n))
    ensures CollOf(Stored(cols, name, id, d), name) - {id} == CollOf(cols, name) - {id}
    ensures CollOf(Deleted(cols, name, id), name) == CollOf(cols, name) - {id}
  {
  }

  /** Deleting a document just added under a fresh id gives every collection back as it was. */
  lemma DeleteUndoesAdd(cols: Collections, name: string, id: string, d: Doc)
    requires id !in CollOf(cols, name)
    ensures CollOf(Deleted(Stored(cols, name, id, d), name, id), name) == CollOf(cols, name)
    ensures forall n :: CollOf(Deleted(Stored(cols, name, id, d), name, id), n) == CollOf(cols, n)
  {
    assert CollOf(cols, name)[id := d] - {id} == CollOf(cols, name);
  }

  class Db {
    var collections: Collections

    constructor (initial: Collections)
      ensures collections == initial
    {
      collections := initial;
    }

    function Coll(name: string): Collection
      reads this
    {
      CollOf(collections, name)
    }

    method UpdateDoc(name: string, id: string, fields: Doc, reachable: bool) returns (ok: bool)
      modifies this
      ensures ok == (reachable && id in old(Coll(name)))
      ensures ok ==> collections == Merged(old(collections), name, id, fields)
      ensures !ok ==> collections == old(collections)
    {
      ok := reachable && id in Coll(name);
      if ok {
        collections := Merged(collections, name, id, fields);
      }
    }

    method SetDoc(name: string, id: string, d: Doc, reachable: bool) returns (ok: bool)
      modifies this
      ensures ok == reachable
      ensures collections == if ok then Stored(old(collections), name, id, d) else old(collections)
    {
      ok := reachable;
      if ok {
        collections := Stored(collections, name, id, d);
      }
    }

    /** `addDoc`: `newId` is the id the store generates, which no document of the collection has. */
    method AddDoc(name: string, newId: string, d: Doc, reachable: bool) returns (ok: bool)
      requires newId !in Coll(name)
      modifies this
      ensures ok == reachable
      ensures collections == if ok then Stored(old(collections), name, newId, d) else old(collections)
    {
      ok := reachable;
      if ok {
        collections := Stored(collections, name, newId, d);
      }
    }

    method DeleteDoc(name: string, id: string, reachable: bool) returns (ok: bool)
      modifies this
      ensures ok == reachable
      ensures collections == if ok then Deleted(old(collections), name, id) else old(collections)
    {
      ok := reachable;
      if ok {
        collections := Deleted(collections, name, id);
      }
    }
  }
}
