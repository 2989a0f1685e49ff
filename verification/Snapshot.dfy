/** Reading the store at a pinned revision while other clients keep writing. */
module Snapshots {
  import opened Names
  import opened Storage
  import opened MemoryStore

  /** The store has only grown since `born`: every snapshot it had then is as it was. */
  ghost predicate Grown(born: Log, store: Memory)
    reads store
  {
    store.head >= born.head && forall rev: nat :: rev <= born.head ==> View(store.rows, rev) == View(born.rows, rev)
  }

  /** The reads of one request. Each is atomic, and before each the other clients
      may write anything, any number of times. */
  class Snapshot {
    const store: Memory
    const revision: nat
    /** The revision was already written when the request began. */
    const settled: bool
    ghost const view: seq<Tuple>
    ghost const born: Log

    /** The request keeps seeing the snapshot it started with. */
    ghost predicate Pinned()
      reads store
    {
      store.Valid() && (settled ==> revision <= born.head) && View(store.rows, revision) == view && Grown(born, store)
    }

    constructor (store: Memory, revision: nat)
      requires store.Valid()
      ensures this.store == store && this.revision == revision && view == View(store.rows, revision)
      ensures Pinned() && settled == (revision <= store.head) && born == store.Contents()
    {
      this.store, this.revision, this.settled := store, revision, revision <= store.head;
      view := View(store.rows, revision);
      born := store.Contents();
    }

    /** Other clients run. (At a revision still being written nothing can be said
        about a check that races with the writers, so none run then.) */
    method Meanwhile()
      requires Pinned()
      modifies store
      ensures Pinned()
    {
      if settled {
        var _ := store.OtherClients();
      }
    }

    method Read(obj: Object, relation: string) returns (out: seq<Tuple>)
      requires Pinned()
      modifies store
      ensures Pinned() && out == Storage.Read(view, obj, relation)
    {
      Meanwhile();
      out := store.Read(revision, obj, relation);
    }

    method ReadBySubject(subject: Subject, relation: string) returns (out: seq<Tuple>)
      requires Pinned()
      modifies store
      ensures Pinned() && out == Storage.ReadBySubject(view, subject, relation)
    {
      Meanwhile();
      out := store.ReadBySubject(revision, subject, relation);
    }
  }
}
