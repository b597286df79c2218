/** Request ids of the client (MoonLightClient.java, `allocateRequestId`). */
module ClientTables {

  /** The two tables, as the ids they hold, and the id counter, which does not wrap. */
  class RequestTables {
    var nextRequestId: nat
    var pending: set<nat>
    var streams: set<nat>

    ghost predicate Taken(id: nat)
      reads this
    {
      id == 0 || id in pending || id in streams
    }

    /** Every id in use came from the counter. */
    ghost predicate Valid()
      reads this
    {
      && 1 <= nextRequestId
      && (forall id :: id in pending ==> id < nextRequestId) && (forall id :: id in streams ==> id < nextRequestId)
    }

    constructor ()
      ensures Valid() && nextRequestId == 1 && pending == {} && streams == {}
    {
      nextRequestId, pending, streams := 1, {}, {};
    }

    /** The first id from the counter on that is neither zero nor in use; with tables whose
        ids came from the counter, simply the next one. */
    method AllocateRequestId() returns (candidate: nat)
      modifies this`nextRequestId
      ensures !Taken(candidate) && old(nextRequestId) <= candidate && nextRequestId == candidate + 1
      ensures forall id :: old(nextRequestId) <= id < candidate ==> old(Taken(id))
      ensures old(Valid()) ==> candidate == old(nextRequestId)
    {
      candidate := nextRequestId;
      nextRequestId := nextRequestId + 1;
      ghost var ahead := set id | id in pending + streams && id >= candidate;
      while candidate == 0 || candidate in pending || candidate in streams
        invariant nextRequestId == candidate + 1 && old(nextRequestId) <= candidate
        invariant forall id :: old(nextRequestId) <= id < candidate ==> old(Taken(id))
        invariant forall id :: id in ahead <==> id in pending + streams && id >= candidate
        decreases |ahead| + if candidate == 0 then 1 else 0
      {
        ahead := ahead - {candidate};
        candidate := nextRequestId;
        nextRequestId := nextRequestId + 1;
      }
      assert candidate > old(nextRequestId) ==> old(Taken(nextRequestId));
    }

    /** A call enters the pending table under a fresh id. */
    method Register() returns (id: nat)
      requires Valid()
      modifies this`nextRequestId, this`pending
      ensures Valid() && id == old(nextRequestId) && id !in old(pending) + streams
      ensures pending == old(pending) + {id} && nextRequestId == old(nextRequestId) + 1
    {
      id := AllocateRequestId();
      pending := pending + {id};
    }

    /** A call leaves the table; the id is not given out again. */
    method Release(id: nat)
      requires Valid()
      modifies this`pending
      ensures Valid() && pending == old(pending) - {id}
    {
      pending := pending - {id};
    }
  }
}
