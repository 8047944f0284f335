/** internal/interop/interop.go: MemstoreTransmitter, which adds poll bookkeeping to a store. */
module MemstoreTransmitter {
  import opened Collections
  import opened Wrappers
  import opened PollWire
  import opened PollDrain
  import opened SubjectKeys
  import opened MemoryStore
  import StoreModel

  lemma NoSets()
    ensures SetsOf([]) == map[]
  {
  }

  lemma SetsOfStep(queue: seq<Entry>, i: nat)
    requires i < |queue|
    ensures SetsOf(queue[..0]) == map[]
    ensures SetsOf(queue[..i + 1]) == SetsOf(queue[..i])[queue[i].jti := queue[i].jws]
  {
    assert queue[..i + 1][..i] == queue[..i];
  }

  /** The loop of PollEvents over the first `take` entries. */
  method Gather(queue: seq<Entry>, take: nat, start: map<string, string>)
    returns (sets: map<string, string>, out: map<string, string>)
    requires take <= |queue|
    ensures sets == SetsOf(queue[..take]) && out == start + sets
  {
    hide SetsOf;
    sets, out := map[], start;
    if take == 0 {
      NoSets();
      return;
    }
    SetsOfStep(queue, 0);
    for i := 0 to take
      invariant sets == SetsOf(queue[..i])
      invariant out == start + sets
    {
      SetsOfStep(queue, i);
      sets := sets[queue[i].jti := queue[i].jws];
      out := out[queue[i].jti := queue[i].jws];
    }
  }

  /** The errors not in `keys` have been merged. */
  ghost predicate Merged(bucket: map<string, SetErr>, start: map<string, SetErr>, setErrs: map<string, SetErr>,
                         keys: set<string>)
  {
    && (forall j :: j in bucket <==> j in start || (j in setErrs && j !in keys))
    && (forall j | j in bucket :: bucket[j] == if j in setErrs && j !in keys then setErrs[j] else start[j])
  }

  lemma MergeStep(bucket: map<string, SetErr>, start: map<string, SetErr>, setErrs: map<string, SetErr>,
                  keys: set<string>, jti: string)
    requires Merged(bucket, start, setErrs, keys) && jti in keys && jti in setErrs
    ensures Merged(bucket[jti := setErrs[jti]], start, setErrs, keys - {jti})
  {
  }

  lemma MergeEnds(bucket: map<string, SetErr>, start: map<string, SetErr>, setErrs: map<string, SetErr>)
    ensures Merged(start, start, setErrs, setErrs.Keys)
    ensures Merged(bucket, start, setErrs, {}) ==> bucket == start + setErrs
  {
  }

  /** The loop of PollEvents over the reported errors, in whatever order the map yields them. */
  method Merge(start: map<string, SetErr>, setErrs: map<string, SetErr>) returns (bucket: map<string, SetErr>)
    ensures bucket == start + setErrs
  {
    hide Merged;
    bucket := start;
    var keys := setErrs.Keys;
    MergeEnds(bucket, start, setErrs);
    while keys != {}
      invariant keys <= setErrs.Keys && Merged(bucket, start, setErrs, keys)
      decreases |keys|
    {
      var jti :| jti in keys;
      MergeStep(bucket, start, setErrs, keys, jti);
      bucket := bucket[jti := setErrs[jti]];
      keys := keys - {jti};
    }
    MergeEnds(bucket, start, setErrs);
  }

  class MemstoreTransmitter {
    const store: InMemoryStore
    var pending: map<string, seq<Entry>>
    var outstanding: map<string, map<string, string>>
    var observedSetErrs: map<string, map<string, SetErr>>

    ghost predicate Valid()
      reads this, store, store.Repr
    {
      store.Valid() && this !in store.Repr
    }

    /** The bookkeeping of one stream; a missing map entry reads as empty. */
    ghost function TxOf(id: string): Tx
      reads this
    {
      Tx(if id in pending then pending[id] else [],
         if id in outstanding then outstanding[id] else map[],
         if id in observedSetErrs then observedSetErrs[id] else map[])
    }

    constructor (store: InMemoryStore)
      requires store.Valid()
      ensures Valid() && this.store == store && forall id :: TxOf(id) == EMPTY
    {
      this.store := store;
      pending, outstanding, observedSetErrs := map[], map[], map[];
    }

    method EnqueueForPoll(id: string, jti: string, jws: string) returns (err: Option<Error>)
      requires Valid()
      modifies this, store
      ensures Valid() && store.Repr == old(store.Repr)
      ensures (store.Model(), err) == StoreModel.Enqueue(old(store.Model()), id, jws)
      ensures TxOf(id) == if err.None? then old(TxOf(id)).(pending := old(TxOf(id)).pending + [Entry(jti, jws)])
                          else old(TxOf(id))
      ensures forall other | other != id :: TxOf(other) == old(TxOf(other))
    {
      hide InMemoryStore.Holds, StoreModel.Enqueue;
      err := store.EnqueueSET(id, jws);
      if err.Some? {
        return;
      }
      Append(id, Entry(jti, jws));
    }

    /** The section of EnqueueForPoll under the lock. */
    method Append(id: string, e: Entry)
      modifies this`pending
      ensures TxOf(id) == old(TxOf(id)).(pending := old(TxOf(id)).pending + [e])
      ensures forall other | other != id :: TxOf(other) == old(TxOf(other))
    {
      pending := pending[id := (if id in pending then pending[id] else []) + [e]];
    }

    method OutstandingCount(id: string) returns (n: nat)
      ensures n == |TxOf(id).outstanding|
    {
      n := if id in outstanding then |outstanding[id]| else 0;
    }

    method DeleteConfig(id: string)
      requires Valid()
      modifies this, store
      ensures Valid() && store.Repr == old(store.Repr)
      ensures store.Model() == StoreModel.Delete(old(store.Model()), id)
      ensures TxOf(id) == EMPTY && forall other | other != id :: TxOf(other) == old(TxOf(other))
    {
      hide InMemoryStore.Holds;
      pending := pending - {id};
      outstanding := outstanding - {id};
      observedSetErrs := observedSetErrs - {id};
      store.DeleteStream(id);
    }

    /** One poll: acks and errors are taken in, then the head of the queue goes out. */
    method PollEvents(id: string, req: Request) returns (resp: Result<Response, Error>)
      requires Valid()
      modifies this
      ensures Valid()
      ensures id !in store.model ==> resp == Err(StreamNotFound) && TxOf(id) == old(TxOf(id))
      ensures id in store.model ==>
                && resp == Ok(PollReply(old(TxOf(id)), req)) && TxOf(id) == AfterPoll(old(TxOf(id)), req)
                && IsPoll(old(TxOf(id)), req, TxOf(id), resp.value)
      ensures forall other | other != id :: TxOf(other) == old(TxOf(other))
    {
      hide PollReply, AfterPoll, IsPoll, InMemoryStore.Holds, StreamConfig.View, StreamConfig.Owned;
      PollMeans(TxOf(id), req);
      var cfg, err := store.GetStream(id);
      if err.Some? {
        return Err(err.value);
      }
      var r := Serve(id, req);
      resp := Ok(r);
    }

    /** The section of PollEvents under the lock. */
    method Serve(id: string, req: Request) returns (resp: Response)
      modifies this
      ensures resp == PollReply(old(TxOf(id)), req) && TxOf(id) == AfterPoll(old(TxOf(id)), req)
      ensures forall other | other != id :: TxOf(other) == old(TxOf(other))
    {
      hide SetsOf;
      ApplyAcks(id, req.ack);
      RecordErrs(id, req.setErrs);
      var sets, more := TakeBatch(id, req.maxEvents);
      resp := Response(sets, more);
    }

    /** Drops each acked jti. */
    method ApplyAcks(id: string, ack: seq<string>)
      modifies this`outstanding
      ensures TxOf(id) == old(TxOf(id)).(outstanding := old(TxOf(id)).outstanding - Elems(ack))
      ensures forall other | other != id :: TxOf(other) == old(TxOf(other))
    {
      if id in outstanding {
        ghost var was := outstanding;
        for k := 0 to |ack|
          invariant id in outstanding && outstanding == was[id := outstanding[id]]
          invariant outstanding[id] == was[id] - Elems(ack[..k])
        {
          outstanding := outstanding[id := outstanding[id] - {ack[k]}];
          assert Elems(ack[..k + 1]) == Elems(ack[..k]) + {ack[k]};
        }
        assert ack[..|ack|] == ack;
      }
    }

    /** Notes each reported error. */
    method RecordErrs(id: string, setErrs: map<string, SetErr>)
      modifies this`observedSetErrs
      ensures TxOf(id) == old(TxOf(id)).(observed := old(TxOf(id)).observed + setErrs)
      ensures forall other | other != id :: TxOf(other) == old(TxOf(other))
    {
      if |setErrs| > 0 {
        var bucket := Merge(if id in observedSetErrs then observedSetErrs[id] else map[], setErrs);
        observedSetErrs := observedSetErrs[id := bucket];
      } else {
        assert setErrs == map[];
      }
    }

    /** Moves the head of the queue to the outstanding SETs. */
    method TakeBatch(id: string, maxEvents: Option<int>) returns (sets: map<string, string>, more: bool)
      modifies this`pending, this`outstanding
      ensures var was := old(TxOf(id)); var n := BatchSize(was.pending, maxEvents);
        && sets == SetsOf(was.pending[..n]) && more == (n < |was.pending|)
        && TxOf(id) == Tx(was.pending[n..], was.outstanding + SetsOf(was.pending[..n]), was.observed)
      ensures forall other | other != id :: TxOf(other) == old(TxOf(other))
    {
      hide SetsOf;
      var batchCap := if maxEvents.Some? then maxEvents.value else DEFAULT_CAP;
      if batchCap < 0 {
        batchCap := 0;
      }
      var queue := if id in pending then pending[id] else [];
      var take := batchCap;
      if take > |queue| {
        take := |queue|;
      }
      var out := if id in outstanding then outstanding[id] else map[];
      sets, out := Gather(queue, take, out);
      if id in outstanding || take > 0 {
        outstanding := outstanding[id := out];
      }
      pending := pending[id := queue[take..]];
      more := take < |queue|;
    }
  }
}
