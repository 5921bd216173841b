/** src/rosy/node/service/caller.py: the caller object, shared by all its connections. Each method is
    a stretch of code that does not suspend, proved to be the operation of the same name in Rpc on the
    reader it works on; what it does to the other readers is a step Others of theirs. */
module ServiceCallers {
  import opened Streams
  import opened RequestIds
  import Rpc
  import opened MessageCodecs

  type Reader = nat

  class ServiceCaller {
    const maxRequestIds: nat
    var nextRequestId: nat
    var responseFutures: map<Reader, map<nat, nat>>   // reader to request ID to number of the future
    var futures: map<nat, Rpc.Future<ServiceResponse>>
    var handlers: map<Reader, nat>                    // response handler tasks started and not ended

    ghost predicate Valid()
      reads this
    {
      && nextRequestId < maxRequestIds
      && (forall r :: r in responseFutures ==> r in handlers && responseFutures[r].Values <= futures.Keys)
      && forall r, q :: r in responseFutures && q in responseFutures && r != q ==>
           responseFutures[r].Values !! responseFutures[q].Values
    }

    /** This object as it concerns one reader. */
    function View(r: Reader): Rpc.Client<ServiceResponse>
      reads this
    {
      Rpc.Client(nextRequestId,
                 if r in responseFutures then Some(responseFutures[r]) else None,
                 futures,
                 if r in handlers then handlers[r] else 0)
    }

    /** All that another reader notices of work on r is where the cursor stands and what became of
        futures that are not its own: only those in the table of r have changed. */
    twostate predicate OnlyFor(r: Reader)
      reads this
    {
      forall q: Reader :: q != r ==>
        && View(q).table == old(View(q)).table && View(q).handlers == old(View(q)).handlers
        && (q in responseFutures ==> forall f :: f in responseFutures[q].Values && f in old(futures) ==>
              f in futures && futures[f] == old(futures)[f])
        && forall f :: f in old(futures) && !(r in old(responseFutures) && f in old(responseFutures)[r].Values) ==>
             f in futures && futures[f] == old(futures)[f]
    }

    constructor (n: nat)
      requires 0 < n
      ensures Valid() && maxRequestIds == n
      ensures forall r :: View(r) == Rpc.Client(0, None, map[], 0)
    {
      maxRequestIds := n;
      nextRequestId := 0;
      responseFutures, futures, handlers := map[], map[], map[];
    }

    method StartResponseHandler(r: Reader)
      requires Valid()
      modifies this
      ensures Valid() && OnlyFor(r)
      ensures View(r) == Rpc.StartHandler(old(View(r)))
      ensures r in responseFutures
      ensures if r in old(responseFutures) then responseFutures == old(responseFutures) && handlers == old(handlers)
              else responseFutures == old(responseFutures)[r := map[]] && handlers[r] == old(View(r)).handlers + 1
      ensures futures == old(futures) && nextRequestId == old(nextRequestId)
    {
      if r !in responseFutures {
        responseFutures := responseFutures[r := map[]];
        handlers := handlers[r := (if r in handlers then handlers[r] else 0) + 1];
      }
    }

    method IncNextRequestId()
      requires Valid()
      modifies this`nextRequestId
      ensures Valid() && nextRequestId == After(old(nextRequestId), maxRequestIds)
    {
      nextRequestId := (nextRequestId + 1) % maxRequestIds;
    }

    /** The search leaves the cursor on the ID it found; when all are taken it has gone round once and
        stands where it started. */
    method FindNextAvailableRequestId(r: Reader) returns (id: Option<nat>)
      requires Valid() && r in responseFutures
      modifies this`nextRequestId
      ensures Valid()
      ensures id == Rpc.NewId(old(View(r)), maxRequestIds)
      ensures nextRequestId == if id.Some? then id.value else old(nextRequestId)
      ensures id.None? <==> forall other: nat :: other < maxRequestIds ==> other in responseFutures[r]
      ensures id.Some? ==>
        && id.value < maxRequestIds && id.value !in responseFutures[r]
        && forall other: nat :: other < maxRequestIds && other !in responseFutures[r] ==>
             Distance(old(nextRequestId), id.value, maxRequestIds) <= Distance(old(nextRequestId), other, maxRequestIds)
    {
      ghost var start, used := nextRequestId, responseFutures[r].Keys;
      AllocatorIsExact(used, start, maxRequestIds);
      for i := 0 to maxRequestIds
        invariant Valid()
        invariant Distance(start, nextRequestId, maxRequestIds) == if i == maxRequestIds then 0 else i
        invariant FirstFree(used, start, maxRequestIds, maxRequestIds)
               == FirstFree(used, nextRequestId, maxRequestIds - i, maxRequestIds)
      {
        if nextRequestId !in responseFutures[r] {
          return Some(nextRequestId);
        }
        RoundTheRing(start, nextRequestId, maxRequestIds);
        IncNextRequestId();
      }
      RoundTheRing(start, nextRequestId, maxRequestIds);
      return None;
    }

    /** Allocates an ID and registers a fresh future under it; None when all IDs are in use. */
    method GetRequestIdAndResponseFuture(r: Reader, future: nat) returns (id: Option<nat>)
      requires Valid() && r in responseFutures && future !in futures
      modifies this
      ensures Valid() && OnlyFor(r)
      ensures id == Rpc.NewId(old(View(r)), maxRequestIds)
      ensures id.None? ==> View(r) == old(View(r))
      ensures id.Some? ==> id.value < maxRequestIds
      ensures id.Some? ==> View(r) == Rpc.Register(old(View(r)), id.value, future, maxRequestIds)
      ensures id.Some? ==>
        && id.value !in old(responseFutures)[r]
        && nextRequestId == After(id.value, maxRequestIds)
        && futures == old(futures)[future := Rpc.Pending]
        && responseFutures.Keys == old(responseFutures).Keys
        && responseFutures[r] == old(responseFutures)[r][id.value := future]
        && forall q :: q in responseFutures && q != r ==> responseFutures[q] == old(responseFutures)[q]
    {
      id := FindNextAvailableRequestId(r);
      if id.Some? {
        AllocatorIsExact(responseFutures[r].Keys, old(nextRequestId), maxRequestIds);
        IncNextRequestId();
        futures := futures[future := Rpc.Pending];
        var pending: map<nat, nat> := responseFutures[r][id.value := future];
        responseFutures := responseFutures[r := pending];
      }
    }

    /** The end of the with-block, reached only when its body did not raise. */
    method ReleaseRequestId(r: Reader, id: nat)
      requires Valid()
      modifies this
      ensures Valid() && OnlyFor(r)
      ensures View(r) == Rpc.Release(old(View(r)), id)
      ensures futures == old(futures) && nextRequestId == old(nextRequestId)
      ensures r in old(responseFutures) ==>
        responseFutures == old(responseFutures)[r := old(responseFutures)[r] - {id}]
    {
      if r in responseFutures && responseFutures[r] != map[] {
        responseFutures := responseFutures[r := responseFutures[r] - {id}];
      }
    }

    /** What the handler does with a response it has decoded. */
    method HandleOneResponse(r: Reader, response: ServiceResponse)
      requires Valid() && r in responseFutures
      modifies this
      ensures Valid() && OnlyFor(r)
      ensures View(r) == Rpc.SetResult(old(View(r)), response.id, response)
      ensures responseFutures == old(responseFutures) && futures.Keys == old(futures).Keys
      ensures forall f :: f in futures ==>
        futures[f] ==
          if response.id in responseFutures[r] && responseFutures[r][response.id] == f && old(futures)[f].Pending?
          then Rpc.Answered(response) else old(futures)[f]
    {
      if response.id !in responseFutures[r] {
        return;
      }
      var future := responseFutures[r][response.id];
      assert future in responseFutures[r].Values;
      if futures[future].Pending? {
        futures := futures[future := Rpc.Answered(response)];
      }
    }

    method FailPendingResponseFuturesFor(r: Reader)
      requires Valid() && r in responseFutures
      modifies this`futures
      ensures Valid() && futures == Rpc.FailPending(old(View(r)))
      ensures futures.Keys == old(futures).Keys
      ensures forall f :: f in futures ==>
        futures[f] ==
          if f in responseFutures[r].Values && old(futures)[f].Pending? then Rpc.Failed else old(futures)[f]
    {
      var left := responseFutures[r].Values;
      while left != {}
        invariant left <= responseFutures[r].Values <= futures.Keys
        invariant futures.Keys == old(futures).Keys
        invariant forall c :: c in futures ==>
          futures[c] ==
            if c in responseFutures[r].Values - left && old(futures)[c].Pending? then Rpc.Failed else old(futures)[c]
      {
        var future :| future in left;
        if futures[future].Pending? {
          futures := futures[future := Rpc.Failed];
        }
        left := left - {future};
      }
    }

    /** The handler's `finally` clause. */
    method EndResponseHandler(r: Reader)
      requires Valid() && r in responseFutures
      modifies this
      ensures Valid() && OnlyFor(r)
      ensures View(r) == Rpc.EndHandler(old(View(r)))
      ensures responseFutures == old(responseFutures) - {r} && nextRequestId == old(nextRequestId)
      ensures futures.Keys == old(futures).Keys
      ensures forall f :: f in futures ==>
        futures[f] ==
          if f in old(responseFutures)[r].Values && old(futures)[f].Pending? then Rpc.Failed else old(futures)[f]
    {
      FailPendingResponseFuturesFor(r);
      responseFutures := responseFutures - {r};
      handlers := handlers[r := if handlers[r] == 0 then 0 else handlers[r] - 1];
    }
  }
}
