/**
 * One request passing through the idempotency middleware, undisturbed by others
 * (backend/src/middleware/idempotency.ts:86-206).  Idempotency treats the interleavings.
 */
module IdempotentRequest {
  import opened Common
  import opened KvStore
  import opened Idempotency
  import opened CacheKeys

  const IDEMPOTENCY_TTL_SECONDS: nat := 24 * 60 * 60
  const IN_FLIGHT_TTL_SECONDS: nat := 30

  datatype Decision = Replay(status: int, body: string) | Conflict | Proceed

  /** releaseClaim on the unexpired entries. */
  function WithoutClaim(c: Contents, lockKey: string, claim: string): Contents {
    if Got(c, lockKey) == Some(Text(claim)) then c - {lockKey} else c
  }

  class Request {
    const cache: CacheService
    const cacheKey: string
    const claim: string

    constructor (cache: CacheService, cacheKey: string, claim: string)
      ensures this.cache == cache && this.cacheKey == cacheKey && this.claim == claim
    {
      this.cache, this.cacheKey, this.claim := cache, cacheKey, claim;
    }

    /** A recorded outcome is replayed; a held claim is refused; otherwise the work is done, under a
        claim if the store is there to hold one. */
    method Arrive() returns (d: Decision)
      modifies cache.store`entries
      ensures var live := old(cache.store.Live());
              var found := Got(live, cacheKey);
              var lockKey := InFlightLockKey(cacheKey);
              if cache.store.reachable && found.Some? && found.value.Response? then
                d == Replay(found.value.status, found.value.body) && cache.store.Live() == live
              else if cache.store.reachable && lockKey in live then
                d == Conflict && cache.store.Live() == live
              else
                && d == Proceed
                && cache.store.Live() == if cache.store.reachable
                                         then AfterSet(live, cache.store.now, lockKey, Text(claim), IN_FLIGHT_TTL_SECONDS)
                                         else live
    {
      var cached := cache.Get(cacheKey);
      if cached.Some? && cached.value.Response? {
        return Replay(cached.value.status, cached.value.body);
      }
      var lockKey := InFlightLockKey(cacheKey);
      var claimed := cache.SetNotExists(lockKey, Text(claim), IN_FLIGHT_TTL_SECONDS);
      if !claimed {
        var held := cache.Get(lockKey);
        if held.Some? {
          return Conflict;
        }
      }
      d := Proceed;
    }

    /** 'finish': the outcome is recorded first, the claim given back after. */
    method OnFinish(outcome: Outcome)
      modifies cache.store`entries
      ensures var live := old(cache.store.Live());
              var recorded := if Recordable(outcome)
                              then AfterSet(live, cache.store.now, cacheKey,
                                            Response(outcome.status, outcome.body.value), IDEMPOTENCY_TTL_SECONDS)
                              else live;
              cache.store.Live() == if cache.store.reachable then WithoutClaim(recorded, InFlightLockKey(cacheKey), claim)
                                    else live
      ensures cache.store.reachable && Recordable(outcome) ==>
                Got(cache.store.Live(), cacheKey) == Some(Response(outcome.status, outcome.body.value))
      ensures cache.store.reachable ==> Got(cache.store.Live(), InFlightLockKey(cacheKey)) != Some(Text(claim))
    {
      if Recordable(outcome) {
        cache.Set(cacheKey, Response(outcome.status, outcome.body.value), IDEMPOTENCY_TTL_SECONDS);
      }
      OnClose();
      assert |InFlightLockKey(cacheKey)| != |cacheKey|;
    }

    /** 'close': the claim is given back if it is still ours. */
    method OnClose()
      modifies cache.store`entries
      ensures cache.store.Live() == if cache.store.reachable
                                    then WithoutClaim(old(cache.store.Live()), InFlightLockKey(cacheKey), claim)
                                    else old(cache.store.Live())
    {
      var _ := cache.DeleteIfMatch(InFlightLockKey(cacheKey), claim);
    }
  }

  /** A client that retries after the answer gets the answer, and the work is not done again. */
  method RetryAfterAnswer(first: Request, second: Request, outcome: Outcome) returns (d: Decision)
    requires first.cache.store == second.cache.store && first.cacheKey == second.cacheKey
    requires first.cache.store.reachable && Recordable(outcome)
    modifies first.cache.store`entries
    ensures d == Replay(outcome.status, outcome.body.value)
  {
    first.OnFinish(outcome);
    first.OnClose();
    d := second.Arrive();
  }
}
