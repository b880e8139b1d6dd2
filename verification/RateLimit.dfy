/**
 * The fixed-window rate limiter (backend/src/services/rateLimitService.ts:54-151): the service over the key-value
 * store, and the interleavings of the commands of concurrent checks of one identifier.
 */
module RateLimit {
  import opened Common
  import opened KvStore

  datatype Config = Config(maxRequests: int, windowSeconds: int)

  datatype Result = Result(allowed: bool, remaining: int, resetTime: int, currentCount: int)

  datatype RateStatus = RateStatus(allowed: bool, remaining: int, resetTime: int)

  function Key(identifier: string): string {
    "rate_limit:" + identifier
  }

  /** The store after a whole check: the window is anchored to the first hit. */
  function AfterCheck(c: Contents, now: int, key: string, windowSeconds: int): Contents {
    if NextCount(c, key) == 1 then AfterExpire(AfterIncr(c, key), now, key, windowSeconds) else AfterIncr(c, key)
  }

  function ResetTime(c: Contents, now: int, key: string, windowSeconds: int): int {
    now + (if TtlOf(c, now, key) > 0 then TtlOf(c, now, key) else windowSeconds) * 1000
  }

  /** The window ends windowSeconds after its first hit, and no later hit moves its end. */
  lemma WindowIsAnchored(c: Contents, now: int, key: string, windowSeconds: int)
    requires windowSeconds > 0 && (key in c ==> c[key].value.Count? && c[key].value.n >= 1)
    ensures var after := AfterCheck(c, now, key, windowSeconds);
            && key in after && after.Keys == c.Keys + {key}
            && after[key] == (if key in c then Entry(Count(c[key].value.n + 1), c[key].expiresAt)
                              else Entry(Count(1), Some(now + windowSeconds * 1000)))
  {
  }

  class RateLimitService {
    const store: MemoryKvStore

    constructor (store: MemoryKvStore)
      ensures this.store == store
    {
      this.store := store;
    }

    /** Counts the request; fails open when the store is unreachable. */
    method CheckRateLimit(identifier: string, config: Config) returns (r: Result)
      modifies store`entries
      ensures var before, key := old(store.Live()), Key(identifier);
              if store.reachable then
                var after := AfterCheck(before, store.now, key, config.windowSeconds);
                && store.Live() == after
                && r == Result(NextCount(before, key) <= config.maxRequests, Max(0, config.maxRequests - NextCount(before, key)),
                               ResetTime(after, store.now, key, config.windowSeconds), NextCount(before, key))
              else
                && store.Live() == before
                && r == Result(true, config.maxRequests - 1, store.now + config.windowSeconds * 1000, 1)
    {
      if !store.reachable {
        return Result(true, config.maxRequests - 1, store.now + config.windowSeconds * 1000, 1);
      }
      var key := Key(identifier);
      var currentCount := store.Incr(key);
      if currentCount == 1 {
        store.Expire(key, config.windowSeconds);
      }
      var ttlSeconds := store.Ttl(key);
      r := Result(currentCount <= config.maxRequests, Max(0, config.maxRequests - currentCount),
                  store.now + (if ttlSeconds > 0 then ttlSeconds else config.windowSeconds) * 1000, currentCount);
    }

    method ResetRateLimit(identifier: string)
      modifies store`entries
      ensures store.Live() == if store.reachable then old(store.Live()) - {Key(identifier)} else old(store.Live())
    {
      if store.reachable { store.Del(Key(identifier)); }
    }

    /** Reads without counting. */
    method GetRateLimitStatus(identifier: string, config: Config) returns (r: RateStatus)
      modifies store`entries
      ensures store.Live() == old(store.Live())
      ensures var live, key := store.Live(), Key(identifier);
              r == if store.reachable && key in live && live[key].value.Count?
                   then RateStatus(live[key].value.n < config.maxRequests, Max(0, config.maxRequests - live[key].value.n),
                                   ResetTime(live, store.now, key, config.windowSeconds))
                   else RateStatus(true, config.maxRequests, store.now + config.windowSeconds * 1000)
    {
      var key := Key(identifier);
      var fallback := RateStatus(true, config.maxRequests, store.now + config.windowSeconds * 1000);
      if !store.reachable { return fallback; }
      var currentValue := store.Get(key);
      if currentValue.None? || !currentValue.value.Count? { return fallback; }
      var ttlSeconds := store.Ttl(key);
      r := RateStatus(currentValue.value.n < config.maxRequests, Max(0, config.maxRequests - currentValue.value.n),
                      store.now + (if ttlSeconds > 0 then ttlSeconds else config.windowSeconds) * 1000);
    }
  }

  /**
   * A status foretells the check that follows it in the same window: they agree if and only if the limit admits
   * anybody or a counter exists already.
   */
  method StatusThenCheck(service: RateLimitService, identifier: string, config: Config, wait: nat)
    returns (s: RateStatus, r: Result)
    requires service.store.reachable
    requires var key, live := Key(identifier), service.store.Live();
             key in live ==> Unexpired(live[key], service.store.now + wait)
    modifies service.store
    ensures var key, live := Key(identifier), old(service.store.Live());
            (s.allowed <==> r.allowed) <==> config.maxRequests >= 1 || (key in live && live[key].value.Count?)
    ensures s.allowed && r.allowed ==> r.remaining == s.remaining - 1
  {
    s := service.GetRateLimitStatus(identifier, config);
    service.store.Advance(wait);
    r := service.CheckRateLimit(identifier, config);
  }

  // ---------- concurrent checks ----------

  /** One check: its count and the window it was counted in, once its INCR has run. A check that meets a failing command
      is answered "allowed": FailedOpen after its INCR, Uncounted when that itself failed. */
  datatype Check =
    | Idle
    | Counted(n: int, window: nat)
    | Expiring(n: int, window: nat)
    | Answered(n: int, window: nat)
    | FailedOpen(n: int, window: nat)
    | Uncounted

  /** `window` is how often the counter has disappeared so far. */
  datatype World = World(store: Contents, now: int, checks: map<nat, Check>, window: nat)

  datatype Step =
    | DoIncr(id: nat)
    | DoExpire(id: nat)
    | DoTtl(id: nat)
    | Tick(ms: nat)
    | Reset
    | Crash(id: nat)
    | CommandFails(id: nat)

  function CheckOf(w: World, id: nat): Check {
    if id in w.checks then w.checks[id] else Idle
  }

  predicate Can(w: World, step: Step) {
    match step
    case DoIncr(id) => id !in w.checks
    case DoExpire(id) => CheckOf(w, id).Expiring?
    case DoTtl(id) => CheckOf(w, id).Counted?
    case CommandFails(id) => id !in w.checks || w.checks[id].Expiring? || w.checks[id].Counted?
    case _ => true
  }

  /** The single commands in the order one check issues them; a crash abandons the rest of a check. */
  function Apply(w: World, key: string, windowSeconds: int, step: Step): World
    requires Can(w, step)
  {
    match step
    case DoIncr(id) =>
      var n := NextCount(w.store, key);
      w.(store := AfterIncr(w.store, key),
         checks := w.checks[id := if n == 1 then Expiring(n, w.window) else Counted(n, w.window)])
    case DoExpire(id) =>
      var c := w.checks[id];
      w.(store := AfterExpire(w.store, w.now, key, windowSeconds), checks := w.checks[id := Counted(c.n, c.window)])
    case DoTtl(id) =>
      var c := w.checks[id];
      w.(checks := w.checks[id := Answered(c.n, c.window)])
    case Tick(ms) =>
      var after := AfterTick(w.store, w.now + ms);
      World(after, w.now + ms, w.checks, if key in w.store && key !in after then w.window + 1 else w.window)
    case Reset =>
      World(w.store - {key}, w.now, w.checks, if key in w.store then w.window + 1 else w.window)
    case Crash(id) =>
      if CheckOf(w, id).Expiring? || CheckOf(w, id).Counted?
      then w.(checks := w.checks[id := Answered(w.checks[id].n, w.checks[id].window)]) else w
    case CommandFails(id) =>
      w.(checks := w.checks[id := if id in w.checks then FailedOpen(w.checks[id].n, w.checks[id].window) else Uncounted])
  }

  /** A check is given up, by a crash or a failing command. */
  predicate GivesUp(step: Step) {
    step.Crash? || step.CommandFails?
  }

  /** Its INCR has run. */
  predicate HasCount(w: World, id: nat) {
    id in w.checks && w.checks[id] != Idle && w.checks[id] != Uncounted
  }

  predicate Run(w: World, key: string, windowSeconds: int, steps: seq<Step>, t: World)
    decreases |steps|
  {
    if steps == [] then t == w
    else Can(w, steps[0]) && Run(Apply(w, key, windowSeconds, steps[0]), key, windowSeconds, steps[1..], t)
  }

  /** The counts handed out in one window are 1, 2, 3, … without repeats, and the counter holds the last one. */
  predicate Inv(w: World, key: string) {
    && (key in w.store ==> w.store[key].value.Count?)
    && (forall id <- w.checks :: w.checks[id] != Idle)
    && (forall id <- w.checks :: HasCount(w, id) ==> w.checks[id].n >= 1 && w.checks[id].window <= w.window)
    && (forall id <- w.checks :: HasCount(w, id) && w.checks[id].window == w.window ==>
          key in w.store && w.checks[id].n <= w.store[key].value.n)
    && (key in w.store ==> w.store[key].value.n >= 1)
    && (forall a <- w.checks, b <- w.checks :: HasCount(w, a) && HasCount(w, b) ==>
          w.checks[a].window == w.checks[b].window && w.checks[a].n == w.checks[b].n ==> a == b)
  }

  lemma IncrKeepsInv(w: World, key: string, windowSeconds: int, id: nat)
    requires Inv(w, key) && Can(w, DoIncr(id))
    ensures Inv(Apply(w, key, windowSeconds, DoIncr(id)), key)
  {
  }

  lemma StoreKeepsInv(w: World, key: string, windowSeconds: int, step: Step)
    requires Inv(w, key) && (step.Tick? || step.Reset?)
    ensures Inv(Apply(w, key, windowSeconds, step), key)
  {
  }

  lemma AnswerKeepsInv(w: World, key: string, windowSeconds: int, step: Step)
    requires Inv(w, key) && Can(w, step) && (step.DoExpire? || step.DoTtl?)
    ensures Inv(Apply(w, key, windowSeconds, step), key)
  {
  }

  lemma CrashKeepsInv(w: World, key: string, windowSeconds: int, id: nat)
    requires Inv(w, key)
    ensures Inv(Apply(w, key, windowSeconds, Crash(id)), key)
  {
  }

  lemma FailureKeepsInv(w: World, key: string, windowSeconds: int, id: nat)
    requires Inv(w, key) && Can(w, CommandFails(id))
    ensures Inv(Apply(w, key, windowSeconds, CommandFails(id)), key)
  {
    var next := Apply(w, key, windowSeconds, CommandFails(id));
    assert forall q <- next.checks :: q != id ==> q in w.checks && next.checks[q] == w.checks[q];
  }

  lemma StepKeepsInv(w: World, key: string, windowSeconds: int, step: Step)
    requires Inv(w, key) && Can(w, step)
    ensures Inv(Apply(w, key, windowSeconds, step), key)
  {
    hide Inv, Apply;
    match step
    case DoIncr(id) => IncrKeepsInv(w, key, windowSeconds, id);
    case Tick(_) => StoreKeepsInv(w, key, windowSeconds, step);
    case Reset => StoreKeepsInv(w, key, windowSeconds, step);
    case DoExpire(_) => AnswerKeepsInv(w, key, windowSeconds, step);
    case DoTtl(_) => AnswerKeepsInv(w, key, windowSeconds, step);
    case Crash(id) => CrashKeepsInv(w, key, windowSeconds, id);
    case CommandFails(id) => FailureKeepsInv(w, key, windowSeconds, id);
  }

  lemma {:induction false} RunKeepsInv(w: World, key: string, windowSeconds: int, steps: seq<Step>, t: World)
    requires Inv(w, key) && Run(w, key, windowSeconds, steps, t)
    ensures Inv(t, key)
    decreases |steps|
  {
    if steps != [] {
      StepKeepsInv(w, key, windowSeconds, steps[0]);
      RunKeepsInv(Apply(w, key, windowSeconds, steps[0]), key, windowSeconds, steps[1..], t);
    }
  }

  /** The checks counted in one window that are told to go ahead by their count; those that failed open go ahead beside. */
  function AllowedIn(w: World, window: nat, maxRequests: int): set<nat> {
    set id | id in w.checks && HasCount(w, id) && w.checks[id].window == window && w.checks[id].n <= maxRequests
  }

  lemma {:induction false} Pigeonhole(w: World, window: nat, ids: set<nat>, bound: nat)
    requires forall id <- ids :: HasCount(w, id) && w.checks[id].window == window
                                 && 1 <= w.checks[id].n <= bound
    requires forall a <- ids, b <- ids :: HasCount(w, a) && HasCount(w, b) ==> w.checks[a].n == w.checks[b].n ==> a == b
    ensures |ids| <= bound
    decreases bound
  {
    if bound == 0 {
      assert (forall id :: id !in ids) ==> ids == {};
    } else {
      var top := set id | id in ids && w.checks[id].n == bound;
      AtMostOne(top);
      Pigeonhole(w, window, ids - top, bound - 1);
      assert |ids| == |ids - top| + |top|;
    }
  }

  lemma AtMostOne(s: set<nat>)
    requires forall a <- s, b <- s :: a == b
    ensures |s| <= 1
  {
    if s != {} {
      assert (forall x :: x !in s) ==> s == {};
      var x :| x in s;
      assert s == {x};
    }
  }

  /** Under every interleaving, at most maxRequests checks are allowed between two resets of the counter. */
  lemma AtMostMaxRequestsPerWindow(w: World, key: string, config: Config, steps: seq<Step>, t: World, window: nat)
    requires Inv(w, key) && Run(w, key, config.windowSeconds, steps, t)
    ensures Inv(t, key)
    ensures |AllowedIn(t, window, config.maxRequests)| <= Max(0, config.maxRequests)
  {
    RunKeepsInv(w, key, config.windowSeconds, steps, t);
    Pigeonhole(t, window, AllowedIn(t, window, config.maxRequests), Max(0, config.maxRequests));
  }

  /** The empty store satisfies the invariant. */
  lemma EmptyWorldInv(now: int, key: string)
    ensures Inv(World(map[], now, map[], 0), key) && !Permanent(World(map[], now, map[], 0), key)
  {
  }

  // ---------- when the counter expires ----------

  predicate SomeoneSetsExpiry(w: World) {
    exists id <- w.checks :: w.checks[id].Expiring?
  }

  /** A counter without expiry, and nobody about to give it one. */
  predicate Permanent(w: World, key: string) {
    key in w.store && w.store[key].expiresAt.None? && !SomeoneSetsExpiry(w)
  }

  /** The only check that still has an expiry to set is given up, while the counter has none. */
  predicate FatalCrash(w: World, key: string, step: Step) {
    && GivesUp(step) && CheckOf(w, step.id).Expiring?
    && (forall id <- w.checks :: w.checks[id].Expiring? ==> id == step.id)
    && key in w.store && w.store[key].expiresAt.None?
  }

  /** The one way into a permanent counter, and the one way out. */
  lemma PermanentAfterStepIff(w: World, key: string, windowSeconds: int, step: Step)
    requires windowSeconds > 0 && Inv(w, key) && Can(w, step)
    ensures Permanent(Apply(w, key, windowSeconds, step), key) <==>
            FatalCrash(w, key, step) || (Permanent(w, key) && step != Reset)
  {
    if GivesUp(step) {
      AfterGivingUpIff(w, key, windowSeconds, step);
      hide Inv, Apply, Permanent, FatalCrash;
    } else {
      var next := Apply(w, key, windowSeconds, step);
      if SomeoneSetsExpiry(w) {
        var id :| id in w.checks && w.checks[id].Expiring?;
        if step != DoExpire(id) { assert next.checks[id].Expiring?; }
      }
      if step.DoIncr? { assert NextCount(w.store, key) == 1 ==> next.checks[step.id].Expiring?; }
    }
  }

  lemma AfterGivingUpIff(w: World, key: string, windowSeconds: int, step: Step)
    requires GivesUp(step) && Can(w, step)
    ensures Permanent(Apply(w, key, windowSeconds, step), key) <==> FatalCrash(w, key, step) || Permanent(w, key)
  {
    AnotherOne(w, Apply(w, key, windowSeconds, step), step.id);
  }

  lemma AnotherOne(w: World, next: World, id: nat)
    requires next.checks.Keys >= w.checks.Keys && forall q <- w.checks :: q != id ==> next.checks[q] == w.checks[q]
    ensures (exists q <- w.checks :: w.checks[q].Expiring? && q != id) ==> SomeoneSetsExpiry(next)
  {
    if q :| q in w.checks && w.checks[q].Expiring? && q != id {
      assert next.checks[q].Expiring?;
    }
  }

  /** Some step of the run is such a crash, and no reset comes after it. */
  predicate CrashedForGood(w: World, key: string, windowSeconds: int, steps: seq<Step>)
    decreases |steps|
  {
    steps != [] && Can(w, steps[0]) &&
    ((FatalCrash(w, key, steps[0]) && Reset !in steps[1..])
     || CrashedForGood(Apply(w, key, windowSeconds, steps[0]), key, windowSeconds, steps[1..]))
  }

  /**
   * Over every interleaving: the counter ends up without expiry and with nobody to set one if and only if a check
   * died or failed between counting and setting the expiry, as the last one that still could, and nobody has reset it since.
   */
  lemma {:induction false} PermanentIffCrashed(w: World, key: string, windowSeconds: int, steps: seq<Step>, t: World)
    requires windowSeconds > 0 && Inv(w, key) && Run(w, key, windowSeconds, steps, t)
    ensures Permanent(t, key) <==>
            CrashedForGood(w, key, windowSeconds, steps) || (Permanent(w, key) && Reset !in steps)
    decreases |steps|
  {
    if steps != [] {
      var next := Apply(w, key, windowSeconds, steps[0]);
      StepKeepsInv(w, key, windowSeconds, steps[0]);
      PermanentAfterStepIff(w, key, windowSeconds, steps[0]);
      PermanentIffCrashed(next, key, windowSeconds, steps[1..], t);
      assert steps == [steps[0]] + steps[1..];
      hide Inv, Permanent, FatalCrash, Apply;
    }
  }

  /** No check dies or fails while it still has the expiry to set. */
  predicate NoExpiringCrash(w: World, key: string, windowSeconds: int, steps: seq<Step>)
    decreases |steps|
  {
    steps == [] || !Can(w, steps[0]) ||
    (!(GivesUp(steps[0]) && CheckOf(w, steps[0].id).Expiring?)
     && NoExpiringCrash(Apply(w, key, windowSeconds, steps[0]), key, windowSeconds, steps[1..]))
  }

  lemma {:induction false} NeverCrashedForGood(w: World, key: string, windowSeconds: int, steps: seq<Step>)
    requires NoExpiringCrash(w, key, windowSeconds, steps)
    ensures !CrashedForGood(w, key, windowSeconds, steps)
    decreases |steps|
  {
    if steps != [] && Can(w, steps[0]) {
      NeverCrashedForGood(Apply(w, key, windowSeconds, steps[0]), key, windowSeconds, steps[1..]);
    }
  }

  /** So, without such a crash, a counter always has its expiry, or a check that is about to set it. */
  lemma CounterExpires(now: int, key: string, windowSeconds: int, steps: seq<Step>, t: World)
    requires windowSeconds > 0 && Run(World(map[], now, map[], 0), key, windowSeconds, steps, t)
    requires NoExpiringCrash(World(map[], now, map[], 0), key, windowSeconds, steps)
    ensures key in t.store && t.store[key].expiresAt.None? ==> SomeoneSetsExpiry(t)
  {
    var w := World(map[], now, map[], 0);
    EmptyWorldInv(now, key);
    NeverCrashedForGood(w, key, windowSeconds, steps);
    PermanentIffCrashed(w, key, windowSeconds, steps, t);
  }

  /** The shortest such run: the first check of a window dies between its two writes. */
  lemma CrashLeavesAPermanentCounter(key: string, windowSeconds: int)
    ensures var w := World(map[], 0, map[], 0);
            Can(w, DoIncr(0)) && Permanent(Apply(Apply(w, key, windowSeconds, DoIncr(0)), key, windowSeconds, Crash(0)), key)
  {
  }

  /** However long the clock runs, such a counter only grows: once it stands at the limit, no new check is allowed until a reset. */
  lemma {:induction false} PermanentCounterLocksOut(w: World, key: string, config: Config, steps: seq<Step>, t: World)
    requires Inv(w, key) && Permanent(w, key) && w.store[key].value.n >= Max(1, config.maxRequests)
    requires Run(w, key, config.windowSeconds, steps, t) && Reset !in steps
    ensures Inv(t, key) && Permanent(t, key) && t.store[key].value.n >= w.store[key].value.n
    ensures forall id <- t.checks :: id !in w.checks && HasCount(t, id) ==> t.checks[id].n > config.maxRequests
    decreases |steps|
  {
    if steps != [] {
      var next := Apply(w, key, config.windowSeconds, steps[0]);
      StepKeepsInv(w, key, config.windowSeconds, steps[0]);
      assert steps[0] != Reset && Reset !in steps[1..];
      PermanentStep(w, key, config, steps[0]);
      PermanentCounterLocksOut(next, key, config, steps[1..], t);
      ChecksKeepTheirCount(next, key, config, steps[1..], t);
    }
  }

  lemma PermanentStep(w: World, key: string, config: Config, step: Step)
    requires Inv(w, key) && Permanent(w, key) && w.store[key].value.n >= Max(1, config.maxRequests)
    requires Can(w, step) && step != Reset
    ensures var next := Apply(w, key, config.windowSeconds, step);
            && Permanent(next, key) && next.store[key].value.Count? && next.store[key].value.n >= w.store[key].value.n
            && forall id <- next.checks :: id !in w.checks && HasCount(next, id) ==> next.checks[id].n > config.maxRequests
  {
  }

  lemma {:induction false} ChecksKeepTheirCount(w: World, key: string, config: Config, steps: seq<Step>, t: World)
    requires Inv(w, key) && Run(w, key, config.windowSeconds, steps, t)
    ensures forall id <- w.checks :: id in t.checks && (HasCount(w, id) <==> HasCount(t, id))
                                     && (HasCount(w, id) ==> t.checks[id].n == w.checks[id].n)
    decreases |steps|
  {
    if steps != [] {
      StepKeepsInv(w, key, config.windowSeconds, steps[0]);
      ChecksKeepTheirCount(Apply(w, key, config.windowSeconds, steps[0]), key, config, steps[1..], t);
    }
  }
}
