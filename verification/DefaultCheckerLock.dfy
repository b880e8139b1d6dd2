/**
 * The default checker's run lock across instances (backend/src/services/defaultChecker.ts:382-435,
 * 531-534).  The token of a run is kept in a field of the instance, not in the run, so what a run
 * releases is whatever the field holds when it ends.
 */
module DefaultCheckerLock {
  import opened Common
  import opened FencedLock
  import opened KvStore

  const LOCK_KEY := "default_checker:running"
  const LOCK_TTL_SECONDS: nat := 600
  const LOCK_TTL_MS: nat := LOCK_TTL_SECONDS * 1000

  // ---------- the instance ----------

  class DefaultChecker {
    const cache: CacheService
    var currentLockValue: Option<string>

    constructor (cache: CacheService)
      ensures this.cache == cache && currentLockValue.None?
    {
      this.cache := cache;
      currentLockValue := None;
    }

    method AcquireLock(lockValue: string) returns (acquired: bool)
      modifies this, cache.store`entries
      ensures acquired <==> cache.store.reachable && LOCK_KEY !in old(cache.store.Live())
      ensures acquired ==> currentLockValue == Some(lockValue)
                           && Got(cache.store.Live(), LOCK_KEY) == Some(Text(lockValue))
      ensures !acquired ==> currentLockValue == old(currentLockValue) && cache.store.Live() == old(cache.store.Live())
    {
      acquired := cache.SetNotExists(LOCK_KEY, Text(lockValue), LOCK_TTL_SECONDS);
      if acquired {
        currentLockValue := Some(lockValue);
      }
    }

    /** The field is cleared before anything is sent, and the key goes only if it still holds our value. */
    method ReleaseLock() returns (released: bool)
      modifies this, cache.store`entries
      ensures currentLockValue.None?
      ensures released <==> && old(currentLockValue).Some? && cache.store.reachable
                            && Got(old(cache.store.Live()), LOCK_KEY) == Some(Text(old(currentLockValue).value))
      ensures cache.store.Live() == if released then old(cache.store.Live()) - {LOCK_KEY} else old(cache.store.Live())
    {
      var value := currentLockValue;
      currentLockValue := None;
      if value.None? { return false; }
      released := cache.DeleteIfMatch(LOCK_KEY, value.value);
    }
  }

  // ---------- many instances ----------

  /** A run is named by the token it drew.  Between the reply to SETNX and the assignment of the field, and between
      clearing the field and the reply to the get, other runs of the instance can act. */
  datatype RunPhase = NotStarted | Acquired | Running | Taken(value: nat) | Releasing(value: nat) | Over

  /** `current` is each instance's currentLockValue. */
  datatype System = System(lock: Lock, current: map<nat, nat>, runs: map<nat, RunPhase>)

  datatype Action =
    | Start(run: nat)
    | Remember(run: nat)
    | Forget(run: nat)
    | BeginRelease(run: nat)
    | EndRelease(run: nat)
    | Wait(ms: nat)

  function Boot(now: int): System {
    System(FencedLock.Init(now), map[], map[])
  }

  function RunOf(s: System, r: nat): RunPhase {
    if r in s.runs then s.runs[r] else NotStarted
  }

  /** The instance a run executes on. */
  type Hosts = nat -> nat

  function Do(host: Hosts, s: System, a: Action): System {
    match a
    case Start(r) =>
      if !RunOf(s, r).NotStarted? then s
      else System(FencedLock.Apply(s.lock, Acquire(r, LOCK_TTL_MS)), s.current,
                  s.runs[r := if CanAcquire(s.lock, r) then Acquired else Over])
    case Remember(r) =>
      if !RunOf(s, r).Acquired? then s else s.(current := s.current[host(r) := r], runs := s.runs[r := Running])
    case Forget(r) =>
      if !RunOf(s, r).Running? then s
      else s.(current := s.current - {host(r)},
              runs := s.runs[r := if host(r) in s.current then Taken(s.current[host(r)]) else Over])
    case BeginRelease(r) =>
      var ph := RunOf(s, r);
      if !ph.Taken? then s
      else System(FencedLock.Apply(s.lock, ReleaseGet(ph.value)), s.current,
                  s.runs[r := if Holder(s.lock) == Some(ph.value) then Releasing(ph.value) else Over])
    case EndRelease(r) =>
      var ph := RunOf(s, r);
      if !ph.Releasing? then s
      else System(FencedLock.Apply(s.lock, ReleaseDel(ph.value)), s.current, s.runs[r := Over])
    case Wait(ms) => s.(lock := FencedLock.Apply(s.lock, Tick(ms)))
  }

  function Run(host: Hosts, s: System, actions: seq<Action>): System
    decreases |actions|
  {
    if actions == [] then s else Run(host, Do(host, s, actions[0]), actions[1..])
  }

  // ---------- the two hypotheses ----------

  predicate RunningOn(host: Hosts, s: System, h: nat) {
    exists q <- s.runs :: s.runs[q].Running? && host(q) == h
  }

  /** A run that remembers its token while it holds the lock does so beside no running run of its instance. */
  predicate FieldFree(host: Hosts, s: System, a: Action) {
    a.Remember? && RunOf(s, a.run).Acquired? && Holder(s.lock) == Some(a.run) ==> !RunningOn(host, s, host(a.run))
  }

  /** No expiry falls between a matched get and its del. */
  predicate NoExpiryInGap(s: System, a: Action) {
    a.Wait? ==> Calm(s.lock, Tick(a.ms))
  }

  predicate Orderly(host: Hosts, s: System, actions: seq<Action>)
    decreases |actions|
  {
    actions == [] ||
    (FieldFree(host, s, actions[0]) && NoExpiryInGap(s, actions[0])
     && Orderly(host, Do(host, s, actions[0]), actions[1..]))
  }

  // ---------- refinement of the fenced lock ----------

  /** From the reply to SETNX until the run ends. */
  predicate Active(ph: RunPhase) {
    ph.Acquired? || ph.Running? || ph.Taken? || ph.Releasing?
  }

  /** A field holds the token of a running run of its instance; whoever could read, or has read, the token that holds
      the lock is the run that drew it. */
  ghost predicate FieldsOwn(host: Hosts, s: System) {
    && (forall h <- s.current :: var t := s.current[h];
          && RunOf(s, t).Running? && host(t) == h
          && (Holder(s.lock) == Some(t) ==> forall q <- s.runs :: s.runs[q].Running? && host(q) == h ==> q == t))
    && (forall q <- s.runs :: s.runs[q].Taken? ==>
          && !RunOf(s, s.runs[q].value).NotStarted?
          && (Holder(s.lock) == Some(s.runs[q].value) ==> s.runs[q].value == q))
  }

  /** Each release under way is that of the token's own run, and a run that is active has not given its lock back. */
  ghost predicate RunsOwn(s: System) {
    && (forall q <- s.runs :: s.runs[q].Releasing? ==> s.runs[q].value == q && q in s.lock.pending)
    && (forall t <- s.lock.pending :: RunOf(s, t).Releasing?)
    && (forall q <- s.runs :: Active(s.runs[q]) ==> q in s.lock.granted && q !in s.lock.returned)
    && (forall t <- s.lock.granted :: t in s.runs && !s.runs[t].NotStarted?)
  }

  ghost predicate Inv(host: Hosts, s: System) {
    FencedLock.Inv(s.lock) && FieldsOwn(host, s) && RunsOwn(s)
  }

  /** The lock step an action amounts to. */
  function LockStep(s: System, a: Action): seq<FencedLock.Step> {
    match a
    case Start(r) => if RunOf(s, r).NotStarted? then [Acquire(r, LOCK_TTL_MS)] else []
    case BeginRelease(r) => if RunOf(s, r).Taken? then [ReleaseGet(RunOf(s, r).value)] else []
    case EndRelease(r) => if RunOf(s, r).Releasing? then [ReleaseDel(RunOf(s, r).value)] else []
    case Wait(ms) => [Tick(ms)]
    case _ => []
  }

  /** An action keeps the invariant and is its lock step. */
  ghost predicate Refines(host: Hosts, s: System, a: Action) {
    var s' := Do(host, s, a);
    var steps := LockStep(s, a);
    && Inv(host, s')
    && s'.lock == FencedLock.Exec(s.lock, steps)
    && CalmRun(s.lock, steps) && Fenced(s.lock, steps)
  }

  lemma OneStep(l: Lock, step: FencedLock.Step)
    requires FencedLock.Inv(l) && Calm(l, step)
    ensures FencedLock.Exec(l, [step]) == FencedLock.Apply(l, step)
    ensures CalmRun(l, [step]) && Fenced(l, [step]) && FencedLock.Inv(FencedLock.Apply(l, step))
  {
    StepInv(l, step);
    assert [step][1..] == [];
    assert FencedLock.Exec(FencedLock.Apply(l, step), []) == FencedLock.Apply(l, step);
  }

  lemma StartRefines(host: Hosts, s: System, r: nat)
    requires Inv(host, s)
    ensures Refines(host, s, Start(r))
  {
    if RunOf(s, r).NotStarted? {
      OneStep(s.lock, Acquire(r, LOCK_TTL_MS));
      StartKeepsFields(host, s, r);
      StartKeepsRuns(host, s, r);
      hide FencedLock.Inv, FieldsOwn, RunsOwn, Calm, RemovesForeign, CalmRun, Fenced, FencedLock.Exec;
    }
  }

  lemma StartKeepsFields(host: Hosts, s: System, r: nat)
    requires FieldsOwn(host, s) && RunOf(s, r).NotStarted?
    ensures FieldsOwn(host, Do(host, s, Start(r)))
  {
  }

  lemma StartKeepsRuns(host: Hosts, s: System, r: nat)
    requires RunsOwn(s) && RunOf(s, r).NotStarted? && s.lock.returned <= s.lock.granted.Keys
    ensures RunsOwn(Do(host, s, Start(r)))
  {
  }

  lemma RememberKeepsFields(host: Hosts, s: System, r: nat)
    requires FieldsOwn(host, s) && RunOf(s, r).Acquired? && FieldFree(host, s, Remember(r))
    ensures FieldsOwn(host, Do(host, s, Remember(r)))
  {
  }

  lemma ForgetKeepsFields(host: Hosts, s: System, r: nat)
    requires FieldsOwn(host, s) && RunOf(s, r).Running?
    ensures FieldsOwn(host, Do(host, s, Forget(r)))
  {
  }

  lemma FieldStepKeepsRuns(host: Hosts, s: System, a: Action)
    requires RunsOwn(s) && (a.Remember? || a.Forget?)
    ensures RunsOwn(Do(host, s, a))
  {
  }

  lemma FieldRefines(host: Hosts, s: System, a: Action)
    requires Inv(host, s) && FieldFree(host, s, a) && (a.Remember? || a.Forget?)
    ensures Refines(host, s, a)
  {
    FieldStepKeepsRuns(host, s, a);
    if a.Remember? && RunOf(s, a.run).Acquired? { RememberKeepsFields(host, s, a.run); }
    if a.Forget? && RunOf(s, a.run).Running? { ForgetKeepsFields(host, s, a.run); }
    hide FencedLock.Inv, FieldsOwn, RunsOwn, FieldFree;
  }

  /** What the get reads back is the run's own token, or no longer the lock's. */
  lemma GetIsCalm(host: Hosts, s: System, r: nat)
    requires Inv(host, s) && RunOf(s, r).Taken?
    ensures Calm(s.lock, ReleaseGet(RunOf(s, r).value))
    ensures Holder(s.lock) == Some(RunOf(s, r).value) ==> RunOf(s, r).value == r
  {
  }

  lemma BeginKeepsFields(host: Hosts, s: System, r: nat)
    requires FieldsOwn(host, s) && RunOf(s, r).Taken?
    ensures FieldsOwn(host, Do(host, s, BeginRelease(r)))
  {
  }

  lemma BeginKeepsRuns(host: Hosts, s: System, r: nat)
    requires RunsOwn(s) && RunOf(s, r).Taken?
    requires Holder(s.lock) == Some(RunOf(s, r).value) ==> RunOf(s, r).value == r
    ensures RunsOwn(Do(host, s, BeginRelease(r)))
  {
  }

  lemma BeginRefines(host: Hosts, s: System, r: nat)
    requires Inv(host, s)
    ensures Refines(host, s, BeginRelease(r))
  {
    if RunOf(s, r).Taken? {
      GetIsCalm(host, s, r);
      OneStep(s.lock, ReleaseGet(RunOf(s, r).value));
      BeginKeepsFields(host, s, r);
      BeginKeepsRuns(host, s, r);
      hide FencedLock.Inv, FieldsOwn, RunsOwn, Calm, RemovesForeign, CalmRun, Fenced, FencedLock.Exec;
    }
  }

  lemma EndKeepsFields(host: Hosts, s: System, r: nat)
    requires FieldsOwn(host, s) && RunOf(s, r).Releasing?
    ensures FieldsOwn(host, Do(host, s, EndRelease(r)))
  {
  }

  lemma EndKeepsRuns(host: Hosts, s: System, r: nat)
    requires RunsOwn(s) && ReleasesOwn(s.lock) && RunOf(s, r).Releasing?
    ensures RunsOwn(Do(host, s, EndRelease(r)))
  {
    assert s.lock.pending[r] == 1;
  }

  lemma EndRefines(host: Hosts, s: System, r: nat)
    requires Inv(host, s)
    ensures Refines(host, s, EndRelease(r))
  {
    if RunOf(s, r).Releasing? {
      assert RunOf(s, r).value == r;
      OneStep(s.lock, ReleaseDel(r));
      EndKeepsFields(host, s, r);
      EndKeepsRuns(host, s, r);
      hide FencedLock.Inv, FieldsOwn, RunsOwn, Calm, RemovesForeign, CalmRun, Fenced, FencedLock.Exec;
    }
  }

  lemma WaitRefines(host: Hosts, s: System, ms: nat)
    requires Inv(host, s) && NoExpiryInGap(s, Wait(ms))
    ensures Refines(host, s, Wait(ms))
  {
    OneStep(s.lock, Tick(ms));
    hide FencedLock.Inv;
  }

  lemma ActionRefines(host: Hosts, s: System, a: Action)
    requires Inv(host, s) && FieldFree(host, s, a) && NoExpiryInGap(s, a)
    ensures Refines(host, s, a)
  {
    hide Inv, Refines;
    match a
    case Start(r) => StartRefines(host, s, r);
    case BeginRelease(r) => BeginRefines(host, s, r);
    case EndRelease(r) => EndRefines(host, s, r);
    case Wait(ms) => WaitRefines(host, s, ms);
    case _ => FieldRefines(host, s, a);
  }

  lemma {:induction false} ChainLockSteps(l: Lock, xs: seq<FencedLock.Step>, ys: seq<FencedLock.Step>)
    ensures FencedLock.Exec(l, xs + ys) == FencedLock.Exec(FencedLock.Exec(l, xs), ys)
    ensures CalmRun(l, xs) && CalmRun(FencedLock.Exec(l, xs), ys) ==> CalmRun(l, xs + ys)
    ensures Fenced(l, xs) && Fenced(FencedLock.Exec(l, xs), ys) ==> Fenced(l, xs + ys)
    decreases |xs|
  {
    hide FencedLock.Apply, Calm, RemovesForeign;
    if xs == [] {
      assert xs + ys == ys;
    } else {
      assert (xs + ys)[1..] == xs[1..] + ys;
      ChainLockSteps(FencedLock.Apply(l, xs[0]), xs[1..], ys);
    }
  }

  /**
   * Fencing across instances: for every assignment of runs to instances and every interleaving in
   * which no run that holds the lock remembers its token beside a running one of its instance and no expiry falls inside
   * a release, a run — however long it outlives its TTL — never deletes a lock another run holds.
   */
  lemma {:induction false} RunsNeverRemoveForeignLocks(host: Hosts, s: System, actions: seq<Action>)
    returns (steps: seq<FencedLock.Step>)
    requires Inv(host, s) && Orderly(host, s, actions)
    ensures Inv(host, Run(host, s, actions))
    ensures Run(host, s, actions).lock == FencedLock.Exec(s.lock, steps)
    ensures CalmRun(s.lock, steps) && Fenced(s.lock, steps)
    decreases |actions|
  {
    if actions == [] {
      steps := [];
    } else {
      hide Do, Inv, LockStep, FencedLock.Apply, Calm, RemovesForeign;
      var first := LockStep(s, actions[0]);
      ActionRefines(host, s, actions[0]);
      var rest := RunsNeverRemoveForeignLocks(host, Do(host, s, actions[0]), actions[1..]);
      steps := first + rest;
      ChainLockSteps(s.lock, first, rest);
    }
  }

  /** At most one run that has taken the lock and has not given it back has it unexpired. */
  lemma AtMostOneUnexpiredRun(host: Hosts, now: int, actions: seq<Action>, a: nat, b: nat)
    requires Orderly(host, Boot(now), actions)
    requires var s := Run(host, Boot(now), actions);
             && Active(RunOf(s, a)) && a in s.lock.granted && s.lock.now < s.lock.granted[a]
             && Active(RunOf(s, b)) && b in s.lock.granted && s.lock.now < s.lock.granted[b]
    ensures a == b && Holder(Run(host, Boot(now), actions).lock) == Some(a)
  {
    InitInv(now);
    var _ := RunsNeverRemoveForeignLocks(host, Boot(now), actions);
  }

  // ---------- the first hypothesis is exact ----------

  /** Run q, were it to end now, would read back and delete the lock that the running r holds. */
  ghost predicate MixesUp(host: Hosts, s: System, q: nat, r: nat) {
    && q != r && RunOf(s, q).Running? && RunOf(s, r).Running? && Holder(s.lock) == Some(r)
    && RunOf(Do(host, s, Forget(q)), q) == Taken(r)
  }

  /** And it would get away with it: r goes on running without its lock. */
  lemma MixUpDeletes(host: Hosts, s: System, q: nat, r: nat)
    requires MixesUp(host, s, q, r)
    ensures var t := Do(host, Do(host, Do(host, s, Forget(q)), BeginRelease(q)), EndRelease(q));
            RunOf(t, r).Running? && Holder(t.lock).None?
  {
    var s1 := Do(host, Do(host, s, Forget(q)), BeginRelease(q));
    assert s1.lock.pending == s.lock.pending + multiset{r};
  }

  lemma InvNeverMixesUp(host: Hosts, s: System, q: nat, r: nat)
    requires Inv(host, s)
    ensures !MixesUp(host, s, q, r)
  {
  }

  /** Remembering a token leads to a mix-up if and only if its run still holds the lock and another run is running on
      its instance. */
  lemma RememberMixesUpIff(host: Hosts, s: System, r: nat)
    requires Inv(host, s) && RunOf(s, r).Acquired?
    ensures (exists q :: MixesUp(host, Do(host, s, Remember(r)), q, r)) <==>
            Holder(s.lock) == Some(r) && RunningOn(host, s, host(r))
  {
    var t := Do(host, s, Remember(r));
    if Holder(s.lock) == Some(r) && RunningOn(host, s, host(r)) {
      var q :| q in s.runs && s.runs[q].Running? && host(q) == host(r);
      assert MixesUp(host, t, q, r);
    }
    forall q | RunOf(s, q).Running? && host(q) != host(r) ensures !MixesUp(host, t, q, r) {
      assert host(q) in t.current ==> t.current[host(q)] == s.current[host(q)];
    }
  }

  ghost predicate NeverMixesUp(host: Hosts, s: System, actions: seq<Action>)
    decreases |actions|
  {
    && (forall q, r :: !MixesUp(host, s, q, r))
    && (actions != [] ==> NeverMixesUp(host, Do(host, s, actions[0]), actions[1..]))
  }

  predicate FieldAlwaysFree(host: Hosts, s: System, actions: seq<Action>)
    decreases |actions|
  {
    actions == [] || (FieldFree(host, s, actions[0]) && FieldAlwaysFree(host, Do(host, s, actions[0]), actions[1..]))
  }

  predicate NoExpiryInGaps(host: Hosts, s: System, actions: seq<Action>)
    decreases |actions|
  {
    actions == [] || (NoExpiryInGap(s, actions[0]) && NoExpiryInGaps(host, Do(host, s, actions[0]), actions[1..]))
  }

  /**
   * Over every run without an expiry inside a release: no run is ever in a position to delete the lock of another
   * running one if and only if no run that holds the lock remembers its token beside a running one of its own instance.
   */
  lemma {:induction false} NeverMixesUpIff(host: Hosts, s: System, actions: seq<Action>)
    requires Inv(host, s) && NoExpiryInGaps(host, s, actions)
    ensures NeverMixesUp(host, s, actions) <==> FieldAlwaysFree(host, s, actions)
    decreases |actions|
  {
    forall q, r ensures !MixesUp(host, s, q, r) { InvNeverMixesUp(host, s, q, r); }
    if actions != [] {
      var a := actions[0];
      if FieldFree(host, s, a) {
        ActionRefines(host, s, a);
        hide Do, Inv, MixesUp, FieldFree;
        NeverMixesUpIff(host, Do(host, s, a), actions[1..]);
      } else {
        RememberMixesUpIff(host, s, a.run);
        var q :| MixesUp(host, Do(host, s, a), q, a.run);
        assert !NeverMixesUp(host, Do(host, s, a), actions[1..]);
      }
    }
  }

  // ---------- dropping the hypotheses ----------

  lemma {:induction false} RunInTurn(host: Hosts, s: System, xs: seq<Action>, ys: seq<Action>)
    ensures Run(host, s, xs + ys) == Run(host, Run(host, s, xs), ys)
    decreases |xs|
  {
    hide Do;
    if xs == [] {
      assert xs + ys == ys;
    } else {
      assert (xs + ys)[1..] == xs[1..] + ys;
      RunInTurn(host, Do(host, s, xs[0]), xs[1..], ys);
    }
  }

  lemma Run4(host: Hosts, s: System, a: Action, b: Action, c: Action, d: Action)
    ensures Run(host, s, [a, b, c, d]) == Do(host, Do(host, Do(host, Do(host, s, a), b), c), d)
  {
    hide Do;
    assert [a, b, c, d][1..] == [b, c, d] && [b, c, d][1..] == [c, d] && [c, d][1..] == [d] && [d][1..] == [];
    var s1 := Do(host, s, a);
    var s2 := Do(host, s1, b);
    assert Run(host, s2, [c, d]) == Run(host, Do(host, s2, c), [d]) == Do(host, Do(host, s2, c), d);
    assert Run(host, s1, [b, c, d]) == Run(host, s2, [c, d]);
  }

  /** Two runs on one instance: the first outlives its TTL, the second takes the lock and overwrites
      the field, and the first then releases the second's lock while the second still runs. */
  lemma TwoRunsOnOneInstance(now: int)
    ensures var host: Hosts := (r: nat) => 0;
            var s := Run(host, Boot(now), [Start(1), Remember(1), Wait(LOCK_TTL_MS), Start(2)]
                                          + [Remember(2), Forget(1), BeginRelease(1), EndRelease(1)]);
            && RunOf(s, 2).Running?
            && 2 in s.lock.granted && s.lock.now < s.lock.granted[2]
            && Holder(s.lock).None?
  {
    var host: Hosts := (r: nat) => 0;
    SecondTakesTheLock(host, now);
    ReleasedByTheOther(host, now);
    hide Do, SecondAcquired;
    Run4(host, Boot(now), Start(1), Remember(1), Wait(LOCK_TTL_MS), Start(2));
    Run4(host, SecondAcquired(now), Remember(2), Forget(1), BeginRelease(1), EndRelease(1));
    RunInTurn(host, Boot(now), [Start(1), Remember(1), Wait(LOCK_TTL_MS), Start(2)],
              [Remember(2), Forget(1), BeginRelease(1), EndRelease(1)]);
  }

  /** Run 1 is running on instance 0, its lock expired, and run 2 of the instance has taken the lock. */
  function SecondAcquired(now: int): System {
    var later := now + LOCK_TTL_MS;
    System(Lock(Some(Held(2, later + LOCK_TTL_MS)), later, multiset{}, map[1 := later, 2 := later + LOCK_TTL_MS], {}),
           map[0 := 1], map[1 := Running, 2 := Acquired])
  }

  lemma SecondTakesTheLock(host: Hosts, now: int)
    requires host(1) == host(2) == 0
    ensures Do(host, Do(host, Do(host, Do(host, Boot(now), Start(1)), Remember(1)), Wait(LOCK_TTL_MS)), Start(2))
            == SecondAcquired(now)
  {
    var later := now + LOCK_TTL_MS;
    var s1 := System(Lock(Some(Held(1, later)), now, multiset{}, map[1 := later], {}), map[0 := 1], map[1 := Running]);
    assert Do(host, Do(host, Boot(now), Start(1)), Remember(1)) == s1;
    var s2 := s1.(lock := s1.lock.(now := later));
    assert Do(host, s1, Wait(LOCK_TTL_MS)) == s2;
    assert CanAcquire(s2.lock, 2);
  }

  lemma ReleasedByTheOther(host: Hosts, now: int)
    requires host(1) == host(2) == 0
    ensures var s := Do(host, Do(host, Do(host, Do(host, SecondAcquired(now), Remember(2)), Forget(1)), BeginRelease(1)),
                        EndRelease(1));
            && RunOf(s, 2).Running?
            && 2 in s.lock.granted && s.lock.now < s.lock.granted[2]
            && Holder(s.lock).None?
  {
    var s5 := Do(host, SecondAcquired(now), Remember(2));
    assert MixesUp(host, s5, 1, 2);
    MixUpDeletes(host, s5, 1, 2);
  }

  /** Expiry inside a release: instance 0 reads its own token back, the key expires, instance 1 takes
      the lock, and instance 0's del removes it. */
  lemma ExpiryInsideRelease(now: int)
    ensures var host: Hosts := (r: nat) => r;
            var s := Run(host, Boot(now), [Start(1), Remember(1), Forget(1), BeginRelease(1)]
                                          + [Wait(LOCK_TTL_MS), Start(2), Remember(2), EndRelease(1)]);
            && RunOf(s, 2).Running?
            && 2 in s.lock.granted && s.lock.now < s.lock.granted[2]
            && Holder(s.lock).None?
  {
    var host: Hosts := (r: nat) => r;
    ReadsItsToken(host, now);
    DeletedByTheExpired(host, now);
    hide Do, ReleasingOwn;
    Run4(host, Boot(now), Start(1), Remember(1), Forget(1), BeginRelease(1));
    Run4(host, ReleasingOwn(now), Wait(LOCK_TTL_MS), Start(2), Remember(2), EndRelease(1));
    RunInTurn(host, Boot(now), [Start(1), Remember(1), Forget(1), BeginRelease(1)],
              [Wait(LOCK_TTL_MS), Start(2), Remember(2), EndRelease(1)]);
  }

  /** Run 1 has read its token back. */
  function ReleasingOwn(now: int): System {
    System(Lock(Some(Held(1, now + LOCK_TTL_MS)), now, multiset{1}, map[1 := now + LOCK_TTL_MS], {}), map[], map[1 := Releasing(1)])
  }

  lemma ReadsItsToken(host: Hosts, now: int)
    requires host(1) == 1
    ensures Do(host, Do(host, Do(host, Do(host, Boot(now), Start(1)), Remember(1)), Forget(1)), BeginRelease(1))
            == ReleasingOwn(now)
  {
    var l := Lock(Some(Held(1, now + LOCK_TTL_MS)), now, multiset{}, map[1 := now + LOCK_TTL_MS], {});
    assert Do(host, Do(host, Boot(now), Start(1)), Remember(1)) == System(l, map[1 := 1], map[1 := Running]);
    assert map[1 := 1] - {1} == map[];
    assert Do(host, System(l, map[1 := 1], map[1 := Running]), Forget(1)) == System(l, map[], map[1 := Taken(1)]);
  }

  lemma DeletedByTheExpired(host: Hosts, now: int)
    requires host(2) == 2
    ensures var s := Do(host, Do(host, Do(host, Do(host, ReleasingOwn(now), Wait(LOCK_TTL_MS)), Start(2)), Remember(2)),
                        EndRelease(1));
            && RunOf(s, 2).Running?
            && 2 in s.lock.granted && s.lock.now < s.lock.granted[2]
            && Holder(s.lock).None?
  {
    var s5 := Do(host, ReleasingOwn(now), Wait(LOCK_TTL_MS));
    var s6 := Do(host, s5, Start(2));
    assert RunOf(s6, 1) == Releasing(1) && Holder(s6.lock) == Some(2);
  }
}
