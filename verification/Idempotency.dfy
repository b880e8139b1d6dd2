/**
 * The idempotency middleware (backend/src/middleware/idempotency.ts): look up a recorded outcome,
 * claim the key, run the handler, record, release — for any number of requests carrying one key,
 * with every store command a separate step.
 *
 * A request is named by its claim token.  `works = false` is a store command that failed, which the
 * cache facade turns into a miss, a refused write or a no-op.
 */
module Idempotency {
  import opened Common
  import opened FencedLock
  import opened KvStore

  const IDEMPOTENCY_TTL_MS: nat := 24 * 60 * 60 * 1000
  const IN_FLIGHT_TTL_MS: nat := 30 * 1000

  /** What the handler answered; a falsy body is None. */
  datatype Outcome = Outcome(status: int, body: Option<string>)

  /** 2xx, 3xx and 4xx with a body are recorded. */
  predicate Recordable(o: Outcome) {
    200 <= o.status < 500 && o.body.Some?
  }

  datatype Phase =
    | Idle
    | Missed                     // the lookup found nothing
    | NotClaimed                 // setNX answered false; the key is about to be read back
    | Refused                    // 409
    | Replayed(outcome: Outcome) // answered from the cache
    | Executing(claimed: bool)   // next() was called
    | Answered(outcome: Outcome) // 'finish' emitted
    | Settled                    // the outcome is recorded, or will not be
    | Aborted(claimed: bool)     // 'close' without 'finish'; the handler goes on running
    | Ended                      // the handler of a closed connection has returned; nothing is recorded

  datatype Stored = Stored(outcome: Outcome, expiresAt: int)

  /** `releases` counts the releaseClaim calls a request has begun; `executed` and `produced` record
      which requests ran the handler and what the handlers answered. */
  datatype System = System(
    lock: Lock, cache: Option<Stored>, phases: map<nat, Phase>, releases: map<nat, nat>,
    executed: set<nat>, produced: set<Outcome>)

  datatype Action =
    | Lookup(r: nat, works: bool)
    | Claim(r: nat, works: bool)
    | ReadBack(r: nat, works: bool)
    | Respond(r: nat, outcome: Outcome)
    | Record(r: nat, works: bool)
    | Abort(r: nat)
    | HandlerEnds(r: nat)
    | BeginRelease(r: nat)
    | EndRelease(r: nat)
    | Wait(ms: nat)

  function Boot(now: int): System {
    System(FencedLock.Init(now), None, map[], map[], {}, {})
  }

  function PhaseOf(s: System, r: nat): Phase {
    if r in s.phases then s.phases[r] else Idle
  }

  function Begun(s: System, r: nat): nat {
    if r in s.releases then s.releases[r] else 0
  }

  /** The recorded outcome a lookup would find now. */
  function Cached(s: System): Option<Outcome> {
    if s.cache.Some? && s.lock.now < s.cache.value.expiresAt then Some(s.cache.value.outcome) else None
  }

  function Go(s: System, r: nat, ph: Phase): System {
    s.(phases := s.phases[r := ph], executed := if ph.Executing? then s.executed + {r} else s.executed)
  }

  /** releaseClaim runs from 'finish' and again from 'close' after an answer, once after an abort. */
  predicate MayBeginRelease(s: System, r: nat) {
    (PhaseOf(s, r).Settled? && Begun(s, r) < 2) || ((PhaseOf(s, r).Aborted? || PhaseOf(s, r).Ended?) && Begun(s, r) < 1)
  }

  function Do(s: System, a: Action): System {
    match a
    case Lookup(r, works) =>
      if !PhaseOf(s, r).Idle? then s
      else if works && Cached(s).Some? then Go(s, r, Replayed(Cached(s).value))
      else Go(s, r, Missed)
    case Claim(r, works) =>
      if !PhaseOf(s, r).Missed? then s
      else if works && CanAcquire(s.lock, r) then
        Go(s, r, Executing(true)).(lock := FencedLock.Apply(s.lock, Acquire(r, IN_FLIGHT_TTL_MS)))
      else Go(s, r, NotClaimed)
    case ReadBack(r, works) =>
      if !PhaseOf(s, r).NotClaimed? then s
      else if works && Holder(s.lock).Some? then Go(s, r, Refused)
      else Go(s, r, Executing(false))
    case Respond(r, o) =>
      if !PhaseOf(s, r).Executing? then s else Go(s, r, Answered(o)).(produced := s.produced + {o})
    case Record(r, works) =>
      var ph := PhaseOf(s, r);
      if !ph.Answered? then s
      else if works && Recordable(ph.outcome) then
        Go(s, r, Settled).(cache := Some(Stored(ph.outcome, s.lock.now + IDEMPOTENCY_TTL_MS)))
      else Go(s, r, Settled)
    case Abort(r) =>
      if PhaseOf(s, r).Executing? then Go(s, r, Aborted(PhaseOf(s, r).claimed)) else s
    case HandlerEnds(r) =>
      if PhaseOf(s, r).Aborted? then Go(s, r, Ended) else s
    case BeginRelease(r) =>
      if MayBeginRelease(s, r) then
        s.(lock := FencedLock.Apply(s.lock, ReleaseGet(r)), releases := s.releases[r := Begun(s, r) + 1])
      else s
    case EndRelease(r) => s.(lock := FencedLock.Apply(s.lock, ReleaseDel(r)))
    case Wait(ms) => s.(lock := FencedLock.Apply(s.lock, Tick(ms)))
  }

  function Run(s: System, actions: seq<Action>): System
    decreases |actions|
  {
    if actions == [] then s else Run(Do(s, actions[0]), actions[1..])
  }

  // ---------- every response that is replayed was produced ----------

  predicate OutcomesOk(s: System) {
    && (s.cache.Some? ==> s.cache.value.outcome in s.produced && Recordable(s.cache.value.outcome)
                          && s.cache.value.expiresAt <= s.lock.now + IDEMPOTENCY_TTL_MS)
    && (forall r <- s.phases :: s.phases[r].Replayed? ==>
          s.phases[r].outcome in s.produced && Recordable(s.phases[r].outcome) && r !in s.executed)
    && (forall r <- s.phases :: s.phases[r].Answered? ==> s.phases[r].outcome in s.produced)
    && (forall r <- s.executed :: r in s.phases && (s.phases[r].Executing? || s.phases[r].Answered?
          || s.phases[r].Settled? || s.phases[r].Aborted? || s.phases[r].Ended?))
  }

  lemma QuietActionKeepsOutcomes(s: System, a: Action)
    requires OutcomesOk(s) && !a.Respond? && !a.Record? && !a.Lookup?
    ensures OutcomesOk(Do(s, a))
  {
  }

  lemma AnswerKeepsOutcomes(s: System, a: Action)
    requires OutcomesOk(s) && (a.Respond? || a.Record? || a.Lookup?)
    ensures OutcomesOk(Do(s, a))
  {
  }

  lemma ActionKeepsOutcomes(s: System, a: Action)
    requires OutcomesOk(s)
    ensures OutcomesOk(Do(s, a))
  {
    if a.Respond? || a.Record? || a.Lookup? {
      AnswerKeepsOutcomes(s, a);
    } else {
      QuietActionKeepsOutcomes(s, a);
    }
  }

  /** In every run, with any failures, expiries and interleavings. */
  lemma {:induction false} ReplaysOnlyWhatWasProduced(s: System, actions: seq<Action>)
    requires OutcomesOk(s)
    ensures OutcomesOk(Run(s, actions))
    decreases |actions|
  {
    if actions != [] {
      hide OutcomesOk, Do;
      ActionKeepsOutcomes(s, actions[0]);
      ReplaysOnlyWhatWasProduced(Do(s, actions[0]), actions[1..]);
    }
  }

  // ---------- an early enough lookup means no duplicate work ----------

  function Elapsed(actions: seq<Action>): nat {
    if actions == [] then 0 else (if actions[0].Wait? then actions[0].ms else 0) + Elapsed(actions[1..])
  }

  /** r has not looked up yet, or was answered from the cache. */
  predicate Untouched(s: System, r: nat) {
    PhaseOf(s, r).Idle? || PhaseOf(s, r).Replayed?
  }

  /**
   * Once an outcome is recorded and as long as it has not expired, a request that looks up from then
   * on (with a lookup that works) never runs the handler: it is answered with a recorded outcome,
   * and with this very one if no other request records in between.
   */
  lemma {:induction false} LookupAfterRecordReplays(s: System, actions: seq<Action>, r: nat)
    requires OutcomesOk(s)
    requires s.cache.Some? && s.lock.now + Elapsed(actions) < s.cache.value.expiresAt
    requires Untouched(s, r) && r !in s.executed
    requires Lookup(r, false) !in actions
    ensures var s' := Run(s, actions);
            && Untouched(s', r) && r !in s'.executed
            && (PhaseOf(s, r).Idle? && PhaseOf(s', r).Replayed? && (forall a <- actions :: !a.Record?) ==>
                 PhaseOf(s', r).outcome == s.cache.value.outcome)
            && (PhaseOf(s, r).Idle? && Lookup(r, true) in actions ==> PhaseOf(s', r).Replayed?)
            && (PhaseOf(s, r).Replayed? ==> PhaseOf(s', r) == PhaseOf(s, r))
    decreases |actions|
  {
    if actions != [] {
      var a := actions[0];
      var next := Do(s, a);
      OneActionKeepsCache(s, a, r, Elapsed(actions[1..]));
      assert forall x <- actions[1..] :: x in actions;
      LookupAfterRecordReplays(next, actions[1..], r);
    }
  }

  lemma OneActionKeepsCache(s: System, a: Action, r: nat, left: nat)
    requires OutcomesOk(s)
    requires s.cache.Some? && s.lock.now + (if a.Wait? then a.ms else 0) + left < s.cache.value.expiresAt
    requires Untouched(s, r) && r !in s.executed && a != Lookup(r, false)
    ensures var s' := Do(s, a);
            && OutcomesOk(s') && s'.cache.Some? && s'.lock.now + left < s'.cache.value.expiresAt
            && (!a.Record? ==> s'.cache == s.cache)
            && Untouched(s', r) && r !in s'.executed
            && (PhaseOf(s, r).Idle? && a == Lookup(r, true) ==> PhaseOf(s', r) == Replayed(s.cache.value.outcome))
            && (PhaseOf(s, r).Idle? && a != Lookup(r, true) ==> PhaseOf(s', r).Idle?)
            && (PhaseOf(s, r).Replayed? ==> PhaseOf(s', r) == PhaseOf(s, r))
  {
    ActionKeepsOutcomes(s, a);
    assert s.cache.value.expiresAt <= s.lock.now + IDEMPOTENCY_TTL_MS;
    hide OutcomesOk;
  }

  // ---------- the claim ----------

  function LockStep(s: System, a: Action): seq<FencedLock.Step> {
    match a
    case Claim(r, works) => if PhaseOf(s, r).Missed? && works then [Acquire(r, IN_FLIGHT_TTL_MS)] else []
    case BeginRelease(r) => if MayBeginRelease(s, r) then [ReleaseGet(r)] else []
    case EndRelease(r) => [ReleaseDel(r)]
    case Wait(ms) => [Tick(ms)]
    case _ => []
  }

  /** The hypotheses of FencedLock, read off the protocol. */
  predicate CalmAction(s: System, a: Action) {
    forall i | 0 <= i < |LockStep(s, a)| :: Calm(s.lock, LockStep(s, a)[i])
  }

  predicate CalmActions(s: System, actions: seq<Action>)
    decreases |actions|
  {
    actions == [] || (CalmAction(s, actions[0]) && CalmActions(Do(s, actions[0]), actions[1..]))
  }

  /** The handler of r is at work under a claim r was granted, whether or not its connection is still there. */
  predicate ClaimedAtWork(ph: Phase) {
    ph == Executing(true) || ph == Aborted(true)
  }

  /** r has left the part of its course in which it may not release. */
  predicate MayRelease(ph: Phase) {
    ph.Settled? || ph.Aborted? || ph.Ended?
  }

  /** A request at work under a claim has been granted the lock, and has not given it back unless its connection closed. */
  ghost predicate ClaimsOk(s: System) {
    && FencedLock.Inv(s.lock)
    && (forall r <- s.phases :: ClaimedAtWork(s.phases[r]) ==> r in s.lock.granted)
    && (forall r <- s.lock.granted :: r in s.phases && !s.phases[r].Missed? && !s.phases[r].Idle?)
    && (forall r :: r in s.lock.pending || r in s.lock.returned ==> r in s.phases && MayRelease(s.phases[r]))
  }

  /** r's handler is at work under a grant that has not expired. */
  predicate ClaimedAndRunning(s: System, r: nat) {
    ClaimedAtWork(PhaseOf(s, r)) && r in s.lock.granted && s.lock.now < s.lock.granted[r]
  }

  /** ... and although it is at work its connection has closed and its claim is given back. */
  predicate GaveClaimBack(s: System, r: nat) {
    PhaseOf(s, r) == Aborted(true) && r in s.lock.returned
  }

  lemma LockStepKeepsInv(s: System, a: Action)
    requires FencedLock.Inv(s.lock) && CalmAction(s, a)
    ensures FencedLock.Inv(Do(s, a).lock)
  {
    var steps := LockStep(s, a);
    if steps != [] {
      assert Calm(s.lock, steps[0]);
      StepInv(s.lock, steps[0]);
    }
    hide FencedLock.Inv;
  }

  lemma ReleasesKeepClaims(s: System, a: Action)
    requires ClaimsOk(s) && FencedLock.Inv(Do(s, a).lock) && (a.BeginRelease? || a.EndRelease? || a.Wait?)
    ensures ClaimsOk(Do(s, a))
  {
    hide FencedLock.Inv;
  }

  lemma ClaimKeepsClaims(s: System, r: nat, works: bool)
    requires ClaimsOk(s) && FencedLock.Inv(Do(s, Claim(r, works)).lock)
    ensures ClaimsOk(Do(s, Claim(r, works)))
  {
    hide FencedLock.Inv;
  }

  /** A request that moved on without touching the lock. */
  lemma MovedKeepsClaims(s: System, s': System, r: nat, ph: Phase)
    requires ClaimsOk(s) && s'.lock == s.lock && s'.phases == s.phases[r := ph]
    requires !ph.Idle? && (ph.Missed? ==> PhaseOf(s, r).Idle?)
    requires ClaimedAtWork(ph) ==> ClaimedAtWork(PhaseOf(s, r))
    requires MayRelease(PhaseOf(s, r)) ==> MayRelease(ph)
    ensures ClaimsOk(s')
  {
    hide FencedLock.Inv;
  }

  lemma RequestsKeepClaims(s: System, a: Action)
    requires ClaimsOk(s)
    requires !(a.BeginRelease? || a.EndRelease? || a.Wait? || a.Claim?)
    ensures ClaimsOk(Do(s, a))
  {
    hide ClaimsOk;
    var s' := Do(s, a);
    if s' != s {
      assert s'.phases == s.phases[a.r := PhaseOf(s', a.r)];
      MovedKeepsClaims(s, s', a.r, PhaseOf(s', a.r));
    }
  }

  lemma ActionKeepsClaims(s: System, a: Action)
    requires ClaimsOk(s) && CalmAction(s, a)
    ensures ClaimsOk(Do(s, a))
  {
    LockStepKeepsInv(s, a);
    hide Do, FencedLock.Inv;
    if a.BeginRelease? || a.EndRelease? || a.Wait? {
      ReleasesKeepClaims(s, a);
    } else if a.Claim? {
      ClaimKeepsClaims(s, a.r, a.works);
    } else {
      RequestsKeepClaims(s, a);
    }
  }

  lemma {:induction false} RunKeepsClaims(s: System, actions: seq<Action>)
    requires ClaimsOk(s) && CalmActions(s, actions)
    ensures ClaimsOk(Run(s, actions))
    decreases |actions|
  {
    if actions != [] {
      ActionKeepsClaims(s, actions[0]);
      hide ClaimsOk, Do;
      RunKeepsClaims(Do(s, actions[0]), actions[1..]);
    }
  }

  /**
   * At most one claimed handler at work that has not given its claim back: over every interleaving in which no claim
   * expires inside a release and the two releases of a request do not overlap, two handlers at work under unexpired
   * grants are one and the same, unless the connection of one of them has closed and its claim is already released.
   */
  lemma ClaimedExecutionsAreExclusive(s: System, actions: seq<Action>)
    requires ClaimsOk(s) && CalmActions(s, actions)
    ensures ClaimsOk(Run(s, actions))
    ensures var s' := Run(s, actions);
            forall a, b :: ClaimedAndRunning(s', a) && ClaimedAndRunning(s', b) ==>
              a == b || GaveClaimBack(s', a) || GaveClaimBack(s', b)
  {
    RunKeepsClaims(s, actions);
  }

  lemma BootOk(now: int)
    ensures OutcomesOk(Boot(now)) && ClaimsOk(Boot(now))
  {
  }

  // ---------- the states of a run ----------

  /** The state before action number j. */
  function At(now: int, actions: seq<Action>, j: nat): System
    requires j <= |actions|
  {
    Run(Boot(now), actions[..j])
  }

  lemma {:induction false} RunAppend(s: System, xs: seq<Action>, ys: seq<Action>)
    ensures Run(s, xs + ys) == Run(Run(s, xs), ys)
    ensures CalmActions(s, xs + ys) <==> CalmActions(s, xs) && CalmActions(Run(s, xs), ys)
    decreases |xs|
  {
    hide Do, CalmAction;
    if xs == [] {
      assert xs + ys == ys;
    } else {
      assert (xs + ys)[1..] == xs[1..] + ys;
      RunAppend(Do(s, xs[0]), xs[1..], ys);
    }
  }

  lemma AtStep(now: int, actions: seq<Action>, j: nat)
    requires j < |actions|
    ensures At(now, actions, j + 1) == Do(At(now, actions, j), actions[j])
  {
    hide Do;
    assert actions[..j + 1] == actions[..j] + [actions[j]];
    RunAppend(Boot(now), actions[..j], [actions[j]]);
    assert [actions[j]][1..] == [];
    assert Run(At(now, actions, j), [actions[j]]) == Run(Do(At(now, actions, j), actions[j]), []);
  }

  // ---------- what the protocol does not promise ----------

  lemma Run2(s: System, a: Action, b: Action)
    ensures Run(s, [a, b]) == Do(Do(s, a), b)
  {
    assert [a, b][1..] == [b] && [b][1..] == [];
    assert Run(Do(s, a), [b]) == Run(Do(Do(s, a), b), []);
  }

  const OK_200: Outcome := Outcome(200, Some("done"))
  const ERR_500: Outcome := Outcome(500, Some("oops"))

  /** Request 1 has claimed; request 2 has looked up and found nothing. */
  function Overlapping(now: int): System {
    System(Lock(Some(Held(1, now + IN_FLIGHT_TTL_MS)), now, multiset{}, map[1 := now + IN_FLIGHT_TTL_MS], {}),
           None, map[1 := Executing(true), 2 := Missed], map[], {1}, {})
  }

  lemma ReachOverlapping(now: int)
    ensures Run(Boot(now), [Lookup(1, true), Lookup(2, true)] + [Claim(1, true)]) == Overlapping(now)
  {
    var looked := [Lookup(1, true), Lookup(2, true)];
    RunAppend(Boot(now), looked, [Claim(1, true)]);
    Run2(Boot(now), looked[0], looked[1]);
    var s := System(FencedLock.Init(now), None, map[1 := Missed, 2 := Missed], map[], {}, {});
    assert Run(Boot(now), looked) == s;
    assert [Claim(1, true)][1..] == [];
    assert Run(s, [Claim(1, true)]) == Run(Do(s, Claim(1, true)), []);
  }

  /** Request 1 has answered `o` and given its claim back. */
  function Released(now: int, o: Outcome): System {
    var s := Overlapping(now);
    System(Lock(None, now, multiset{}, s.lock.granted, {1}),
           if Recordable(o) then Some(Stored(o, now + IDEMPOTENCY_TTL_MS)) else None,
           map[1 := Settled, 2 := Missed], map[1 := 1], {1}, {o})
  }

  lemma ReachReleased(now: int, o: Outcome)
    ensures Run(Overlapping(now), [Respond(1, o), Record(1, true)] + [BeginRelease(1), EndRelease(1)]) == Released(now, o)
  {
    var s := Overlapping(now);
    RunAppend(s, [Respond(1, o), Record(1, true)], [BeginRelease(1), EndRelease(1)]);
    Run2(s, Respond(1, o), Record(1, true));
    var t := Run(s, [Respond(1, o), Record(1, true)]);
    assert t == System(s.lock, Released(now, o).cache, map[1 := Settled, 2 := Missed], map[], {1}, {o});
    Run2(t, BeginRelease(1), EndRelease(1));
    var u := Do(t, BeginRelease(1));
    assert u.lock.pending == multiset{1} && u.releases == map[1 := 1];
    assert multiset{1} - multiset{1} == multiset{};
  }

  /**
   * Looking up and claiming are two commands: a request whose lookup missed can claim after another
   * one has recorded and released, and then does the work a second time — with a working store, no
   * expiry and no abort.
   */
  lemma LateClaimDuplicatesWork(now: int) returns (actions: seq<Action>)
    ensures (forall a <- actions :: !a.Wait? && !a.Abort? && !(a.Lookup? && !a.works)
                                    && !(a.Claim? && !a.works) && !(a.Record? && !a.works))
    ensures var s := Run(Boot(now), actions);
            1 in s.executed && 2 in s.executed && Cached(s) == Some(OK_200)
  {
    var a := [Lookup(1, true), Lookup(2, true)] + [Claim(1, true)];
    var b := [Respond(1, OK_200), Record(1, true)] + [BeginRelease(1), EndRelease(1)];
    ReachOverlapping(now);
    ReachReleased(now, OK_200);
    RunAppend(Boot(now), a, b);
    RunAppend(Boot(now), a + b, [Claim(2, true)]);
    actions := a + b + [Claim(2, true)];
    LateClaimExecutes(now);
    hide Do, Released, Overlapping;
    var s := Released(now, OK_200);
    assert [Claim(2, true)][1..] == [];
    assert Run(s, [Claim(2, true)]) == Run(Do(s, Claim(2, true)), []);
  }

  lemma LateClaimExecutes(now: int)
    ensures var s := Do(Released(now, OK_200), Claim(2, true));
            1 in s.executed && 2 in s.executed && Cached(s) == Some(OK_200)
  {
  }

  /**
   * Reading the key back is a third command: a request refused the claim, whose holder releases before
   * the read-back, takes the empty key for an unavailable store and runs the handler without any claim.
   */
  lemma ReadBackRaceExecutesUnclaimed(now: int) returns (actions: seq<Action>)
    ensures (forall a <- actions :: !a.Wait? && !a.Abort? && !(a.ReadBack? && !a.works)
                                    && !(a.Claim? && !a.works) && !(a.Record? && !a.works))
    ensures var s := Run(Boot(now), actions);
            1 in s.executed && PhaseOf(s, 2) == Executing(false) && Holder(s.lock).None?
  {
    var a := [Lookup(1, true), Lookup(2, true)] + [Claim(1, true)];
    var b := [Claim(2, true), Respond(1, OK_200)] + [Record(1, true), BeginRelease(1)] + [EndRelease(1), ReadBack(2, true)];
    ReachOverlapping(now);
    RefusedThenReleased(now);
    hide Do, Overlapping;
    RunAppend(Boot(now), a, b);
    actions := a + b;
  }

  lemma RefusedThenReleased(now: int)
    ensures var s := Run(Overlapping(now), [Claim(2, true), Respond(1, OK_200)] + [Record(1, true), BeginRelease(1)]
                                           + [EndRelease(1), ReadBack(2, true)]);
            1 in s.executed && PhaseOf(s, 2) == Executing(false) && Holder(s.lock).None?
  {
    var s := Overlapping(now);
    var x, y, z := [Claim(2, true), Respond(1, OK_200)], [Record(1, true), BeginRelease(1)], [EndRelease(1), ReadBack(2, true)];
    Run2(s, x[0], x[1]);
    RunAppend(s, x, y);
    RunAppend(s, x + y, z);
    assert Run(s, x) == RefusedOnce(now);
    ReleasedBeforeReadBack(now);
    hide Do, Overlapping, RefusedOnce;
    assert Run(s, x + y + z) == Run(Run(RefusedOnce(now), y), z);
  }

  /** Request 2 was refused the claim; request 1 has just answered. */
  function RefusedOnce(now: int): System {
    Overlapping(now).(phases := map[1 := Answered(OK_200), 2 := NotClaimed], produced := {OK_200})
  }

  lemma ReleasedBeforeReadBack(now: int)
    ensures var t := Run(Run(RefusedOnce(now), [Record(1, true), BeginRelease(1)]), [EndRelease(1), ReadBack(2, true)]);
            1 in t.executed && PhaseOf(t, 2) == Executing(false) && Holder(t.lock).None?
  {
    var s := RefusedOnce(now);
    Run2(s, Record(1, true), BeginRelease(1));
    var t := Do(Do(s, Record(1, true)), BeginRelease(1));
    assert t.lock.pending == multiset{1} && PhaseOf(t, 2) == NotClaimed && 1 in t.executed;
    Run2(t, EndRelease(1), ReadBack(2, true));
  }

  /**
   * 'finish' and 'close' both release.  If both read the claim back before either deletes it, the
   * second delete removes the claim of a later request: two claimed executions overlap, each well
   * within its 30 seconds, although nothing expired.
   */
  lemma DoubleReleaseBreaksTheClaim(now: int) returns (actions: seq<Action>)
    ensures forall a <- actions :: !a.Wait? && !a.Abort?
    ensures var s := Run(Boot(now), actions);
            ClaimedAndRunning(s, 2) && ClaimedAndRunning(s, 3)
  {
    var a := [Lookup(1, true), Lookup(2, true)] + [Claim(1, true)];
    var b := [Respond(1, ERR_500), Record(1, true)] + [BeginRelease(1), BeginRelease(1)];
    var c := [EndRelease(1), Claim(2, true)] + [EndRelease(1), Lookup(3, true)] + [Claim(3, true)];
    ReachOverlapping(now);
    BothReleasesMatch(now);
    SecondDelRemovesNewcomer(now);
    hide Do, Overlapping, BothMatched;
    RunAppend(Boot(now), a, b);
    RunAppend(Boot(now), a + b, c);
    actions := a + b + c;
  }

  /** Request 1 answered an error; both of its releases have read the claim back. */
  function BothMatched(now: int): System {
    var s := Overlapping(now);
    s.(phases := map[1 := Settled, 2 := Missed], produced := {ERR_500},
       lock := s.lock.(pending := multiset{1, 1}), releases := map[1 := 2])
  }

  lemma BothReleasesMatch(now: int)
    ensures Run(Overlapping(now), [Respond(1, ERR_500), Record(1, true)] + [BeginRelease(1), BeginRelease(1)]) == BothMatched(now)
  {
    var s := Overlapping(now);
    var x, y := [Respond(1, ERR_500), Record(1, true)], [BeginRelease(1), BeginRelease(1)];
    RunAppend(s, x, y);
    Run2(s, x[0], x[1]);
    var s1 := s.(phases := map[1 := Settled, 2 := Missed], produced := {ERR_500});
    assert Run(s, x) == s1;
    Run2(s1, y[0], y[1]);
    assert multiset{} + multiset{1} + multiset{1} == multiset{1, 1};
  }

  lemma SecondDelRemovesNewcomer(now: int)
    ensures var t := Run(BothMatched(now), [EndRelease(1), Claim(2, true)] + [EndRelease(1), Lookup(3, true)] + [Claim(3, true)]);
            ClaimedAndRunning(t, 2) && ClaimedAndRunning(t, 3)
  {
    var s := BothMatched(now);
    var x, y, z := [EndRelease(1), Claim(2, true)], [EndRelease(1), Lookup(3, true)], [Claim(3, true)];
    RunAppend(s, x, y);
    RunAppend(s, x + y, z);
    NewcomerClaims(now);
    NewcomerLosesTheKey(NewcomerIn(now));
    hide Do, BothMatched, NewcomerIn, ClaimedAndRunning;
    assert z[1..] == [];
    var u := Run(Run(s, x), y);
    assert Run(u, z) == Run(Do(u, z[0]), []);
  }

  /** The first delete has gone through and request 2 has claimed; the second delete is still to come. */
  function NewcomerIn(now: int): System {
    var s := BothMatched(now);
    var expiry := now + IN_FLIGHT_TTL_MS;
    s.(lock := Lock(Some(Held(2, expiry)), now, multiset{1}, s.lock.granted[2 := expiry], {1}),
       phases := map[1 := Settled, 2 := Executing(true)], executed := {1, 2})
  }

  lemma NewcomerClaims(now: int)
    ensures Run(BothMatched(now), [EndRelease(1), Claim(2, true)]) == NewcomerIn(now)
  {
    var s := BothMatched(now);
    Run2(s, EndRelease(1), Claim(2, true));
    assert multiset{1, 1} - multiset{1} == multiset{1};
  }

  lemma NewcomerLosesTheKey(s: System)
    requires s.lock.held.Some? && 1 in s.lock.pending && PhaseOf(s, 3).Idle? && s.cache.None?
    requires ClaimedAndRunning(s, 2)
    ensures var t := Do(Run(s, [EndRelease(1), Lookup(3, true)]), Claim(3, true));
            3 !in s.lock.granted && 3 !in s.lock.returned ==> ClaimedAndRunning(t, 2) && ClaimedAndRunning(t, 3)
  {
    Run2(s, EndRelease(1), Lookup(3, true));
  }
}
