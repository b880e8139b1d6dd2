/**
 * Closed connections: 'close' gives the claim back at once, but nothing stops the handler
 * (backend/src/middleware/idempotency.ts:199-205). When exactly a second claimed handler starts beside one that is
 * still at work.
 */
module IdempotencyAborts {
  import opened Common
  import opened FencedLock
  import opened Idempotency

  lemma {:induction false} CalmAt(now: int, actions: seq<Action>, j: nat)
    requires CalmActions(Boot(now), actions) && j <= |actions|
    ensures ClaimsOk(At(now, actions, j))
  {
    hide Idempotency.Do, ClaimsOk, CalmActions, Idempotency.Run;
    assert actions == actions[..j] + actions[j..];
    Idempotency.RunAppend(Boot(now), actions[..j], actions[j..]);
    BootOk(now);
    RunKeepsClaims(Boot(now), actions[..j]);
  }

  // ---------- history ----------

  /** q's connection closed at action i, while its claimed handler was at work. */
  predicate ClosedAt(now: int, actions: seq<Action>, q: nat, i: nat)
    requires i < |actions|
  {
    actions[i] == Abort(q) && Idempotency.PhaseOf(At(now, actions, i), q) == Executing(true)
  }

  /** The release of q's claim went through at action k. */
  predicate ReleasedAt(now: int, actions: seq<Action>, q: nat, k: nat)
    requires k < |actions|
  {
    actions[k] == EndRelease(q) && q in At(now, actions, k).lock.pending
  }

  /** Between i and j the handler of q has not returned. */
  predicate StillAtWork(actions: seq<Action>, q: nat, i: nat, j: nat)
    requires j <= |actions|
  {
    forall m | i < m < j :: actions[m] != HandlerEnds(q)
  }

  lemma PhaseStep(s: System, a: Action, q: nat)
    ensures var before, after := Idempotency.PhaseOf(s, q), Idempotency.PhaseOf(Idempotency.Do(s, a), q);
            && (MayRelease(before) ==> MayRelease(after))
            && (before == Aborted(true) && a != HandlerEnds(q) ==> after == Aborted(true))
            && (after == Aborted(true) ==>
                 (before == Aborted(true) && a != HandlerEnds(q)) || (a == Abort(q) && before == Executing(true)))
            && (a == Abort(q) && before == Executing(true) ==> after == Aborted(true))
  {
  }

  lemma ReturnStep(s: System, a: Action, q: nat)
    ensures q in Idempotency.Do(s, a).lock.returned <==> q in s.lock.returned || (a == EndRelease(q) && q in s.lock.pending)
  {
  }

  lemma {:induction false} PhaseLater(now: int, actions: seq<Action>, q: nat, i: nat, j: nat)
    requires i <= j <= |actions|
    ensures MayRelease(Idempotency.PhaseOf(At(now, actions, i), q)) ==> MayRelease(Idempotency.PhaseOf(At(now, actions, j), q))
    ensures Idempotency.PhaseOf(At(now, actions, i), q) == Aborted(true) && (forall m | i <= m < j :: actions[m] != HandlerEnds(q))
            ==> Idempotency.PhaseOf(At(now, actions, j), q) == Aborted(true)
    ensures q in At(now, actions, i).lock.returned ==> q in At(now, actions, j).lock.returned
    decreases j
  {
    if i < j {
      AtStep(now, actions, j - 1);
      PhaseStep(At(now, actions, j - 1), actions[j - 1], q);
      ReturnStep(At(now, actions, j - 1), actions[j - 1], q);
      hide Idempotency.Do, At;
      PhaseLater(now, actions, q, i, j - 1);
    }
  }

  /** An aborted handler at work has had its connection closed before, and has not returned since. */
  lemma {:induction false} WhenClosed(now: int, actions: seq<Action>, q: nat, j: nat) returns (i: nat)
    requires j <= |actions| && Idempotency.PhaseOf(At(now, actions, j), q) == Aborted(true)
    ensures i < j && ClosedAt(now, actions, q, i) && StillAtWork(actions, q, i, j)
    decreases j
  {
    if j > 0 {
      AtStep(now, actions, j - 1);
      PhaseStep(At(now, actions, j - 1), actions[j - 1], q);
      hide Idempotency.Do, At;
      if Idempotency.PhaseOf(At(now, actions, j - 1), q) == Aborted(true) {
        i := WhenClosed(now, actions, q, j - 1);
      } else {
        i := j - 1;
      }
    }
  }

  lemma {:induction false} WhenReleased(now: int, actions: seq<Action>, q: nat, j: nat) returns (k: nat)
    requires j <= |actions| && q in At(now, actions, j).lock.returned
    ensures k < j && ReleasedAt(now, actions, q, k)
    decreases j
  {
    if j > 0 {
      AtStep(now, actions, j - 1);
      ReturnStep(At(now, actions, j - 1), actions[j - 1], q);
      hide Idempotency.Do, At;
      if q in At(now, actions, j - 1).lock.returned {
        k := WhenReleased(now, actions, q, j - 1);
      } else {
        k := j - 1;
      }
    }
  }

  // ---------- a second handler beside the first ----------

  /** q's connection closed, then its release went through, and its handler has not returned up to action j. */
  ghost predicate ClosedAndReleased(now: int, actions: seq<Action>, q: nat, j: nat)
    requires j <= |actions|
  {
    exists i, k | 0 <= i < k < j :: ClosedAt(now, actions, q, i) && ReleasedAt(now, actions, q, k) && StillAtWork(actions, q, i, j)
  }

  /** Action j starts the handler of r under a claim while that of q is at work under a grant that has not expired. */
  ghost predicate StartsBeside(now: int, actions: seq<Action>, q: nat, r: nat, j: nat)
    requires j < |actions|
  {
    && ClaimedAndRunning(At(now, actions, j), q)
    && Idempotency.PhaseOf(At(now, actions, j), r) != Executing(true)
    && Idempotency.PhaseOf(At(now, actions, j + 1), r) == Executing(true)
  }

  /** r asks for the claim and nobody holds it. */
  predicate AsksWhileFree(s: System, a: Action, r: nat) {
    a == Claim(r, true) && Idempotency.PhaseOf(s, r).Missed? && Holder(s.lock).None?
  }

  predicate GrantRunning(s: System, q: nat) {
    q in s.lock.granted && s.lock.now < s.lock.granted[q]
  }

  lemma StartsIff(s: System, a: Action, r: nat)
    requires ClaimsOk(s)
    ensures Idempotency.PhaseOf(s, r) != Executing(true) && Idempotency.PhaseOf(Idempotency.Do(s, a), r) == Executing(true)
       <==> AsksWhileFree(s, a, r)
  {
  }

  /** With nobody holding the claim, whoever is at work under a grant has given it back, after its connection closed. */
  lemma WithoutHolder(s: System, q: nat)
    requires ClaimsOk(s) && Holder(s.lock).None?
    ensures ClaimedAndRunning(s, q) ==> GaveClaimBack(s, q)
  {
  }

  lemma ReleaseAfterClose(now: int, actions: seq<Action>, q: nat, i: nat, k: nat)
    requires CalmActions(Boot(now), actions) && i < |actions| && k < |actions|
    requires ClosedAt(now, actions, q, i) && ReleasedAt(now, actions, q, k)
    ensures i < k
  {
    CalmAt(now, actions, k);
    if k < i { PhaseLater(now, actions, q, k, i); }
  }

  /**
   * Exactly when: over every calm run, action j starts a second claimed handler beside that of q if and only if r asks
   * for the claim while nobody holds it, q's grant has not run out, and q's connection closed before its handler
   * returned and the release that 'close' began has gone through.
   */
  lemma StartsBesideIff(now: int, actions: seq<Action>, q: nat, r: nat, j: nat)
    requires CalmActions(Boot(now), actions) && j < |actions|
    ensures StartsBeside(now, actions, q, r, j) <==>
            && AsksWhileFree(At(now, actions, j), actions[j], r)
            && GrantRunning(At(now, actions, j), q)
            && ClosedAndReleased(now, actions, q, j)
  {
    var s := At(now, actions, j);
    CalmAt(now, actions, j);
    AtStep(now, actions, j);
    StartsIff(s, actions[j], r);
    if StartsBeside(now, actions, q, r, j) {
      WithoutHolder(s, q);
      var i := WhenClosed(now, actions, q, j);
      var k := WhenReleased(now, actions, q, j);
      ReleaseAfterClose(now, actions, q, i, k);
    } else if AsksWhileFree(s, actions[j], r) && ClosedAndReleased(now, actions, q, j) {
      var i, k :| 0 <= i < k < j && ClosedAt(now, actions, q, i) && ReleasedAt(now, actions, q, k) && StillAtWork(actions, q, i, j);
      AtStep(now, actions, i);
      PhaseStep(At(now, actions, i), actions[i], q);
      PhaseLater(now, actions, q, i + 1, j);
    }
  }

  /** So without closed connections at most one claimed handler is at work. */
  lemma ExclusiveWithoutAborts(now: int, actions: seq<Action>)
    requires CalmActions(Boot(now), actions) && forall a <- actions :: !a.Abort?
    ensures var s := Idempotency.Run(Boot(now), actions);
            forall q, r :: ClaimedAndRunning(s, q) && ClaimedAndRunning(s, r) ==> q == r
  {
    BootOk(now);
    ClaimedExecutionsAreExclusive(Boot(now), actions);
    var s := Idempotency.Run(Boot(now), actions);
    assert actions[..|actions|] == actions;
    hide Idempotency.Do, Idempotency.Run, ClaimsOk, CalmActions;
    forall q ensures !GaveClaimBack(s, q) {
      if Idempotency.PhaseOf(s, q) == Aborted(true) {
        var i := WhenClosed(now, actions, q, |actions|);
        assert actions[i] in actions;
      }
    }
  }

  // ---------- and it happens ----------

  /** A client times out and retries: the retry finds nothing recorded and no claim, and its handler starts while the
      first one's works on, both under grants that have not run out. */
  lemma TimeoutAndRetryOverlap(now: int)
    ensures var actions := [Lookup(1, true), Claim(1, true)] + [Abort(1), BeginRelease(1)]
                           + ([EndRelease(1), Lookup(2, true)] + [Claim(2, true)]);
            var s := Idempotency.Run(Boot(now), actions);
            && CalmActions(Boot(now), actions)
            && ClaimedAndRunning(s, 1) && ClaimedAndRunning(s, 2)
            && {1, 2} <= s.executed && s.cache.None?
  {
    var w, x, y, z := [Lookup(1, true), Claim(1, true)], [Abort(1), BeginRelease(1)], [EndRelease(1), Lookup(2, true)], [Claim(2, true)];
    Works(now);
    Closes(now);
    Returns(now);
    Retries(now);
    hide Idempotency.Do, CalmAction, Working, Closed, GivenBack;
    Idempotency.RunAppend(Boot(now), w, x);
    Idempotency.RunAppend(Closed(now), y, z);
    Idempotency.RunAppend(Boot(now), w + x, y + z);
  }

  lemma Calm2(s: System, a: Action, b: Action)
    requires CalmAction(s, a) && CalmAction(Idempotency.Do(s, a), b)
    ensures CalmActions(s, [a, b])
  {
    hide Idempotency.Do, CalmAction;
    assert [a, b][1..] == [b] && [b][1..] == [];
    assert CalmActions(Idempotency.Do(s, a), [b]);
  }

  /** Request 1 is at work under its claim. */
  function Working(now: int): System {
    var expiry := now + IN_FLIGHT_TTL_MS;
    System(Lock(Some(Held(1, expiry)), now, multiset{}, map[1 := expiry], {}), None, map[1 := Executing(true)], map[], {1}, {})
  }

  /** Its connection has closed, and the release has read the claim back. */
  function Closed(now: int): System {
    var s := Working(now);
    s.(phases := map[1 := Aborted(true)], lock := s.lock.(pending := multiset{1}), releases := map[1 := 1])
  }

  /** The claim is deleted, and request 2 has looked up. */
  function GivenBack(now: int): System {
    var s := Closed(now);
    s.(phases := map[1 := Aborted(true), 2 := Missed], lock := s.lock.(held := None, pending := multiset{}, returned := {1}))
  }

  lemma Works(now: int)
    ensures var w := [Lookup(1, true), Claim(1, true)];
            CalmActions(Boot(now), w) && Idempotency.Run(Boot(now), w) == Working(now)
  {
    Run2(Boot(now), Lookup(1, true), Claim(1, true));
    Calm2(Boot(now), Lookup(1, true), Claim(1, true));
    assert Idempotency.Do(Boot(now), Lookup(1, true)).phases == map[1 := Missed];
  }

  lemma Closes(now: int)
    ensures var x := [Abort(1), BeginRelease(1)];
            CalmActions(Working(now), x) && Idempotency.Run(Working(now), x) == Closed(now)
  {
    Run2(Working(now), Abort(1), BeginRelease(1));
    Calm2(Working(now), Abort(1), BeginRelease(1));
    assert multiset{} + multiset{1} == multiset{1};
    assert Idempotency.Do(Working(now), Abort(1)).phases == map[1 := Aborted(true)];
  }

  lemma Returns(now: int)
    ensures var y := [EndRelease(1), Lookup(2, true)];
            CalmActions(Closed(now), y) && Idempotency.Run(Closed(now), y) == GivenBack(now)
  {
    Run2(Closed(now), EndRelease(1), Lookup(2, true));
    Calm2(Closed(now), EndRelease(1), Lookup(2, true));
    assert multiset{1} - multiset{1} == multiset{};
  }

  lemma Retries(now: int)
    ensures var z := [Claim(2, true)]; var s := Idempotency.Run(GivenBack(now), z);
            && CalmActions(GivenBack(now), z)
            && ClaimedAndRunning(s, 1) && ClaimedAndRunning(s, 2) && {1, 2} <= s.executed && s.cache.None?
  {
    assert [Claim(2, true)][1..] == [];
    var t := Idempotency.Do(GivenBack(now), Claim(2, true));
    assert Idempotency.Run(GivenBack(now), [Claim(2, true)]) == Idempotency.Run(t, []);
  }
}
