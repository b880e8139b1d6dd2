/**
 * When the idempotency middleware does a request's work once: the claim is held from before the work until after the
 * outcome is recorded (backend/src/middleware/idempotency.ts:86-206).
 *
 * The runs considered start with an empty store and meet no failure: every store command works, every answer is one
 * that is recorded, no connection is aborted, and neither the held claim nor the recorded outcome expires.
 */
module IdempotencyOnce {
  import opened Common
  import opened FencedLock
  import opened Idempotency

  /** An action that meets none of the failures. */
  predicate Smooth(s: System, a: Action) {
    match a
    case Lookup(_, works) => works
    case Claim(_, works) => works
    case ReadBack(_, works) => works
    case Record(_, works) => works
    case Respond(_, o) => Recordable(o)
    case Abort(_) => false
    case Wait(ms) =>
      && (Holder(s.lock).Some? ==> s.lock.now + ms < s.lock.held.value.expiresAt)
      && (s.cache.Some? ==> s.lock.now + ms < s.cache.value.expiresAt)
    case _ => true
  }

  predicate SmoothRun(s: System, actions: seq<Action>)
    decreases |actions|
  {
    actions == [] || (Smooth(s, actions[0]) && SmoothRun(Idempotency.Do(s, actions[0]), actions[1..]))
  }

  predicate Worked(ph: Idempotency.Phase) {
    ph.Executing? || ph.Answered? || ph.Settled?
  }

  /** What every smooth run keeps. */
  ghost predicate Once(s: System) {
    && s.lock.held.Some? == Holder(s.lock).Some?
    && (s.cache.Some? ==> s.lock.now < s.cache.value.expiresAt && s.executed != {})
    // executed are those that got as far as the handler
    && (forall r :: r in s.executed <==> Worked(Idempotency.PhaseOf(s, r)))
    && (forall r :: !Idempotency.PhaseOf(s, r).Aborted? && !Idempotency.PhaseOf(s, r).Ended?)
    && (forall r :: Idempotency.PhaseOf(s, r).Answered? ==> Recordable(Idempotency.PhaseOf(s, r).outcome))
    // tokens in the lock are those of requests that worked; one that gave its claim back has recorded
    && (forall r <- s.lock.granted :: r in s.executed)
    && (forall r :: r in s.lock.pending || r in s.lock.returned ==> r in s.executed)
    && (s.executed != {} ==> Holder(s.lock).Some? || s.lock.returned != {})
    // until something is recorded, one request at most has worked, and it still holds its claim
    && (s.cache.None? ==> NothingRecorded(s))
  }

  ghost predicate NothingRecorded(s: System) {
    && s.lock.pending == multiset{} && s.lock.returned == {}
    && (forall r :: !Idempotency.PhaseOf(s, r).Settled?)
    && if Holder(s.lock).None? then
         s.executed == {} && forall r :: !Idempotency.PhaseOf(s, r).NotClaimed?
       else
         s.executed == {Holder(s.lock).value}
  }

  lemma BootOnce(now: int)
    ensures Once(Boot(now))
  {
  }

  lemma LookupKeepsOnce(s: System, r: nat)
    requires Once(s)
    ensures Once(Idempotency.Do(s, Lookup(r, true)))
  {
  }

  lemma ClaimKeepsOnce(s: System, r: nat)
    requires Once(s)
    ensures Once(Idempotency.Do(s, Claim(r, true)))
  {
  }

  lemma ReadBackKeepsOnce(s: System, r: nat)
    requires Once(s)
    ensures Once(Idempotency.Do(s, ReadBack(r, true)))
  {
  }

  lemma AnswerKeepsOnce(s: System, a: Action)
    requires Once(s) && Smooth(s, a) && (a.Respond? || a.Record?)
    ensures Once(Idempotency.Do(s, a))
  {
  }

  lemma BeginReleaseKeepsOnce(s: System, r: nat)
    requires Once(s)
    ensures Once(Idempotency.Do(s, BeginRelease(r)))
  {
    var t := Idempotency.Do(s, BeginRelease(r));
    assert t.phases == s.phases && t.executed == s.executed && t.cache == s.cache;
    assert forall q :: q in t.lock.pending ==> q in s.lock.pending || q == r;
  }

  lemma EndReleaseKeepsOnce(s: System, r: nat)
    requires Once(s)
    ensures Once(Idempotency.Do(s, EndRelease(r)))
  {
    var t := Idempotency.Do(s, EndRelease(r));
    assert t.phases == s.phases && t.executed == s.executed && t.cache == s.cache;
    assert forall q :: q in t.lock.pending ==> q in s.lock.pending;
    if r in s.lock.pending { assert r in t.lock.returned; }
  }

  lemma WaitKeepsOnce(s: System, ms: nat)
    requires Once(s) && Smooth(s, Wait(ms))
    ensures Once(Idempotency.Do(s, Wait(ms)))
  {
  }

  lemma NobodyAborted(s: System, r: nat)
    requires Once(s)
    ensures Idempotency.Do(s, HandlerEnds(r)) == s
  {
  }

  lemma ActionKeepsOnce(s: System, a: Action)
    requires Once(s) && Smooth(s, a)
    ensures Once(Idempotency.Do(s, a))
  {
    hide Once, Idempotency.Do;
    match a
    case Lookup(r, _) => LookupKeepsOnce(s, r);
    case Claim(r, _) => ClaimKeepsOnce(s, r);
    case ReadBack(r, _) => ReadBackKeepsOnce(s, r);
    case Respond(_, _) => AnswerKeepsOnce(s, a);
    case Record(_, _) => AnswerKeepsOnce(s, a);
    case BeginRelease(r) => BeginReleaseKeepsOnce(s, r);
    case EndRelease(r) => EndReleaseKeepsOnce(s, r);
    case Wait(ms) => WaitKeepsOnce(s, ms);
    case HandlerEnds(r) => NobodyAborted(s, r);
  }

  // ---------- over runs ----------

  lemma {:induction false} RunPushBack(s: System, actions: seq<Action>, a: Action)
    ensures Idempotency.Run(s, actions + [a]) == Idempotency.Do(Idempotency.Run(s, actions), a)
    ensures SmoothRun(s, actions + [a]) <==> SmoothRun(s, actions) && Smooth(Idempotency.Run(s, actions), a)
    decreases |actions|
  {
    hide Idempotency.Do, Smooth;
    if actions == [] {
      assert actions + [a] == [a] && [a][1..] == [];
      assert Idempotency.Run(s, [a]) == Idempotency.Run(Idempotency.Do(s, a), []);
    } else {
      assert (actions + [a])[1..] == actions[1..] + [a];
      RunPushBack(Idempotency.Do(s, actions[0]), actions[1..], a);
    }
  }

  lemma {:induction false} SmoothAt(now: int, actions: seq<Action>, j: nat)
    requires SmoothRun(Boot(now), actions) && j <= |actions|
    ensures SmoothRun(Boot(now), actions[..j]) && Once(At(now, actions, j))
    ensures j < |actions| ==> Smooth(At(now, actions, j), actions[j])
                              && At(now, actions, j + 1) == Idempotency.Do(At(now, actions, j), actions[j])
    decreases |actions| - j
  {
    hide Once, Idempotency.Do, Smooth, SmoothRun, Idempotency.Run;
    if j == |actions| {
      assert actions[..j] == actions;
    } else {
      SmoothAt(now, actions, j + 1);
      assert actions[..j + 1] == actions[..j] + [actions[j]];
      RunPushBack(Boot(now), actions[..j], actions[j]);
    }
    OnceAfter(now, actions[..j]);
  }

  lemma {:induction false} OnceAfter(now: int, actions: seq<Action>)
    requires SmoothRun(Boot(now), actions)
    ensures Once(Idempotency.Run(Boot(now), actions))
    decreases |actions|
  {
    if actions == [] {
      BootOnce(now);
    } else {
      hide Once, Idempotency.Do, Smooth, SmoothRun, Idempotency.Run;
      var n := |actions| - 1;
      assert actions == actions[..n] + [actions[n]];
      RunPushBack(Boot(now), actions[..n], actions[n]);
      OnceAfter(now, actions[..n]);
      ActionKeepsOnce(Idempotency.Run(Boot(now), actions[..n]), actions[n]);
    }
  }

  /** Until an outcome is recorded, the work is done once at most, however many requests carry the key. */
  lemma OnceUntilRecorded(now: int, actions: seq<Action>)
    requires SmoothRun(Boot(now), actions) && Idempotency.Run(Boot(now), actions).cache.None?
    ensures |Idempotency.Run(Boot(now), actions).executed| <= 1
  {
    OnceAfter(now, actions);
  }

  // ---------- a further execution ----------

  /** Request r asks for the claim, or reads it back, and finds nobody holding it. */
  ghost predicate FindsItFree(s: System, a: Action, r: nat) {
    && Holder(s.lock).None?
    && ((a == Claim(r, true) && Idempotency.PhaseOf(s, r).Missed?) || (a == ReadBack(r, true) && Idempotency.PhaseOf(s, r).NotClaimed?))
  }

  lemma ExecutesIff(s: System, a: Action, r: nat)
    requires Once(s) && Smooth(s, a)
    ensures r !in s.executed && r in Idempotency.Do(s, a).executed <==> FindsItFree(s, a, r)
    ensures s.executed <= Idempotency.Do(s, a).executed
  {
  }

  /** Action number j makes r execute although some request has executed before. */
  ghost predicate ExecutesAgain(now: int, actions: seq<Action>, r: nat, j: nat) {
    && j < |actions| && At(now, actions, j).executed != {}
    && r !in At(now, actions, j).executed && r in At(now, actions, j + 1).executed
  }

  /** r looked up before anything was recorded. */
  ghost predicate LookedUpEarly(now: int, actions: seq<Action>, r: nat, j: nat)
    requires j <= |actions|
  {
    exists i | 0 <= i < j :: actions[i] == Lookup(r, true) && Idempotency.PhaseOf(At(now, actions, i), r).Idle?
                             && At(now, actions, i).cache.None?
  }

  /** Some request has given the claim back before. */
  ghost predicate ReleasedBefore(now: int, actions: seq<Action>, j: nat)
    requires j <= |actions|
  {
    exists k, q | 0 <= k < j :: ReleasedAt(now, actions, k, q)
  }

  ghost predicate ReleasedAt(now: int, actions: seq<Action>, k: nat, q: nat)
    requires k < |actions|
  {
    actions[k] == EndRelease(q) && q in At(now, actions, k).lock.pending
  }

  lemma LookupStep(s: System, a: Action, r: nat)
    requires Once(s) && Smooth(s, a)
    requires Idempotency.PhaseOf(Idempotency.Do(s, a), r).Missed? || Idempotency.PhaseOf(Idempotency.Do(s, a), r).NotClaimed?
    ensures || Idempotency.PhaseOf(s, r).Missed? || Idempotency.PhaseOf(s, r).NotClaimed?
            || (a == Lookup(r, true) && Idempotency.PhaseOf(s, r).Idle? && s.cache.None?)
  {
  }

  lemma {:induction false} EarlyLookup(now: int, actions: seq<Action>, r: nat, j: nat)
    requires SmoothRun(Boot(now), actions) && j <= |actions|
    requires Idempotency.PhaseOf(At(now, actions, j), r).Missed? || Idempotency.PhaseOf(At(now, actions, j), r).NotClaimed?
    ensures LookedUpEarly(now, actions, r, j)
  {
    if j > 0 {
      SmoothAt(now, actions, j - 1);
      LookupStep(At(now, actions, j - 1), actions[j - 1], r);
      hide Once, Idempotency.Do, Smooth, SmoothRun, At;
      if Idempotency.PhaseOf(At(now, actions, j - 1), r).Missed? || Idempotency.PhaseOf(At(now, actions, j - 1), r).NotClaimed? {
        EarlyLookup(now, actions, r, j - 1);
      }
    }
  }

  lemma ReturnStep(s: System, a: Action, q: nat)
    requires q in Idempotency.Do(s, a).lock.returned
    ensures q in s.lock.returned || (a == EndRelease(q) && q in s.lock.pending)
  {
  }

  lemma {:induction false} EarlierRelease(now: int, actions: seq<Action>, q: nat, j: nat)
    requires SmoothRun(Boot(now), actions) && j <= |actions| && q in At(now, actions, j).lock.returned
    ensures ReleasedBefore(now, actions, j)
  {
    if j > 0 {
      SmoothAt(now, actions, j - 1);
      ReturnStep(At(now, actions, j - 1), actions[j - 1], q);
      hide Once, Idempotency.Do, Smooth, SmoothRun, At;
      if q in At(now, actions, j - 1).lock.returned {
        EarlierRelease(now, actions, q, j - 1);
      } else {
        assert ReleasedAt(now, actions, j - 1, q);
      }
    }
  }

  lemma {:induction false} ExecutedGrows(now: int, actions: seq<Action>, i: nat, j: nat)
    requires SmoothRun(Boot(now), actions) && i <= j <= |actions|
    ensures At(now, actions, i).executed <= At(now, actions, j).executed
  {
    if i < j {
      SmoothAt(now, actions, j - 1);
      ExecutesIff(At(now, actions, j - 1), actions[j - 1], 0);
      hide Once, Idempotency.Do, Smooth, SmoothRun, At;
      ExecutedGrows(now, actions, i, j - 1);
    }
  }

  lemma OnceFacts(s: System)
    requires Once(s)
    ensures forall q :: q in s.lock.pending ==> q in s.executed
    ensures s.executed != {} && Holder(s.lock).None? ==> s.lock.returned != {} && s.cache.Some?
  {
  }

  /**
   * The window in which the work can be done again, exactly: in a smooth run a request executes after another one has
   * if and only if it looked up before the first outcome was recorded and asks for the claim, or reads it back, after
   * a release, while nobody holds it. By then an outcome has been recorded.
   */
  lemma ExecutesAgainIff(now: int, actions: seq<Action>, r: nat, j: nat)
    requires SmoothRun(Boot(now), actions) && j < |actions|
    ensures ExecutesAgain(now, actions, r, j) <==>
            && LookedUpEarly(now, actions, r, j) && ReleasedBefore(now, actions, j)
            && FindsItFree(At(now, actions, j), actions[j], r)
    ensures ExecutesAgain(now, actions, r, j) ==> At(now, actions, j).cache.Some?
  {
    var s := At(now, actions, j);
    SmoothAt(now, actions, j);
    ExecutesIff(s, actions[j], r);
    OnceFacts(s);
    hide Once, Idempotency.Do, Smooth, SmoothRun, At;
    if ExecutesAgain(now, actions, r, j) {
      EarlyLookup(now, actions, r, j);
      var q :| q in s.lock.returned;
      EarlierRelease(now, actions, q, j);
    } else if ReleasedBefore(now, actions, j) && FindsItFree(s, actions[j], r) {
      var k, q :| 0 <= k < j && ReleasedAt(now, actions, k, q);
      SmoothAt(now, actions, k);
      OnceFacts(At(now, actions, k));
      ExecutedGrows(now, actions, k, j);
    }
  }
}
