/**
 * The lock both protocols use: SET NX with a TTL to take it, and CacheService.deleteIfMatch — a get,
 * then a del — to give it back (backend/src/services/cacheService.ts:72-126).
 *
 * Every store command is one step.  A release is two of them, so another process can act in
 * between; `pending` holds the tokens whose get matched and whose del has not been applied yet, one
 * per release under way.
 */
module FencedLock {
  import opened Common

  /** The stored entry: whose token, and until when. */
  datatype Held = Held(token: nat, expiresAt: int)

  /** `granted` and `returned` record, for every token, until when it was granted the lock and
      whether its own del has been applied. */
  datatype Lock = Lock(
    held: Option<Held>, now: int, pending: multiset<nat>,
    granted: map<nat, int>, returned: set<nat>)

  datatype Step =
    | Acquire(token: nat, ttl: nat)
    | ReleaseGet(token: nat)
    | ReleaseDel(token: nat)
    | Tick(ms: nat)

  function Init(now: int): Lock {
    Lock(None, now, multiset{}, map[], {})
  }

  /** The token an observer would read. */
  function Holder(l: Lock): Option<nat> {
    if l.held.Some? && l.now < l.held.value.expiresAt then Some(l.held.value.token) else None
  }

  /** setNX: writes only when no unexpired entry is there.  Tokens are never reused. */
  predicate CanAcquire(l: Lock, token: nat) {
    Holder(l).None? && token !in l.granted
  }

  function Apply(l: Lock, s: Step): Lock {
    match s
    case Acquire(token, ttl) =>
      if CanAcquire(l, token) then
        l.(held := Some(Held(token, l.now + ttl)), granted := l.granted[token := l.now + ttl])
      else l
    case ReleaseGet(token) =>
      if Holder(l) == Some(token) then l.(pending := l.pending + multiset{token}) else l
    case ReleaseDel(token) =>
      if token in l.pending then
        l.(held := None, pending := l.pending - multiset{token}, returned := l.returned + {token})
      else l
    case Tick(ms) => l.(now := l.now + ms)
  }

  function Exec(l: Lock, steps: seq<Step>): Lock
    decreases |steps|
  {
    if steps == [] then l else Exec(Apply(l, steps[0]), steps[1..])
  }

  // ---------- what can go wrong ----------

  /** This step deletes a lock that belongs to somebody else. */
  predicate RemovesForeign(l: Lock, s: Step) {
    s.ReleaseDel? && s.token in l.pending && Holder(l).Some? && Holder(l) != Some(s.token)
  }

  predicate Fenced(l: Lock, steps: seq<Step>)
    decreases |steps|
  {
    steps == [] || (!RemovesForeign(l, steps[0]) && Fenced(Apply(l, steps[0]), steps[1..]))
  }

  /** The hypotheses: an entry does not expire while its release is between get and del, and no
      second release of the same token overlaps the first. */
  predicate Calm(l: Lock, s: Step) {
    match s
    case Tick(ms) => l.held.Some? && l.held.value.token in l.pending ==> l.now + ms < l.held.value.expiresAt
    case ReleaseGet(token) => token !in l.pending
    case _ => true
  }

  predicate CalmRun(l: Lock, steps: seq<Step>)
    decreases |steps|
  {
    steps == [] || (Calm(l, steps[0]) && CalmRun(Apply(l, steps[0]), steps[1..]))
  }

  // ---------- the invariant ----------

  /** A release under way still owns the entry it is about to delete. */
  predicate ReleasesOwn(l: Lock) {
    forall t :: t in l.pending ==> Holder(l) == Some(t) && l.pending[t] == 1
  }

  /** A token that was granted the lock, has not given it back and has not expired, holds it. */
  predicate GrantsHold(l: Lock) {
    && l.returned <= l.granted.Keys
    && (l.held.Some? ==> l.held.value.token in l.granted
                         && l.granted[l.held.value.token] == l.held.value.expiresAt
                         && l.held.value.token !in l.returned)
    && (forall t <- l.granted :: t !in l.returned && l.now < l.granted[t] ==> Holder(l) == Some(t))
  }

  predicate Inv(l: Lock) {
    ReleasesOwn(l) && GrantsHold(l)
  }

  lemma StepInv(l: Lock, s: Step)
    requires Inv(l) && Calm(l, s)
    ensures Inv(Apply(l, s)) && !RemovesForeign(l, s)
  {
    var l' := Apply(l, s);
    if s.ReleaseDel? && s.token in l.pending {
      forall t ensures t !in l'.pending {
        if t != s.token { assert t !in l.pending; }
      }
    }
  }

  /** Over all interleavings of any number of processes: calm runs keep the invariant and no release
      ever removes another process's lock. */
  lemma {:induction false} CalmRunsAreFenced(l: Lock, steps: seq<Step>)
    requires Inv(l) && CalmRun(l, steps)
    ensures Inv(Exec(l, steps)) && Fenced(l, steps)
    decreases |steps|
  {
    if steps != [] {
      StepInv(l, steps[0]);
      CalmRunsAreFenced(Apply(l, steps[0]), steps[1..]);
    }
  }

  lemma InitInv(now: int)
    ensures Inv(Init(now))
  {
  }

  /** The lock is lost only by its own release or by expiry, so two unexpired, unreturned grants are
      one and the same. */
  lemma MutualExclusion(now: int, steps: seq<Step>, a: nat, b: nat)
    requires CalmRun(Init(now), steps)
    requires var l := Exec(Init(now), steps);
             && a in l.granted && a !in l.returned && l.now < l.granted[a]
             && b in l.granted && b !in l.returned && l.now < l.granted[b]
    ensures a == b && Holder(Exec(Init(now), steps)) == Some(a)
  {
    InitInv(now);
    CalmRunsAreFenced(Init(now), steps);
  }

  // ---------- the hypotheses are exact ----------

  /** A release has lost the entry it matched (or a twin release could take it away). */
  predicate Exposed(l: Lock) {
    exists t :: t in l.pending && (Holder(l) != Some(t) || l.pending[t] > 1)
  }

  predicate FreshToken(l: Lock, u: nat) {
    u !in l.granted && u !in l.pending
  }

  /** Without the clock moving or any further release starting, a release under way can delete
      somebody else's lock: the present holder's, or that of process u should it acquire next. */
  ghost predicate CanLoseFence(l: Lock, u: nat) {
    exists steps: seq<Step> :: DelsAround(u, steps) && !Fenced(l, steps)
  }

  predicate DelsAround(u: nat, steps: seq<Step>) {
    forall s <- steps :: s == Acquire(u, 1) || s.ReleaseDel?
  }

  lemma {:induction false} DelsAreCalm(l: Lock, u: nat, steps: seq<Step>)
    requires DelsAround(u, steps)
    ensures CalmRun(l, steps)
    decreases |steps|
  {
    if steps != [] {
      DelsAreCalm(Apply(l, steps[0]), u, steps[1..]);
    }
  }

  /**
   * The two hypotheses of Calm are exactly what is needed: the fence can fail if and only if some
   * release under way no longer owns the entry it matched (it expired), or is one of two releases
   * of one token.
   */
  lemma FenceFailsIffExposed(l: Lock, u: nat)
    requires GrantsHold(l) && FreshToken(l, u)
    ensures CanLoseFence(l, u) <==> Exposed(l)
  {
    if Exposed(l) {
      var t :| t in l.pending && (Holder(l) != Some(t) || l.pending[t] > 1);
      if Holder(l).None? {
        NewcomerLoses(l, u, t, []);
      } else if Holder(l) != Some(t) {
        assert DelsAround(u, [ReleaseDel(t)]) && !Fenced(l, [ReleaseDel(t)]);
      } else {
        NewcomerLoses(l, u, t, [ReleaseDel(t)]);
      }
    } else if CanLoseFence(l, u) {
      var steps: seq<Step> :| DelsAround(u, steps) && !Fenced(l, steps);
      DelsAreCalm(l, u, steps);
      CalmRunsAreFenced(l, steps);
    }
  }

  /** After `first` the entry is gone and t still has a del coming: u acquires and t deletes it. */
  lemma NewcomerLoses(l: Lock, u: nat, t: nat, first: seq<Step>)
    requires FreshToken(l, u)
    requires first == [] || (first == [ReleaseDel(t)] && t in l.pending)
    requires Holder(Exec(l, first)).None? && t in Exec(l, first).pending
    ensures CanLoseFence(l, u)
  {
    var l1 := Exec(l, first);
    var tail := [Acquire(u, 1), ReleaseDel(t)];
    var l2 := Apply(l1, tail[0]);
    if first != [] {
      assert first[1..] == [];
      assert l1 == Apply(l, first[0]);
    }
    assert Holder(l2) == Some(u) && t in l2.pending;
    assert RemovesForeign(l2, ReleaseDel(t));
    assert tail[1..] == [ReleaseDel(t)];
    assert !Fenced(l2, [ReleaseDel(t)]) && !Fenced(l1, tail);
    var steps := first + tail;
    if first == [] {
      assert steps == tail;
    } else {
      assert steps[1..] == tail;
    }
    assert DelsAround(u, steps) && !Fenced(l, steps);
  }

  /** No state of the run is exposed. */
  ghost predicate NeverExposed(l: Lock, steps: seq<Step>)
    decreases |steps|
  {
    !Exposed(l) && (steps != [] ==> NeverExposed(Apply(l, steps[0]), steps[1..]))
  }

  lemma CalmStepIff(l: Lock, s: Step)
    requires Inv(l)
    ensures !Exposed(l) && (Calm(l, s) <==> !Exposed(Apply(l, s)))
  {
    var l' := Apply(l, s);
    if Calm(l, s) {
      StepInv(l, s);
    } else {
      var t := if s.Tick? then l.held.value.token else s.token;
      assert t in l'.pending && (Holder(l') != Some(t) || l'.pending[t] > 1);
    }
  }

  /** And of whole runs: a run is calm if and only if no state on it is exposed, that is, if and only if the fence can
      nowhere fail. */
  lemma {:induction false} CalmIffNeverExposed(l: Lock, steps: seq<Step>)
    requires Inv(l)
    ensures CalmRun(l, steps) <==> NeverExposed(l, steps)
    decreases |steps|
  {
    if steps == [] {
      assert !Exposed(l);
    } else {
      CalmStepIff(l, steps[0]);
      if Calm(l, steps[0]) {
        StepInv(l, steps[0]);
        hide Inv, Exposed, Calm, Apply;
        CalmIffNeverExposed(Apply(l, steps[0]), steps[1..]);
      } else {
        assert !NeverExposed(Apply(l, steps[0]), steps[1..]);
      }
    }
  }
}
