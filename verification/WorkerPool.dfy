/**
 * mapConcurrent (backend/src/services/defaultChecker.ts:61-83): a pool of at most `limit` workers
 * that share one index.  Between two awaits a worker runs alone, so a step is: a worker starts or
 * resumes, stores the result it waited for, and goes on until it awaits again or ends.
 *
 * `items` may hold undefined (None), which the original skips.
 */
module WorkerPool {
  import opened Common

  datatype Worker =
    | Fresh                // not yet run
    | Awaiting(index: nat) // fn(items[index]) is in flight
    | Ended

  /** `calls` records the indices fn was called for, in order. */
  datatype Pool<T, R> = Pool(
    items: seq<Option<T>>, workers: seq<Worker>, currentIndex: nat,
    results: seq<Option<R>>, calls: seq<nat>)

  /** Math.min(limit, items.length) workers; none when the limit is not positive. */
  function Spawn<T, R>(items: seq<Option<T>>, limit: int): (p: Pool<T, R>) {
    Pool(items, seq(Max(0, Min(limit, |items|)), i => Fresh), 0, seq(|items|, i => None), [])
  }

  /** Skip undefined items from `i` on. */
  function NextDefined<T>(items: seq<Option<T>>, i: nat): (j: nat)
    requires i <= |items|
    ensures i <= j <= |items|
    ensures forall k | i <= k < j :: items[k].None?
    ensures j < |items| ==> items[j].Some?
    decreases |items| - i
  {
    if i == |items| || items[i].Some? then i else NextDefined(items, i + 1)
  }

  /** The worker's loop until its next await or its end. */
  function Resume<T, R>(p: Pool<T, R>, w: nat): Pool<T, R>
    requires w < |p.workers| && p.currentIndex <= |p.items|
  {
    var j := NextDefined(p.items, p.currentIndex);
    if j < |p.items| then
      p.(workers := p.workers[w := Awaiting(j)], currentIndex := j + 1, calls := p.calls + [j])
    else
      p.(workers := p.workers[w := Ended], currentIndex := j)
  }

  predicate Enabled<T, R>(p: Pool<T, R>, w: nat) {
    w < |p.workers| && !p.workers[w].Ended?
  }

  /** One scheduling decision: worker w runs, its call (if any) having completed with fn's value. */
  function Step<T, R>(fn: T -> R, p: Pool<T, R>, w: nat): Pool<T, R>
    requires Inv(fn, p) && Enabled(p, w)
  {
    match p.workers[w]
    case Fresh => Resume(p, w)
    case Awaiting(i) => Resume(p.(results := p.results[i := Some(fn(p.items[i].value))]), w)
  }

  // ---------- the invariant ----------

  predicate InFlight<T, R>(p: Pool<T, R>, i: nat) {
    exists w | 0 <= w < |p.workers| :: p.workers[w] == Awaiting(i)
  }

  /** fn's value for a defined item, a hole for an undefined one. */
  function Expected<T, R>(fn: T -> R, items: seq<Option<T>>): seq<Option<R>> {
    seq(|items|, i requires 0 <= i < |items| => match items[i] case None => None case Some(x) => Some(fn(x)))
  }

  ghost predicate Inv<T, R>(fn: T -> R, p: Pool<T, R>) {
    && p.currentIndex <= |p.items| && |p.results| == |p.items|
    && (forall w | 0 <= w < |p.workers| :: p.workers[w].Awaiting? ==>
          p.workers[w].index < p.currentIndex && p.items[p.workers[w].index].Some?)
    && (forall v, w | 0 <= v < w < |p.workers| :: p.workers[v].Awaiting? ==> p.workers[v] != p.workers[w])
    // every index handed out is stored, in flight, or a hole
    && (forall i | 0 <= i < p.currentIndex ::
          if p.items[i].None? || InFlight(p, i) then p.results[i].None?
          else p.results[i] == Some(fn(p.items[i].value)))
    && (forall i | p.currentIndex <= i < |p.items| :: p.results[i].None?)
    // fn was called once, in order, for each defined index handed out
    && (forall i | 0 <= i < p.currentIndex :: p.items[i].Some? ==> i in p.calls)
    && (forall k | 0 <= k < |p.calls| :: p.calls[k] < p.currentIndex && p.items[p.calls[k]].Some?)
    && (forall j, k | 0 <= j < k < |p.calls| :: p.calls[j] < p.calls[k])
    // a worker ends only when nothing is left to hand out
    && ((exists w | 0 <= w < |p.workers| :: p.workers[w].Ended?) ==> p.currentIndex == |p.items|)
  }

  lemma SpawnInv<T, R>(fn: T -> R, items: seq<Option<T>>, limit: int)
    ensures Inv(fn, Spawn<T, R>(items, limit))
  {
  }

  /** Resuming puts at most one more index in flight, the one it hands out. */
  lemma ResumeInFlight<T, R>(p: Pool<T, R>, w: nat)
    requires p.currentIndex <= |p.items| && w < |p.workers| && p.workers[w].Fresh?
    ensures forall i | 0 <= i < p.currentIndex :: InFlight(Resume(p, w), i) <==> InFlight(p, i)
    ensures var j := NextDefined(p.items, p.currentIndex); j < |p.items| ==> InFlight(Resume(p, w), j)
  {
    var p' := Resume(p, w);
    var j := NextDefined(p.items, p.currentIndex);
    forall i | 0 <= i < p.currentIndex
      ensures InFlight(p', i) <==> InFlight(p, i)
    {
      if InFlight(p, i) {
        var v :| 0 <= v < |p.workers| && p.workers[v] == Awaiting(i);
        assert p'.workers[v] == Awaiting(i);
      }
      if InFlight(p', i) {
        var v :| 0 <= v < |p'.workers| && p'.workers[v] == Awaiting(i);
        assert p.workers[v] == Awaiting(i);
      }
    }
    if j < |p.items| { assert p'.workers[w] == Awaiting(j); }
  }

  lemma ResumeCalls<T, R>(p: Pool<T, R>, w: nat)
    requires p.currentIndex <= |p.items| && w < |p.workers|
    requires forall i | 0 <= i < p.currentIndex :: p.items[i].Some? ==> i in p.calls
    ensures var p' := Resume(p, w); forall i | 0 <= i < p'.currentIndex :: p.items[i].Some? ==> i in p'.calls
  {
    var p' := Resume(p, w);
    var j := NextDefined(p.items, p.currentIndex);
    if j < |p.items| { assert p'.calls[|p.calls|] == j; }
    forall i | 0 <= i < p'.currentIndex && p.items[i].Some? ensures i in p'.calls {
      if i < p.currentIndex { assert i in p.calls; }
    }
  }

  lemma ResumeInv<T, R>(fn: T -> R, p: Pool<T, R>, w: nat)
    requires Inv(fn, p) && w < |p.workers| && p.workers[w].Fresh?
    ensures Inv(fn, Resume(p, w))
  {
    ResumeInFlight(p, w);
    ResumeCalls(p, w);
    hide InFlight;
  }

  /** A worker stores the result it waited for: now nothing about its index is outstanding. */
  lemma DeliverInv<T, R>(fn: T -> R, p: Pool<T, R>, w: nat)
    requires Inv(fn, p) && w < |p.workers| && p.workers[w].Awaiting?
    ensures var i := p.workers[w].index;
            Inv(fn, p.(results := p.results[i := Some(fn(p.items[i].value))], workers := p.workers[w := Fresh]))
  {
    var i := p.workers[w].index;
    var p' := p.(results := p.results[i := Some(fn(p.items[i].value))], workers := p.workers[w := Fresh]);
    forall k | 0 <= k < p.currentIndex
      ensures InFlight(p', k) <==> InFlight(p, k) && k != i
    {
      if InFlight(p, k) && k != i {
        var v :| 0 <= v < |p.workers| && p.workers[v] == Awaiting(k);
        assert p'.workers[v] == Awaiting(k);
      }
      if InFlight(p', k) {
        var v :| 0 <= v < |p'.workers| && p'.workers[v] == Awaiting(k);
        assert p.workers[v] == Awaiting(k) && v != w;
      }
    }
  }

  lemma StepInv<T, R>(fn: T -> R, p: Pool<T, R>, w: nat)
    requires Inv(fn, p) && Enabled(p, w)
    ensures Inv(fn, Step(fn, p, w))
    ensures Step(fn, p, w).items == p.items && |Step(fn, p, w).workers| == |p.workers|
  {
    if p.workers[w].Fresh? {
      ResumeInv(fn, p, w);
    } else {
      var i := p.workers[w].index;
      var mid := p.(results := p.results[i := Some(fn(p.items[i].value))], workers := p.workers[w := Fresh]);
      DeliverInv(fn, p, w);
      ResumeInv(fn, mid, w);
      assert mid.workers[w := Awaiting(0)] == p.workers[w := Awaiting(0)];
      var j := NextDefined(p.items, p.currentIndex);
      assert mid.workers[w := Awaiting(j)] == p.workers[w := Awaiting(j)];
      assert mid.workers[w := Ended] == p.workers[w := Ended];
      assert Step(fn, p, w) == Resume(mid, w);
    }
  }

  // ---------- termination ----------

  function CountOf(workers: seq<Worker>): nat {
    if workers == [] then 0 else (if workers[0].Ended? then 0 else 1) + CountOf(workers[1..])
  }

  /** Indices still to hand out, then workers still alive. */
  function Measure<T, R>(p: Pool<T, R>): (int, nat) {
    (|p.items| - p.currentIndex, CountOf(p.workers))
  }

  lemma {:induction false} CountUpdate(workers: seq<Worker>, w: nat, s: Worker)
    requires w < |workers|
    ensures CountOf(workers[w := s]) ==
            CountOf(workers) - (if workers[w].Ended? then 0 else 1) + (if s.Ended? then 0 else 1)
  {
    if w == 0 {
      assert workers[w := s][1..] == workers[1..];
    } else {
      assert workers[w := s][1..] == workers[1..][w - 1 := s];
      CountUpdate(workers[1..], w - 1, s);
    }
  }

  /** Every step of every schedule makes the measure smaller, lexicographically. */
  lemma MeasureDecreases<T, R>(fn: T -> R, p: Pool<T, R>, w: nat)
    requires Inv(fn, p) && Enabled(p, w)
    ensures var m, m' := Measure(p), Measure(Step(fn, p, w));
            0 <= m'.0 && (m'.0 < m.0 || (m'.0 == m.0 && m'.1 < m.1))
  {
    StepInv(fn, p, w);
    CountUpdate(p.workers, w, Ended);
  }

  // ---------- what every finished schedule has done ----------

  predicate Finished<T, R>(p: Pool<T, R>) {
    forall w | 0 <= w < |p.workers| :: p.workers[w].Ended?
  }

  /** Once all workers ended: every result is in place and fn ran exactly once per defined index. */
  lemma FinishedIsComplete<T, R>(fn: T -> R, p: Pool<T, R>)
    requires Inv(fn, p) && Finished(p) && (|p.workers| > 0 || |p.items| == 0)
    ensures p.results == Expected(fn, p.items)
    ensures forall i | 0 <= i < |p.items| :: p.items[i].Some? <==> i in p.calls
    ensures forall j, k | 0 <= j < k < |p.calls| :: p.calls[j] != p.calls[k]
  {
    if |p.workers| > 0 { assert p.workers[0].Ended?; }
    forall i | 0 <= i < |p.items| ensures !InFlight(p, i) { }
  }

  /** A schedule: which worker runs next, as long as it can. */
  ghost predicate Schedule<T, R>(fn: T -> R, p: Pool<T, R>, order: seq<nat>)
    decreases |order|
  {
    order == [] || (Inv(fn, p) && Enabled(p, order[0]) && Schedule(fn, Step(fn, p, order[0]), order[1..]))
  }

  ghost function Play<T, R>(fn: T -> R, p: Pool<T, R>, order: seq<nat>): Pool<T, R>
    requires Schedule(fn, p, order)
    decreases |order|
  {
    if order == [] then p else Play(fn, Step(fn, p, order[0]), order[1..])
  }

  lemma {:induction false} PlayInv<T, R>(fn: T -> R, p: Pool<T, R>, order: seq<nat>)
    requires Inv(fn, p) && Schedule(fn, p, order)
    ensures Inv(fn, Play(fn, p, order))
    ensures Play(fn, p, order).items == p.items && |Play(fn, p, order).workers| == |p.workers|
    decreases |order|
  {
    if order != [] {
      StepInv(fn, p, order[0]);
      PlayInv(fn, Step(fn, p, order[0]), order[1..]);
    }
  }

  function InFlightCount(workers: seq<Worker>): nat {
    if workers == [] then 0 else (if workers[0].Awaiting? then 1 else 0) + InFlightCount(workers[1..])
  }

  lemma {:induction false} InFlightAtMostWorkers(workers: seq<Worker>)
    ensures InFlightCount(workers) <= |workers|
  {
    if workers != [] { InFlightAtMostWorkers(workers[1..]); }
  }

  /**
   * Under every schedule: never more than `limit` calls are in flight, and if the schedule runs all
   * workers to their end then the results are fn's values in input order and fn was called exactly
   * once for each defined item — provided there is a worker at all.
   */
  lemma EveryScheduleIsCorrect<T, R>(fn: T -> R, items: seq<Option<T>>, limit: int, order: seq<nat>)
    requires Schedule(fn, Spawn<T, R>(items, limit), order)
    ensures var p := Play(fn, Spawn<T, R>(items, limit), order);
            && InFlightCount(p.workers) <= Max(0, limit)
            && (Finished(p) && (limit >= 1 || items == []) ==>
                 && p.results == Expected(fn, items)
                 && (forall i | 0 <= i < |items| :: items[i].Some? <==> i in p.calls)
                 && (forall j, k | 0 <= j < k < |p.calls| :: p.calls[j] != p.calls[k]))
  {
    SpawnInv<T, R>(fn, items, limit);
    PlayInv(fn, Spawn<T, R>(items, limit), order);
    var p := Play(fn, Spawn<T, R>(items, limit), order);
    InFlightAtMostWorkers(p.workers);
    if Finished(p) && (limit >= 1 || items == []) {
      FinishedIsComplete(fn, p);
    }
  }

  /** No worker is started exactly when there is no item or the limit is not positive; the answer is then all holes,
      which is right if and only if every item is a hole. */
  lemma NoWorkersIff<T, R>(fn: T -> R, items: seq<Option<T>>, limit: int)
    ensures var p := Spawn<T, R>(items, limit);
            && (p.workers == [] <==> items == [] || limit <= 0)
            && (p.workers == [] ==>
                 Finished(p) && (p.results == Expected(fn, items) <==> forall i | 0 <= i < |items| :: items[i].None?))
  {
    var p := Spawn<T, R>(items, limit);
    if p.results == Expected(fn, items) {
      forall i | 0 <= i < |items| ensures items[i].None? {
        assert p.results[i] == Expected(fn, items)[i];
      }
    } else {
      assert exists i | 0 <= i < |items| :: p.results[i] != Expected(fn, items)[i];
    }
  }

  // ---------- the scheduler, running ----------

  /** Run the pool under an arbitrary scheduler until every worker has ended. */
  method MapConcurrent<T, R>(items: seq<Option<T>>, limit: int, fn: T -> R) returns (results: seq<Option<R>>)
    requires limit >= 1
    ensures results == Expected(fn, items)
  {
    var p := Spawn<T, R>(items, limit);
    SpawnInv<T, R>(fn, items, limit);
    while !Finished(p)
      invariant Inv(fn, p) && p.items == items && (|p.workers| > 0 || |p.items| == 0)
      decreases Measure(p).0, Measure(p).1
    {
      ghost var v :| 0 <= v < |p.workers| && !p.workers[v].Ended?;
      assert Enabled(p, v);
      var w: nat :| w < |p.workers| && Enabled(p, w);
      StepInv(fn, p, w);
      MeasureDecreases(fn, p, w);
      p := Step(fn, p, w);
    }
    FinishedIsComplete(fn, p);
    results := p.results;
  }
}
