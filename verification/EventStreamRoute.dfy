/**
 * The streaming route in front of the registries: it checks the limit, waits for its replay query, subscribes, and only
 * then listens for the closing of its connection (backend/src/controllers/eventStreamController.ts:61-134).
 */
module EventStreamRoute {
  import opened Common
  import opened EventStreamSpec

  /** The service, the requests that have passed the check and wait for their query, and the connections that are gone. */
  datatype Route = Route(service: Service, waiting: map<nat, Home>, closed: set<nat>)

  datatype RouteStep =
    | Check(stream: nat, home: Home)
    | Join(stream: nat)
    | Close(stream: nat)
    | Other(op: Op)

  /** A request checks once; its query answers once; its connection closes once; all else goes on meanwhile. */
  ghost predicate CanStep(r: Route, step: RouteStep) {
    match step
    case Check(stream, _) => stream !in r.service.homes && stream !in r.waiting
    case Join(stream) => stream in r.waiting
    case Close(stream) => (stream in r.waiting || stream in r.service.homes) && stream !in r.closed
    case Other(op) => !op.OpSubscribe? && !op.OpUnsubscribe? && Enabled(r.service, op)
  }

  /** A refused check is answered 429 and leaves nothing behind. A closing reaches the service only if somebody listens
      for it, that is after the subscription. */
  ghost function Take(r: Route, step: RouteStep): Route
    requires CanStep(r, step)
  {
    match step
    case Check(stream, home) =>
      if CanOpen(r.service.registry, home.userKey) then r.(waiting := r.waiting[stream := home]) else r
    case Join(stream) =>
      r.(service := Apply(r.service, OpSubscribe(r.waiting[stream], stream)), waiting := r.waiting - {stream})
    case Close(stream) =>
      r.(service := if stream in r.service.homes then Apply(r.service, OpUnsubscribe(stream)) else r.service,
         closed := r.closed + {stream})
    case Other(op) => r.(service := Apply(r.service, op))
  }

  ghost predicate RouteRun(r: Route, steps: seq<RouteStep>, t: Route)
    decreases |steps|
  {
    if steps == [] then t == r else CanStep(r, steps[0]) && RouteRun(Take(r, steps[0]), steps[1..], t)
  }

  ghost predicate RouteInv(r: Route) {
    && Inv(r.service) && r.waiting.Keys !! r.service.homes.Keys
    && r.closed <= r.waiting.Keys + r.service.homes.Keys
  }

  const IDLE := Route(FRESH, map[], {})

  lemma IdleInv()
    ensures RouteInv(IDLE) && WithinLimit(IDLE.service.registry)
  {
    FreshInv();
  }

  lemma TakeKeeps(r: Route, step: RouteStep)
    requires RouteInv(r) && CanStep(r, step)
    ensures RouteInv(Take(r, step))
  {
    hide Inv;
    match step
    case Check(_, _) =>
    case Join(stream) => StepKeeps(r.service, OpSubscribe(r.waiting[stream], stream));
    case Close(stream) => if stream in r.service.homes { StepKeeps(r.service, OpUnsubscribe(stream)); }
    case Other(op) => StepKeeps(r.service, op);
  }

  ghost predicate AlwaysWithin(r: Route, steps: seq<RouteStep>)
    decreases |steps|
  {
    WithinLimit(r.service.registry) && (steps != [] && CanStep(r, steps[0]) ==> AlwaysWithin(Take(r, steps[0]), steps[1..]))
  }

  /** What the check said still holds when the subscription happens. */
  ghost predicate ChecksStillHold(r: Route, steps: seq<RouteStep>)
    decreases |steps|
  {
    steps != [] && CanStep(r, steps[0]) ==>
      && (steps[0].Join? ==> CanOpen(r.service.registry, r.waiting[steps[0].stream].userKey))
      && ChecksStillHold(Take(r, steps[0]), steps[1..])
  }

  /**
   * Over every run of the route: no user ever exceeds three connections if and only if no subscription happens after
   * others of its user have used up what its check had found free.
   */
  lemma {:induction false} RouteLimitHoldsIff(r: Route, steps: seq<RouteStep>, t: Route)
    requires RouteInv(r) && WithinLimit(r.service.registry) && RouteRun(r, steps, t)
    ensures AlwaysWithin(r, steps) <==> ChecksStillHold(r, steps)
    decreases |steps|
  {
    if steps != [] {
      var step := steps[0];
      TakeKeeps(r, step);
      match step {
        case Check(_, _) =>
        case Join(stream) => SubscribeWithinLimitIff(r.service, r.waiting[stream], stream);
        case Close(stream) =>
          if stream in r.service.homes { OthersStayWithinLimit(r.service, OpUnsubscribe(stream)); }
        case Other(op) => OthersStayWithinLimit(r.service, op);
      }
      hide Inv, WithinLimit, CanOpen, Enabled;
      if WithinLimit(Take(r, step).service.registry) { RouteLimitHoldsIff(Take(r, step), steps[1..], t); }
    }
  }

  // ---------- slots of connections that are gone ----------

  predicate HoldsSlot(s: Service, stream: nat) {
    exists k <- s.registry.users :: stream in s.registry.users[k]
  }

  /** A connection that has closed takes up one of its user's slots. */
  predicate Orphan(r: Route, stream: nat) {
    stream in r.closed && HoldsSlot(r.service, stream)
  }

  /** What takes a slot back from a closed connection: a heartbeat that fails to write to it, or the end of the service. */
  ghost predicate Frees(r: Route, step: RouteStep, stream: nat) {
    || step == Other(OpCloseAll)
    || (step.Other? && step.op.OpHeartbeat? && stream in step.op.failing && Live(r.service, stream))
  }

  lemma SlotIff(s: Service, stream: nat)
    requires Inv(s)
    ensures HoldsSlot(s, stream) <==> stream in s.homes && (Live(s, stream) || stream in s.dropped)
  {
    if stream in s.homes && (Live(s, stream) || stream in s.dropped) {
      assert stream in SetAt(s.registry.users, s.homes[stream].userKey);
    }
    if HoldsSlot(s, stream) {
      var k :| k in s.registry.users && stream in s.registry.users[k];
      assert stream in SetAt(s.registry.users, k);
    }
  }

  lemma SlotAfter(s: Service, op: Op, stream: nat)
    requires Inv(s) && Enabled(s, op) && !op.OpSubscribe?
    ensures HoldsSlot(Apply(s, op), stream) <==>
            HoldsSlot(s, stream) && op != OpUnsubscribe(stream) && op != OpCloseAll
            && !(op.OpHeartbeat? && stream in op.failing && Live(s, stream))
  {
    var t := Apply(s, op);
    StepKeeps(s, op);
    SlotIff(s, stream);
    SlotIff(t, stream);
    hide HoldsSlot;
    match op
    case OpUnsubscribe(x) =>
      UnsubscribeKeeps(s, x);
      hide Inv, Live;
    case OpBroadcast(address, failing) =>
      BroadcastKeeps(s, address, failing);
      if stream in s.homes { BroadcastDrops(s, address, failing, stream); }
      hide Inv, Live;
    case OpHeartbeat(clients, failing) =>
      if stream in s.homes { HeartbeatLive(s, clients, failing, stream); }
      hide Inv, Live;
    case OpCloseAll =>
  }

  lemma BroadcastDrops(s: Service, address: Option<string>, failing: set<nat>, stream: nat)
    requires Inv(s) && stream in s.homes
    ensures var t := Apply(s, OpBroadcast(address, failing));
            stream in t.dropped <==>
            stream in s.dropped || (stream in failing && exists c <- Audience(s.registry, address) :: c.stream == stream)
  {
  }

  lemma HeartbeatLive(s: Service, clients: seq<Client>, failing: set<nat>, stream: nat)
    requires Inv(s) && Collects(s.registry, clients) && stream in s.homes
    ensures Live(s.(registry := Beat(s.registry, clients, failing)), stream) <==> Live(s, stream) && stream !in failing
  {
    var t := s.(registry := Beat(s.registry, clients, failing));
    BeatRemovesTheFailing(s, clients, failing);
    LiveIffRegistered(s, stream);
    LiveIffRegistered(t, stream);
    hide Inv, Live, Registered, Beat;
  }

  lemma LiveIffRegistered(s: Service, stream: nat)
    requires Inv(s) && stream in s.homes
    ensures Live(s, stream) <==> Registered(s.registry, Client(stream, s.homes[stream].userKey))
  {
  }

  /** A slot falls to a closed connection exactly when that connection joins after its closing, and stays with it until
      a heartbeat fails to write to it or the service ends. */
  lemma OrphanAfterStepIff(r: Route, step: RouteStep, stream: nat)
    requires RouteInv(r) && CanStep(r, step)
    ensures Orphan(Take(r, step), stream) <==>
            (step == Join(stream) && stream in r.closed) || (Orphan(r, stream) && !Frees(r, step, stream))
  {
    var t := Take(r, step);
    TakeKeeps(r, step);
    match step {
      case Check(_, _) =>
      case Join(x) =>
        SubscribeKeeps(r.service, r.waiting[x], x);
        SlotIff(r.service, stream);
        SlotIff(t.service, stream);
        hide Inv, Live, HoldsSlot;
      case Close(x) =>
        if x in r.service.homes { SlotAfter(r.service, OpUnsubscribe(x), stream); }
        SlotIff(r.service, stream);
        hide Inv, Live, HoldsSlot;
      case Other(op) =>
        SlotAfter(r.service, op, stream);
        hide Inv, Live, HoldsSlot;
    }
  }

  ghost predicate NeverFreed(r: Route, steps: seq<RouteStep>, stream: nat)
    decreases |steps|
  {
    steps == [] || (CanStep(r, steps[0]) && !Frees(r, steps[0], stream) && NeverFreed(Take(r, steps[0]), steps[1..], stream))
  }

  /** The stream's connection closes while it waits, it subscribes all the same, and nothing takes the slot back. */
  ghost predicate JoinedTooLate(r: Route, steps: seq<RouteStep>, stream: nat)
    decreases |steps|
  {
    steps != [] && CanStep(r, steps[0]) &&
    ((steps[0] == Join(stream) && stream in r.closed && NeverFreed(Take(r, steps[0]), steps[1..], stream))
     || JoinedTooLate(Take(r, steps[0]), steps[1..], stream))
  }

  /** Over every run: a connection that is gone holds a slot in the end if and only if it closed during its wait and
      has not been found out since. */
  lemma {:induction false} OrphanIff(r: Route, steps: seq<RouteStep>, t: Route, stream: nat)
    requires RouteInv(r) && RouteRun(r, steps, t)
    ensures Orphan(t, stream) <==> JoinedTooLate(r, steps, stream) || (Orphan(r, stream) && NeverFreed(r, steps, stream))
    decreases |steps|
  {
    if steps != [] {
      TakeKeeps(r, steps[0]);
      OrphanAfterStepIff(r, steps[0], stream);
      hide RouteInv, Orphan, CanStep, Take, Frees;
      OrphanIff(Take(r, steps[0]), steps[1..], t, stream);
    }
  }

  /** The shortest such run. */
  lemma ClosedWhileWaiting(home: Home)
    ensures exists t :: RouteRun(IDLE, [Check(1, home), Close(1)] + [Join(1)], t) && Orphan(t, 1) && HoldsSlot(t.service, 1)
  {
    var a := Take(IDLE, Check(1, home));
    var b := Take(a, Close(1));
    var t := Take(b, Join(1));
    RouteRun2(IDLE, Check(1, home), Close(1));
    IdleInv();
    TakeKeeps(IDLE, Check(1, home));
    TakeKeeps(a, Close(1));
    OrphanAfterStepIff(b, Join(1), 1);
    hide Take, CanStep, RouteInv, Orphan;
    assert [Join(1)][1..] == [];
    assert RouteRun(Take(b, Join(1)), [], t);
    RouteRunAppend(IDLE, [Check(1, home), Close(1)], b, [Join(1)], t);
  }

  // ---------- the limit can fail ----------

  lemma {:induction false} RouteRunAppend(r: Route, xs: seq<RouteStep>, m: Route, ys: seq<RouteStep>, t: Route)
    requires RouteRun(r, xs, m) && RouteRun(m, ys, t)
    ensures RouteRun(r, xs + ys, t)
    decreases |xs|
  {
    hide CanStep, Take;
    if xs == [] {
      assert xs + ys == ys;
    } else {
      assert (xs + ys)[1..] == xs[1..] + ys;
      RouteRunAppend(Take(r, xs[0]), xs[1..], m, ys, t);
    }
  }

  lemma RouteRun2(r: Route, a: RouteStep, b: RouteStep)
    requires CanStep(r, a) && CanStep(Take(r, a), b)
    ensures RouteRun(r, [a, b], Take(Take(r, a), b))
  {
    hide CanStep, Take;
    assert [a, b][1..] == [b] && [b][1..] == [];
    assert RouteRun(Take(Take(r, a), b), [], Take(Take(r, a), b));
    assert RouteRun(Take(r, a), [b], Take(Take(r, a), b));
  }

  function FirstStreams(n: nat): (streams: set<nat>)
    ensures |streams| == n && forall i <- streams :: i <= n
  {
    if n == 0 then {} else FirstStreams(n - 1) + {n}
  }

  /** The streams 1 to n are open for user u, and those of `pending` have passed the check. */
  ghost predicate Holds(r: Route, n: nat, pending: set<nat>) {
    && SetAt(r.service.registry.users, "u") == FirstStreams(n) == r.service.homes.Keys
    && r.closed == {} && r.waiting.Keys == pending && forall s <- pending :: r.waiting[s] == Home("u", None)
  }

  lemma CheckPasses(r: Route, n: nat, pending: set<nat>, stream: nat)
    requires Holds(r, n, pending) && n < MAX_CONNECTIONS_PER_USER && n < stream && stream !in pending
    ensures CanStep(r, Check(stream, Home("u", None)))
    ensures Holds(Take(r, Check(stream, Home("u", None))), n, pending + {stream})
  {
  }

  lemma JoinAdds(r: Route, n: nat, pending: set<nat>)
    requires Holds(r, n, pending) && n + 1 in pending
    ensures CanStep(r, Join(n + 1)) && Holds(Take(r, Join(n + 1)), n + 1, pending - {n + 1})
  {
  }

  /** A request that meets nobody between its check and its subscription. */
  lemma OpensOne(r: Route, n: nat) returns (t: Route)
    requires Holds(r, n, {}) && n < MAX_CONNECTIONS_PER_USER
    ensures RouteRun(r, [Check(n + 1, Home("u", None)), Join(n + 1)], t) && Holds(t, n + 1, {})
  {
    hide Holds, CanStep, Take;
    CheckPasses(r, n, {}, n + 1);
    JoinAdds(Take(r, Check(n + 1, Home("u", None))), n, {} + {n + 1});
    t := Take(Take(r, Check(n + 1, Home("u", None))), Join(n + 1));
    RouteRun2(r, Check(n + 1, Home("u", None)), Join(n + 1));
    assert {} + {n + 1} - {n + 1} == {};
  }

  /** Two that check before either subscribes. */
  lemma OpensTwo(r: Route, n: nat) returns (t: Route)
    requires Holds(r, n, {}) && n < MAX_CONNECTIONS_PER_USER
    ensures var h := Home("u", None);
            RouteRun(r, [Check(n + 1, h), Check(n + 2, h)] + [Join(n + 1), Join(n + 2)], t) && Holds(t, n + 2, {})
  {
    hide Holds, CanStep, Take;
    var a, b := Check(n + 1, Home("u", None)), Check(n + 2, Home("u", None));
    CheckPasses(r, n, {}, n + 1);
    CheckPasses(Take(r, a), n, {} + {n + 1}, n + 2);
    var m := Take(Take(r, a), b);
    JoinAdds(m, n, {} + {n + 1} + {n + 2});
    JoinAdds(Take(m, Join(n + 1)), n + 1, {} + {n + 1} + {n + 2} - {n + 1});
    t := Take(Take(m, Join(n + 1)), Join(n + 2));
    RouteRun2(r, a, b);
    RouteRun2(m, Join(n + 1), Join(n + 2));
    RouteRunAppend(r, [a, b], m, [Join(n + 1), Join(n + 2)], t);
    assert {} + {n + 1} + {n + 2} - {n + 1} - {n + 2} == {};
  }

  lemma IdleHolds()
    ensures Holds(IDLE, 0, {})
  {
  }

  lemma HoldsCounts(r: Route, n: nat)
    requires Holds(r, n, {})
    ensures |SetAt(r.service.registry.users, "u")| == n
  {
  }

  /** Two connections are open; two more requests both check, then both subscribe: the user ends with four. */
  lemma CheckThenWaitExceedsTheLimit() returns (t: Route)
    ensures var h := Home("u", None);
            RouteRun(IDLE, [Check(1, h), Join(1)] + [Check(2, h), Join(2)] + ([Check(3, h), Check(4, h)] + [Join(3), Join(4)]), t)
    ensures |SetAt(t.service.registry.users, "u")| == 4
  {
    hide Holds, RouteRun, CanStep, Take;
    IdleHolds();
    var one := OpensOne(IDLE, 0);
    var two := OpensOne(one, 1);
    t := OpensTwo(two, 2);
    HoldsCounts(t, 4);
    var h := Home("u", None);
    RouteRunAppend(IDLE, [Check(1, h), Join(1)], one, [Check(2, h), Join(2)], two);
    RouteRunAppend(IDLE, [Check(1, h), Join(1)] + [Check(2, h), Join(2)], two,
                   [Check(3, h), Check(4, h)] + [Join(3), Join(4)], t);
  }
}
