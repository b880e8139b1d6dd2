/**
 * What the operations of the event stream do to its registries, and what every sequence of them keeps
 * (backend/src/services/eventStreamService.ts:24-32, 43-311). A client is one open response; `failing` is the set
 * of responses whose write throws.
 */
module EventStreamSpec {
  import opened Common

  const MAX_CONNECTIONS_PER_USER := 3

  datatype Client = Client(stream: nat, userKey: string)

  datatype Registry = Registry(
    borrowers: map<string, set<Client>>, admins: set<Client>, users: map<string, set<nat>>, heartbeat: bool)

  const EMPTY := Registry(map[], {}, map[], false)

  function SetAt<T>(m: map<string, set<T>>, key: string): set<T> {
    if key in m then m[key] else {}
  }

  /** The set at a key without one element, and no entry when nothing remains. */
  function Dropped<T>(m: map<string, set<T>>, key: string, x: T): map<string, set<T>> {
    if key !in m then m
    else if m[key] - {x} == {} then m - {key}
    else m[key := m[key] - {x}]
  }

  predicate NoClients(r: Registry) {
    (forall a <- r.borrowers :: r.borrowers[a] == {}) && r.admins == {}
  }

  predicate CanOpen(r: Registry, userKey: string) {
    |SetAt(r.users, userKey)| < MAX_CONNECTIONS_PER_USER
  }

  /** Where a client subscribes: one borrower's events, or all of them. */
  datatype Home = Home(userKey: string, address: Option<string>)

  function Subscribe(r: Registry, home: Home, stream: nat): Registry {
    var c := Client(stream, home.userKey);
    Registry(
      if home.address.Some? then r.borrowers[home.address.value := SetAt(r.borrowers, home.address.value) + {c}] else r.borrowers,
      if home.address.Some? then r.admins else r.admins + {c},
      r.users[home.userKey := SetAt(r.users, home.userKey) + {stream}],
      true)
  }

  /** The closure a subscription returns. */
  function Unsubscribe(r: Registry, home: Home, stream: nat): Registry {
    var c := Client(stream, home.userKey);
    var after := r.(
      borrowers := if home.address.Some? then Dropped(r.borrowers, home.address.value, c) else r.borrowers,
      admins := if home.address.Some? then r.admins else r.admins - {c},
      users := Dropped(r.users, home.userKey, stream));
    after.(heartbeat := r.heartbeat && !NoClients(after))
  }

  function Writable(cs: set<Client>, failing: set<nat>): set<Client> {
    set c | c in cs && c.stream !in failing
  }

  /** The clients an event is meant for. */
  function Audience(r: Registry, address: Option<string>): set<Client> {
    (if address.Some? && address.value != "" then SetAt(r.borrowers, address.value) else {}) + r.admins
  }

  /** A failed write takes a client out of its registry, but not out of its user's set. */
  function Broadcast(r: Registry, address: Option<string>, failing: set<nat>): Registry {
    r.(borrowers := if address.Some? && address.value != "" && address.value in r.borrowers
                    then r.borrowers[address.value := Writable(r.borrowers[address.value], failing)] else r.borrowers,
       admins := Writable(r.admins, failing))
  }

  function RemoveClient(r: Registry, c: Client): Registry {
    r.(borrowers := map a | a in r.borrowers && r.borrowers[a] - {c} != {} :: r.borrowers[a] - {c},
       admins := r.admins - {c},
       users := Dropped(r.users, c.userKey, c.stream))
  }

  /** One heartbeat over the clients collected at its start. */
  function Beat(r: Registry, clients: seq<Client>, failing: set<nat>): Registry {
    if clients == [] then r
    else
      var before := Beat(r, clients[..|clients| - 1], failing);
      var c := clients[|clients| - 1];
      if c.stream in failing then RemoveClient(before, c) else before
  }

  predicate Registered(r: Registry, c: Client) {
    c in r.admins || exists a <- r.borrowers :: c in r.borrowers[a]
  }

  // ---------- runs ----------

  /**
   * A service with its history: the subscription each stream has ever made, and the streams whose client a failed
   * broadcast has removed while their connection has not been closed yet.
   */
  datatype Service = Service(registry: Registry, homes: map<nat, Home>, dropped: set<nat>)

  datatype Op =
    | OpSubscribe(home: Home, stream: nat)
    | OpUnsubscribe(stream: nat)
    | OpBroadcast(address: Option<string>, failing: set<nat>)
    | OpHeartbeat(clients: seq<Client>, failing: set<nat>)
    | OpCloseAll

  predicate NoRepeats<T(==)>(xs: seq<T>) {
    forall i, j | 0 <= i < j < |xs| :: xs[i] != xs[j]
  }

  /** collectAllClients: every registered client, once, in some order. */
  ghost predicate Collects(r: Registry, clients: seq<Client>) {
    NoRepeats(clients) && forall c :: c in clients <==> Registered(r, c)
  }

  /** Streams are distinct, only closures that exist are called, and the timer must be running for a beat. */
  ghost predicate Enabled(s: Service, op: Op) {
    match op
    case OpSubscribe(_, stream) => stream !in s.homes
    case OpUnsubscribe(stream) => stream in s.homes
    case OpBroadcast(_, _) => true
    case OpHeartbeat(clients, _) => s.registry.heartbeat && Collects(s.registry, clients)
    case OpCloseAll => true
  }

  function Apply(s: Service, op: Op): Service
    requires op.OpUnsubscribe? ==> op.stream in s.homes
  {
    match op
    case OpSubscribe(home, stream) => s.(registry := Subscribe(s.registry, home, stream), homes := s.homes[stream := home])
    case OpUnsubscribe(stream) =>
      s.(registry := Unsubscribe(s.registry, s.homes[stream], stream), dropped := s.dropped - {stream})
    case OpBroadcast(address, failing) =>
      s.(registry := Broadcast(s.registry, address, failing),
         dropped := s.dropped + set c | c in Audience(s.registry, address) && c.stream in failing :: c.stream)
    case OpHeartbeat(clients, failing) => s.(registry := Beat(s.registry, clients, failing))
    case OpCloseAll => Service(EMPTY, s.homes, {})
  }

  ghost predicate Run(s: Service, ops: seq<Op>, t: Service)
    decreases |ops|
  {
    if ops == [] then t == s else Enabled(s, ops[0]) && Run(Apply(s, ops[0]), ops[1..], t)
  }

  const FRESH := Service(EMPTY, map[], {})

  /** Every registered client is where its own subscription put it. */
  predicate AtHome(s: Service) {
    && (forall a <- s.registry.borrowers, c <- s.registry.borrowers[a] ::
          c.stream in s.homes && s.homes[c.stream] == Home(c.userKey, Some(a)))
    && (forall c <- s.registry.admins :: c.stream in s.homes && s.homes[c.stream] == Home(c.userKey, None))
  }

  /** The client a stream's subscription made, if it is still registered. */
  predicate Live(s: Service, stream: nat) {
    && stream in s.homes
    && var h := s.homes[stream];
       if h.address.Some? then Client(stream, h.userKey) in SetAt(s.registry.borrowers, h.address.value)
       else Client(stream, h.userKey) in s.registry.admins
  }

  /** A user's set holds exactly that user's registered clients and the ones a failed broadcast left behind. */
  ghost predicate Slots(s: Service) {
    && (forall k <- s.registry.users :: s.registry.users[k] != {})
    && (forall k, stream :: stream in SetAt(s.registry.users, k) <==>
          stream in s.homes && s.homes[stream].userKey == k && (Live(s, stream) || stream in s.dropped))
  }

  ghost predicate Inv(s: Service) {
    && AtHome(s)
    && Slots(s)
    && (!NoClients(s.registry) ==> s.registry.heartbeat)
    && (forall stream <- s.dropped :: stream in s.homes && !Live(s, stream))
  }

  lemma FreshInv()
    ensures Inv(FRESH) && WithinLimit(FRESH.registry)
  {
  }

  lemma DroppedAt<T>(m: map<string, set<T>>, key: string, x: T)
    ensures forall k :: SetAt(Dropped(m, key, x), k) == if k == key then SetAt(m, k) - {x} else SetAt(m, k)
    ensures (forall k <- m :: m[k] != {}) ==> forall k <- Dropped(m, key, x) :: Dropped(m, key, x)[k] != {}
  {
  }

  lemma SubscribeLive(s: Service, home: Home, stream: nat)
    requires stream !in s.homes
    ensures forall x <- Apply(s, OpSubscribe(home, stream)).homes ::
              Live(Apply(s, OpSubscribe(home, stream)), x) <==> Live(s, x) || x == stream
  {
  }

  lemma SubscribeAtHome(s: Service, home: Home, stream: nat)
    requires AtHome(s) && stream !in s.homes
    ensures AtHome(Apply(s, OpSubscribe(home, stream)))
  {
  }

  lemma SubscribeUsers(s: Service, home: Home, stream: nat)
    ensures var t := Apply(s, OpSubscribe(home, stream));
            && (forall k :: SetAt(t.registry.users, k) == SetAt(s.registry.users, k) + if k == home.userKey then {stream} else {})
            && (forall k <- t.registry.users :: t.registry.users[k] == {} ==> k in s.registry.users && s.registry.users[k] == {})
  {
  }

  /** A subscription registers its own client and touches no other. */
  lemma SubscribeKeeps(s: Service, home: Home, stream: nat)
    requires Inv(s) && stream !in s.homes
    ensures Inv(Apply(s, OpSubscribe(home, stream)))
    ensures forall x <- Apply(s, OpSubscribe(home, stream)).homes ::
              Live(Apply(s, OpSubscribe(home, stream)), x) <==> Live(s, x) || x == stream
  {
    SubscribeLive(s, home, stream);
    SubscribeAtHome(s, home, stream);
    SubscribeUsers(s, home, stream);
    hide Live, AtHome, SetAt, NoClients;
  }

  /** A closure removes its own client and no other, and stops the timer when nobody is left. */
  lemma UnsubscribeKeeps(s: Service, stream: nat)
    requires Inv(s) && stream in s.homes
    ensures Inv(Apply(s, OpUnsubscribe(stream)))
    ensures forall x <- s.homes :: Live(Apply(s, OpUnsubscribe(stream)), x) <==> Live(s, x) && x != stream
    ensures NoClients(Apply(s, OpUnsubscribe(stream)).registry) ==> !Apply(s, OpUnsubscribe(stream)).registry.heartbeat
  {
    var t := Apply(s, OpUnsubscribe(stream));
    var home := s.homes[stream];
    DroppedAt(s.registry.users, home.userKey, stream);
    if home.address.Some? { DroppedAt(s.registry.borrowers, home.address.value, Client(stream, home.userKey)); }
    hide Dropped;
    forall x | x in s.homes ensures Live(t, x) <==> Live(s, x) && x != stream { }
    assert AtHome(t);
    hide Live, AtHome;
  }

  /** A broadcast removes exactly those of its audience whose write fails. */
  lemma BroadcastKeeps(s: Service, address: Option<string>, failing: set<nat>)
    requires Inv(s)
    ensures Inv(Apply(s, OpBroadcast(address, failing)))
    ensures forall x <- s.homes :: Live(Apply(s, OpBroadcast(address, failing)), x) <==>
              Live(s, x) && !(x in failing && exists c <- Audience(s.registry, address) :: c.stream == x)
  {
    var t := Apply(s, OpBroadcast(address, failing));
    var lost := set c | c in Audience(s.registry, address) && c.stream in failing :: c.stream;
    forall x | x in s.homes ensures Live(t, x) <==> Live(s, x) && x !in lost { }
    assert AtHome(t);
    hide Live, AtHome;
  }

  lemma RemoveClientKeeps(s: Service, c: Client)
    requires Inv(s) && Registered(s.registry, c)
    ensures Inv(s.(registry := RemoveClient(s.registry, c)))
    ensures forall d :: Registered(RemoveClient(s.registry, c), d) <==> Registered(s.registry, d) && d != c
  {
    var t := s.(registry := RemoveClient(s.registry, c));
    DroppedAt(s.registry.users, c.userKey, c.stream);
    hide Dropped;
    forall x | x in s.homes ensures Live(t, x) <==> Live(s, x) && x != c.stream { }
  }

  /** A heartbeat removes exactly the clients whose write fails, whatever the order it visits them in. */
  lemma {:induction false} BeatRemovesTheFailing(s: Service, clients: seq<Client>, failing: set<nat>)
    requires Inv(s) && NoRepeats(clients) && forall c <- clients :: Registered(s.registry, c)
    ensures Inv(s.(registry := Beat(s.registry, clients, failing)))
    ensures forall d :: Registered(Beat(s.registry, clients, failing), d)
                   <==> Registered(s.registry, d) && !(d in clients && d.stream in failing)
    ensures Beat(s.registry, clients, failing).heartbeat == s.registry.heartbeat
  {
    hide Inv, Registered, RemoveClient;
    if clients != [] {
      var init, c := clients[..|clients| - 1], clients[|clients| - 1];
      assert clients == init + [c];
      BeatRemovesTheFailing(s, init, failing);
      var before := Beat(s.registry, init, failing);
      if c.stream in failing {
        RemoveClientKeeps(s.(registry := before), c);
        RemoveClientTimer(before, c);
      }
    }
  }

  lemma RemoveClientTimer(r: Registry, c: Client)
    ensures RemoveClient(r, c).heartbeat == r.heartbeat
  {
  }

  lemma StepKeeps(s: Service, op: Op)
    requires Inv(s) && Enabled(s, op)
    ensures Inv(Apply(s, op))
  {
    match op
    case OpSubscribe(home, stream) => SubscribeKeeps(s, home, stream);
    case OpUnsubscribe(stream) => UnsubscribeKeeps(s, stream);
    case OpBroadcast(address, failing) => BroadcastKeeps(s, address, failing);
    case OpHeartbeat(clients, failing) => BeatRemovesTheFailing(s, clients, failing);
    case OpCloseAll =>
  }

  /**
   * Over every sequence of operations on distinct streams: every registered client is in its user's set, no user set
   * is empty, and a registry that is not empty has its heartbeat running.
   */
  lemma {:induction false} RunKeepsInv(s: Service, ops: seq<Op>, t: Service)
    requires Inv(s) && Run(s, ops, t)
    ensures Inv(t)
    ensures forall c :: Registered(t.registry, c) ==> c.stream in SetAt(t.registry.users, c.userKey)
    ensures forall k <- t.registry.users :: t.registry.users[k] != {}
    ensures !NoClients(t.registry) ==> t.registry.heartbeat
    decreases |ops|
  {
    if ops == [] {
      RegisteredIsLive(t);
    } else {
      StepKeeps(s, ops[0]);
      RunKeepsInv(Apply(s, ops[0]), ops[1..], t);
    }
  }

  lemma RegisteredIsLive(s: Service)
    requires Inv(s)
    ensures forall c :: Registered(s.registry, c) ==> Live(s, c.stream) && s.homes[c.stream].userKey == c.userKey
    ensures forall c :: Registered(s.registry, c) ==> c.stream in SetAt(s.registry.users, c.userKey)
  {
    forall c | Registered(s.registry, c)
      ensures Live(s, c.stream) && s.homes[c.stream].userKey == c.userKey && c.stream in SetAt(s.registry.users, c.userKey)
    {
      if c !in s.registry.admins {
        var a :| a in s.registry.borrowers && c in s.registry.borrowers[a];
      }
    }
  }

  /** Calling the returned closure again changes nothing. */
  lemma UnsubscribeTwice(r: Registry, home: Home, stream: nat)
    ensures Unsubscribe(Unsubscribe(r, home, stream), home, stream) == Unsubscribe(r, home, stream)
  {
    var c := Client(stream, home.userKey);
    if home.address.Some? { DroppedTwice(r.borrowers, home.address.value, c); }
    DroppedTwice(r.users, home.userKey, stream);
  }

  lemma DroppedTwice<T>(m: map<string, set<T>>, key: string, x: T)
    ensures Dropped(Dropped(m, key, x), key, x) == Dropped(m, key, x)
  {
    if key in m && m[key] - {x} != {} {
      assert m[key] - {x} - {x} == m[key] - {x};
      assert Dropped(m, key, x)[key := m[key] - {x}] == Dropped(m, key, x);
    }
  }

  // ---------- the limit per user ----------

  predicate WithinLimit(r: Registry) {
    forall k <- r.users :: |r.users[k]| <= MAX_CONNECTIONS_PER_USER
  }

  /** Each subscription happens in the state in which canOpenConnection has just said yes. */
  predicate CheckedFirst(s: Service, op: Op) {
    op.OpSubscribe? ==> CanOpen(s.registry, op.home.userKey)
  }

  ghost predicate CheckedRun(s: Service, ops: seq<Op>, t: Service)
    decreases |ops|
  {
    if ops == [] then t == s else Enabled(s, ops[0]) && CheckedFirst(s, ops[0]) && CheckedRun(Apply(s, ops[0]), ops[1..], t)
  }

  lemma {:induction false} BeatLeavesUsersSmaller(r: Registry, clients: seq<Client>, failing: set<nat>)
    requires WithinLimit(r)
    ensures WithinLimit(Beat(r, clients, failing))
  {
    if clients != [] {
      var c := clients[|clients| - 1];
      BeatLeavesUsersSmaller(r, clients[..|clients| - 1], failing);
      SmallerSets(Beat(r, clients[..|clients| - 1], failing).users, c.userKey, c.stream);
    }
  }

  lemma SmallerSets(m: map<string, set<nat>>, key: string, x: nat)
    ensures forall k <- Dropped(m, key, x) :: k in m && |Dropped(m, key, x)[k]| <= |m[k]|
  {
    if key in m { Smaller(m[key] - {x}, m[key]); }
  }

  lemma Smaller<T>(a: set<T>, b: set<T>)
    requires a <= b
    ensures |a| <= |b|
  {
    assert b == a + (b - a);
  }

  /** No operation but a subscription gives a user another connection. */
  lemma OthersStayWithinLimit(s: Service, op: Op)
    requires WithinLimit(s.registry) && Enabled(s, op) && !op.OpSubscribe?
    ensures WithinLimit(Apply(s, op).registry)
  {
    match op
    case OpUnsubscribe(stream) => SmallerSets(s.registry.users, s.homes[stream].userKey, stream);
    case OpBroadcast(_, _) =>
    case OpHeartbeat(clients, failing) => BeatLeavesUsersSmaller(s.registry, clients, failing);
    case OpCloseAll =>
  }

  /** A subscription keeps the limit if and only if its user could open another connection at that very moment. */
  lemma SubscribeWithinLimitIff(s: Service, home: Home, stream: nat)
    requires Inv(s) && stream !in s.homes && WithinLimit(s.registry)
    ensures WithinLimit(Apply(s, OpSubscribe(home, stream)).registry) <==> CanOpen(s.registry, home.userKey)
  {
    var t := Apply(s, OpSubscribe(home, stream));
    var slots := SetAt(s.registry.users, home.userKey);
    assert stream !in slots;
    assert t.registry.users[home.userKey] == slots + {stream} && |slots + {stream}| == |slots| + 1;
    assert forall k <- t.registry.users :: k != home.userKey ==> k in s.registry.users && t.registry.users[k] == s.registry.users[k];
  }

  /** At every moment of the run. */
  ghost predicate AlwaysWithinLimit(s: Service, ops: seq<Op>)
    decreases |ops|
  {
    WithinLimit(s.registry) && (ops != [] && Enabled(s, ops[0]) ==> AlwaysWithinLimit(Apply(s, ops[0]), ops[1..]))
  }

  /** Over every run: no user ever exceeds three connections if and only if every subscription happens while
      canOpenConnection holds. */
  lemma {:induction false} LimitHoldsIff(s: Service, ops: seq<Op>, t: Service)
    requires Inv(s) && WithinLimit(s.registry) && Run(s, ops, t)
    ensures AlwaysWithinLimit(s, ops) <==> CheckedRun(s, ops, t)
    decreases |ops|
  {
    if ops != [] {
      var op := ops[0];
      StepKeeps(s, op);
      if op.OpSubscribe? {
        SubscribeWithinLimitIff(s, op.home, op.stream);
      } else {
        OthersStayWithinLimit(s, op);
      }
      hide Inv, WithinLimit, CanOpen, Enabled;
      if WithinLimit(Apply(s, op).registry) { LimitHoldsIff(Apply(s, op), ops[1..], t); }
    }
  }

  /** With check and subscription in one step no user ever holds more than three connections, whatever the start. */
  lemma {:induction false} CheckedRunsStayWithinLimit(s: Service, ops: seq<Op>, t: Service)
    requires WithinLimit(s.registry) && CheckedRun(s, ops, t)
    ensures WithinLimit(t.registry)
    decreases |ops|
  {
    if ops != [] {
      if !ops[0].OpSubscribe? { OthersStayWithinLimit(s, ops[0]); }
      CheckedRunsStayWithinLimit(Apply(s, ops[0]), ops[1..], t);
    }
  }

  // ---------- what a failed broadcast leaves behind ----------

  /** Its slot stays taken through every later operation but the closing of its own connection or of all of them. */
  lemma {:induction false} DroppedSlotStaysTaken(s: Service, stream: nat, ops: seq<Op>, t: Service)
    requires Inv(s) && stream in s.dropped && Run(s, ops, t)
    requires forall i | 0 <= i < |ops| :: ops[i] != OpUnsubscribe(stream) && ops[i] != OpCloseAll
    ensures stream in t.dropped && !Live(t, stream) && stream in SetAt(t.registry.users, s.homes[stream].userKey)
    decreases |ops|
  {
    if ops != [] {
      StepKeeps(s, ops[0]);
      DroppedSlotStaysTaken(Apply(s, ops[0]), stream, ops[1..], t);
    }
  }
}
