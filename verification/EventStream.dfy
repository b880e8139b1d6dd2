/**
 * The event stream service itself: three registries and a timer, changed in place
 * (backend/src/services/eventStreamService.ts:43-311), each method proved against EventStreamSpec.
 */
module EventStream {
  import opened Common
  import opened EventStreamSpec

  /** Every borrower's clients and the admins, each client in one registry only. */
  predicate OneRegistryEach(r: Registry) {
    && (forall a <- r.borrowers, b <- r.borrowers, c <- r.borrowers[a] :: c in r.borrowers[b] ==> a == b)
    && (forall a <- r.borrowers, c <- r.borrowers[a] :: c !in r.admins)
  }

  /** It follows from the invariant of every run. */
  lemma InvKeepsRegistriesApart(s: Service)
    requires Inv(s)
    ensures OneRegistryEach(s.registry)
  {
    var b := s.registry.borrowers;
    forall x, y, c: Client | x in b && y in b && c in b[x] && c in b[y] ensures x == y {
      assert s.homes[c.stream] == Home(c.userKey, Some(x));
    }
  }

  /** The clients of a borrower not yet seen are none of those already counted. */
  lemma Apart(r: Registry, seen: map<string, set<Client>>, a: string)
    requires OneRegistryEach(r) && a in r.borrowers && a !in seen
    requires forall b <- seen :: b in r.borrowers && seen[b] == r.borrowers[b]
    ensures Union(seen) !! r.borrowers[a]
  {
  }

  lemma CountAll(r: Registry)
    requires OneRegistryEach(r)
    ensures |Union(r.borrowers) + r.admins| == |Union(r.borrowers)| + |r.admins|
  {
    assert Union(r.borrowers) !! r.admins;
  }

  function Union(m: map<string, set<Client>>): (all: set<Client>)
    ensures all == {} <==> forall a <- m :: m[a] == {}
  {
    assert forall a <- m, c <- m[a] :: c in set a, c | a in m && c in m[a] :: c;
    set a, c | a in m && c in m[a] :: c
  }

  class EventStreamService {
    var borrowerClients: map<string, set<Client>>
    var adminClients: set<Client>
    var userClients: map<string, set<nat>>
    var heartbeatTimer: bool

    function State(): Registry
      reads this
    {
      Registry(borrowerClients, adminClients, userClients, heartbeatTimer)
    }

    constructor ()
      ensures State() == EMPTY
    {
      borrowerClients, adminClients, userClients, heartbeatTimer := map[], {}, map[], false;
    }

    method SubscribeAddress(userKey: string, address: string, stream: nat)
      modifies this
      ensures State() == Subscribe(old(State()), Home(userKey, Some(address)), stream)
    {
      if address !in borrowerClients {
        borrowerClients := borrowerClients[address := {}];
      }
      borrowerClients := borrowerClients[address := borrowerClients[address] + {Client(stream, userKey)}];
      RegisterUserClient(userKey, stream);
      heartbeatTimer := true;
    }

    method SubscribeAll(userKey: string, stream: nat)
      modifies this
      ensures State() == Subscribe(old(State()), Home(userKey, None), stream)
    {
      adminClients := adminClients + {Client(stream, userKey)};
      RegisterUserClient(userKey, stream);
      heartbeatTimer := true;
    }

    method RegisterUserClient(userKey: string, stream: nat)
      modifies this`userClients
      ensures userClients == old(userClients)[userKey := SetAt(old(userClients), userKey) + {stream}]
    {
      if userKey !in userClients {
        userClients := userClients[userKey := {}];
      }
      userClients := userClients[userKey := userClients[userKey] + {stream}];
    }

    method UnregisterUserClient(userKey: string, stream: nat)
      modifies this`userClients
      ensures userClients == Dropped(old(userClients), userKey, stream)
    {
      if userKey !in userClients { return; }
      userClients := userClients[userKey := userClients[userKey] - {stream}];
      if userClients[userKey] == {} {
        userClients := userClients - {userKey};
      }
    }

    method StopHeartbeatIfEmpty()
      modifies this`heartbeatTimer
      ensures heartbeatTimer == (old(heartbeatTimer) && !NoClients(old(State())))
    {
      hide NoClients, OneRegistryEach, Union;
      var _, _, total := GetConnectionCount();
      if total == 0 {
        heartbeatTimer := false;
      }
    }

    /** The function SubscribeAddress returns. */
    method UnsubscribeAddress(userKey: string, address: string, stream: nat)
      modifies this
      ensures State() == Unsubscribe(old(State()), Home(userKey, Some(address)), stream)
    {
      hide NoClients;
      if address in borrowerClients {
        borrowerClients := borrowerClients[address := borrowerClients[address] - {Client(stream, userKey)}];
        if borrowerClients[address] == {} {
          borrowerClients := borrowerClients - {address};
        }
      }
      assert borrowerClients == Dropped(old(borrowerClients), address, Client(stream, userKey));
      UnregisterUserClient(userKey, stream);
      hide Dropped;
      StopHeartbeatIfEmpty();
    }

    /** The function SubscribeAll returns. */
    method UnsubscribeAll(userKey: string, stream: nat)
      modifies this
      ensures State() == Unsubscribe(old(State()), Home(userKey, None), stream)
    {
      hide NoClients;
      adminClients := adminClients - {Client(stream, userKey)};
      UnregisterUserClient(userKey, stream);
      hide Dropped;
      StopHeartbeatIfEmpty();
    }

    /** Counts every client once. */
    method GetConnectionCount() returns (borrower: nat, admin: nat, total: nat)
      ensures total == borrower + admin && admin == |adminClients|
      ensures total == 0 <==> NoClients(State())
      ensures OneRegistryEach(State()) ==> total == |Union(borrowerClients) + adminClients|
    {
      hide OneRegistryEach, Union;
      borrower, admin := 0, |adminClients|;
      var todo := borrowerClients.Keys;
      var seen: map<string, set<Client>> := map[];
      while todo != {}
        invariant todo <= borrowerClients.Keys
        invariant seen == map a | a in borrowerClients && a !in todo :: borrowerClients[a]
        invariant borrower == 0 <==> Union(seen) == {}
        invariant OneRegistryEach(State()) ==> borrower == |Union(seen)|
      {
        assert (forall a :: a !in todo) ==> todo == {};
        var a :| a in todo;
        UnionGrows(seen, a, borrowerClients[a]);
        if OneRegistryEach(State()) { Apart(State(), seen, a); }
        assert |borrowerClients[a]| == 0 <==> borrowerClients[a] == {};
        todo, seen, borrower := todo - {a}, seen[a := borrowerClients[a]], borrower + |borrowerClients[a]|;
      }
      assert seen == borrowerClients;
      if OneRegistryEach(State()) { CountAll(State()); }
      total := borrower + admin;
    }

    method RemoveOne(c: Client)
      modifies this
      ensures State() == RemoveClient(old(State()), c)
    {
      ghost var before := borrowerClients;
      var todo := borrowerClients.Keys;
      while todo != {}
        invariant todo <= borrowerClients.Keys <= before.Keys
        invariant forall a <- before ::
                    (a in borrowerClients <==> a in todo || before[a] - {c} != {})
                    && (a in borrowerClients ==> borrowerClients[a] == if a in todo then before[a] else before[a] - {c})
        invariant adminClients == old(adminClients) && userClients == old(userClients) && heartbeatTimer == old(heartbeatTimer)
      {
        assert (forall a :: a !in todo) ==> todo == {};
        var a :| a in todo;
        todo := todo - {a};
        borrowerClients := borrowerClients[a := borrowerClients[a] - {c}];
        if borrowerClients[a] == {} {
          borrowerClients := borrowerClients - {a};
        }
      }
      assert borrowerClients == RemoveClient(old(State()), c).borrowers;
      adminClients := adminClients - {c};
      UnregisterUserClient(c.userKey, c.stream);
    }

    /** Everyone registered, once each. */
    method CollectAllClients() returns (all: seq<Client>)
      ensures forall c :: c in all <==> Registered(State(), c)
      ensures OneRegistryEach(State()) ==> NoRepeats(all)
    {
      hide OneRegistryEach, Union;
      all := [];
      var todo := borrowerClients.Keys;
      ghost var seen: map<string, set<Client>> := map[];
      while todo != {}
        invariant todo <= borrowerClients.Keys
        invariant seen == map a | a in borrowerClients && a !in todo :: borrowerClients[a]
        invariant forall c :: c in all <==> c in Union(seen)
        invariant OneRegistryEach(State()) ==> NoRepeats(all)
      {
        assert (forall a :: a !in todo) ==> todo == {};
        var a :| a in todo;
        UnionGrows(seen, a, borrowerClients[a]);
        if OneRegistryEach(State()) { Apart(State(), seen, a); }
        var some := Elements(borrowerClients[a]);
        if OneRegistryEach(State()) { NoRepeatsConcat(all, some); }
        all, todo, seen := all + some, todo - {a}, seen[a := borrowerClients[a]];
      }
      assert seen == borrowerClients;
      UnionIsRegistered(State());
      var admins := Elements(adminClients);
      if OneRegistryEach(State()) { NoRepeatsConcat(all, admins); }
      all := all + admins;
    }

    /** The timer's callback: a ping to everyone, and removal where the write throws. */
    method Heartbeat(failing: set<nat>) returns (ghost clients: seq<Client>)
      requires OneRegistryEach(State())
      modifies this
      ensures Collects(old(State()), clients)
      ensures State() == Beat(old(State()), clients, failing)
    {
      var all := CollectAllClients();
      clients := all;
      var i := 0;
      while i < |all|
        invariant i <= |all|
        invariant State() == Beat(old(State()), all[..i], failing)
      {
        if all[i].stream in failing {
          RemoveOne(all[i]);
        }
        i := i + 1;
        assert all[..i][..i - 1] == all[..i - 1];
      }
      assert all[..i] == all;
    }

    /** Sends the event to its borrower's clients and to the admins; `sent` are the writes that went through. */
    method Broadcast(address: Option<string>, failing: set<nat>) returns (sent: seq<Client>)
      modifies this
      ensures State() == EventStreamSpec.Broadcast(old(State()), address, failing)
      ensures forall c :: c in sent <==> c in Audience(old(State()), address) && c.stream !in failing
      ensures OneRegistryEach(old(State())) ==> NoRepeats(sent)
    {
      ghost var before := State();
      sent := [];
      if address.Some? && address.value != "" {
        if address.value in borrowerClients && borrowerClients[address.value] != {} {
          var kept := SendToEach(borrowerClients[address.value], failing);
          sent := kept;
          borrowerClients := borrowerClients[address.value := Writable(borrowerClients[address.value], failing)];
        }
      }
      assert Writable({}, failing) == {};
      assert forall m: map<string, set<Client>>, a :: a in m ==> m[a := m[a]] == m;
      assert borrowerClients == EventStreamSpec.Broadcast(before, address, failing).borrowers;
      var admins := SendToEach(adminClients, failing);
      if OneRegistryEach(before) { NoRepeatsConcat(sent, admins); }
      sent := sent + admins;
      adminClients := Writable(adminClients, failing);
    }

    /** A shutdown message and the end of the response for everyone, then three empty registries and no timer. */
    method CloseAllConnections() returns (ended: seq<Client>)
      modifies this
      ensures State() == EMPTY
      ensures forall c :: c in ended <==> Registered(old(State()), c)
      ensures OneRegistryEach(old(State())) ==> NoRepeats(ended)
    {
      heartbeatTimer := false;
      ended := CollectAllClients();
      borrowerClients, adminClients, userClients := map[], {}, map[];
    }
  }

  /** The write loop: those whose write did not throw. */
  method SendToEach(cs: set<Client>, failing: set<nat>) returns (sent: seq<Client>)
    ensures NoRepeats(sent) && forall c :: c in sent <==> c in Writable(cs, failing)
  {
    sent := [];
    var todo := cs;
    while todo != {}
      invariant todo <= cs
      invariant NoRepeats(sent) && forall c :: c in sent <==> c in Writable(cs - todo, failing)
    {
      assert (forall c :: c !in todo) ==> todo == {};
      var c :| c in todo;
      assert c !in sent;
      todo := todo - {c};
      if c.stream !in failing { sent := sent + [c]; }
    }
  }

  lemma NoRepeatsConcat<T>(a: seq<T>, b: seq<T>)
    requires NoRepeats(a) && NoRepeats(b) && forall x <- a :: x !in b
    ensures NoRepeats(a + b)
  {
    forall i, j | 0 <= i < j < |a + b| ensures (a + b)[i] != (a + b)[j] {
      if i < |a| <= j { assert a[i] in a && b[j - |a|] in b; }
    }
  }

  method Elements(cs: set<Client>) returns (xs: seq<Client>)
    ensures NoRepeats(xs) && forall c :: c in xs <==> c in cs
  {
    xs := SendToEach(cs, {});
  }

  lemma UnionIsRegistered(r: Registry)
    ensures forall c :: c in Union(r.borrowers) || c in r.admins <==> Registered(r, c)
    ensures OneRegistryEach(r) ==> Union(r.borrowers) !! r.admins
  {
  }

  lemma UnionGrows(m: map<string, set<Client>>, a: string, cs: set<Client>)
    requires a !in m
    ensures Union(m[a := cs]) == Union(m) + cs
    ensures Union(m) !! cs ==> |Union(m[a := cs])| == |Union(m)| + |cs|
  {
    var grown := m[a := cs];
    forall c | c in Union(m) + cs ensures c in Union(grown) {
      if c in Union(m) {
        var b :| b in m && c in m[b];
        assert b in grown && c in grown[b];
      } else {
        assert a in grown && c in grown[a];
      }
    }
  }
}
