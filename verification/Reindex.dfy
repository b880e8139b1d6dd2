/**
 * Range processing of the event indexer (backend/src/services/eventIndexer.ts): paged fetch,
 * processChunk, reindexRange and pollOnce for one indexer at a time on a stable chain log.
 */
module Reindex {
  import opened Common
  import opened EventTable
  import opened Scores
  import opened ScoreEvents
  import opened Transaction
  import opened EventStore

  predicate SortedByLedger(log: seq<Event>) {
    forall i, j | 0 <= i < j < |log| :: log[i].ledger <= log[j].ledger
  }

  /** The chain events of the ledgers lo..hi, in log order. */
  function EventsIn(log: seq<Event>, lo: int, hi: int): seq<Event> {
    if log == [] then []
    else (if lo <= log[0].ledger <= hi then [log[0]] else []) + EventsIn(log[1..], lo, hi)
  }

  // ---------- list lemmas ----------

  lemma {:induction false} EventsInAppend(xs: seq<Event>, ys: seq<Event>, lo: int, hi: int)
    ensures EventsIn(xs + ys, lo, hi) == EventsIn(xs, lo, hi) + EventsIn(ys, lo, hi)
  {
    if xs == [] {
      assert xs + ys == ys;
    } else {
      assert (xs + ys)[1..] == xs[1..] + ys;
      EventsInAppend(xs[1..], ys, lo, hi);
    }
  }

  lemma {:induction false} EventsInNone(log: seq<Event>, lo: int, hi: int)
    requires forall i | 0 <= i < |log| :: !(lo <= log[i].ledger <= hi)
    ensures EventsIn(log, lo, hi) == []
  {
    if log != [] {
      EventsInNone(log[1..], lo, hi);
    }
  }

  lemma {:induction false} EventsInMembers(log: seq<Event>, lo: int, hi: int)
    ensures forall e :: e in EventsIn(log, lo, hi) <==> e in log && lo <= e.ledger <= hi
    ensures SortedByLedger(log) ==> SortedByLedger(EventsIn(log, lo, hi))
  {
    if log != [] {
      EventsInMembers(log[1..], lo, hi);
      var rest := EventsIn(log[1..], lo, hi);
      if SortedByLedger(log) {
        forall e | e in rest ensures log[0].ledger <= e.ledger {
          var i :| 0 <= i < |log[1..]| && log[1..][i] == e;
          assert log[i + 1] == e;
        }
        var all := EventsIn(log, lo, hi);
        forall i, j | 0 <= i < j < |all| ensures all[i].ledger <= all[j].ledger {
          assert all[j] in rest;
        }
      }
    }
  }

  lemma EventsInCons(log: seq<Event>, lo: int, hi: int)
    requires log != []
    ensures EventsIn(log, lo, hi) ==
            if lo <= log[0].ledger <= hi then [log[0]] + EventsIn(log[1..], lo, hi) else EventsIn(log[1..], lo, hi)
  {
    assert [] + EventsIn(log[1..], lo, hi) == EventsIn(log[1..], lo, hi);
  }

  lemma AssocEvents(a: seq<Event>, b: seq<Event>, c: seq<Event>)
    ensures (a + b) + c == a + (b + c)
  {
  }

  lemma SortedTail(log: seq<Event>)
    requires SortedByLedger(log) && log != []
    ensures SortedByLedger(log[1..])
    ensures forall i | 0 <= i < |log[1..]| :: log[0].ledger <= log[1..][i].ledger
  {
  }

  /** On a sorted log, two adjacent ranges are fetched in order. */
  lemma {:induction false} EventsInSplit(log: seq<Event>, lo: int, mid: int, hi: int)
    requires SortedByLedger(log) && lo <= mid + 1 && mid <= hi
    ensures EventsIn(log, lo, hi) == EventsIn(log, lo, mid) + EventsIn(log, mid + 1, hi)
  {
    if log != [] {
      hide EventsIn, SortedByLedger;
      var rest, first := log[1..], log[0];
      SortedTail(log);
      EventsInSplit(rest, lo, mid, hi);
      EventsInCons(log, lo, mid);
      EventsInCons(log, mid + 1, hi);
      EventsInCons(log, lo, hi);
      var a, b := EventsIn(rest, lo, mid), EventsIn(rest, mid + 1, hi);
      if lo <= first.ledger <= mid {
        assert EventsIn(log, mid + 1, hi) == b;
        AssocEvents([first], a, b);
      } else if mid + 1 <= first.ledger <= hi {
        EventsInNone(rest, lo, mid);
        assert EventsIn(log, lo, mid) == [] && [] + b == b && [] + ([first] + b) == [first] + b;
      }
    }
  }

  lemma {:induction false} ParsedRowsAppend(parse: Parser, xs: seq<Event>, ys: seq<Event>)
    ensures ParsedRows(parse, xs + ys) == ParsedRows(parse, xs) + ParsedRows(parse, ys)
  {
    if xs == [] {
      assert xs + ys == ys;
    } else {
      assert (xs + ys)[1..] == xs[1..] + ys;
      ParsedRowsAppend(parse, xs[1..], ys);
      var first := match parse(xs[0]) case Parsed(r) => [r] case _ => [];
      AppendAssoc(first, ParsedRows(parse, xs[1..]), ParsedRows(parse, ys));
    }
  }

  lemma {:induction false} QuarantinedAppend(parse: Parser, q: map<string, Event>, xs: seq<Event>, ys: seq<Event>)
    ensures Quarantined(parse, q, xs + ys) == Quarantined(parse, Quarantined(parse, q, xs), ys)
    decreases |xs|
  {
    if xs == [] {
      assert xs + ys == ys;
    } else {
      assert (xs + ys)[1..] == xs[1..] + ys;
      var q' := if parse(xs[0]).Throws? && xs[0].id !in q then q[xs[0].id := xs[0]] else q;
      QuarantinedAppend(parse, q', xs[1..], ys);
    }
  }

  /** Afterwards every event that throws is in quarantine, and nothing is lost from it. */
  lemma {:induction false} QuarantinedCovers(parse: Parser, q: map<string, Event>, events: seq<Event>)
    ensures forall e <- events :: parse(e).Throws? ==> e.id in Quarantined(parse, q, events)
    ensures forall id <- q :: id in Quarantined(parse, q, events) && Quarantined(parse, q, events)[id] == q[id]
    decreases |events|
  {
    if events != [] {
      var q' := if parse(events[0]).Throws? && events[0].id !in q then q[events[0].id := events[0]] else q;
      QuarantinedCovers(parse, q', events[1..]);
    }
  }

  // ---------- specification of a chunk and of a range ----------

  datatype Totals = Totals(fetchedEvents: nat, insertedEvents: nat)

  function StoreSpec(cfg: ScoreConfig, parse: Parser, db: Db, events: seq<Event>, faults: nat -> Fault): (Db, Outcome<nat>) {
    var q := Quarantined(parse, db.quarantine, events);
    var rows := ParsedRows(parse, events);
    if rows == [] then (db.(quarantine := q), Returned(0))
    else
      var r := Commit(cfg, rows, faults, UNDISTURBED, Store(db.table, db.scores));
      (Db(r.db.table, r.db.scores, q),
       match r.outcome case Returned(_) => Returned(|r.captured.insertedEvents|) case Threw(e) => Threw(e))
  }

  /** faults(first ledger of the chunk, attempt) */
  type FaultPlan = (int, nat) -> Fault

  function PlanFor(faults: FaultPlan, from: int): nat -> Fault {
    (n: nat) => faults(from, n)
  }

  function ReindexSpec(cfg: ScoreConfig, parse: Parser, log: seq<Event>, batchSize: nat, faults: FaultPlan,
                       from: int, to: int, db: Db): (Db, Outcome<Totals>)
    requires batchSize >= 1
    decreases (to - from)
  {
    if from > to then (db, Returned(Totals(0, 0)))
    else
      var end := Min(from + batchSize - 1, to);
      var events := EventsIn(log, from, end);
      var (db', o) := StoreSpec(cfg, parse, db, events, PlanFor(faults, from));
      if o.Threw? then (db', Threw(o.error))
      else
        Plus(Totals(|events|, o.value), ReindexSpec(cfg, parse, log, batchSize, faults, end + 1, to, db'))
  }

  /** The counters of one chunk added to the result of the remaining chunks. */
  function Plus(t: Totals, rest: (Db, Outcome<Totals>)): (Db, Outcome<Totals>) {
    (rest.0,
     match rest.1
     case Threw(e) => Threw(e)
     case Returned(r) =>
       Returned(Totals(t.fetchedEvents + r.fetchedEvents, t.insertedEvents + r.insertedEvents)))
  }

  /** The chunks the loop visits. */
  function Chunks(from: int, to: int, batchSize: nat): seq<(int, int)>
    requires batchSize >= 1
    decreases (to - from)
  {
    if from > to then []
    else var end := Min(from + batchSize - 1, to); [(from, end)] + Chunks(end + 1, to, batchSize)
  }

  function TimesCovered(chunks: seq<(int, int)>, ledger: int): nat {
    if chunks == [] then 0
    else (if chunks[0].0 <= ledger <= chunks[0].1 then 1 else 0) + TimesCovered(chunks[1..], ledger)
  }

  /** No gap and no overlap. */
  lemma {:induction false} EveryLedgerOnce(from: int, to: int, batchSize: nat, ledger: int)
    requires batchSize >= 1
    ensures TimesCovered(Chunks(from, to, batchSize), ledger) == if from <= ledger <= to then 1 else 0
    decreases (to - from)
  {
    if from <= to {
      EveryLedgerOnce(Min(from + batchSize - 1, to) + 1, to, batchSize, ledger);
    }
  }

  // ---------- batch-size independence ----------

  /** One chunk that returns, whatever failed on the way, is one clean insert of its events. */
  lemma ChunkDeterminesTable(cfg: ScoreConfig, parse: Parser, db: Db, events: seq<Event>, faults: nat -> Fault)
    ensures var (db', o) := StoreSpec(cfg, parse, db, events, faults);
            && db'.quarantine == Quarantined(parse, db.quarantine, events)
            && (o.Returned? ==> db'.table == db.table + Inserted(db.table, ParsedRows(parse, events)))
  {
    TableAfterCommit(cfg, ParsedRows(parse, events), faults, 0, Captured([], map[]), Store(db.table, db.scores));
    assert db.table + [] == db.table;
  }

  /** The rows of a range are the rows of its first chunk and then those of the rest. */
  lemma RangeRowsSplit(parse: Parser, log: seq<Event>, from: int, end: int, to: int, table: seq<Row>)
    requires SortedByLedger(log) && from <= end + 1 && end <= to
    ensures var head, tail := EventsIn(log, from, end), EventsIn(log, end + 1, to);
            var rows := ParsedRows(parse, head);
            && EventsIn(log, from, to) == head + tail
            && ParsedRows(parse, head + tail) == rows + ParsedRows(parse, tail)
            && Inserted(table, ParsedRows(parse, head + tail)) ==
               Inserted(table, rows) + Inserted(table + Inserted(table, rows), ParsedRows(parse, tail))
  {
    var head, tail := EventsIn(log, from, end), EventsIn(log, end + 1, to);
    EventsInSplit(log, from, end, to);
    ParsedRowsAppend(parse, head, tail);
    InsertedAppend(table, ParsedRows(parse, head), ParsedRows(parse, tail));
  }

  /** One turn of the loop. */
  lemma OneTurn(cfg: ScoreConfig, parse: Parser, log: seq<Event>, batchSize: nat, faults: FaultPlan, from: int, to: int, db: Db)
    returns (end: int, mid: Db, o: Outcome<nat>, rest: (Db, Outcome<Totals>))
    requires batchSize >= 1 && from <= to
    ensures end == Min(from + batchSize - 1, to)
    ensures (mid, o) == StoreSpec(cfg, parse, db, EventsIn(log, from, end), PlanFor(faults, from))
    ensures rest == ReindexSpec(cfg, parse, log, batchSize, faults, end + 1, to, mid)
    ensures ReindexSpec(cfg, parse, log, batchSize, faults, from, to, db) ==
            if o.Threw? then (mid, Threw(o.error)) else Plus(Totals(|EventsIn(log, from, end)|, o.value), rest)
  {
    hide StoreSpec, EventsIn;
    end := Min(from + batchSize - 1, to);
    var (m, r) := StoreSpec(cfg, parse, db, EventsIn(log, from, end), PlanFor(faults, from));
    mid, o := m, r;
    rest := ReindexSpec(cfg, parse, log, batchSize, faults, end + 1, to, mid);
  }

  /** Whatever the batch size and whatever attempts fail on the way, a range that is reindexed to
      the end leaves the table and quarantine of one clean insert of all its events. */
  lemma {:induction false} RangeDeterminesTable(
    cfg: ScoreConfig, parse: Parser, log: seq<Event>, batchSize: nat, faults: FaultPlan, from: int, to: int, db: Db)
    requires SortedByLedger(log) && batchSize >= 1
    ensures var (db', o) := ReindexSpec(cfg, parse, log, batchSize, faults, from, to, db);
            var events := EventsIn(log, from, to);
            o.Returned? ==>
              && db'.table == db.table + Inserted(db.table, ParsedRows(parse, events))
              && db'.quarantine == Quarantined(parse, db.quarantine, events)
              && o.value.fetchedEvents == |events|
    decreases (to - from)
  {
    if from > to {
      EmptyRange(parse, log, from, to, db);
    } else {
      hide StoreSpec, EventsIn, ParsedRows, Inserted, Quarantined, ReindexSpec;
      var end, mid, o, rest := OneTurn(cfg, parse, log, batchSize, faults, from, to, db);
      var head, tail := EventsIn(log, from, end), EventsIn(log, end + 1, to);
      var plan := PlanFor(faults, from);
      ChunkDeterminesTable(cfg, parse, db, head, plan);
      if o.Returned? {
        RangeDeterminesTable(cfg, parse, log, batchSize, faults, end + 1, to, mid);
        RangeRowsSplit(parse, log, from, end, to, db.table);
        QuarantinedAppend(parse, db.quarantine, head, tail);
        AppendAssoc(db.table, Inserted(db.table, ParsedRows(parse, head)), Inserted(mid.table, ParsedRows(parse, tail)));
      }
    }
  }

  lemma EmptyRange(parse: Parser, log: seq<Event>, from: int, to: int, db: Db)
    requires from > to
    ensures EventsIn(log, from, to) == []
    ensures db.table + Inserted(db.table, ParsedRows(parse, [])) == db.table
    ensures Quarantined(parse, db.quarantine, []) == db.quarantine
  {
    EventsInNone(log, from, to);
    assert db.table + [] == db.table;
  }

  lemma AppendAssoc(a: seq<Row>, b: seq<Row>, c: seq<Row>)
    ensures (a + b) + c == a + (b + c)
  {
  }

  lemma {:induction false} IdleCommit(
    cfg: ScoreConfig, rows: seq<Row>, faults: nat -> Fault, attempt: nat, d: Store)
    requires attempt <= MAX_RETRIES
    requires forall r <- rows :: Present(d.table, r)
    ensures var r := RunFrom(Attempts(cfg, rows, faults), UNDISTURBED, ALWAYS_CONNECTS, attempt, MAX_RETRIES,
                             BASE_DELAY_MS, Captured([], map[]), d);
            r.db == d && r.captured == Captured([], map[])
    decreases MAX_RETRIES - attempt
  {
    IdleAttempt(cfg, rows, faults(attempt), d);
    Transaction.FirstTurn(Attempts(cfg, rows, faults), UNDISTURBED, ALWAYS_CONNECTS, attempt, MAX_RETRIES,
                          BASE_DELAY_MS, Captured([], map[]), d);
    hide Callback, RunFrom, Present, Transient, Pow2;
    var a := Callback(cfg, rows, faults(attempt), Captured([], map[]), d);
    assert Settle(d, a) == d;
    if Retries(a, attempt, MAX_RETRIES) {
      IdleCommit(cfg, rows, faults, attempt + 1, d);
    }
  }

  /** An attempt that finds every row represented changes nothing, however it ends. */
  lemma IdleAttempt(cfg: ScoreConfig, rows: seq<Row>, fault: Fault, d: Store)
    requires forall r <- rows :: Present(d.table, r)
    ensures var a := Callback(cfg, rows, fault, Captured([], map[]), d);
            a.work == d && a.captured == Captured([], map[])
  {
    assert Reached(rows, fault) <= rows;
    InsertedNothing(d.table, Reached(rows, fault));
    assert d.table + [] == d.table;
    assert ApplyBulk(d.scores, map[]) == d.scores;
  }

  predicate RangeSettled(parse: Parser, db: Db, events: seq<Event>) {
    && (forall r <- ParsedRows(parse, events) :: Present(db.table, r))
    && (forall e <- events :: parse(e).Throws? ==> e.id in db.quarantine)
  }

  lemma {:induction false} QuarantinedNothing(parse: Parser, q: map<string, Event>, events: seq<Event>)
    requires forall e <- events :: parse(e).Throws? ==> e.id in q
    ensures Quarantined(parse, q, events) == q
    decreases |events|
  {
    if events != [] {
      QuarantinedNothing(parse, q, events[1..]);
    }
  }

  lemma IdleChunk(cfg: ScoreConfig, parse: Parser, db: Db, events: seq<Event>, faults: nat -> Fault)
    requires RangeSettled(parse, db, events)
    ensures var (db', o) := StoreSpec(cfg, parse, db, events, faults);
            db' == db && (o.Returned? ==> o.value == 0)
  {
    QuarantinedNothing(parse, db.quarantine, events);
    IdleCommit(cfg, ParsedRows(parse, events), faults, 0, Store(db.table, db.scores));
  }

  lemma SettledSplit(parse: Parser, db: Db, log: seq<Event>, from: int, end: int, to: int)
    requires SortedByLedger(log) && from <= end + 1 && end <= to
    requires RangeSettled(parse, db, EventsIn(log, from, to))
    ensures RangeSettled(parse, db, EventsIn(log, from, end)) && RangeSettled(parse, db, EventsIn(log, end + 1, to))
  {
    RangeRowsSplit(parse, log, from, end, to, db.table);
  }

  /** Reindexing what is already settled changes nothing at all, for any batch size and any fault. */
  lemma {:induction false} SecondRunIsIdle(
    cfg: ScoreConfig, parse: Parser, log: seq<Event>, batchSize: nat, faults: FaultPlan, from: int, to: int, db: Db)
    requires SortedByLedger(log) && batchSize >= 1
    requires RangeSettled(parse, db, EventsIn(log, from, to))
    ensures var (db', o) := ReindexSpec(cfg, parse, log, batchSize, faults, from, to, db);
            db' == db && (o.Returned? ==> o.value.insertedEvents == 0)
    decreases (to - from)
  {
    if from <= to {
      hide StoreSpec, EventsIn, RangeSettled, ReindexSpec;
      var end, mid, o, rest := OneTurn(cfg, parse, log, batchSize, faults, from, to, db);
      SettledSplit(parse, db, log, from, end, to);
      IdleChunk(cfg, parse, db, EventsIn(log, from, end), PlanFor(faults, from));
      SecondRunIsIdle(cfg, parse, log, batchSize, faults, end + 1, to, db);
    }
  }

  /** A completed run settles its range, so a second one is idle. */
  lemma ReindexIsIdempotent(
    cfg: ScoreConfig, parse: Parser, log: seq<Event>, from: int, to: int, db: Db,
    firstSize: nat, first: FaultPlan, secondSize: nat, second: FaultPlan)
    requires SortedByLedger(log) && firstSize >= 1 && secondSize >= 1
    requires ReindexSpec(cfg, parse, log, firstSize, first, from, to, db).1.Returned?
    ensures var db' := ReindexSpec(cfg, parse, log, firstSize, first, from, to, db).0;
            var (db'', o) := ReindexSpec(cfg, parse, log, secondSize, second, from, to, db');
            db'' == db' && (o.Returned? ==> o.value.insertedEvents == 0)
  {
    var db' := ReindexSpec(cfg, parse, log, firstSize, first, from, to, db).0;
    var events := EventsIn(log, from, to);
    RangeDeterminesTable(cfg, parse, log, firstSize, first, from, to, db);
    InsertedCovers(db.table, ParsedRows(parse, events));
    QuarantinedCovers(parse, db.quarantine, events);
    SecondRunIsIdle(cfg, parse, log, secondSize, second, from, to, db');
  }

  const NO_FAULTS: FaultPlan := (from: int, n: nat) => NoFault

  /** In no chunk does a clamp change user u's score. */
  ghost predicate NoClampBinds(cfg: ScoreConfig, parse: Parser, log: seq<Event>, batchSize: nat,
                               from: int, to: int, db: Db, u: string)
    requires batchSize >= 1
    decreases (to - from)
  {
    from > to ||
    (var end := Min(from + batchSize - 1, to);
     var events := EventsIn(log, from, end);
     var d := NetDelta(cfg, Inserted(db.table, ParsedRows(parse, events)), u);
     && Small(d) && ValidScore(ScoreOf(db.scores, u) + d)
     && NoClampBinds(cfg, parse, log, batchSize, end + 1, to,
                     StoreSpec(cfg, parse, db, events, PlanFor(NO_FAULTS, from)).0, u))
  }

  /** One clean chunk moves u by the net delta of the rows it inserts. */
  lemma ScoreAfterChunk(cfg: ScoreConfig, parse: Parser, db: Db, events: seq<Event>, faults: nat -> Fault, u: string)
    requires faults(0).NoFault? && u != ""
    requires ValidScore(ScoreOf(db.scores, u))
    ensures var rows := ParsedRows(parse, events);
            var added := Inserted(db.table, rows);
            var d := NetDelta(cfg, added, u);
            var (db', o) := StoreSpec(cfg, parse, db, events, faults);
            && o == Returned(|added|)
            && db'.table == db.table + added
            && (Small(d) && ValidScore(ScoreOf(db.scores, u) + d) ==> ScoreOf(db'.scores, u) == ScoreOf(db.scores, u) + d)
  {
    var rows := ParsedRows(parse, events);
    var added := Inserted(db.table, rows);
    var store := Store(db.table, db.scores);
    if rows != [] {
      CleanCommit(cfg, rows, faults, UNDISTURBED, store);
      AccumulateAt(cfg, map[], added, u);
      ApplyBulkAt(db.scores, Accumulate(cfg, map[], added), u);
    } else {
      assert db.table + [] == db.table;
    }
  }

  lemma NetDeltaOfRange(cfg: ScoreConfig, parse: Parser, log: seq<Event>, from: int, end: int, to: int,
                        table: seq<Row>, mid: seq<Row>, u: string)
    requires SortedByLedger(log) && from <= end + 1 && end <= to
    requires mid == table + Inserted(table, ParsedRows(parse, EventsIn(log, from, end)))
    ensures NetDelta(cfg, Inserted(table, ParsedRows(parse, EventsIn(log, from, to))), u) ==
            NetDelta(cfg, Inserted(table, ParsedRows(parse, EventsIn(log, from, end))), u) +
            NetDelta(cfg, Inserted(mid, ParsedRows(parse, EventsIn(log, end + 1, to))), u)
  {
    RangeRowsSplit(parse, log, from, end, to, table);
    NetDeltaAppend(cfg, Inserted(table, ParsedRows(parse, EventsIn(log, from, end))),
                   Inserted(mid, ParsedRows(parse, EventsIn(log, end + 1, to))), u);
  }

  /** The first chunk of a clean range: what it leaves (`mid`) and what is left to do. */
  lemma FirstChunk(cfg: ScoreConfig, parse: Parser, log: seq<Event>, batchSize: nat, from: int, to: int, db: Db, u: string)
    returns (end: int, mid: Db)
    requires batchSize >= 1 && u != "" && from <= to
    requires ValidScore(ScoreOf(db.scores, u))
    requires NoClampBinds(cfg, parse, log, batchSize, from, to, db, u)
    ensures from <= end <= to
    ensures var added := Inserted(db.table, ParsedRows(parse, EventsIn(log, from, end)));
            && mid.table == db.table + added
            && ScoreOf(mid.scores, u) == ScoreOf(db.scores, u) + NetDelta(cfg, added, u)
            && ValidScore(ScoreOf(mid.scores, u))
    ensures NoClampBinds(cfg, parse, log, batchSize, end + 1, to, mid, u)
    ensures var rest := ReindexSpec(cfg, parse, log, batchSize, NO_FAULTS, end + 1, to, mid);
            var all := ReindexSpec(cfg, parse, log, batchSize, NO_FAULTS, from, to, db);
            all.0 == rest.0 && all.1.Returned? == rest.1.Returned?
  {
    hide StoreSpec, EventsIn, ParsedRows, Inserted, NetDelta, ReindexSpec, ScoreOf;
    var o, rest;
    end, mid, o, rest := OneTurn(cfg, parse, log, batchSize, NO_FAULTS, from, to, db);
    ScoreAfterChunk(cfg, parse, db, EventsIn(log, from, end), PlanFor(NO_FAULTS, from), u);
  }

  lemma {:induction false} ScoreAfterRange(
    cfg: ScoreConfig, parse: Parser, log: seq<Event>, batchSize: nat, from: int, to: int, db: Db, u: string)
    requires SortedByLedger(log) && batchSize >= 1 && u != ""
    requires ValidScore(ScoreOf(db.scores, u))
    requires NoClampBinds(cfg, parse, log, batchSize, from, to, db, u)
    ensures var (db', o) := ReindexSpec(cfg, parse, log, batchSize, NO_FAULTS, from, to, db);
            && o.Returned?
            && ScoreOf(db'.scores, u) ==
               ScoreOf(db.scores, u) + NetDelta(cfg, Inserted(db.table, ParsedRows(parse, EventsIn(log, from, to))), u)
    decreases (to - from)
  {
    if from > to {
      EventsInNone(log, from, to);
    } else {
      var end, mid := FirstChunk(cfg, parse, log, batchSize, from, to, db, u);
      ScoreAfterRange(cfg, parse, log, batchSize, end + 1, to, mid, u);
      NetDeltaOfRange(cfg, parse, log, from, end, to, db.table, mid.table, u);
    }
  }

  /** Two batch sizes give the same scores, table and quarantine whenever no clamp binds. */
  lemma BatchSizeIndependence(
    cfg: ScoreConfig, parse: Parser, log: seq<Event>, a: nat, b: nat, from: int, to: int, db: Db, u: string)
    requires SortedByLedger(log) && a >= 1 && b >= 1 && u != ""
    requires ValidScore(ScoreOf(db.scores, u))
    requires NoClampBinds(cfg, parse, log, a, from, to, db, u) && NoClampBinds(cfg, parse, log, b, from, to, db, u)
    ensures var (x, _) := ReindexSpec(cfg, parse, log, a, NO_FAULTS, from, to, db);
            var (y, _) := ReindexSpec(cfg, parse, log, b, NO_FAULTS, from, to, db);
            x.table == y.table && x.quarantine == y.quarantine && ScoreOf(x.scores, u) == ScoreOf(y.scores, u)
  {
    ScoreAfterRange(cfg, parse, log, a, from, to, db, u);
    ScoreAfterRange(cfg, parse, log, b, from, to, db, u);
    RangeDeterminesTable(cfg, parse, log, a, NO_FAULTS, from, to, db);
    RangeDeterminesTable(cfg, parse, log, b, NO_FAULTS, from, to, db);
  }
}
