/**
 * The EventIndexer object (backend/src/services/eventIndexer.ts) over its database: the loops of
 * fetchEventsInRange, storeEvents, processChunk, reindexRange and pollOnce, each against the
 * specification functions of Reindex.
 */
module EventIndexer {
  import opened Common
  import opened EventTable
  import opened Scores
  import opened ScoreEvents
  import opened Transaction
  import opened EventStore
  import opened Reindex

  // ---------- paged RPC ----------

  datatype Page = Page(events: seq<Event>, nextCursor: nat)

  /** First position of the log at or after `ledger`. */
  function Start(log: seq<Event>, ledger: int): (p: nat)
    ensures p <= |log|
    ensures forall i | 0 <= i < p :: log[i].ledger < ledger
    ensures p < |log| ==> log[p].ledger >= ledger
  {
    if log == [] || log[0].ledger >= ledger then 0
    else
      var p := Start(log[1..], ledger);
      assert forall i | 0 < i < p + 1 :: log[i] == log[1..][i - 1];
      p + 1
  }

  /** getEvents: up to `limit` events from the cursor, or from startLedger when there is none.  The
      server need not honour endLedger; the client filters. */
  function GetEvents(log: seq<Event>, startLedger: int, cursor: Option<nat>, limit: nat): (p: Page)
  {
    var begin := Min(match cursor case Some(c) => c case None => Start(log, startLedger), |log|);
    var end := Min(begin + limit, |log|);
    Page(log[begin..end], end)
  }

  /** Stable insertion by ledger, as Array.prototype.sort is stable. */
  function InsertByLedger(e: Event, xs: seq<Event>): seq<Event> {
    if xs == [] || e.ledger <= xs[0].ledger then [e] + xs else [xs[0]] + InsertByLedger(e, xs[1..])
  }

  function SortByLedger(xs: seq<Event>): seq<Event> {
    if xs == [] then [] else InsertByLedger(xs[0], SortByLedger(xs[1..]))
  }

  lemma {:induction false} SortFixesSorted(xs: seq<Event>)
    requires SortedByLedger(xs)
    ensures SortByLedger(xs) == xs
  {
    if xs != [] {
      SortFixesSorted(xs[1..]);
      if |xs| > 1 {
        assert xs[0].ledger <= xs[1].ledger;
        assert xs[1..][0] == xs[1];
      }
    }
  }

  lemma EventsInPrefixStep(log: seq<Event>, a: nat, b: nat, lo: int, hi: int)
    requires a <= b <= |log|
    ensures EventsIn(log[..b], lo, hi) == EventsIn(log[..a], lo, hi) + EventsIn(log[a..b], lo, hi)
  {
    assert log[..b] == log[..a] + log[a..b];
    EventsInAppend(log[..a], log[a..b], lo, hi);
  }

  /** A page with nothing in range means the rest of a sorted log has nothing in range. */
  lemma NothingLeft(log: seq<Event>, a: nat, b: nat, lo: int, hi: int)
    requires SortedByLedger(log) && a <= b <= |log|
    requires a < b || a == |log|
    requires a < |log| ==> log[a].ledger >= lo
    requires EventsIn(log[a..b], lo, hi) == []
    ensures EventsIn(log, lo, hi) == EventsIn(log[..a], lo, hi)
  {
    assert log == log[..a] + log[a..];
    EventsInAppend(log[..a], log[a..], lo, hi);
    if a < |log| {
      EventsInMembers(log[a..b], lo, hi);
      assert log[a] == log[a..b][0];
      assert log[a] in log[a..b] && log[a] !in EventsIn(log[a..b], lo, hi);
      forall i | 0 <= i < |log[a..]| ensures log[a..][i].ledger > hi {
        assert log[a].ledger <= log[a + i].ledger;
      }
      EventsInNone(log[a..], lo, hi);
    }
  }

  /** Following cursors until a page has nothing in range fetches every event of the range. */
  method FetchEventsInRange(log: seq<Event>, startLedger: int, endLedger: int, batchSize: nat)
    returns (result: seq<Event>)
    requires SortedByLedger(log) && batchSize >= 1
    ensures result == EventsIn(log, startLedger, endLedger)
  {
    result := [];
    var cursor: Option<nat> := None;
    var hasMorePages := true;
    ghost var pos: nat := Start(log, startLedger);
    EventsInNone(log[..pos], startLedger, endLedger);
    while hasMorePages
      invariant pos <= |log|
      invariant cursor == None ==> pos == Start(log, startLedger)
      invariant cursor.Some? ==> cursor.value == pos
      invariant pos < |log| ==> log[pos].ledger >= startLedger
      invariant hasMorePages ==> result == EventsIn(log[..pos], startLedger, endLedger)
      invariant !hasMorePages ==> result == EventsIn(log, startLedger, endLedger)
      decreases |log| - pos, hasMorePages
    {
      var response := GetEvents(log, startLedger, cursor, batchSize);
      var events := EventsIn(response.events, startLedger, endLedger);
      EventsInPrefixStep(log, pos, response.nextCursor, startLedger, endLedger);
      result := result + events;
      if cursor == Some(response.nextCursor) || events == [] {
        NothingLeft(log, pos, response.nextCursor, startLedger, endLedger);
        hasMorePages := false;
      } else {
        if response.nextCursor < |log| {
          assert log[pos].ledger <= log[response.nextCursor].ledger;
        }
        pos := response.nextCursor;
        cursor := Some(response.nextCursor);
      }
    }
    EventsInMembers(log, startLedger, endLedger);
    SortFixesSorted(result);
    result := SortByLedger(result);
  }

  datatype ChunkResult = ChunkResult(lastProcessedLedger: int, fetchedEvents: nat, insertedEvents: nat)

  /** What the range still comes to once its first chunk ended in `chunk` and left `db`. */
  function AfterChunk(cfg: ScoreConfig, parse: Parser, log: seq<Event>, batchSize: nat, faults: FaultPlan,
                      to: int, db: Db, chunk: Outcome<ChunkResult>): (Db, Outcome<Totals>)
    requires batchSize >= 1
  {
    match chunk
    case Threw(e) => (db, Threw(e))
    case Returned(c) =>
      Plus(Totals(c.fetchedEvents, c.insertedEvents),
           ReindexSpec(cfg, parse, log, batchSize, faults, c.lastProcessedLedger + 1, to, db))
  }

  lemma RangeStep(cfg: ScoreConfig, parse: Parser, log: seq<Event>, batchSize: nat, faults: FaultPlan,
                  from: int, to: int, before: Db, after: Db, chunk: Outcome<ChunkResult>)
    requires batchSize >= 1 && from <= to
    requires var end := Min(from + batchSize - 1, to);
             var events := EventsIn(log, from, end);
             var (db, o) := StoreSpec(cfg, parse, before, events, PlanFor(faults, from));
             && after == db
             && (o.Threw? ==> chunk == Threw(o.error))
             && (o.Returned? ==> chunk == Returned(ChunkResult(end, |events|, o.value)))
    ensures ReindexSpec(cfg, parse, log, batchSize, faults, from, to, before) ==
            AfterChunk(cfg, parse, log, batchSize, faults, to, after, chunk)
  {
  }

  lemma PlusPlus(a: Totals, b: Totals, rest: (Db, Outcome<Totals>))
    ensures Plus(a, Plus(b, rest)) ==
            Plus(Totals(a.fetchedEvents + b.fetchedEvents, a.insertedEvents + b.insertedEvents), rest)
    ensures Plus(Totals(0, 0), rest) == rest
  {
  }

  /** reindexRange's answer: every ledger of the range is reported processed. */
  function Report(from: int, to: int, spec: (Db, Outcome<Totals>)): (Db, Outcome<RangeResult>) {
    (spec.0,
     match spec.1
     case Threw(e) => Threw(e)
     case Returned(t) => Returned(RangeResult(t.fetchedEvents, t.insertedEvents, Max(from - 1, to))))
  }

  // ---------- the object ----------

  datatype RangeResult = RangeResult(fetchedEvents: nat, insertedEvents: nat, lastProcessedLedger: int)

  class Indexer {
    const cfg: ScoreConfig
    const parse: Parser
    const batchSize: nat
    const pool: Pool<Store>
    var quarantine: map<string, Event>
    var stateRow: Option<int>
    var running: bool

    constructor (cfg: ScoreConfig, parse: Parser, batchSize: nat, pool: Pool<Store>)
      requires batchSize >= 1
      ensures this.cfg == cfg && this.parse == parse && this.batchSize == batchSize && this.pool == pool
      ensures quarantine == map[] && stateRow.None? && !running
    {
      this.cfg, this.parse, this.batchSize, this.pool := cfg, parse, batchSize, pool;
      quarantine, stateRow, running := map[], None, false;
    }

    ghost function Database(): Db
      reads this, pool
    {
      Db(pool.db.table, pool.db.scores, quarantine)
    }

    method StoreEvents(events: seq<Event>, faults: nat -> Fault) returns (outcome: Outcome<nat>)
      modifies this`quarantine, pool
      ensures (Database(), outcome) == StoreSpec(cfg, parse, old(Database()), events, faults)
    {
      var parsedEvents: seq<Row> := [];
      for i := 0 to |events|
        invariant parsedEvents == ParsedRows(parse, events[..i])
        invariant quarantine == Quarantined(parse, old(quarantine), events[..i])
        invariant pool.db == old(pool.db)
      {
        assert events[..i + 1] == events[..i] + [events[i]];
        ParsedRowsAppend(parse, events[..i], [events[i]]);
        QuarantinedAppend(parse, old(quarantine), events[..i], [events[i]]);
        match parse(events[i]) {
          case Parsed(row) => parsedEvents := parsedEvents + [row];
          case Ignored =>
          case Throws =>
            if events[i].id !in quarantine {
              quarantine := quarantine[events[i].id := events[i]];
            }
        }
      }
      assert events[..|events|] == events;
      if parsedEvents == [] {
        return Returned(0);
      }
      var captured, result := pool.WithTransaction(
        Attempts(cfg, parsedEvents, faults), UNDISTURBED, ALWAYS_CONNECTS, MAX_RETRIES, BASE_DELAY_MS, Captured([], map[]));
      match result {
        case Returned(_) => outcome := Returned(|captured.insertedEvents|);
        case Threw(e) => outcome := Threw(e);
      }
    }

    /** A failed store is rethrown; otherwise the whole range counts as processed. */
    method ProcessChunk(log: seq<Event>, startLedger: int, endLedger: int, faults: nat -> Fault)
      returns (outcome: Outcome<ChunkResult>)
      requires SortedByLedger(log) && batchSize >= 1
      modifies this`quarantine, pool
      ensures endLedger < startLedger ==>
                Database() == old(Database()) && outcome == Returned(ChunkResult(Max(startLedger - 1, 0), 0, 0))
      ensures startLedger <= endLedger ==>
                var events := EventsIn(log, startLedger, endLedger);
                var (db, o) := StoreSpec(cfg, parse, old(Database()), events, faults);
                && Database() == db
                && (o.Threw? ==> outcome == Threw(o.error))
                && (o.Returned? ==> outcome == Returned(ChunkResult(endLedger, |events|, o.value)))
    {
      if endLedger < startLedger {
        return Returned(ChunkResult(Max(startLedger - 1, 0), 0, 0));
      }
      var events := FetchEventsInRange(log, startLedger, endLedger, batchSize);
      if |events| == 0 {
        return Returned(ChunkResult(endLedger, 0, 0));
      }
      var stored := StoreEvents(events, faults);
      if stored.Threw? {
        return Threw(stored.error);
      }
      var maxLedger := startLedger;
      EventsInMembers(log, startLedger, endLedger);
      for i := 0 to |events|
        invariant startLedger <= maxLedger <= endLedger
      {
        assert events[i] in events;
        maxLedger := Max(maxLedger, events[i].ledger);
      }
      outcome := Returned(ChunkResult(Max(maxLedger, endLedger), |events|, stored.value));
    }

    /** One turn of the loop below, related to the specification of the range. */
    method ReindexChunk(log: seq<Event>, current: int, toLedger: int, faults: FaultPlan)
      returns (outcome: Outcome<ChunkResult>)
      requires SortedByLedger(log) && batchSize >= 1 && current <= toLedger
      modifies this`quarantine, pool
      ensures outcome.Returned? ==> outcome.value.lastProcessedLedger == Min(current + batchSize - 1, toLedger)
      ensures ReindexSpec(cfg, parse, log, batchSize, faults, current, toLedger, old(Database())) ==
              AfterChunk(cfg, parse, log, batchSize, faults, toLedger, Database(), outcome)
    {
      var chunkEnd := Min(current + batchSize - 1, toLedger);
      ghost var before := Database();
      outcome := ProcessChunk(log, current, chunkEnd, PlanFor(faults, current));
      RangeStep(cfg, parse, log, batchSize, faults, current, toLedger, before, Database(), outcome);
    }

    method ReindexRange(log: seq<Event>, fromLedger: int, toLedger: int, faults: FaultPlan)
      returns (outcome: Outcome<RangeResult>)
      requires SortedByLedger(log) && batchSize >= 1
      modifies this`quarantine, pool
      ensures (Database(), outcome) == Report(fromLedger, toLedger, ReindexSpec(
                cfg, parse, log, batchSize, faults, fromLedger, toLedger, old(Database())))
    {
      hide StoreSpec, EventsIn;
      var current, lastProcessedLedger := fromLedger, fromLedger - 1;
      var totalFetched: nat, totalInserted: nat := 0, 0;
      ghost var spec := ReindexSpec(cfg, parse, log, batchSize, faults, fromLedger, toLedger, Database());
      ghost var rest := spec;
      PlusPlus(Totals(0, 0), Totals(0, 0), spec);
      while current <= toLedger
        invariant current <= Max(fromLedger, toLedger + 1)
        invariant lastProcessedLedger == current - 1 >= fromLedger - 1
        invariant rest == ReindexSpec(cfg, parse, log, batchSize, faults, current, toLedger, Database())
        invariant spec == Plus(Totals(totalFetched, totalInserted), rest)
        decreases toLedger - current
      {
        var chunkEnd := Min(current + batchSize - 1, toLedger);
        var result := ReindexChunk(log, current, toLedger, faults);
        if result.Threw? {
          return Threw(result.error);
        }
        rest := ReindexSpec(cfg, parse, log, batchSize, faults, chunkEnd + 1, toLedger, Database());
        PlusPlus(Totals(totalFetched, totalInserted), Totals(result.value.fetchedEvents, result.value.insertedEvents), rest);
        totalFetched := totalFetched + result.value.fetchedEvents;
        totalInserted := totalInserted + result.value.insertedEvents;
        lastProcessedLedger := result.value.lastProcessedLedger;
        current := chunkEnd + 1;
      }
      outcome := Returned(RangeResult(totalFetched, totalInserted, lastProcessedLedger));
    }

    /** The watermark; a missing row stands for 0. */
    function Watermark(): int
      reads this`stateRow
    {
      if stateRow.Some? then stateRow.value else 0
    }

    /** Reads the row, inserting it with 0 when it is missing. */
    method GetLastIndexedLedger() returns (ledger: int)
      modifies this`stateRow
      ensures ledger == Watermark() == old(Watermark()) && stateRow.Some?
    {
      if stateRow.None? {
        stateRow := Some(0);
        return 0;
      }
      ledger := stateRow.value;
    }

    /** UPDATE indexer_state SET last_ledger = GREATEST(last_ledger, $1), and an INSERT when no row was updated. */
    method UpdateLastIndexedLedger(ledger: int)
      modifies this`stateRow
      ensures stateRow == Some(if old(stateRow).Some? then Max(old(stateRow).value, ledger) else ledger)
      ensures ledger >= 0 ==> Watermark() == Max(old(Watermark()), ledger)
    {
      var rowCount := 0;
      if stateRow.Some? {
        stateRow, rowCount := Some(Max(stateRow.value, ledger)), 1;
      }
      if rowCount == 0 {
        stateRow := Some(ledger);
      }
    }

    /** One poll: the watermark moves only after the chunk is stored, by at most batchSize ledgers
        and never past the chain tip that was reported. */
    method PollOnce(log: seq<Event>, latestLedger: nat, faults: nat -> Fault) returns (outcome: Outcome<()>)
      requires SortedByLedger(log) && batchSize >= 1
      modifies this`quarantine, this`stateRow, pool
      ensures !running || latestLedger == 0 || latestLedger <= old(Watermark()) ==>
                Database() == old(Database()) && Watermark() == old(Watermark()) && outcome == Returned(())
      ensures running && latestLedger != 0 && latestLedger > old(Watermark()) ==>
                var to := Min(old(Watermark()) + batchSize, latestLedger);
                var (db, o) := StoreSpec(cfg, parse, old(Database()), EventsIn(log, old(Watermark()) + 1, to), faults);
                && Database() == db
                && (o.Threw? ==> outcome == Threw(o.error) && Watermark() == old(Watermark()))
                && (o.Returned? ==> outcome == Returned(()) && Watermark() == to > old(Watermark()))
    {
      hide StoreSpec, EventsIn;
      if !running {
        return Returned(());
      }
      var lastIndexedLedger := GetLastIndexedLedger();
      if latestLedger == 0 || latestLedger <= lastIndexedLedger {
        return Returned(());
      }
      var fromLedger := lastIndexedLedger + 1;
      var toLedger := Min(fromLedger + batchSize - 1, latestLedger);
      assert toLedger == Min(old(Watermark()) + batchSize, latestLedger);
      ghost var stored := StoreSpec(cfg, parse, old(Database()), EventsIn(log, fromLedger, toLedger), faults);
      var result := ProcessChunk(log, fromLedger, toLedger, faults);
      assert Database() == stored.0;
      if result.Threw? {
        return Threw(result.error);
      }
      UpdateLastIndexedLedger(result.value.lastProcessedLedger);
      outcome := Returned(());
    }
  }
}
