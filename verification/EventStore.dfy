/**
 * storeEvents (backend/src/services/eventIndexer.ts): parse or quarantine every event, then insert
 * the parsed rows and apply their score deltas in one retried transaction.
 *
 * `insertedEvents` and `scoreUpdates` are declared outside the callback that the transaction
 * retries, so a rollback undoes the rows but not these two.  That is the `Captured` state below,
 * and the reason exactly-once scoring needs a hypothesis about failed attempts.
 */
module EventStore {
  import opened Common
  import opened EventTable
  import opened Scores
  import opened ScoreEvents
  import opened Transaction

  /** A raw contract event; `payload` stands for topics and value. */
  datatype Event = Event(id: string, ledger: nat, payload: int)

  /** parseEvent: a row, null, or an exception. */
  datatype Parse = Parsed(row: Row) | Ignored | Throws

  type Parser = Event -> Parse

  datatype Db = Db(table: seq<Row>, scores: Ledger, quarantine: map<string, Event>)

  function ParsedRows(parse: Parser, events: seq<Event>): seq<Row> {
    if events == [] then []
    else (match parse(events[0]) case Parsed(r) => [r] case _ => []) + ParsedRows(parse, events[1..])
  }

  /** INSERT INTO quarantine_events ... ON CONFLICT (event_id) DO NOTHING, for each event that throws. */
  function Quarantined(parse: Parser, q: map<string, Event>, events: seq<Event>): map<string, Event>
    decreases |events|
  {
    if events == [] then q
    else
      var q' := if parse(events[0]).Throws? && events[0].id !in q then q[events[0].id := events[0]] else q;
      Quarantined(parse, q', events[1..])
  }

  // ---------- one attempt of the transaction ----------

  datatype Captured = Captured(insertedEvents: seq<Row>, scoreUpdates: DeltaMap)

  datatype Store = Store(table: seq<Row>, scores: Ledger)

  /** What goes wrong in one attempt: an error after `rows` rows were offered (the upsert and COMMIT
      included, for `rows` past the end), or a COMMIT that succeeds without the client learning it. */
  datatype Fault = NoFault | FailsAfter(rows: nat, error: DbError) | LosesAck(error: DbError)

  function Reached(rows: seq<Row>, f: Fault): seq<Row> {
    if f.FailsAfter? && f.rows < |rows| then rows[..f.rows] else rows
  }

  function Capture(cfg: ScoreConfig, c: Captured, added: seq<Row>): Captured {
    Captured(c.insertedEvents + added, Accumulate(cfg, c.scoreUpdates, added))
  }

  function Callback(cfg: ScoreConfig, rows: seq<Row>, f: Fault, c: Captured, d: Store): Attempt<Captured, Store, ()> {
    var added := Inserted(d.table, Reached(rows, f));
    var c' := Capture(cfg, c, added);
    Attempt(c', Store(d.table + added, ApplyBulk(d.scores, c'.scoreUpdates)),
            match f
            case NoFault => Committed(())
            case FailsAfter(_, e) => RolledBack(e)
            case LosesAck(e) => AckLost(e))
  }

  /** The callback as the source runs it: one INSERT at a time, then the bulk upsert. */
  method RunCallback(cfg: ScoreConfig, rows: seq<Row>, f: Fault, c: Captured, d: Store)
    returns (a: Attempt<Captured, Store, ()>)
    ensures f.FailsAfter? && f.rows < |rows| ==>
              a.captured == Callback(cfg, rows, f, c, d).captured && a.fate == RolledBack(f.error)
    ensures !(f.FailsAfter? && f.rows < |rows|) ==> a == Callback(cfg, rows, f, c, d)
  {
    var table, insertedEvents, scoreUpdates := d.table, c.insertedEvents, c.scoreUpdates;
    for i := 0 to |rows|
      invariant table == d.table + Inserted(d.table, rows[..i])
      invariant Captured(insertedEvents, scoreUpdates) == Capture(cfg, c, Inserted(d.table, rows[..i]))
      invariant f.FailsAfter? ==> i <= f.rows || |rows| <= f.rows
    {
      if f.FailsAfter? && i == f.rows {
        return Attempt(Captured(insertedEvents, scoreUpdates), Store(table, d.scores), RolledBack(f.error));
      }
      InsertOneMore(cfg, d.table, rows, i, c);
      if !Present(table, rows[i]) {
        table := table + [rows[i]];
        insertedEvents := insertedEvents + [rows[i]];
        scoreUpdates := AddDelta(cfg, scoreUpdates, rows[i]);
      }
    }
    assert rows[..|rows|] == rows;
    var scores := ApplyBulk(d.scores, scoreUpdates);
    a := Attempt(Captured(insertedEvents, scoreUpdates), Store(table, scores),
                 match f
                 case NoFault => Committed(())
                 case FailsAfter(_, e) => RolledBack(e)
                 case LosesAck(e) => AckLost(e));
  }

  lemma InsertOneMore(cfg: ScoreConfig, table: seq<Row>, rows: seq<Row>, i: nat, c: Captured)
    requires i < |rows|
    ensures var soFar := Inserted(table, rows[..i]);
            var more := if Present(table + soFar, rows[i]) then [] else [rows[i]];
            && Inserted(table, rows[..i + 1]) == soFar + more
            && Capture(cfg, c, soFar + more) ==
               (var k := Capture(cfg, c, soFar);
                if more == [] then k
                else Captured(k.insertedEvents + [rows[i]], AddDelta(cfg, k.scoreUpdates, rows[i])))
  {
    assert rows[..i + 1] == rows[..i] + [rows[i]];
    var soFar := Inserted(table, rows[..i]);
    InsertedAppend(table, rows[..i], [rows[i]]);
    assert Inserted(table + soFar, [rows[i]]) ==
           if Present(table + soFar, rows[i]) then [] else [rows[i]];
    AccumulateAppend(cfg, c.scoreUpdates, soFar, [rows[i]]);
    assert c.insertedEvents + (soFar + [rows[i]]) == (c.insertedEvents + soFar) + [rows[i]];
    assert soFar + [] == soFar;
  }

  // ---------- the retried transaction ----------

  const MAX_RETRIES: nat := 3
  const BASE_DELAY_MS: nat := 200

  function Attempts(cfg: ScoreConfig, rows: seq<Row>, faults: nat -> Fault): (nat, Captured, Store) -> Attempt<Captured, Store, ()> {
    (n: nat, c: Captured, d: Store) => Callback(cfg, rows, faults(n), c, d)
  }

  const UNDISTURBED: (nat, Store) -> Store := (n: nat, d: Store) => d
  const ALWAYS_CONNECTS: nat -> Option<DbError> := (n: nat) => None

  function Commit(cfg: ScoreConfig, rows: seq<Row>, faults: nat -> Fault, others: (nat, Store) -> Store, d: Store)
    : TxResult<Captured, Store, ()>
  {
    RunFrom(Attempts(cfg, rows, faults), others, ALWAYS_CONNECTS, 0, MAX_RETRIES, BASE_DELAY_MS, Captured([], map[]), d)
  }

  /** Rows inserted by the attempts that failed before attempt number `n`, with `others` committing in between. */
  function Wasted(rows: seq<Row>, faults: nat -> Fault, others: (nat, Store) -> Store, cfg: ScoreConfig,
                  from: nat, n: nat, c: Captured, d: Store): seq<Row>
    requires from <= n
    decreases n - from
  {
    if from == n then []
    else
      var before := others(from, d);
      var a := Callback(cfg, rows, faults(from), c, before);
      Inserted(before.table, Reached(rows, faults(from)))
        + Wasted(rows, faults, others, cfg, from + 1, n, a.captured, Settle(before, a))
  }

  /**
   * The exact surplus.  When the transaction returns, the deltas it applied are those of the rows
   * its successful attempt inserted plus, once more, those of every row any failed attempt had
   * inserted; and the events dispatched afterwards are both lists.
   */
  lemma {:induction false} SurplusOfFailedAttempts(
    cfg: ScoreConfig, rows: seq<Row>, faults: nat -> Fault, others: (nat, Store) -> Store,
    attempt: nat, c: Captured, d: Store)
    returns (last: nat, before: Store)
    requires attempt <= MAX_RETRIES
    requires c.scoreUpdates == Accumulate(cfg, map[], c.insertedEvents)
    ensures attempt <= last <= MAX_RETRIES
    ensures var r := RunFrom(Attempts(cfg, rows, faults), others, ALWAYS_CONNECTS, attempt, MAX_RETRIES, BASE_DELAY_MS, c, d);
            r.outcome.Returned? ==>
              var wasted := c.insertedEvents + Wasted(rows, faults, others, cfg, attempt, last, c, d);
              var added := Inserted(before.table, rows);
              && faults(last).NoFault?
              && r.captured.insertedEvents == wasted + added
              && r.captured.scoreUpdates == Accumulate(cfg, map[], wasted + added)
              && r.db == Store(before.table + added, ApplyBulk(before.scores, r.captured.scoreUpdates))
    decreases MAX_RETRIES - attempt
  {
    hide Accumulate, Inserted, ApplyBulk, Transient;
    last, before := attempt, others(attempt, d);
    var a := Callback(cfg, rows, faults(attempt), c, before);
    var added := Inserted(before.table, Reached(rows, faults(attempt)));
    AccumulateAppend(cfg, map[], c.insertedEvents, added);
    assert c.insertedEvents + [] == c.insertedEvents;
    if Retries(a, attempt, MAX_RETRIES) {
      var after := Settle(before, a);
      last, before := SurplusOfFailedAttempts(cfg, rows, faults, others, attempt + 1, a.captured, after);
      var later := Wasted(rows, faults, others, cfg, attempt + 1, last, a.captured, after);
      assert (c.insertedEvents + added) + later == c.insertedEvents + (added + later);
    }
  }

  /** Alone on the database, a transaction that returns leaves exactly the table one clean insert
      would leave, whatever failed on the way. */
  lemma {:induction false} TableAfterCommit(
    cfg: ScoreConfig, rows: seq<Row>, faults: nat -> Fault, attempt: nat, c: Captured, d: Store)
    requires attempt <= MAX_RETRIES
    ensures var r := RunFrom(Attempts(cfg, rows, faults), UNDISTURBED, ALWAYS_CONNECTS, attempt, MAX_RETRIES, BASE_DELAY_MS, c, d);
            r.outcome.Returned? ==> r.db.table == d.table + Inserted(d.table, rows)
    decreases MAX_RETRIES - attempt
  {
    var f := faults(attempt);
    var a := Callback(cfg, rows, f, c, d);
    if Retries(a, attempt, MAX_RETRIES) {
      TableAfterCommit(cfg, rows, faults, attempt + 1, a.captured, Settle(d, a));
      if f.LosesAck? {
        InsertedCovers(d.table, rows);
        InsertedNothing(a.work.table, rows);
        assert a.work.table + [] == a.work.table;
      }
    }
  }

  /** With no fault on the first attempt every inserted row contributes its delta exactly once. */
  lemma CleanCommit(cfg: ScoreConfig, rows: seq<Row>, faults: nat -> Fault, others: (nat, Store) -> Store, d: Store)
    requires faults(0).NoFault?
    ensures var before := others(0, d);
            var added := Inserted(before.table, rows);
            var r := Commit(cfg, rows, faults, others, d);
            && r.outcome == Returned(())
            && r.captured.insertedEvents == added
            && r.db == Store(before.table + added, ApplyBulk(before.scores, Accumulate(cfg, map[], added)))
  {
    var before := others(0, d);
    assert [] + Inserted(before.table, rows) == Inserted(before.table, rows);
  }

  /** Dropping the hypothesis: one transient failure at COMMIT pays a repayment twice, whether the
      server rolled the attempt back or had already applied it. */
  lemma RetryPaysTwice(lost: bool)
    ensures var cfg := ScoreConfig(15, 50);
            var row := Row("e", LoanRepaid, Some(1), Some("alice"), 7);
            var error := DbError("40001");
            var fault := if lost then LosesAck(error) else FailsAfter(1, error);
            var faults := (n: nat) => if n == 0 then fault else NoFault;
            var r := Commit(cfg, [row], faults, UNDISTURBED, Store([], map["alice" := 600]));
            && r.outcome.Returned?
            && r.db.table == [row]
            && ScoreOf(r.db.scores, "alice") == 630   // 600 + 15 was due
  {
    var cfg, row, error := ScoreConfig(15, 50), Row("e", LoanRepaid, Some(1), Some("alice"), 7), DbError("40001");
    var fault := if lost then LosesAck(error) else FailsAfter(1, error);
    var faults := (n: nat) => if n == 0 then fault else NoFault;
    var d := Store([], map["alice" := 600]);
    var first := FirstTry(cfg, row, fault, d);
    var second := SecondTry(cfg, row, lost);
    hide Callback, ApplyBulk, ScoreOf, Reached;
    var fn := Attempts(cfg, [row], faults);
    assert Transient(error) && Retries(first, 0, MAX_RETRIES);
    var again := Settle(d, first);
    assert RunFrom(fn, UNDISTURBED, ALWAYS_CONNECTS, 1, MAX_RETRIES, BASE_DELAY_MS, first.captured, again).db == second.work;
  }

  /** The attempt that fails: its row is inserted and its delta captured. */
  lemma FirstTry(cfg: ScoreConfig, row: Row, fault: Fault, d: Store) returns (a: Attempt<Captured, Store, ()>)
    requires row.eventType == LoanRepaid && row.address == Some("alice") && cfg.repaymentDelta == 15
    requires d == Store([], map["alice" := 600]) && (fault.LosesAck? || (fault.FailsAfter? && fault.rows == 1))
    ensures a == Callback(cfg, [row], fault, Captured([], map[]), d)
    ensures a.captured == Captured([row], map["alice" := 15])
    ensures a.fate == if fault.LosesAck? then AckLost(fault.error) else RolledBack(fault.error)
    ensures Settle(d, a) == if fault.LosesAck? then Store([row], map["alice" := 615]) else d
  {
    assert [row][..1] == [row];
    assert Inserted([], [row]) == [row];
    PayOnce(cfg, map[], row);
    assert [] + [row] == [row];
    a := Callback(cfg, [row], fault, Captured([], map[]), d);
  }

  /** The attempt that commits applies the captured delta again, with or without inserting the row again. */
  lemma SecondTry(cfg: ScoreConfig, row: Row, lost: bool) returns (b: Attempt<Captured, Store, ()>)
    requires row.eventType == LoanRepaid && row.address == Some("alice") && cfg.repaymentDelta == 15
    ensures var again := if lost then Store([row], map["alice" := 615]) else Store([], map["alice" := 600]);
            b == Callback(cfg, [row], NoFault, Captured([row], map["alice" := 15]), again)
    ensures b.fate == Committed(()) && b.work.table == [row] && ScoreOf(b.work.scores, "alice") == 630
  {
    var c := Captured([row], map["alice" := 15]);
    PayOnce(cfg, c.scoreUpdates, row);
    if lost {
      assert Conflict([row][0], row);
      assert Inserted([row], [row]) == [];
      assert [row] + [] == [row];
      b := Callback(cfg, [row], NoFault, c, Store([row], map["alice" := 615]));
    } else {
      assert Inserted([], [row]) == [row];
      assert [] + [row] == [row];
      b := Callback(cfg, [row], NoFault, c, Store([], map["alice" := 600]));
    }
  }

  lemma PayOnce(cfg: ScoreConfig, m: DeltaMap, row: Row)
    requires row.eventType == LoanRepaid && row.address == Some("alice")
    ensures Accumulate(cfg, m, []) == m
    ensures Accumulate(cfg, m, [row]) == m["alice" := DeltaAt(m, "alice") + cfg.repaymentDelta]
  {
    assert "alice" != "";
    assert [row][1..] == [];
  }
}
