/**
 * The event indexer as a concurrent system: any number of processes poll, reindex ranges and
 * reprocess quarantined events against one database while the chain grows, and any of them may
 * crash, lose an attempt or lose the acknowledgement of a COMMIT between any two steps
 * (backend/src/services/eventIndexer.ts, backend/src/controllers/indexerController.ts).
 *
 * A process is a worker id; its release of the code decides how it parses, so a newer release can
 * parse what an older one quarantined.
 */
module IndexerMachine {
  import opened Common
  import opened EventTable
  import opened Scores
  import opened ScoreEvents
  import opened Transaction
  import opened EventStore
  import opened Reindex

  datatype Config = Config(score: ScoreConfig, parse: (nat, Event) -> Parse, batchSize: nat, initialScores: Ledger)

  datatype Task = Poll | Range | Reprocess(event: Event)

  datatype Phase =
    | Idle
    | SawWatermark(seen: nat)
    | Ranged(task: Task, from: nat, to: nat)
    | Parsing(task: Task, from: nat, to: nat, todo: seq<Event>, rows: seq<Row>)
    | Storing(task: Task, from: nat, to: nat, rows: seq<Row>, captured: Captured, attempt: nat)
    | Stored(task: Task, from: nat, to: nat)

  /** One applied transaction: the rows it added, and the rows its failed attempts had added before. */
  datatype Batch = Batch(rows: seq<Row>, wasted: seq<Row>)

  /** `verdicts` (what parseEvent answered), `history` (what was applied) and `lost` (whose quarantine write failed)
      record the run. */
  datatype World = World(
    chain: seq<Event>, tip: nat,
    table: seq<Row>, scores: Ledger, quarantine: map<string, Event>, watermark: nat,
    workers: map<nat, Phase>,
    verdicts: set<(string, Parse)>, history: seq<Batch>, lost: set<string>)

  datatype Step =
    | CloseLedger(events: seq<Event>)
    | ReadWatermark(p: nat)
    | SeeTip(p: nat, latest: nat)
    | StartRange(p: nat, from: nat, to: nat)
    | StartReprocess(p: nat, id: string)
    | Fetch(p: nat)
    | ParseNext(p: nat, quarantineWritten: bool)
    | BeginStore(p: nat)
    | Attempt(p: nat, fault: Fault)
    | Finish(p: nat)
    | Crash(p: nat)

  function Init(cfg: Config): World {
    World([], 0, [], cfg.initialScores, map[], 0, map[], {}, [], {})
  }

  function PhaseOf(w: World, p: nat): Phase {
    if p in w.workers then w.workers[p] else Idle
  }

  function Go(w: World, p: nat, phase: Phase): World {
    w.(workers := w.workers[p := phase])
  }

  /** A new ledger's events: ledger tip + 1, ids new and distinct. */
  predicate NewLedger(w: World, events: seq<Event>) {
    && (forall i | 0 <= i < |events| :: events[i].ledger == w.tip + 1)
    && (forall i, j | 0 <= i < j < |events| :: events[i].id != events[j].id)
    && (forall e <- events, c <- w.chain :: e.id != c.id)
  }

  // ---------- the steps; a step that is not enabled does nothing ----------

  /** pollOnce after the chain tip was reported: nothing to do, or a range of at most batchSize. */
  function AfterTip(cfg: Config, seen: nat, latest: nat): Phase {
    if latest == 0 || latest <= seen then Idle
    else Ranged(Poll, seen + 1, Min(seen + cfg.batchSize, latest))
  }

  function ApplyParse(cfg: Config, w: World, p: nat, ph: Phase, written: bool): World
    requires ph.Parsing? && ph.todo != []
  {
    var e := ph.todo[0];
    var verdict := cfg.parse(p, e);
    var rows := if verdict.Parsed? then ph.rows + [verdict.row] else ph.rows;
    var q := if verdict.Throws? && written && e.id !in w.quarantine then w.quarantine[e.id := e] else w.quarantine;
    Go(w, p, ph.(todo := ph.todo[1..], rows := rows)).(
      quarantine := q, verdicts := w.verdicts + {(e.id, verdict)},
      lost := if verdict.Throws? && !written then w.lost + {e.id} else w.lost)
  }

  /** One attempt of the transaction; only after a committed one does the worker go on. */
  function ApplyAttempt(cfg: Config, w: World, p: nat, ph: Phase, fault: Fault): World
    requires ph.Storing?
  {
    var before := Store(w.table, w.scores);
    var a := Callback(cfg.score, ph.rows, fault, ph.captured, before);
    var after := Settle(before, a);
    var added := Inserted(w.table, Reached(ph.rows, fault));
    var next :=
      if a.fate.Committed? then Stored(ph.task, ph.from, ph.to)
      else if Retries(a, ph.attempt, MAX_RETRIES) then ph.(captured := a.captured, attempt := ph.attempt + 1)
      else Idle;
    Go(w, p, next).(
      table := after.table, scores := after.scores,
      history := if a.fate.RolledBack? then w.history else w.history + [Batch(added, ph.captured.insertedEvents)])
  }

  function ApplyFinish(w: World, p: nat, ph: Phase): World
    requires ph.Stored?
  {
    match ph.task
    case Poll => Go(w, p, Idle).(watermark := Max(w.watermark, ph.to))
    case Range => Go(w, p, Idle)
    case Reprocess(e) => Go(w, p, Idle).(quarantine := w.quarantine - {e.id})
  }

  function Apply(cfg: Config, w: World, s: Step): World {
    match s
    case CloseLedger(events) =>
      if NewLedger(w, events) then w.(chain := w.chain + events, tip := w.tip + 1) else w
    case ReadWatermark(p) =>
      if PhaseOf(w, p).Idle? then Go(w, p, SawWatermark(w.watermark)) else w
    case SeeTip(p, latest) =>
      var ph := PhaseOf(w, p);
      if ph.SawWatermark? && latest <= w.tip then Go(w, p, AfterTip(cfg, ph.seen, latest)) else w
    case StartRange(p, from, to) =>
      if PhaseOf(w, p).Idle? && from <= to then Go(w, p, Ranged(Range, from, to)) else w
    case StartReprocess(p, id) =>
      if PhaseOf(w, p).Idle? && id in w.quarantine && cfg.parse(p, w.quarantine[id]).Parsed? then
        var e := w.quarantine[id];
        Go(w, p, Parsing(Reprocess(e), e.ledger, e.ledger, [e], []))
      else w
    case Fetch(p) =>
      var ph := PhaseOf(w, p);
      if ph.Ranged? then Go(w, p, Parsing(ph.task, ph.from, ph.to, EventsIn(w.chain, ph.from, ph.to), [])) else w
    case ParseNext(p, written) =>
      var ph := PhaseOf(w, p);
      if ph.Parsing? && ph.todo != [] then ApplyParse(cfg, w, p, ph, written) else w
    case BeginStore(p) =>
      var ph := PhaseOf(w, p);
      if !ph.Parsing? || ph.todo != [] then w
      else if ph.rows == [] then Go(w, p, Stored(ph.task, ph.from, ph.to))
      else Go(w, p, Storing(ph.task, ph.from, ph.to, ph.rows, Captured([], map[]), 0))
    case Attempt(p, fault) =>
      var ph := PhaseOf(w, p);
      if ph.Storing? then ApplyAttempt(cfg, w, p, ph, fault) else w
    case Finish(p) =>
      var ph := PhaseOf(w, p);
      if ph.Stored? then ApplyFinish(w, p, ph) else w
    case Crash(p) => Go(w, p, Idle)
  }

  function Exec(cfg: Config, w: World, steps: seq<Step>): World
    decreases |steps|
  {
    if steps == [] then w else Exec(cfg, Apply(cfg, w, steps[0]), steps[1..])
  }
}
