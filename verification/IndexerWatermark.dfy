/**
 * Watermark safety over every run of IndexerMachine: no event at or below the watermark is lost,
 * unless the quarantine write of that very event failed
 * (backend/src/services/eventIndexer.ts:271-296, 343-405; reprocessing in
 * backend/src/controllers/indexerController.ts:741-752).
 */
module IndexerWatermark {
  import opened Common
  import opened EventTable
  import opened Scores
  import opened ScoreEvents
  import opened Transaction
  import opened EventStore
  import opened Reindex
  import opened IndexerMachine

  /** Some release parsed e into a row the table represents. */
  ghost predicate Represented(w: World, e: Event) {
    exists v :: (e.id, v) in w.verdicts && v.Parsed? && Present(w.table, v.row)
  }

  /** Some release read e and found nothing to store. */
  ghost predicate IgnoredOnce(w: World, e: Event) {
    (e.id, Ignored) in w.verdicts
  }

  ghost predicate Covered(w: World, e: Event) {
    e.id in w.quarantine || IgnoredOnce(w, e) || Represented(w, e)
  }

  /** Covered, or its own quarantine write failed. */
  ghost predicate Accounted(w: World, e: Event) {
    Covered(w, e) || e.id in w.lost
  }

  /** e was parsed into one of the rows a worker is about to insert. */
  ghost predicate Pending(w: World, e: Event, rows: seq<Row>) {
    exists v :: (e.id, v) in w.verdicts && v.Parsed? && v.row in rows
  }

  ghost predicate Handled(w: World, e: Event, rows: seq<Row>) {
    Accounted(w, e) || Pending(w, e, rows)
  }

  // ---------- the invariant ----------

  ghost predicate ChainOk(w: World) {
    && (forall e <- w.chain :: 1 <= e.ledger <= w.tip)
    && (forall a <- w.chain, b <- w.chain :: a.id == b.id ==> a == b)
    && (forall id <- w.quarantine :: w.quarantine[id].id == id && w.quarantine[id] in w.chain)
    && w.watermark <= w.tip
  }

  /** A poll covers a range of closed ledgers that starts right above what is already covered. */
  predicate PollRange(w: World, from: nat, to: nat) {
    from <= w.watermark + 1 && to <= w.tip
  }

  /** What a worker in this phase may rely on. */
  ghost predicate PhaseOk(cfg: Config, w: World, p: nat, ph: Phase) {
    match ph
    case Idle => true
    case SawWatermark(seen) => seen <= w.watermark
    case Ranged(task, from, to) => !task.Reprocess? && (task.Poll? ==> PollRange(w, from, to))
    case Parsing(task, from, to, todo, rows) =>
      && (forall e <- todo :: e in w.chain)
      && (task.Poll? ==> PollRange(w, from, to) && forall e <- w.chain :: from <= e.ledger <= to ==>
            e in todo || Handled(w, e, rows))
      && (task.Reprocess? ==> task.event in w.chain && cfg.parse(p, task.event).Parsed?
                              && (task.event in todo || Pending(w, task.event, rows)))
    case Storing(task, from, to, rows, captured, attempt) =>
      && (task.Poll? ==> PollRange(w, from, to) && forall e <- w.chain :: from <= e.ledger <= to ==> Handled(w, e, rows))
      && (task.Reprocess? ==> task.event in w.chain && Pending(w, task.event, rows))
    case Stored(task, from, to) =>
      && (task.Poll? ==> PollRange(w, from, to) && forall e <- w.chain :: from <= e.ledger <= to ==> Accounted(w, e))
      && (task.Reprocess? ==> task.event in w.chain && Represented(w, task.event))
  }

  /** Every event at or below the watermark is accounted for. */
  ghost predicate WatermarkSafe(w: World) {
    forall e <- w.chain :: e.ledger <= w.watermark ==> Accounted(w, e)
  }

  ghost predicate Inv(cfg: Config, w: World) {
    && ChainOk(w)
    && WatermarkSafe(w)
    && (forall p <- w.workers :: PhaseOk(cfg, w, p, w.workers[p]))
  }

  // ---------- what never gets undone ----------

  /** The relation every step keeps: the log, the table and the verdicts grow, the watermark and
      tip never fall, and an event leaves quarantine only once the table represents it. */
  ghost predicate Grows(w: World, w': World) {
    && w.tip <= w'.tip && w.watermark <= w'.watermark
    && (forall e <- w.chain :: e in w'.chain)
    && (forall e <- w'.chain :: e in w.chain || e.ledger > w.tip)
    && w.table <= w'.table
    && w.verdicts <= w'.verdicts
    && w.lost <= w'.lost
    && (forall e <- w.chain :: e.id in w.quarantine ==> e.id in w'.quarantine || Represented(w', e))
  }

  lemma RepresentedGrows(w: World, w': World, e: Event)
    requires Grows(w, w') && Represented(w, e)
    ensures Represented(w', e)
  {
    var v :| (e.id, v) in w.verdicts && v.Parsed? && Present(w.table, v.row);
    var i :| 0 <= i < |w.table| && Conflict(w.table[i], v.row);
    assert Conflict(w'.table[i], v.row);
  }

  lemma HandledGrows(w: World, w': World, e: Event, rows: seq<Row>)
    requires Grows(w, w') && e in w.chain
    ensures Covered(w, e) ==> Covered(w', e)
    ensures Accounted(w, e) ==> Accounted(w', e)
    ensures Pending(w, e, rows) ==> Pending(w', e, rows)
  {
    if Represented(w, e) {
      RepresentedGrows(w, w', e);
    }
    if Pending(w, e, rows) {
      var v :| (e.id, v) in w.verdicts && v.Parsed? && v.row in rows;
      assert (e.id, v) in w'.verdicts;
    }
  }

  /** A worker's phase stays justified by whatever the others do. */
  lemma PhaseGrows(cfg: Config, w: World, w': World, p: nat, ph: Phase)
    requires Grows(w, w') && PhaseOk(cfg, w, p, ph)
    ensures PhaseOk(cfg, w', p, ph)
  {
    var rows := match ph case Parsing(_, _, _, _, r) => r case Storing(_, _, _, r, _, _) => r case _ => [];
    forall e | e in w.chain
      ensures Accounted(w, e) ==> Accounted(w', e)
      ensures Handled(w, e, rows) ==> Handled(w', e, rows)
      ensures Represented(w, e) ==> Represented(w', e)
      ensures Pending(w, e, rows) ==> Pending(w', e, rows)
    {
      HandledGrows(w, w', e, rows);
      if Represented(w, e) { RepresentedGrows(w, w', e); }
    }
  }

  /** Worker p moved to a justified phase and the rest only grew: the invariant holds again. */
  lemma Moved(cfg: Config, w: World, w': World, p: nat)
    requires Inv(cfg, w) && Grows(w, w') && ChainOk(w')
    requires w'.workers == w.workers[p := PhaseOf(w', p)]
    requires PhaseOk(cfg, w', p, PhaseOf(w', p))
    requires forall e <- w'.chain :: w.watermark < e.ledger <= w'.watermark ==> Accounted(w', e)
    ensures Inv(cfg, w')
  {
    forall q | q in w'.workers ensures PhaseOk(cfg, w', q, w'.workers[q]) {
      if q != p { PhaseGrows(cfg, w, w', q, w.workers[q]); }
    }
    forall e | e in w'.chain && e.ledger <= w'.watermark ensures Accounted(w', e) {
      if e.ledger <= w.watermark { HandledGrows(w, w', e, []); }
    }
  }

  // ---------- the steps ----------

  /** The worker's own phase after it parsed one event. */
  lemma ParsedPhase(cfg: Config, w: World, p: nat, ph: Phase, written: bool)
    requires Inv(cfg, w) && PhaseOf(w, p) == ph && ph.Parsing? && ph.todo != []
    requires Grows(w, ApplyParse(cfg, w, p, ph, written))
    ensures var w' := ApplyParse(cfg, w, p, ph, written); PhaseOk(cfg, w', p, PhaseOf(w', p))
  {
    var w' := ApplyParse(cfg, w, p, ph, written);
    var e, ph' := ph.todo[0], PhaseOf(w', p);
    ParsedEventHandled(cfg, w, p, ph, written);
    forall x | x in w.chain
      ensures Handled(w, x, ph.rows) ==> Handled(w', x, ph'.rows)
      ensures Pending(w, x, ph.rows) ==> Pending(w', x, ph'.rows)
    {
      HandledGrows(w, w', x, ph.rows);
      PendingGrows(w', x, ph.rows, ph'.rows);
    }
    assert forall x <- ph.todo :: x == e || x in ph'.todo;
    hide Handled, Pending, Grows;
  }

  lemma ParsedEventHandled(cfg: Config, w: World, p: nat, ph: Phase, written: bool)
    requires PhaseOf(w, p) == ph && ph.Parsing? && ph.todo != []
    ensures var w' := ApplyParse(cfg, w, p, ph, written);
            && Handled(w', ph.todo[0], PhaseOf(w', p).rows)
            && (cfg.parse(p, ph.todo[0]).Parsed? ==> Pending(w', ph.todo[0], PhaseOf(w', p).rows))
            && ph.rows <= PhaseOf(w', p).rows
  {
    var w' := ApplyParse(cfg, w, p, ph, written);
    var verdict := cfg.parse(p, ph.todo[0]);
    assert (ph.todo[0].id, verdict) in w'.verdicts;
    assert verdict.Parsed? ==> verdict.row in PhaseOf(w', p).rows;
  }

  lemma ParseStep(cfg: Config, w: World, p: nat, ph: Phase, written: bool)
    requires Inv(cfg, w) && PhaseOf(w, p) == ph && ph.Parsing? && ph.todo != []
    ensures var w' := ApplyParse(cfg, w, p, ph, written); Grows(w, w') && Inv(cfg, w')
  {
    var w' := ApplyParse(cfg, w, p, ph, written);
    assert ph.todo[0] in w.chain;
    assert Grows(w, w');
    ParsedPhase(cfg, w, p, ph, written);
    hide PhaseOk, Grows;
    Moved(cfg, w, w', p);
  }

  lemma PendingGrows(w: World, e: Event, rows: seq<Row>, more: seq<Row>)
    requires rows <= more
    ensures Pending(w, e, rows) ==> Pending(w, e, more)
  {
  }

  /** A committed transaction represents every row it was given, inserted or not. */
  lemma CommitRepresents(cfg: Config, w: World, p: nat, ph: Phase, e: Event)
    requires PhaseOf(w, p) == ph && ph.Storing? && Pending(w, e, ph.rows)
    ensures Represented(ApplyAttempt(cfg, w, p, ph, NoFault), e)
  {
    var w' := ApplyAttempt(cfg, w, p, ph, NoFault);
    InsertedCovers(w.table, ph.rows);
    var v :| (e.id, v) in w.verdicts && v.Parsed? && v.row in ph.rows;
    assert Present(w'.table, v.row);
  }

  lemma AttemptStep(cfg: Config, w: World, p: nat, ph: Phase, fault: Fault)
    requires Inv(cfg, w) && PhaseOf(w, p) == ph && ph.Storing?
    ensures var w' := ApplyAttempt(cfg, w, p, ph, fault); Grows(w, w') && Inv(cfg, w')
  {
    var w' := ApplyAttempt(cfg, w, p, ph, fault);
    assert Grows(w, w');
    PhaseGrows(cfg, w, w', p, ph);
    if fault.NoFault? {
      forall e | e in w.chain && Handled(w, e, ph.rows) ensures Accounted(w', e) {
        HandledGrows(w, w', e, ph.rows);
        if Pending(w, e, ph.rows) { CommitRepresents(cfg, w, p, ph, e); }
      }
      if ph.task.Reprocess? { CommitRepresents(cfg, w, p, ph, ph.task.event); }
    }
    assert PhaseOk(cfg, w', p, PhaseOf(w', p)) && ChainOk(w');
    hide PhaseOk, ChainOk, Grows, Accounted, Represented;
    Moved(cfg, w, w', p);
  }

  lemma FinishGrows(cfg: Config, w: World, p: nat, ph: Phase)
    requires Inv(cfg, w) && PhaseOf(w, p) == ph && ph.Stored?
    ensures var w' := ApplyFinish(w, p, ph); Grows(w, w') && ChainOk(w')
  {
    var w' := ApplyFinish(w, p, ph);
    forall e | e in w.chain && e.id in w.quarantine
      ensures e.id in w'.quarantine || Represented(w', e)
    {
      if ph.task.Reprocess? && e.id == ph.task.event.id {
        assert Represented(w, e);
        assert w'.verdicts == w.verdicts && w'.table == w.table;
      }
    }
  }

  lemma FinishStep(cfg: Config, w: World, p: nat, ph: Phase)
    requires Inv(cfg, w) && PhaseOf(w, p) == ph && ph.Stored?
    ensures var w' := ApplyFinish(w, p, ph); Grows(w, w') && Inv(cfg, w')
  {
    var w' := ApplyFinish(w, p, ph);
    FinishGrows(cfg, w, p, ph);
    hide Grows, ChainOk, Accounted, Represented;
    if ph.task.Poll? {
      forall e | e in w'.chain && w.watermark < e.ledger <= w'.watermark ensures Accounted(w', e) {
        assert Accounted(w, e);
        HandledGrows(w, w', e, []);
      }
    }
    Moved(cfg, w, w', p);
  }

  lemma LedgerStep(cfg: Config, w: World, events: seq<Event>)
    requires Inv(cfg, w) && NewLedger(w, events)
    ensures var w' := Apply(cfg, w, CloseLedger(events)); Grows(w, w') && Inv(cfg, w')
  {
    var w' := Apply(cfg, w, CloseLedger(events));
    assert Grows(w, w');
    forall a, b | a in w'.chain && b in w'.chain && a.id == b.id ensures a == b {
      if a in events && b in events {
        var i :| 0 <= i < |events| && events[i] == a;
        var j :| 0 <= j < |events| && events[j] == b;
      }
    }
    forall q | q in w'.workers ensures PhaseOk(cfg, w', q, w'.workers[q]) {
      PhaseGrows(cfg, w, w', q, w.workers[q]);
    }
    forall e | e in w'.chain && e.ledger <= w'.watermark ensures Accounted(w', e) {
      HandledGrows(w, w', e, []);
    }
  }

  /** A worker that only takes up another phase justified where it stands. */
  lemma MovedOnly(cfg: Config, w: World, p: nat, ph: Phase)
    requires Inv(cfg, w) && PhaseOk(cfg, w, p, ph)
    ensures Grows(w, Go(w, p, ph)) && Inv(cfg, Go(w, p, ph))
  {
    var w' := Go(w, p, ph);
    OnlyWorkersDiffer(cfg, w, p, ph);
    PhaseGrows(cfg, w, w', p, ph);
    hide PhaseOk, ChainOk, Grows, Accounted;
    Moved(cfg, w, w', p);
  }

  lemma OnlyWorkersDiffer(cfg: Config, w: World, p: nat, ph: Phase)
    requires Inv(cfg, w)
    ensures Grows(w, Go(w, p, ph)) && ChainOk(Go(w, p, ph))
    ensures forall e <- Go(w, p, ph).chain :: !(w.watermark < e.ledger <= Go(w, p, ph).watermark)
  {
    hide PhaseOk, Accounted, Represented;
  }

  lemma BeginStep(cfg: Config, w: World, p: nat, ph: Phase)
    requires Inv(cfg, w) && PhaseOf(w, p) == ph && ph.Parsing? && ph.todo == []
    ensures var w' := Apply(cfg, w, BeginStore(p)); Grows(w, w') && Inv(cfg, w')
  {
    var w' := Apply(cfg, w, BeginStore(p));
    var next := PhaseOf(w', p);
    if ph.rows == [] {
      forall e ensures !Pending(w, e, ph.rows) { }
    }
    assert PhaseOk(cfg, w, p, next);
    hide PhaseOk, Inv, Grows;
    assert w' == Go(w, p, next);
    MovedOnly(cfg, w, p, next);
  }

  /** The steps that only move a worker between phases. */
  lemma QuietStep(cfg: Config, w: World, s: Step)
    requires Inv(cfg, w)
    requires s.ReadWatermark? || s.SeeTip? || s.StartRange? || s.StartReprocess? || s.Crash?
    ensures Grows(w, Apply(cfg, w, s)) && Inv(cfg, Apply(cfg, w, s))
  {
    var w' := Apply(cfg, w, s);
    StaySafe(cfg, w);
    if w' != w {
      var next := PhaseOf(w', s.p);
      assert PhaseOk(cfg, w, s.p, next);
      hide PhaseOk, Inv, Grows;
      assert w' == Go(w, s.p, next);
      MovedOnly(cfg, w, s.p, next);
    }
  }

  lemma FetchStep(cfg: Config, w: World, p: nat)
    requires Inv(cfg, w)
    ensures var w' := Apply(cfg, w, Fetch(p)); Grows(w, w') && Inv(cfg, w')
  {
    var w' := Apply(cfg, w, Fetch(p));
    var ph := PhaseOf(w, p);
    assert Grows(w, w');
    if ph.Ranged? {
      EventsInMembers(w.chain, ph.from, ph.to);
      Moved(cfg, w, w', p);
    }
  }

  lemma StaySafe(cfg: Config, w: World)
    requires Inv(cfg, w)
    ensures Grows(w, w)
  {
  }

  /** One step of any kind. */
  lemma StepSafe(cfg: Config, w: World, s: Step)
    requires Inv(cfg, w)
    ensures Grows(w, Apply(cfg, w, s)) && Inv(cfg, Apply(cfg, w, s))
  {
    StaySafe(cfg, w);
    hide Inv, Grows;
    match s {
      case CloseLedger(events) =>
        if NewLedger(w, events) { LedgerStep(cfg, w, events); }
      case ParseNext(p, written) =>
        var ph := PhaseOf(w, p);
        if ph.Parsing? && ph.todo != [] { ParseStep(cfg, w, p, ph, written); }
      case BeginStore(p) =>
        var ph := PhaseOf(w, p);
        if ph.Parsing? && ph.todo == [] { BeginStep(cfg, w, p, ph); }
      case Attempt(p, fault) =>
        var ph := PhaseOf(w, p);
        if ph.Storing? { AttemptStep(cfg, w, p, ph, fault); }
      case Finish(p) =>
        var ph := PhaseOf(w, p);
        if ph.Stored? { FinishStep(cfg, w, p, ph); }
      case Fetch(p) => FetchStep(cfg, w, p);
      case _ => QuietStep(cfg, w, s);
    }
  }

  // ---------- over whole runs ----------

  lemma GrowsTransitive(a: World, b: World, c: World)
    requires Grows(a, b) && Grows(b, c)
    ensures Grows(a, c)
  {
    forall e | e in a.chain && e.id in a.quarantine ensures e.id in c.quarantine || Represented(c, e) {
      if e.id !in b.quarantine { RepresentedGrows(b, c, e); }
    }
  }

  /** Every run keeps the invariant and only grows. */
  lemma {:induction false} RunSafe(cfg: Config, w: World, steps: seq<Step>)
    requires Inv(cfg, w)
    ensures Inv(cfg, Exec(cfg, w, steps)) && Grows(w, Exec(cfg, w, steps))
    decreases |steps|
  {
    if steps == [] {
      StaySafe(cfg, w);
    } else {
      hide Inv, Grows;
      var next := Apply(cfg, w, steps[0]);
      StepSafe(cfg, w, steps[0]);
      RunSafe(cfg, next, steps[1..]);
      GrowsTransitive(w, next, Exec(cfg, next, steps[1..]));
    }
  }

  /** The step in which the quarantine write of the event with this id fails. */
  predicate LosesWriteOf(cfg: Config, w: World, s: Step, id: string) {
    s.ParseNext? && !s.quarantineWritten && PhaseOf(w, s.p).Parsing?
    && var todo := PhaseOf(w, s.p).todo; todo != [] && todo[0].id == id && cfg.parse(s.p, todo[0]).Throws?
  }

  /** Whatever other writes fail, none for this id does. */
  predicate KeepsWritesOf(cfg: Config, w: World, steps: seq<Step>, id: string)
    decreases |steps|
  {
    steps == [] || (!LosesWriteOf(cfg, w, steps[0], id) && KeepsWritesOf(cfg, Apply(cfg, w, steps[0]), steps[1..], id))
  }

  /** An id is recorded as lost exactly when a write of its own has failed. */
  lemma {:induction false} LostIffOwnWriteFailed(cfg: Config, w: World, steps: seq<Step>, id: string)
    ensures id in Exec(cfg, w, steps).lost <==> id in w.lost || !KeepsWritesOf(cfg, w, steps, id)
    decreases |steps|
  {
    if steps != [] {
      LostStep(cfg, w, steps[0], id);
      LostIffOwnWriteFailed(cfg, Apply(cfg, w, steps[0]), steps[1..], id);
    }
  }

  lemma LostStep(cfg: Config, w: World, s: Step, id: string)
    ensures id in Apply(cfg, w, s).lost <==> id in w.lost || LosesWriteOf(cfg, w, s, id)
  {
  }

  /**
   * Nothing is lost: from the empty database, after any run, every chain event at or below the watermark whose own
   * quarantine writes succeeded, whatever became of those of others, is in quarantine, was ignored by the parser that
   * read it, or is represented in the table by a row sharing a unique key with its own.
   */
  lemma NothingBelowTheWatermarkIsLost(cfg: Config, steps: seq<Step>, e: Event)
    ensures var w := Exec(cfg, Init(cfg), steps);
            && w.watermark <= w.tip
            && (e in w.chain && e.ledger <= w.watermark && KeepsWritesOf(cfg, Init(cfg), steps, e.id) ==> Covered(w, e))
  {
    RunSafe(cfg, Init(cfg), steps);
    LostIffOwnWriteFailed(cfg, Init(cfg), steps, e.id);
  }

  /** Between any two moments of a run the watermark never decreases, no row disappears, and an event that left
      quarantine is represented in the table. */
  lemma ProgressIsNeverUndone(cfg: Config, first: seq<Step>, later: seq<Step>, e: Event)
    ensures var w := Exec(cfg, Init(cfg), first);
            var w' := Exec(cfg, w, later);
            && w.watermark <= w'.watermark
            && w.table <= w'.table
            && (e in w.chain && e.id in w.quarantine && e.id !in w'.quarantine ==> Represented(w', e))
  {
    RunSafe(cfg, Init(cfg), first);
    RunSafe(cfg, Exec(cfg, Init(cfg), first), later);
  }

  // ---------- exactly which events are lost ----------

  /** The parse verdict or the committed rows by which step s covers e. */
  ghost predicate CoveringStep(cfg: Config, w: World, s: Step, e: Event) {
    match s
    case ParseNext(p, written) =>
      var ph := PhaseOf(w, p);
      && ph.Parsing? && ph.todo != [] && ph.todo[0].id == e.id
      && (match cfg.parse(p, ph.todo[0])
          case Ignored => true
          case Throws => written
          case Parsed(row) => Present(w.table, row))
    case Attempt(p, fault) =>
      var ph := PhaseOf(w, p);
      && ph.Storing? && !fault.FailsAfter?
      && exists v :: (e.id, v) in w.verdicts && v.Parsed? && Present(Inserted(w.table, ph.rows), v.row)
    case _ => false
  }

  lemma ParseCoversIff(cfg: Config, w: World, p: nat, ph: Phase, written: bool, e: Event)
    requires PhaseOf(w, p) == ph && ph.Parsing? && ph.todo != []
    ensures Covered(ApplyParse(cfg, w, p, ph, written), e) <==> Covered(w, e) || CoveringStep(cfg, w, ParseNext(p, written), e)
  {
    var w' := ApplyParse(cfg, w, p, ph, written);
    var verdict := cfg.parse(p, ph.todo[0]);
    assert (ph.todo[0].id, verdict) in w'.verdicts;
    assert forall v :: (e.id, v) in w'.verdicts <==> (e.id, v) in w.verdicts || (e.id == ph.todo[0].id && v == verdict);
    hide Present;
  }

  lemma AttemptCoversIff(cfg: Config, w: World, p: nat, ph: Phase, fault: Fault, e: Event)
    requires PhaseOf(w, p) == ph && ph.Storing?
    ensures Covered(ApplyAttempt(cfg, w, p, ph, fault), e) <==> Covered(w, e) || CoveringStep(cfg, w, Step.Attempt(p, fault), e)
  {
    var w' := ApplyAttempt(cfg, w, p, ph, fault);
    assert w'.verdicts == w.verdicts && w'.quarantine == w.quarantine;
    if fault.FailsAfter? {
      assert w'.table == w.table;
    } else {
      var added := Inserted(w.table, ph.rows);
      assert w'.table == w.table + added;
      forall v | (e.id, v) in w.verdicts && v.Parsed?
        ensures Present(w'.table, v.row) <==> Present(w.table, v.row) || Present(added, v.row)
      {
        PresentAppend(w.table, added, v.row);
      }
      hide Present;
    }
  }

  lemma SameRecordsCoverTheSame(w: World, w': World, e: Event)
    requires w'.table == w.table && w'.quarantine == w.quarantine && w'.verdicts == w.verdicts
    ensures Covered(w', e) <==> Covered(w, e)
  {
  }

  lemma FinishCoversTheSame(cfg: Config, w: World, p: nat, ph: Phase, e: Event)
    requires Inv(cfg, w) && PhaseOf(w, p) == ph && ph.Stored?
    ensures Covered(ApplyFinish(w, p, ph), e) <==> Covered(w, e)
  {
    if ph.task.Reprocess? {
      assert Represented(w, ph.task.event);
      hide Inv;
    } else {
      SameRecordsCoverTheSame(w, ApplyFinish(w, p, ph), e);
    }
  }

  /** An event is covered after a step if and only if it was before, or the step covers it. */
  lemma CoveredAfterStepIff(cfg: Config, w: World, s: Step, e: Event)
    requires Inv(cfg, w)
    ensures Covered(Apply(cfg, w, s), e) <==> Covered(w, e) || CoveringStep(cfg, w, s, e)
  {
    hide Covered, Inv, ApplyParse, ApplyAttempt, ApplyFinish, NewLedger;
    match s {
      case ParseNext(p, written) =>
        var ph := PhaseOf(w, p);
        if ph.Parsing? && ph.todo != [] { ParseCoversIff(cfg, w, p, ph, written, e); }
      case Attempt(p, fault) =>
        var ph := PhaseOf(w, p);
        if ph.Storing? { AttemptCoversIff(cfg, w, p, ph, fault, e); }
      case Finish(p) =>
        var ph := PhaseOf(w, p);
        if ph.Stored? { FinishCoversTheSame(cfg, w, p, ph, e); }
      case _ => SameRecordsCoverTheSame(w, Apply(cfg, w, s), e);
    }
  }

  ghost predicate EverCovers(cfg: Config, w: World, steps: seq<Step>, e: Event)
    decreases |steps|
  {
    steps != [] && (CoveringStep(cfg, w, steps[0], e) || EverCovers(cfg, Apply(cfg, w, steps[0]), steps[1..], e))
  }

  lemma {:induction false} CoveredIff(cfg: Config, w: World, steps: seq<Step>, e: Event)
    requires Inv(cfg, w)
    ensures Covered(Exec(cfg, w, steps), e) <==> Covered(w, e) || EverCovers(cfg, w, steps, e)
    decreases |steps|
  {
    if steps != [] {
      StepSafe(cfg, w, steps[0]);
      CoveredAfterStepIff(cfg, w, steps[0], e);
      hide Inv, Covered, CoveringStep, Grows;
      CoveredIff(cfg, Apply(cfg, w, steps[0]), steps[1..], e);
    }
  }

  /**
   * Exactly: after any run, an event at or below the watermark is lost if and only if a quarantine write of its own has
   * failed and no step of the run, before or after, has ignored it, quarantined it, found its row represented or
   * committed a row that represents it.
   */
  lemma LostIff(cfg: Config, steps: seq<Step>, e: Event)
    requires var w := Exec(cfg, Init(cfg), steps); e in w.chain && e.ledger <= w.watermark
    ensures !Covered(Exec(cfg, Init(cfg), steps), e) <==>
            !KeepsWritesOf(cfg, Init(cfg), steps, e.id) && !EverCovers(cfg, Init(cfg), steps, e)
  {
    RunSafe(cfg, Init(cfg), steps);
    LostIffOwnWriteFailed(cfg, Init(cfg), steps, e.id);
    CoveredIff(cfg, Init(cfg), steps, e);
  }

  // ---------- the hypothesis is needed ----------

  /** One failed quarantine write — which the source logs and swallows — and the watermark passes an event of which
      nothing is kept; no later poll reads its ledger again. */
  lemma LostQuarantineWriteLosesTheEvent()
    returns (cfg: Config, steps: seq<Step>, e: Event)
    ensures var w := Exec(cfg, Init(cfg), steps);
            e in w.chain && e.ledger <= w.watermark && !Covered(w, e)
  {
    cfg := Config(ScoreConfig(15, 50), (p: nat, x: Event) => Throws, 100, map[]);
    e := Event("bad", 1, 0);
    var fetched := [CloseLedger([e]), ReadWatermark(0), SeeTip(0, 1), Fetch(0)];
    var stored := [ParseNext(0, false), BeginStore(0), Finish(0)];
    steps := fetched + stored;
    var w4 := World([e], 1, [], map[], map[], 0, map[0 := Parsing(Poll, 1, 1, [e], [])], {}, [], {});
    var w7 := World([e], 1, [], map[], map[], 1, map[0 := Idle], {("bad", Throws)}, [], {"bad"});
    PollFetches(cfg, e);
    PollLoses(cfg, e);
    Exec4(cfg, Init(cfg), fetched[0], fetched[1], fetched[2], fetched[3]);
    Exec3(cfg, w4, stored[0], stored[1], stored[2]);
    hide Apply;
    ExecAppend(cfg, Init(cfg), fetched, stored);
    forall v | (e.id, v) in w7.verdicts ensures v == Throws { }
  }

  lemma PollFetches(cfg: Config, e: Event)
    requires e == Event("bad", 1, 0) && cfg.initialScores == map[] && cfg.batchSize == 100
    ensures Apply(cfg, Apply(cfg, Apply(cfg, Apply(cfg, Init(cfg), CloseLedger([e])), ReadWatermark(0)), SeeTip(0, 1)), Fetch(0))
            == World([e], 1, [], map[], map[], 0, map[0 := Parsing(Poll, 1, 1, [e], [])], {}, [], {})
  {
    var w1 := World([e], 1, [], map[], map[], 0, map[], {}, [], {});
    assert [] + [e] == [e];
    assert Apply(cfg, Init(cfg), CloseLedger([e])) == w1;
    var w2 := w1.(workers := map[0 := SawWatermark(0)]);
    assert Apply(cfg, w1, ReadWatermark(0)) == w2;
    var w3 := w1.(workers := map[0 := Ranged(Poll, 1, 1)]);
    assert Apply(cfg, w2, SeeTip(0, 1)) == w3;
    assert EventsIn([e], 1, 1) == [e];
  }

  lemma PollLoses(cfg: Config, e: Event)
    requires e == Event("bad", 1, 0) && cfg.parse(0, e) == Throws
    ensures var w4 := World([e], 1, [], map[], map[], 0, map[0 := Parsing(Poll, 1, 1, [e], [])], {}, [], {});
            Apply(cfg, Apply(cfg, Apply(cfg, w4, ParseNext(0, false)), BeginStore(0)), Finish(0))
            == World([e], 1, [], map[], map[], 1, map[0 := Idle], {("bad", Throws)}, [], {"bad"})
  {
    var w4 := World([e], 1, [], map[], map[], 0, map[0 := Parsing(Poll, 1, 1, [e], [])], {}, [], {});
    var w5 := w4.(workers := map[0 := Parsing(Poll, 1, 1, [], [])], verdicts := {("bad", Throws)}, lost := {"bad"});
    assert [e][1..] == [];
    assert Apply(cfg, w4, ParseNext(0, false)) == w5;
    var w6 := w5.(workers := map[0 := Stored(Poll, 1, 1)]);
    assert Apply(cfg, w5, BeginStore(0)) == w6;
  }

  lemma Exec3(cfg: Config, w: World, a: Step, b: Step, c: Step)
    ensures Exec(cfg, w, [a, b, c]) == Apply(cfg, Apply(cfg, Apply(cfg, w, a), b), c)
  {
    assert [a, b, c][1..] == [b, c] && [b, c][1..] == [c] && [c][1..] == [];
    var w1 := Apply(cfg, w, a);
    assert Exec(cfg, w, [a, b, c]) == Exec(cfg, w1, [b, c]) == Exec(cfg, Apply(cfg, w1, b), [c]);
  }

  lemma Exec4(cfg: Config, w: World, a: Step, b: Step, c: Step, d: Step)
    ensures Exec(cfg, w, [a, b, c, d]) == Apply(cfg, Apply(cfg, Apply(cfg, Apply(cfg, w, a), b), c), d)
  {
    assert [a, b, c, d][1..] == [b, c, d];
    Exec3(cfg, Apply(cfg, w, a), b, c, d);
  }

  lemma {:induction false} ExecAppend(cfg: Config, w: World, xs: seq<Step>, ys: seq<Step>)
    ensures Exec(cfg, w, xs + ys) == Exec(cfg, Exec(cfg, w, xs), ys)
    decreases |xs|
  {
    if xs == [] {
      assert xs + ys == ys;
    } else {
      assert (xs + ys)[1..] == xs[1..] + ys;
      ExecAppend(cfg, Apply(cfg, w, xs[0]), xs[1..], ys);
    }
  }
}
