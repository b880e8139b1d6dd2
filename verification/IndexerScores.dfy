/**
 * Exactly-once scoring over every run of IndexerMachine, and the exact surplus when attempts fail
 * (backend/src/services/eventIndexer.ts:493-625).
 */
module IndexerScores {
  import opened Common
  import opened EventTable
  import opened Scores
  import opened ScoreEvents
  import opened Transaction
  import opened EventStore
  import opened IndexerMachine

  // ---------- reading a history ----------

  function RowsOf(history: seq<Batch>): seq<Row> {
    if history == [] then [] else history[0].rows + RowsOf(history[1..])
  }

  function WastedOf(history: seq<Batch>): seq<Row> {
    if history == [] then [] else history[0].wasted + WastedOf(history[1..])
  }

  /** The deltas batch b applied: each row it added once, each wasted row once more. */
  function BatchDeltas(cfg: ScoreConfig, b: Batch): DeltaMap {
    Accumulate(cfg, map[], b.wasted + b.rows)
  }

  function Replay(cfg: ScoreConfig, scores: Ledger, history: seq<Batch>): Ledger
    decreases |history|
  {
    if history == [] then scores
    else Replay(cfg, ApplyBulk(scores, BatchDeltas(cfg, history[0])), history[1..])
  }

  lemma {:induction false} HistoryAppend(cfg: ScoreConfig, scores: Ledger, history: seq<Batch>, b: Batch)
    ensures RowsOf(history + [b]) == RowsOf(history) + b.rows
    ensures WastedOf(history + [b]) == WastedOf(history) + b.wasted
    ensures Replay(cfg, scores, history + [b]) == ApplyBulk(Replay(cfg, scores, history), BatchDeltas(cfg, b))
    decreases |history|
  {
    hide ApplyBulk, BatchDeltas;
    if history == [] {
      assert history + [b] == [b] && [b][1..] == [];
      assert RowsOf([b]) == b.rows + [] && WastedOf([b]) == b.wasted + [];
      assert Replay(cfg, scores, [b]) == Replay(cfg, ApplyBulk(scores, BatchDeltas(cfg, b)), []);
    } else {
      var first, rest := history[0], history[1..];
      HistoryAppend(cfg, ApplyBulk(scores, BatchDeltas(cfg, first)), rest, b);
      OneMoreInFront(cfg, scores, first, rest + [b]);
      OneMoreInFront(cfg, scores, first, rest);
      assert [first] + (rest + [b]) == history + [b] && [first] + rest == history;
      hide RowsOf, WastedOf, Replay;
      assert first.rows + (RowsOf(rest) + b.rows) == (first.rows + RowsOf(rest)) + b.rows;
      assert first.wasted + (WastedOf(rest) + b.wasted) == (first.wasted + WastedOf(rest)) + b.wasted;
    }
  }

  lemma OneMoreInFront(cfg: ScoreConfig, scores: Ledger, b: Batch, history: seq<Batch>)
    ensures RowsOf([b] + history) == b.rows + RowsOf(history)
    ensures WastedOf([b] + history) == b.wasted + WastedOf(history)
    ensures Replay(cfg, scores, [b] + history) == Replay(cfg, ApplyBulk(scores, BatchDeltas(cfg, b)), history)
  {
    hide ApplyBulk, BatchDeltas;
    assert ([b] + history)[1..] == history;
  }

  // ---------- the invariant ----------

  predicate CapturedOk(cfg: ScoreConfig, ph: Phase) {
    ph.Storing? ==> ph.captured.scoreUpdates == Accumulate(cfg, map[], ph.captured.insertedEvents)
  }

  ghost predicate ScoreInv(cfg: Config, w: World) {
    && w.table == RowsOf(w.history)
    && w.scores == Replay(cfg.score, cfg.initialScores, w.history)
    && UniqueKeys(w.table)
    && (forall p <- w.workers :: CapturedOk(cfg.score, w.workers[p]))
  }

  lemma AttemptKeepsScoreInv(cfg: Config, w: World, p: nat, ph: Phase, fault: Fault)
    requires ScoreInv(cfg, w) && ph.Storing? && PhaseOf(w, p) == ph
    ensures ScoreInv(cfg, ApplyAttempt(cfg, w, p, ph, fault))
  {
    var added := Inserted(w.table, Reached(ph.rows, fault));
    var wasted := ph.captured.insertedEvents;
    AccumulateAppend(cfg.score, map[], wasted, added);
    HistoryAppend(cfg.score, cfg.initialScores, w.history, Batch(added, wasted));
    InsertedKeepsUniqueKeys(w.table, Reached(ph.rows, fault));
  }

  lemma StepKeepsScoreInv(cfg: Config, w: World, s: Step)
    requires ScoreInv(cfg, w)
    ensures ScoreInv(cfg, Apply(cfg, w, s))
  {
    hide RowsOf, Replay, UniqueKeys, Accumulate, ApplyAttempt;
    if s.Attempt? {
      if PhaseOf(w, s.p).Storing? {
        AttemptKeepsScoreInv(cfg, w, s.p, PhaseOf(w, s.p), s.fault);
      }
    } else {
      OtherStepKeepsScoreInv(cfg, w, s);
    }
  }

  lemma OtherStepKeepsScoreInv(cfg: Config, w: World, s: Step)
    requires ScoreInv(cfg, w) && !s.Attempt?
    ensures ScoreInv(cfg, Apply(cfg, w, s))
  {
    hide RowsOf, Replay, UniqueKeys, ApplyAttempt, NewLedger;
  }

  /** In every run, with any failures: the table is the concatenation of what the applied
      transactions added, no two rows share a key, and the scores are the fold of their deltas. */
  lemma {:induction false} ScoresFollowHistory(cfg: Config, w: World, steps: seq<Step>)
    requires ScoreInv(cfg, w)
    ensures ScoreInv(cfg, Exec(cfg, w, steps))
    decreases |steps|
  {
    if steps != [] {
      StepKeepsScoreInv(cfg, w, steps[0]);
      ScoresFollowHistory(cfg, Apply(cfg, w, steps[0]), steps[1..]);
    }
  }

  lemma InitialScoreInv(cfg: Config)
    ensures ScoreInv(cfg, Init(cfg))
  {
  }

  // ---------- exactly once ----------

  /** No attempt fails, visibly or not, after it inserted a row. */
  predicate CleanStep(cfg: Config, w: World, s: Step) {
    s.Attempt? && PhaseOf(w, s.p).Storing? && !s.fault.NoFault? ==>
      Inserted(w.table, Reached(PhaseOf(w, s.p).rows, s.fault)) == []
  }

  predicate CleanRun(cfg: Config, w: World, steps: seq<Step>)
    decreases |steps|
  {
    steps == [] || (CleanStep(cfg, w, steps[0]) && CleanRun(cfg, Apply(cfg, w, steps[0]), steps[1..]))
  }

  predicate NothingWasted(w: World) {
    && (forall i | 0 <= i < |w.history| :: w.history[i].wasted == [])
    && (forall p <- w.workers :: w.workers[p].Storing? ==> w.workers[p].captured.insertedEvents == [])
  }

  lemma CleanStepsWasteNothing(cfg: Config, w: World, s: Step)
    requires NothingWasted(w) && CleanStep(cfg, w, s)
    ensures NothingWasted(Apply(cfg, w, s))
  {
    hide Inserted, Accumulate, ApplyBulk;
    if s.Attempt? && PhaseOf(w, s.p).Storing? {
      assert [] + Inserted(w.table, Reached(PhaseOf(w, s.p).rows, s.fault)) ==
             Inserted(w.table, Reached(PhaseOf(w, s.p).rows, s.fault));
    }
  }

  lemma {:induction false} CleanRunsWasteNothing(cfg: Config, w: World, steps: seq<Step>)
    requires NothingWasted(w) && CleanRun(cfg, w, steps)
    ensures NothingWasted(Exec(cfg, w, steps))
    decreases |steps|
  {
    if steps != [] {
      CleanStepsWasteNothing(cfg, w, steps[0]);
      hide CleanStep, NothingWasted;
      CleanRunsWasteNothing(cfg, Apply(cfg, w, steps[0]), steps[1..]);
    }
  }

  lemma {:induction false} NoneWasted(history: seq<Batch>)
    requires forall i | 0 <= i < |history| :: history[i].wasted == []
    ensures WastedOf(history) == []
  {
    if history != [] {
      NoneWasted(history[1..]);
    }
  }

  /**
   * Exactly once: in every run from the empty database in which no attempt fails after an insert —
   * whatever crashes, however pollers, reindexing and reprocessing interleave, and however often a
   * range is stored again after a crash between COMMIT and the watermark — each applied transaction
   * changed scores by exactly the deltas of the rows it added, and each row of the table was added
   * by exactly one of them.
   */
  lemma ExactlyOnceScores(cfg: Config, steps: seq<Step>)
    requires CleanRun(cfg, Init(cfg), steps)
    ensures var w := Exec(cfg, Init(cfg), steps);
            && w.table == RowsOf(w.history)
            && UniqueKeys(w.table)
            && w.scores == Replay(cfg.score, cfg.initialScores, w.history)
            && (forall i | 0 <= i < |w.history| ::
                  BatchDeltas(cfg.score, w.history[i]) == Accumulate(cfg.score, map[], w.history[i].rows))
  {
    InitialScoreInv(cfg);
    ScoresFollowHistory(cfg, Init(cfg), steps);
    CleanRunsWasteNothing(cfg, Init(cfg), steps);
    var w := Exec(cfg, Init(cfg), steps);
    forall i | 0 <= i < |w.history|
      ensures BatchDeltas(cfg.score, w.history[i]) == Accumulate(cfg.score, map[], w.history[i].rows)
    {
      assert [] + w.history[i].rows == w.history[i].rows;
    }
  }

  // ---------- the surplus ----------

  /** No clamp changes u's score in any batch. */
  predicate Unclamped(cfg: ScoreConfig, history: seq<Batch>, u: string, score: int) {
    history == [] ||
    (var d := NetDelta(cfg, history[0].wasted + history[0].rows, u);
     Small(d) && ValidScore(score + d) && Unclamped(cfg, history[1..], u, score + d))
  }

  lemma {:induction false} ReplayNet(cfg: ScoreConfig, scores: Ledger, history: seq<Batch>, u: string)
    requires u != "" && ValidScore(ScoreOf(scores, u))
    requires Unclamped(cfg, history, u, ScoreOf(scores, u))
    ensures ScoreOf(Replay(cfg, scores, history), u) ==
            ScoreOf(scores, u) + NetDelta(cfg, RowsOf(history), u) + NetDelta(cfg, WastedOf(history), u)
    decreases |history|
  {
    if history != [] {
      var b := history[0];
      var next := ApplyBulk(scores, BatchDeltas(cfg, b));
      AccumulateAt(cfg, map[], b.wasted + b.rows, u);
      ApplyBulkAt(scores, BatchDeltas(cfg, b), u);
      UpsertIsSaturatingAdditionIff(ScoreOf(scores, u), NetDelta(cfg, b.wasted + b.rows, u));
      ReplayNet(cfg, next, history[1..], u);
      NetDeltaAppend(cfg, b.wasted, b.rows, u);
      NetDeltaAppend(cfg, b.rows, RowsOf(history[1..]), u);
      NetDeltaAppend(cfg, b.wasted, WastedOf(history[1..]), u);
    }
  }

  /**
   * The exact surplus: in every run, with any failures, a score is its starting value, plus the
   * delta of each table row once, plus the delta of each row that an earlier attempt of the
   * transaction which finally applied had inserted — as long as no clamp binds.
   */
  lemma ScoreIsTableNetPlusWastedNet(cfg: Config, steps: seq<Step>, u: string)
    requires u != "" && ValidScore(ScoreOf(cfg.initialScores, u))
    requires Unclamped(cfg.score, Exec(cfg, Init(cfg), steps).history, u, ScoreOf(cfg.initialScores, u))
    ensures var w := Exec(cfg, Init(cfg), steps);
            && ScoreOf(w.scores, u) ==
               ScoreOf(cfg.initialScores, u) + NetDelta(cfg.score, w.table, u)
               + NetDelta(cfg.score, WastedOf(w.history), u)
            && (CleanRun(cfg, Init(cfg), steps) ==> NetDelta(cfg.score, WastedOf(w.history), u) == 0)
  {
    InitialScoreInv(cfg);
    ScoresFollowHistory(cfg, Init(cfg), steps);
    var w := Exec(cfg, Init(cfg), steps);
    ReplayNet(cfg.score, cfg.initialScores, w.history, u);
    if CleanRun(cfg, Init(cfg), steps) {
      CleanRunsWasteNothing(cfg, Init(cfg), steps);
      NoneWasted(w.history);
    }
  }
}
