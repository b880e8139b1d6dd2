/**
 * How indexed rows turn into score changes (the second half of storeEvents in
 * backend/src/services/eventIndexer.ts): a Map of deltas is filled while rows are inserted and
 * handed to the bulk upsert at the end of the transaction.
 */
module ScoreEvents {
  import opened Common
  import opened EventTable
  import opened Scores

  /** SCORE_DELTA_REPAY and SCORE_DELTA_DEFAULT. */
  datatype ScoreConfig = ScoreConfig(repaymentDelta: int, defaultPenalty: int)

  type DeltaMap = map<string, int>

  /** An absent or empty address earns nothing. */
  function RowDelta(cfg: ScoreConfig, r: Row): int {
    if r.address.None? || r.address.value == "" then 0
    else match r.eventType
         case LoanRepaid => cfg.repaymentDelta
         case LoanDefaulted => -cfg.defaultPenalty
         case CollateralLiquidated => -cfg.defaultPenalty
         case _ => 0
  }

  predicate MovesScore(r: Row) {
    && r.address.Some? && r.address.value != ""
    && (r.eventType == LoanRepaid || r.eventType == LoanDefaulted || r.eventType == CollateralLiquidated)
  }

  function DeltaAt(m: DeltaMap, u: string): int {
    if u in m then m[u] else 0
  }

  /** scoreUpdates.set(address, (scoreUpdates.get(address) ?? 0) + delta) */
  function AddDelta(cfg: ScoreConfig, m: DeltaMap, r: Row): DeltaMap {
    if MovesScore(r) then m[r.address.value := DeltaAt(m, r.address.value) + RowDelta(cfg, r)] else m
  }

  /** The Map after a run of inserted rows, started from whatever it already held. */
  function Accumulate(cfg: ScoreConfig, m: DeltaMap, rows: seq<Row>): DeltaMap
    decreases |rows|
  {
    if rows == [] then m
    else Accumulate(cfg, AddDelta(cfg, m, rows[0]), rows[1..])
  }

  /** What `rows` owe to user `u` in all. */
  function NetDelta(cfg: ScoreConfig, rows: seq<Row>, u: string): int
    decreases |rows|
  {
    if rows == [] then 0
    else (if rows[0].address == Some(u) then RowDelta(cfg, rows[0]) else 0) + NetDelta(cfg, rows[1..], u)
  }

  lemma {:induction false} NetDeltaAppend(cfg: ScoreConfig, xs: seq<Row>, ys: seq<Row>, u: string)
    ensures NetDelta(cfg, xs + ys, u) == NetDelta(cfg, xs, u) + NetDelta(cfg, ys, u)
    decreases |xs|
  {
    if xs == [] {
      assert xs + ys == ys;
    } else {
      assert (xs + ys)[1..] == xs[1..] + ys;
      NetDeltaAppend(cfg, xs[1..], ys, u);
    }
  }

  lemma {:induction false} AccumulateAppend(cfg: ScoreConfig, m: DeltaMap, xs: seq<Row>, ys: seq<Row>)
    ensures Accumulate(cfg, m, xs + ys) == Accumulate(cfg, Accumulate(cfg, m, xs), ys)
    decreases |xs|
  {
    if xs == [] {
      assert xs + ys == ys;
    } else {
      assert (xs + ys)[1..] == xs[1..] + ys;
      AccumulateAppend(cfg, AddDelta(cfg, m, xs[0]), xs[1..], ys);
    }
  }

  /** The Map holds, for every user, what it held before plus the net delta of the rows. */
  lemma {:induction false} AccumulateAt(cfg: ScoreConfig, m: DeltaMap, rows: seq<Row>, u: string)
    requires "" !in m
    ensures DeltaAt(Accumulate(cfg, m, rows), u) == DeltaAt(m, u) + NetDelta(cfg, rows, u)
    ensures "" !in Accumulate(cfg, m, rows)
    decreases |rows|
  {
    if rows != [] {
      AccumulateAt(cfg, AddDelta(cfg, m, rows[0]), rows[1..], u);
    }
  }
}
