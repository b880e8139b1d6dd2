/**
 * Credit scores and the bulk upsert that moves them
 * (backend/src/services/scoresService.ts).
 *
 * The upsert clamps twice: once on the row it proposes to insert (500 + delta) and once on the
 * row it updates (old + proposed - 500).  The lemmas say when that is the saturating addition a
 * reader expects, and when adding a batch up first is the same as applying it one event at a time.
 */
module Scores {
  import opened Common

  const MIN_SCORE := 300
  const MAX_SCORE := 850
  const INITIAL_SCORE := 500

  type Ledger = map<string, int>

  /** LEAST(850, GREATEST(300, x)) */
  function Saturate(x: int): (r: int)
    ensures MIN_SCORE <= r <= MAX_SCORE
  {
    Min(MAX_SCORE, Max(MIN_SCORE, x))
  }

  predicate ValidScore(s: int) {
    MIN_SCORE <= s <= MAX_SCORE
  }

  /** The row proposed by VALUES. */
  function Proposed(delta: int): int {
    Saturate(INITIAL_SCORE + delta)
  }

  /** DO UPDATE SET current_score = ... */
  function Updated(score: int, delta: int): int {
    Saturate(score + Proposed(delta) - INITIAL_SCORE)
  }

  function Upsert(existing: Option<int>, delta: int): int {
    match existing
    case None => Proposed(delta)
    case Some(score) => Updated(score, delta)
  }

  function Lookup(scores: Ledger, user: string): Option<int> {
    if user in scores then Some(scores[user]) else None
  }

  /** A user without a row stands at 500. */
  function ScoreOf(scores: Ledger, user: string): int {
    if user in scores then scores[user] else INITIAL_SCORE
  }

  /** The whole statement: every non-empty user id in `updates` is upserted, nobody else moves. */
  function ApplyBulk(scores: Ledger, updates: map<string, int>): Ledger {
    map u | u in scores.Keys + (updates.Keys - {""}) ::
      if u in updates && u != "" then Upsert(Lookup(scores, u), updates[u]) else scores[u]
  }

  predicate AllValid(scores: Ledger) {
    forall u <- scores :: ValidScore(scores[u])
  }

  // ---------- what one upsert means ----------

  /** The upsert is saturating addition exactly when the inner clamp is idle or masked by the outer one. */
  lemma UpsertIsSaturatingAdditionIff(score: int, delta: int)
    requires ValidScore(score)
    ensures Updated(score, delta) == Saturate(score + delta) <==>
            || -200 <= delta <= 350
            || (delta > 350 && score >= INITIAL_SCORE)
            || (delta < -200 && score <= INITIAL_SCORE)
    ensures Updated(score, delta) == Saturate(score + Min(350, Max(-200, delta)))
  {
  }

  /** Inserting a user is updating a user who stood at 500. */
  lemma InsertAgreesWithUpdate(scores: Ledger, user: string, delta: int)
    ensures Upsert(Lookup(scores, user), delta) == Updated(ScoreOf(scores, user), delta)
  {
  }

  // ---------- batches ----------

  /** The deltas applied one upsert at a time. */
  function OneByOne(score: int, deltas: seq<int>): int
    decreases |deltas|
  {
    if deltas == [] then score else OneByOne(Updated(score, deltas[0]), deltas[1..])
  }

  predicate Small(d: int) {
    -200 <= d <= 350
  }

  /** Neither clamp changes anything at any step. */
  predicate NeverSaturates(score: int, deltas: seq<int>)
    decreases |deltas|
  {
    deltas == [] ||
    (Small(deltas[0]) && ValidScore(score + deltas[0]) && NeverSaturates(score + deltas[0], deltas[1..]))
  }

  lemma {:induction false} UnsaturatedIsExact(score: int, deltas: seq<int>)
    requires NeverSaturates(score, deltas)
    ensures OneByOne(score, deltas) == score + Sum(deltas)
    ensures ValidScore(score) ==> ValidScore(score + Sum(deltas))
    decreases |deltas|
  {
    if deltas != [] {
      UnsaturatedIsExact(score + deltas[0], deltas[1..]);
    }
  }

  lemma {:induction false} SumSign(deltas: seq<int>)
    ensures (forall i | 0 <= i < |deltas| :: deltas[i] >= 0) ==> Sum(deltas) >= 0
    ensures (forall i | 0 <= i < |deltas| :: deltas[i] <= 0) ==> Sum(deltas) <= 0
  {
    if deltas != [] {
      SumSign(deltas[1..]);
    }
  }

  /** Deltas of one sign, total in range: the batch form refines the one-by-one form. */
  lemma {:induction false} BatchEqualsOneByOneSameSign(score: int, deltas: seq<int>)
    requires ValidScore(score)
    requires || (forall i | 0 <= i < |deltas| :: deltas[i] >= 0)
             || (forall i | 0 <= i < |deltas| :: deltas[i] <= 0)
    requires Small(Sum(deltas))
    ensures OneByOne(score, deltas) == Updated(score, Sum(deltas))
    decreases |deltas|
  {
    if deltas != [] {
      SumSign(deltas[1..]);
      assert Small(deltas[0]) && Small(Sum(deltas[1..]));
      var next := Updated(score, deltas[0]);
      BatchEqualsOneByOneSameSign(next, deltas[1..]);
    }
  }

  /** No step saturates and the total is in range: the same, for mixed signs. */
  lemma BatchEqualsOneByOneUnsaturated(score: int, deltas: seq<int>)
    requires ValidScore(score) && NeverSaturates(score, deltas) && Small(Sum(deltas))
    ensures OneByOne(score, deltas) == Updated(score, Sum(deltas)) == score + Sum(deltas)
  {
    UnsaturatedIsExact(score, deltas);
  }

  /** Neither hypothesis can be dropped: a repayment and a default near the ceiling. */
  lemma MixedSignsNearTheCeilingDiffer()
    ensures OneByOne(840, [15, -50]) == 800
    ensures Updated(840, Sum([15, -50])) == 805
  {
    assert [15, -50][1..] == [-50];
    assert OneByOne(850, [-50]) == 800;
    assert Sum([-50]) == -50;
  }

  /** Two deltas of opposite sign, exactly: summing them first is applying them one by one if and only if the first one
      alone stays in range, or the second is nothing. */
  lemma MixedPairIff(score: int, a: int, b: int)
    requires ValidScore(score) && Small(a) && Small(b) && (a >= 0 >= b || a <= 0 <= b)
    ensures OneByOne(score, [a, b]) == Updated(score, Sum([a, b])) <==> ValidScore(score + a) || b == 0
  {
    assert [a, b][1..] == [b] && [b][1..] == [];
    assert OneByOne(score, [a, b]) == OneByOne(Updated(score, a), [b]) == Updated(Updated(score, a), b);
    assert Sum([a, b]) == a + Sum([b]) == a + b;
  }

  // ---------- whole-table facts ----------

  lemma ApplyBulkAt(scores: Ledger, updates: map<string, int>, user: string)
    ensures ScoreOf(ApplyBulk(scores, updates), user) ==
            if user in updates && user != "" then Updated(ScoreOf(scores, user), updates[user])
            else ScoreOf(scores, user)
    ensures AllValid(scores) ==> AllValid(ApplyBulk(scores, updates))
  {
    if user in updates && user != "" {
      InsertAgreesWithUpdate(scores, user, updates[user]);
    }
  }

  lemma ApplyBulkStep(scores: Ledger, done: map<string, int>, user: string, delta: int)
    requires user !in done
    ensures ApplyBulk(scores, done[user := delta]) ==
            if user == "" then ApplyBulk(scores, done)
            else ApplyBulk(scores, done)[user := Upsert(Lookup(scores, user), delta)]
    ensures Lookup(ApplyBulk(scores, done), user) == Lookup(scores, user)
  {
  }

  /** The statement run against the scores table, one VALUES row after another. */
  class ScoreTable {
    var rows: Ledger

    constructor ()
      ensures rows == map[]
    {
      rows := map[];
    }

    method UpdateUserScoresBulk(updates: map<string, int>)
      modifies this
      ensures rows == ApplyBulk(old(rows), updates)
    {
      var pending := updates.Keys;
      ghost var done: map<string, int> := map[];
      assert rows == ApplyBulk(old(rows), done);
      while pending != {}
        invariant done.Keys !! pending && done.Keys + pending == updates.Keys
        invariant forall u <- done :: done[u] == updates[u]
        invariant rows == ApplyBulk(old(rows), done)
        decreases pending
      {
        var user :| user in pending;
        ApplyBulkStep(old(rows), done, user, updates[user]);
        pending := pending - {user};
        if user != "" {
          rows := rows[user := Upsert(Lookup(rows, user), updates[user])];
        }
        done := done[user := updates[user]];
      }
      assert done == updates;
    }
  }
}
