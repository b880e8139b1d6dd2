/**
 * withTransaction (backend/src/db/connection.ts): run a callback in a transaction, roll back and
 * retry on a transient error, always release the client.
 *
 * The callback of the original is a closure: what it captured (C) survives a rollback, what it
 * wrote to the database (D) does not.  Both are threaded explicitly.  Between two attempts other
 * clients may commit; `others` says what they do to the database before each attempt, and `connect`
 * says whether getClient() can hand out a client for it.
 */
module Transaction {
  import opened Common

  datatype DbError = DbError(code: string)

  const TRANSIENT_ERROR_CODES: set<string> :=
    {"ECONNREFUSED", "08000", "08003", "08006", "57P01", "57P02", "57P03", "40001", "40P01"}

  predicate Transient(e: DbError) {
    e.code in TRANSIENT_ERROR_CODES
  }

  /** How one attempt ends. `AckLost` is a COMMIT the server applied although the client saw an error. */
  datatype Fate<+R> =
    | Committed(result: R)
    | RolledBack(error: DbError)
    | AckLost(error: DbError)

  /** Captured state, uncommitted database and fate after the callback ran. */
  datatype Attempt<+C, +D, +R> = Attempt(captured: C, work: D, fate: Fate<R>)

  datatype Outcome<+R> = Returned(value: R) | Threw(error: DbError)

  datatype TxResult<+C, +D, +R> = TxResult(captured: C, db: D, outcome: Outcome<R>, attempts: nat, slept: nat)

  function Pow2(n: nat): (p: nat)
    ensures p >= 1
  {
    if n == 0 then 1 else 2 * Pow2(n - 1)
  }

  /** The database after an attempt: kept unless the attempt was rolled back. */
  function Settle<C, D, R>(before: D, a: Attempt<C, D, R>): D {
    if a.fate.RolledBack? then before else a.work
  }

  predicate Retries<C, D, R>(a: Attempt<C, D, R>, attempt: nat, maxRetries: nat) {
    !a.fate.Committed? && Transient(a.fate.error) && attempt < maxRetries
  }

  /** The loop from attempt number `attempt` on. */
  function RunFrom<C, D, R>(
    fn: (nat, C, D) -> Attempt<C, D, R>, others: (nat, D) -> D, connect: nat -> Option<DbError>,
    attempt: nat, maxRetries: nat, baseDelayMs: nat, c: C, d: D): TxResult<C, D, R>
    requires attempt <= maxRetries
    decreases maxRetries - attempt
  {
    var before := others(attempt, d);
    if connect(attempt).Some? then TxResult(c, before, Threw(connect(attempt).value), 0, 0) else
    var a := fn(attempt, c, before);
    var after := Settle(before, a);
    if a.fate.Committed? then TxResult(a.captured, after, Returned(a.fate.result), 1, 0)
    else if Retries(a, attempt, maxRetries) then
      var rest := RunFrom(fn, others, connect, attempt + 1, maxRetries, baseDelayMs, a.captured, after);
      rest.(attempts := rest.attempts + 1, slept := rest.slept + baseDelayMs * Pow2(attempt))
    else TxResult(a.captured, after, Threw(a.fate.error), 1, 0)
  }

  // ---------- what every run of the loop satisfies ----------

  /** What the database would be if no attempt before number `n` had left a trace. */
  function OthersOnly<D>(others: (nat, D) -> D, d: D, from: nat, n: nat): D
    requires from <= n
    decreases n - from
  {
    if from == n then d else OthersOnly(others, others(from, d), from + 1, n)
  }

  /** No attempt from..n-1 of the run loses the acknowledgement of its COMMIT. */
  predicate AcksArrive<C, D, R>(fn: (nat, C, D) -> Attempt<C, D, R>, others: (nat, D) -> D, from: nat, n: nat, c: C, d: D)
    requires from <= n
    decreases n - from
  {
    from == n ||
    (var a := fn(from, c, others(from, d));
     !a.fate.AckLost? && AcksArrive(fn, others, from + 1, n, a.captured, others(from, d)))
  }

  /** At most maxRetries + 1 attempts, each with its own client; the total sleep stays under base * 2^maxRetries. */
  lemma {:induction false} BoundedAttempts<C, D, R>(
    fn: (nat, C, D) -> Attempt<C, D, R>, others: (nat, D) -> D, connect: nat -> Option<DbError>,
    attempt: nat, maxRetries: nat, baseDelayMs: nat, c: C, d: D)
    requires attempt <= maxRetries
    ensures var r := RunFrom(fn, others, connect, attempt, maxRetries, baseDelayMs, c, d);
            && r.attempts <= maxRetries + 1 - attempt
            && r.slept <= baseDelayMs * (Pow2(maxRetries) - Pow2(attempt))
    decreases maxRetries - attempt
  {
    var before := others(attempt, d);
    var a := fn(attempt, c, before);
    PowMonotone(attempt, maxRetries);
    assert 0 <= baseDelayMs * (Pow2(maxRetries) - Pow2(attempt)) by {
      Nonneg(baseDelayMs, Pow2(maxRetries) - Pow2(attempt));
    }
    if connect(attempt).None? && Retries(a, attempt, maxRetries) {
      BoundedAttempts(fn, others, connect, attempt + 1, maxRetries, baseDelayMs, a.captured, Settle(before, a));
      Distribute(baseDelayMs, Pow2(maxRetries), Pow2(attempt));
    }
  }

  lemma PowMonotone(m: nat, n: nat)
    requires m <= n
    ensures Pow2(m) <= Pow2(n)
    decreases n
  {
    if m < n {
      PowMonotone(m, n - 1);
    }
  }

  lemma Nonneg(x: nat, y: nat)
    ensures 0 <= x * y
  {
  }

  lemma Distribute(b: nat, p: nat, q: nat)
    ensures b * (p - 2 * q) + b * q == b * (p - q)
  {
    assert b * (p - 2 * q) + b * q == b * ((p - 2 * q) + q);
  }

  /** What the attempts from..n-1 leave: nothing of those rolled back, the work of those whose COMMIT was applied
      although its acknowledgement was lost, and what the other clients did in between. */
  function Traces<C, D, R>(fn: (nat, C, D) -> Attempt<C, D, R>, others: (nat, D) -> D, from: nat, n: nat, c: C, d: D): (C, D)
    requires from <= n
    decreases n - from
  {
    if from == n then (c, d)
    else
      var a := fn(from, c, others(from, d));
      Traces(fn, others, from + 1, n, a.captured, if a.fate.AckLost? then a.work else others(from, d))
  }

  /** Atomicity: the final database is what the other clients and the attempts with a lost acknowledgement made of it,
      plus the work of one committed attempt if a result is returned. That result is the committed attempt's. */
  lemma {:induction false} OnlyAppliedAttemptsShow<C, D, R>(
    fn: (nat, C, D) -> Attempt<C, D, R>, others: (nat, D) -> D, connect: nat -> Option<DbError>,
    attempt: nat, maxRetries: nat, baseDelayMs: nat, c: C, d: D)
    returns (last: nat)
    requires attempt <= maxRetries
    ensures attempt <= last <= maxRetries
    ensures var r := RunFrom(fn, others, connect, attempt, maxRetries, baseDelayMs, c, d);
            match r.outcome
            case Threw(_) =>
              r.db == if connect(last).Some? then others(last, Traces(fn, others, attempt, last, c, d).1)
                      else Traces(fn, others, attempt, last + 1, c, d).1
            case Returned(value) =>
              var (captured, db) := Traces(fn, others, attempt, last, c, d);
              var a := fn(last, captured, others(last, db));
              a.fate == Committed(value) && r.db == a.work
    decreases maxRetries - attempt
  {
    var before := others(attempt, d);
    var a := fn(attempt, c, before);
    last := attempt;
    FirstTurn(fn, others, connect, attempt, maxRetries, baseDelayMs, c, d);
    if connect(attempt).None? && Retries(a, attempt, maxRetries) {
      hide RunFrom, Transient, Pow2;
      last := OnlyAppliedAttemptsShow(fn, others, connect, attempt + 1, maxRetries, baseDelayMs, a.captured, Settle(before, a));
    }
  }

  lemma {:induction false} RolledBackLeavesNothing<C, D, R>(
    fn: (nat, C, D) -> Attempt<C, D, R>, others: (nat, D) -> D, from: nat, n: nat, c: C, d: D)
    requires from <= n && AcksArrive(fn, others, from, n, c, d)
    ensures Traces(fn, others, from, n, c, d).1 == OthersOnly(others, d, from, n)
    ensures others(n, OthersOnly(others, d, from, n)) == OthersOnly(others, d, from, n + 1)
    decreases n - from
  {
    if from < n {
      var a := fn(from, c, others(from, d));
      RolledBackLeavesNothing(fn, others, from + 1, n, a.captured, others(from, d));
    } else {
      assert OthersOnly(others, d, n, n + 1) == OthersOnly(others, others(n, d), n + 1, n + 1);
    }
  }

  lemma {:induction false} AcksArriveUpTo<C, D, R>(
    fn: (nat, C, D) -> Attempt<C, D, R>, others: (nat, D) -> D, from: nat, m: nat, n: nat, c: C, d: D)
    requires from <= m <= n && AcksArrive(fn, others, from, n, c, d)
    ensures AcksArrive(fn, others, from, m, c, d)
    decreases n - from
  {
    if from < m {
      AcksArriveUpTo(fn, others, from + 1, m, n, fn(from, c, others(from, d)).captured, others(from, d));
    }
  }

  /** When no attempt of the run loses its acknowledgement, a run that throws leaves what the other clients did and
      nothing else, and one that returns adds the work of its one committed attempt to that. */
  lemma OnlyTheCommittedAttemptShows<C, D, R>(
    fn: (nat, C, D) -> Attempt<C, D, R>, others: (nat, D) -> D, connect: nat -> Option<DbError>,
    maxRetries: nat, baseDelayMs: nat, c: C, d: D)
    returns (last: nat, captured: C)
    ensures last <= maxRetries
    ensures var r := RunFrom(fn, others, connect, 0, maxRetries, baseDelayMs, c, d);
            var before := OthersOnly(others, d, 0, last + 1);
            && (r.outcome.Threw? && AcksArrive(fn, others, 0, last + 1, c, d) ==> r.db == before)
            && (r.outcome.Returned? && AcksArrive(fn, others, 0, last, c, d) ==>
                 var a := fn(last, captured, before);
                 a.fate == Committed(r.outcome.value) && r.db == a.work)
  {
    last := OnlyAppliedAttemptsShow(fn, others, connect, 0, maxRetries, baseDelayMs, c, d);
    captured := Traces(fn, others, 0, last, c, d).0;
    if AcksArrive(fn, others, 0, last + 1, c, d) {
      AcksArriveUpTo(fn, others, 0, last, last + 1, c, d);
      RolledBackLeavesNothing(fn, others, 0, last + 1, c, d);
    }
    if AcksArrive(fn, others, 0, last, c, d) { RolledBackLeavesNothing(fn, others, 0, last, c, d); }
  }

  // ---------- the loop itself ----------

  /** The loop unrolled once. */
  lemma FirstTurn<C, D, R>(
    fn: (nat, C, D) -> Attempt<C, D, R>, others: (nat, D) -> D, connect: nat -> Option<DbError>,
    attempt: nat, maxRetries: nat, baseDelayMs: nat, c: C, d: D)
    requires attempt <= maxRetries
    ensures var r := RunFrom(fn, others, connect, attempt, maxRetries, baseDelayMs, c, d);
            var before := others(attempt, d);
            if connect(attempt).Some? then r == TxResult(c, before, Threw(connect(attempt).value), 0, 0)
            else
              var a := fn(attempt, c, before);
              if a.fate.Committed? then r == TxResult(a.captured, a.work, Returned(a.fate.result), 1, 0)
              else if Transient(a.fate.error) && attempt < maxRetries then
                var rest := RunFrom(fn, others, connect, attempt + 1, maxRetries, baseDelayMs, a.captured, Settle(before, a));
                r == rest.(attempts := rest.attempts + 1, slept := rest.slept + baseDelayMs * Pow2(attempt))
              else r == TxResult(a.captured, Settle(before, a), Threw(a.fate.error), 1, 0)
  {
  }

  /** The pool: how many clients were handed out and how many came back. */
  class Pool<D> {
    var db: D
    var acquired: nat
    var released: nat
    var clockMs: nat

    constructor (d: D)
      ensures db == d && acquired == 0 && released == 0 && clockMs == 0
    {
      db, acquired, released, clockMs := d, 0, 0, 0;
    }

    method WithTransaction<C, R>(
      fn: (nat, C, D) -> Attempt<C, D, R>, others: (nat, D) -> D, connect: nat -> Option<DbError>,
      maxRetries: nat, baseDelayMs: nat, c: C)
      returns (captured: C, outcome: Outcome<R>)
      modifies this
      ensures var r := RunFrom(fn, others, connect, 0, maxRetries, baseDelayMs, c, old(db));
              && captured == r.captured && outcome == r.outcome && db == r.db
              && acquired == old(acquired) + r.attempts
              && released == old(released) + r.attempts
              && clockMs == old(clockMs) + r.slept
    {
      hide Pow2, Transient, RunFrom;
      var attempt: nat := 0;
      captured := c;
      while true
        invariant attempt <= maxRetries
        invariant acquired - old(acquired) == released - old(released) == attempt
        invariant clockMs >= old(clockMs)
        invariant
          var r := RunFrom(fn, others, connect, 0, maxRetries, baseDelayMs, c, old(db));
          var rest := RunFrom(fn, others, connect, attempt, maxRetries, baseDelayMs, captured, db);
          && r.captured == rest.captured && r.db == rest.db && r.outcome == rest.outcome
          && r.attempts == attempt + rest.attempts
          && r.slept == (clockMs - old(clockMs)) + rest.slept
        decreases maxRetries - attempt
      {
        FirstTurn(fn, others, connect, attempt, maxRetries, baseDelayMs, captured, db);
        db := others(attempt, db);
        if connect(attempt).Some? {             // getClient() threw: outside the try block
          outcome := Threw(connect(attempt).value);
          return;
        }
        acquired := acquired + 1;               // getClient()
        var a := fn(attempt, captured, db);     // BEGIN, callback, COMMIT
        captured := a.captured;
        match a.fate {
          case Committed(value) =>
            db := a.work;
            outcome := Returned(value);
            released := released + 1;           // finally
            return;
          case RolledBack(error) =>             // ROLLBACK
          case AckLost(error) => db := a.work;
        }
        released := released + 1;               // finally, on the error paths too
        if Transient(a.fate.error) && attempt < maxRetries {
          clockMs := clockMs + baseDelayMs * Pow2(attempt);
          attempt := attempt + 1;
        } else {
          outcome := Threw(a.fate.error);
          return;
        }
      }
    }
  }
}
