/**
 * Overdue selection and batching of the default checker
 * (backend/src/services/defaultChecker.ts:52-59, 147-248, 430-535).
 */
module OverdueLoans {
  import opened Common
  import opened EventTable
  import opened WorkerPool

  // ---------- the two queries ----------

  predicate ApprovedAt(events: seq<Row>, loan: int, ledger: int) {
    exists e <- events :: e.eventType == LoanApproved && e.loanId == Some(loan) && e.ledger == ledger
  }

  predicate Closed(events: seq<Row>, loan: int) {
    exists e <- events :: (e.eventType == LoanRepaid || e.eventType == LoanDefaulted) && e.loanId == Some(loan)
  }

  function Latest(m: map<int, int>, e: Row): map<int, int> {
    if e.eventType == LoanApproved && e.loanId.Some? then
      m[e.loanId.value := if e.loanId.value in m then Max(m[e.loanId.value], e.ledger) else e.ledger]
    else m
  }

  /** WITH approved: MAX(ledger) per loan id. */
  function Approved(events: seq<Row>): map<int, int> {
    if events == [] then map[] else Latest(Approved(events[1..]), events[0])
  }

  /** The map holds exactly the approved loans, each with the ledger of its last approval. */
  lemma {:induction false} ApprovedIsMax(events: seq<Row>, loan: int)
    ensures loan in Approved(events) <==> exists ledger: int :: ApprovedAt(events, loan, ledger)
    ensures loan in Approved(events) ==> ApprovedAt(events, loan, Approved(events)[loan])
    ensures forall ledger :: ApprovedAt(events, loan, ledger) ==> loan in Approved(events) && ledger <= Approved(events)[loan]
  {
    if events != [] {
      var e := events[0];
      ApprovedIsMax(events[1..], loan);
      forall ledger ensures ApprovedAt(events, loan, ledger) <==>
        ApprovedAt(events[1..], loan, ledger) || (e.eventType == LoanApproved && e.loanId == Some(loan) && e.ledger == ledger)
      {
        ApprovedFirst(events, loan, ledger);
      }
      hide ApprovedAt;
      if loan in Approved(events) { assert ApprovedAt(events, loan, Approved(events)[loan]); }
    }
  }

  lemma ApprovedFirst(events: seq<Row>, loan: int, ledger: int)
    requires events != []
    ensures ApprovedAt(events, loan, ledger) <==>
      var e := events[0];
      ApprovedAt(events[1..], loan, ledger) || (e.eventType == LoanApproved && e.loanId == Some(loan) && e.ledger == ledger)
  {
    assert events == [events[0]] + events[1..];
    assert forall e :: e in events <==> e == events[0] || e in events[1..];
  }

  /** WITH active, overdue: due ledger of each overdue loan. */
  function Overdue(events: seq<Row>, termLedgers: int, currentLedger: int): map<int, int> {
    var approved := Approved(events);
    map l | l in approved && !Closed(events, l) && approved[l] + termLedgers < currentLedger :: approved[l] + termLedgers
  }

  /** A loan is overdue when its last approval plus the term lies before the current ledger and nothing has closed it. */
  lemma OverdueMeans(events: seq<Row>, termLedgers: int, currentLedger: int, loan: int, approval: int)
    requires ApprovedAt(events, loan, approval) && forall ledger :: ApprovedAt(events, loan, ledger) ==> ledger <= approval
    ensures loan in Overdue(events, termLedgers, currentLedger) <==>
            !Closed(events, loan) && approval + termLedgers < currentLedger
    ensures loan in Overdue(events, termLedgers, currentLedger) ==>
            Overdue(events, termLedgers, currentLedger)[loan] == approval + termLedgers
  {
    hide ApprovedAt, Closed;
    ApprovedIsMax(events, loan);
  }

  datatype Stats = Stats(overdueCount: nat, oldestDueLedger: Option<int>, ledgersPastOldestDue: Option<int>)

  /** ORDER BY due_ledger ASC, loan_id ASC */
  predicate Before(due: map<int, int>, a: int, b: int)
    requires a in due && b in due
  {
    due[a] < due[b] || (due[a] == due[b] && a < b)
  }

  /** `ids` is the first `n` loans of `due` in that order. */
  predicate FirstOf(due: map<int, int>, ids: seq<int>, n: nat) {
    && |ids| == n
    && (forall i | 0 <= i < |ids| :: ids[i] in due)
    && (forall i, j | 0 <= i < j < |ids| :: Before(due, ids[i], ids[j]))
    && (forall l <- due, i | 0 <= i < |ids| :: l !in ids ==> Before(due, ids[i], l))
  }

  /** After a common beginning neither selection goes on with an earlier loan than the other. */
  lemma GoesOnNoEarlier(due: map<int, int>, a: seq<int>, b: seq<int>, n: nat, j: nat)
    requires FirstOf(due, a, n) && FirstOf(due, b, n)
    requires j < n && a[..j] == b[..j]
    ensures !Before(due, b[j], a[j])
  {
    forall i | 0 <= i < j ensures a[i] != b[j] {
      assert a[i] == a[..j][i] == b[..j][i] == b[i];
    }
    if b[j] !in a { assert Before(due, a[j], b[j]); }
  }

  /** The order is total, so the specification leaves no choice. */
  lemma {:induction false} FirstOfIsUnique(due: map<int, int>, a: seq<int>, b: seq<int>, n: nat, k: nat)
    requires FirstOf(due, a, n) && FirstOf(due, b, n) && k <= n
    ensures a[..k] == b[..k]
    ensures k == n ==> a == b
  {
    if k > 0 {
      FirstOfIsUnique(due, a, b, n, k - 1);
      GoesOnNoEarlier(due, a, b, n, k - 1);
      GoesOnNoEarlier(due, b, a, n, k - 1);
      assert a[..k] == a[..k - 1] + [a[k - 1]];
      assert b[..k] == b[..k - 1] + [b[k - 1]];
    }
    assert k == n ==> a[..k] == a && b[..k] == b;
  }

  /** MIN in the order, over a non-empty set of loans. */
  method Least(due: map<int, int>) returns (first: int)
    requires due != map[]
    ensures first in due && forall m <- due :: m != first ==> Before(due, first, m)
  {
    assert (forall x :: x !in due) ==> due == map[];
    var l :| l in due;
    var todo := due.Keys - {l};
    while todo != {}
      invariant l in due && l !in todo && todo <= due.Keys
      invariant forall m <- due :: m != l && m !in todo ==> Before(due, l, m)
      decreases todo
    {
      assert (forall x :: x !in todo) ==> todo == {};
      var m :| m in todo;
      todo := todo - {m};
      if due[m] < due[l] || (due[m] == due[l] && m < l) { l := m; }
    }
    first := l;
  }

  predicate Remaining(due: map<int, int>, selected: seq<int>, left: map<int, int>) {
    && (forall l <- left :: l in due && l !in selected && left[l] == due[l])
    && (forall l <- due :: l !in selected ==> l in left)
  }

  lemma NothingSelected(due: map<int, int>)
    ensures FirstOf(due, [], 0) && Remaining(due, [], due)
  {
  }

  lemma FirstOfGrows(due: map<int, int>, selected: seq<int>, left: map<int, int>, l: int)
    requires FirstOf(due, selected, |selected|) && Remaining(due, selected, left)
    requires l in left && forall m <- left :: m != l ==> Before(left, l, m)
    ensures FirstOf(due, selected + [l], |selected| + 1)
    ensures Remaining(due, selected + [l], left - {l}) && |left - {l}| == |left| - 1
  {
    var next := left - {l};
    assert left.Keys == next.Keys + {l} && |left.Keys| == |left| && |next.Keys| == |next|;
    var grown := selected + [l];
    forall m, i | m in due && 0 <= i < |grown| && m !in grown ensures Before(due, grown[i], m) {
      assert m in left;
    }
  }

  /** ORDER BY due_ledger, loan_id LIMIT max: repeatedly the least of what is left. */
  method SelectFirst(due: map<int, int>, max: nat) returns (selected: seq<int>)
    ensures FirstOf(due, selected, Min(|due|, max))
  {
    hide FirstOf, Remaining;
    var left := due;
    selected := [];
    NothingSelected(due);
    while left != map[] && |selected| < max
      invariant FirstOf(due, selected, |selected|) && Remaining(due, selected, left)
      invariant |left| + |selected| == |due| && |selected| <= max
      decreases |left|
    {
      var l := Least(left);
      FirstOfGrows(due, selected, left, l);
      selected, left := selected + [l], left - {l};
    }
  }

  /** fetchOverdueLoanIds: the selection, then the positive-integer filter of the client. */
  method FetchOverdueLoanIds(events: seq<Row>, termLedgers: int, currentLedger: int, maxLoansPerRun: nat)
    returns (ids: seq<int>)
    ensures var due := Overdue(events, termLedgers, currentLedger);
            exists selected: seq<int> ::
              && FirstOf(due, selected, Min(|due|, maxLoansPerRun))
              && ids == Positive(selected)
              && ((forall l <- due :: l > 0) ==> ids == selected)
  {
    var due := Overdue(events, termLedgers, currentLedger);
    var selected := SelectFirst(due, maxLoansPerRun);
    ids := Positive(selected);
    if forall l <- due :: l > 0 { AllPositive(selected); }
  }

  function Positive(ids: seq<int>): seq<int> {
    if ids == [] then [] else (if ids[0] > 0 then [ids[0]] else []) + Positive(ids[1..])
  }

  lemma {:induction false} AllPositive(ids: seq<int>)
    requires forall i | 0 <= i < |ids| :: ids[i] > 0
    ensures Positive(ids) == ids
  {
    if ids != [] { AllPositive(ids[1..]); }
  }

  /** fetchOverdueStats: COUNT(*) and MIN(due_ledger). */
  method FetchOverdueStats(events: seq<Row>, termLedgers: int, currentLedger: int) returns (s: Stats)
    ensures var due := Overdue(events, termLedgers, currentLedger);
            && s.overdueCount == |due|
            && (s.oldestDueLedger.None? <==> due == map[])
            && (s.oldestDueLedger.Some? ==>
                 && (exists l <- due :: due[l] == s.oldestDueLedger.value)
                 && (forall l <- due :: s.oldestDueLedger.value <= due[l])
                 && s.ledgersPastOldestDue == Some(currentLedger - s.oldestDueLedger.value)
                 && currentLedger - s.oldestDueLedger.value > 0)
  {
    var due := Overdue(events, termLedgers, currentLedger);
    if due == map[] { return Stats(0, None, None); }
    var l := Least(due);
    s := Stats(|due|, Some(due[l]), Some(Max(0, currentLedger - due[l])));
  }

  /** The two queries agree: as many ids as the count allows, the first with the oldest due ledger. */
  lemma QueriesAgree(due: map<int, int>, ids: seq<int>, max: nat, count: nat, oldest: Option<int>)
    requires FirstOf(due, ids, Min(|due|, max)) && count == |due|
    requires oldest.None? <==> due == map[]
    requires oldest.Some? ==> (exists l <- due :: due[l] == oldest.value) && (forall l <- due :: oldest.value <= due[l])
    ensures |ids| == Min(count, max)
    ensures ids != [] ==> oldest == Some(due[ids[0]])
  {
    if ids != [] {
      assert ids[0] in due;
      var l :| l in due && due[l] == oldest.value;
      if l in ids && l != ids[0] {
        var j :| 0 <= j < |ids| && ids[j] == l;
        assert Before(due, ids[0], ids[j]);
      }
    }
  }

  // ---------- chunk ----------

  function Flatten<T>(xs: seq<seq<T>>): seq<T> {
    if xs == [] then [] else xs[0] + Flatten(xs[1..])
  }

  lemma {:induction false} FlattenAppend<T>(xs: seq<seq<T>>, x: seq<T>)
    ensures Flatten(xs + [x]) == Flatten(xs) + x
  {
    if xs == [] {
      assert xs + [x] == [x] && [x][1..] == [];
    } else {
      assert (xs + [x])[1..] == xs[1..] + [x];
      FlattenAppend(xs[1..], x);
    }
  }

  /** items in order, in pieces of `size` but for a shorter last one; one piece for a size <= 0. */
  method Chunk<T>(items: seq<T>, size: int) returns (out: seq<seq<T>>)
    ensures Flatten(out) == items
    ensures size <= 0 ==> out == [items]
    ensures size > 0 ==> forall b <- out :: 0 < |b| <= size
    ensures size > 0 ==> forall i | 0 <= i < |out| - 1 :: |out[i]| == size
  {
    if size <= 0 {
      assert [items][1..] == [];
      return [items];
    }
    out := [];
    var i := 0;
    while i < |items|
      invariant 0 <= i
      invariant Flatten(out) == items[..Min(i, |items|)]
      invariant forall b <- out :: 0 < |b| <= size
      invariant i < |items| ==> forall k | 0 <= k < |out| :: |out[k]| == size
      invariant forall k | 0 <= k < |out| - 1 :: |out[k]| == size
      decreases |items| - i
    {
      var piece := items[i..Min(i + size, |items|)];
      FlattenAppend(out, piece);
      assert items[..Min(i + size, |items|)] == items[..i] + piece;
      out := out + [piece];
      i := i + size;
    }
  }

  // ---------- a run ----------

  datatype BatchResult = BatchResult(loanIds: seq<int>, txHash: Option<string>, error: Option<string>)

  /** A JavaScript string that is present and not empty. */
  predicate Truthy(s: Option<string>) {
    s.Some? && s.value != ""
  }

  predicate Succeeded(b: BatchResult) {
    !Truthy(b.error) && Truthy(b.txHash)
  }

  predicate Failed(b: BatchResult) {
    Truthy(b.error) || !Truthy(b.txHash)
  }

  function CountWhere(bs: seq<Option<BatchResult>>, p: BatchResult -> bool): nat {
    if bs == [] then 0
    else (if bs[0].Some? && p(bs[0].value) then 1 else 0) + CountWhere(bs[1..], p)
  }

  lemma {:induction false} CountsAddUp(bs: seq<Option<BatchResult>>)
    requires forall b <- bs :: b.Some?
    ensures CountWhere(bs, Succeeded) + CountWhere(bs, Failed) == |bs|
  {
    if bs != [] { CountsAddUp(bs[1..]); }
  }

  function Items<T>(xs: seq<T>): (r: seq<Option<T>>)
    ensures |r| == |xs| && forall i | 0 <= i < |xs| :: r[i] == Some(xs[i])
  {
    seq(|xs|, i requires 0 <= i < |xs| => Some(xs[i]))
  }

  /** The body of a run: chunk the targets, submit the chunks through the pool, count. */
  method SubmitAll(targetIds: seq<int>, batchSize: int, concurrency: int, submit: seq<int> -> BatchResult)
    returns (results: seq<Option<BatchResult>>, successfulSubmissions: nat, failedSubmissions: nat, batches: seq<seq<int>>)
    requires batchSize >= 1 && concurrency >= 1
    ensures Flatten(batches) == targetIds && forall b <- batches :: 0 < |b| <= batchSize
    ensures |results| == |batches| && forall i | 0 <= i < |batches| :: results[i] == Some(submit(batches[i]))
    ensures successfulSubmissions == CountWhere(results, Succeeded)
    ensures successfulSubmissions + failedSubmissions == |batches|
  {
    batches := Chunk(targetIds, batchSize);
    results := MapConcurrent(Items(batches), concurrency, submit);
    successfulSubmissions := CountWhere(results, Succeeded);
    failedSubmissions := CountWhere(results, Failed);
    assert forall i | 0 <= i < |batches| :: results[i] == Expected(submit, Items(batches))[i];
    CountsAddUp(results);
  }
}
