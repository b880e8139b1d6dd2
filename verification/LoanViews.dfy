/**
 * Two computations of one loan's state from its events: the grouped SQL aggregate behind the
 * borrower's list and the event fold behind the loan's page
 * (backend/src/controllers/loanController.ts:341-403, 500-583). Amounts are exact rationals.
 */
module LoanViews {
  import opened Common

  const DEFAULT_TERM_LEDGERS := 17280
  const DEFAULT_INTEREST_RATE_BPS := 1200

  datatype Kind = Requested | Approved | Repaid | Defaulted | Other

  datatype LoanEvent = LoanEvent(
    id: nat, kind: Kind, address: string, amount: Option<real>, ledger: Option<nat>,
    rateBps: Option<int>, termLedgers: Option<int>)

  datatype Status = Active | FullyRepaid | InDefault | PendingIndexing

  datatype Summary = Summary(
    principal: real, accruedInterest: Option<real>, totalRepaid: real, totalOwed: Option<real>, status: Status)

  // ---------- the fold of the loan's page ----------

  /** `x || d`: null and zero both give the default. */
  function OrElse(x: Option<int>, d: int): int {
    if x.Some? && x.value != 0 then x.value else d
  }

  function AmountOrZero(e: LoanEvent): real {
    if e.amount.Some? then e.amount.value else 0.0
  }

  /** events.find */
  function First(events: seq<LoanEvent>, kind: Kind): Option<LoanEvent> {
    if events == [] then None
    else if events[0].kind == kind then Some(events[0])
    else First(events[1..], kind)
  }

  /** The last of events.filter. */
  function Last(events: seq<LoanEvent>, kind: Kind): Option<LoanEvent> {
    if events == [] then None
    else
      var e := events[|events| - 1];
      if e.kind == kind then Some(e) else Last(events[..|events| - 1], kind)
  }

  /** repaymentEvents.reduce, left to right. */
  function TotalRepaid(events: seq<LoanEvent>): real {
    if events == [] then 0.0
    else
      var e := events[|events| - 1];
      TotalRepaid(events[..|events| - 1]) + (if e.kind == Repaid then AmountOrZero(e) else 0.0)
  }

  function Elapsed(now: nat, approvedLedger: nat): nat {
    if now > approvedLedger then now - approvedLedger else 0
  }

  function StatusOf(pending: bool, defaulted: bool, owesMore: bool): Status {
    if pending then PendingIndexing else if defaulted then InDefault else if owesMore then Active else FullyRepaid
  }

  /** getLoanDetails over the loan's events in time order; `freeze` is the ledger of an open dispute, if one is found. */
  function Details(events: seq<LoanEvent>, freeze: Option<nat>, currentLedger: nat): Summary {
    var request := First(events, Requested);
    var approval := Last(events, Approved);
    var principal := if request.Some? then AmountOrZero(request.value) else 0.0;
    var totalRepaid := TotalRepaid(events);
    var rateBps := if approval.Some? then OrElse(approval.value.rateBps, DEFAULT_INTEREST_RATE_BPS) else DEFAULT_INTEREST_RATE_BPS;
    var termLedgers := if approval.Some? then OrElse(approval.value.termLedgers, DEFAULT_TERM_LEDGERS) else DEFAULT_TERM_LEDGERS;
    var approvedLedger := if approval.Some? && approval.value.ledger.Some? then approval.value.ledger.value else 0;
    var elapsed := Elapsed(if freeze.Some? then freeze.value else currentLedger, approvedLedger);
    var pending := approvedLedger == 0 || currentLedger < approvedLedger;
    var accrued := if pending then 0.0 else Interest(principal, rateBps, termLedgers, elapsed);
    var owed := principal + accrued - totalRepaid;
    Summary(principal, if pending then None else Some(accrued), totalRepaid, if pending then None else Some(owed),
            StatusOf(pending, exists e <- events :: e.kind == Defaulted, owed > 0.01))
  }

  function Interest(principal: real, rateBps: int, termLedgers: int, elapsed: nat): real
    requires termLedgers != 0
  {
    principal * (rateBps as real) * (elapsed as real) / ((10000 * termLedgers) as real)
  }

  // ---------- the aggregate of the borrower's list ----------

  /** No row for the loan, the whole query failing, or the row as it is shown. */
  datatype Listing = NotListed | DivisionByZero | Listed(summary: Summary)

  function Coalesce(x: Option<int>, d: int): int {
    if x.Some? then x.value else d
  }

  /** WHERE address = $1 */
  function RowsOf(table: seq<LoanEvent>, borrower: string): seq<LoanEvent> {
    if table == [] then []
    else (if table[0].address == borrower then [table[0]] else []) + RowsOf(table[1..], borrower)
  }

  /** CASE WHEN event_type = kind THEN field END, for every row. */
  function Column<T>(rows: seq<LoanEvent>, kind: Kind, field: LoanEvent -> Option<T>): seq<Option<T>> {
    seq(|rows|, i requires 0 <= i < |rows| => if rows[i].kind == kind then field(rows[i]) else None)
  }

  /** MAX, which skips nulls and is null when there is nothing else. */
  function MaxOf<T>(column: seq<Option<T>>, less: (T, T) -> bool): Option<T> {
    if column == [] then None
    else
      var rest := MaxOf(column[1..], less);
      if column[0].None? then rest
      else if rest.None? || less(rest.value, column[0].value) then column[0]
      else rest
  }

  function MaxInt(rows: seq<LoanEvent>, kind: Kind, field: LoanEvent -> Option<int>): Option<int> {
    MaxOf(Column(rows, kind, field), (a, b) => a < b)
  }

  /** SUM(CASE WHEN 'LoanRepaid' THEN amount ELSE 0 END); a null sum is shown as zero. */
  function SumRepaid(rows: seq<LoanEvent>): real {
    if rows == [] then 0.0
    else (if rows[0].kind == Repaid then AmountOrZero(rows[0]) else 0.0) + SumRepaid(rows[1..])
  }

  function AmountOf(e: LoanEvent): Option<real> { e.amount }
  function LedgerOf(e: LoanEvent): Option<int> { if e.ledger.Some? then Some(e.ledger.value) else None }
  function RateOf(e: LoanEvent): Option<int> { e.rateBps }
  function TermOf(e: LoanEvent): Option<int> { e.termLedgers }

  /** The row of one loan in loan_final; a null principal makes interest and debt null, and a null is shown as zero. */
  function List(table: seq<LoanEvent>, borrower: string, currentLedger: nat): Listing {
    var rows := RowsOf(table, borrower);
    if rows == [] then NotListed
    else
      var principal := MaxOf(Column(rows, Requested, AmountOf), (a: real, b: real) => a < b);
      var approvedLedger := MaxInt(rows, Approved, LedgerOf);
      var rateBps := Coalesce(MaxInt(rows, Approved, RateOf), DEFAULT_INTEREST_RATE_BPS);
      var termLedgers := Coalesce(MaxInt(rows, Approved, TermOf), DEFAULT_TERM_LEDGERS);
      var repaid := SumRepaid(rows);
      var defaulted := exists e <- rows :: e.kind == Defaulted;
      var pending := approvedLedger.None? || approvedLedger.value == 0 || currentLedger < approvedLedger.value;
      if principal.None? then
        Listed(Summary(0.0, if pending then None else Some(0.0), repaid, if pending then None else Some(0.0),
                       StatusOf(pending, defaulted, false)))
      else if termLedgers == 0 then DivisionByZero
      else
        var accrued := Interest(principal.value, rateBps, termLedgers, Max(0, currentLedger - Coalesce(approvedLedger, 0)));
        var owed := principal.value + accrued - repaid;
        Listed(Summary(principal.value, if pending then None else Some(accrued), repaid, if pending then None else Some(owed),
                       StatusOf(pending, defaulted, owed > 0.01)))
  }

  // ---------- when they agree ----------

  /** At most one request and one approval, and the four loan events all carry the borrower's address. */
  predicate OneLoan(events: seq<LoanEvent>, borrower: string) {
    && (exists e <- events :: e.address == borrower)
    && (forall e <- events :: e.kind != Other ==> e.address == borrower)
    && AtMostOne(events, Requested) && AtMostOne(events, Approved)
  }

  predicate AtMostOne(events: seq<LoanEvent>, kind: Kind) {
    forall d <- events, e <- events :: d.kind == kind && e.kind == kind ==> d == e
  }

  /** The condition, on the request and the approval alone, under which the two views coincide. */
  predicate SameView(request: Option<LoanEvent>, approval: Option<LoanEvent>, totalRepaid: real, currentLedger: nat) {
    var approvedLedger := if approval.Some? && approval.value.ledger.Some? then approval.value.ledger.value else 0;
    var pending := approvedLedger == 0 || currentLedger < approvedLedger;
    if request.None? || request.value.amount.None? then
      pending || totalRepaid == 0.0
    else
      && (approval.Some? ==> approval.value.termLedgers != Some(0))
      && (|| pending
          || approval.value.rateBps != Some(0)
          || request.value.amount.value == 0.0
          || currentLedger == approvedLedger)
  }

  lemma {:induction false} FirstFinds(events: seq<LoanEvent>, kind: Kind)
    ensures var r := First(events, kind);
            if r.Some? then r.value in events && r.value.kind == kind else forall e <- events :: e.kind != kind
  {
    if events != [] { FirstFinds(events[1..], kind); }
  }

  lemma {:induction false} LastFinds(events: seq<LoanEvent>, kind: Kind)
    ensures var r := Last(events, kind);
            if r.Some? then r.value in events && r.value.kind == kind else forall e <- events :: e.kind != kind
  {
    if events != [] {
      LastFinds(events[..|events| - 1], kind);
      assert events == events[..|events| - 1] + [events[|events| - 1]];
    }
  }

  lemma {:induction false} RowsOfKeeps(table: seq<LoanEvent>, borrower: string)
    ensures forall e :: e in RowsOf(table, borrower) <==> e in table && e.address == borrower
  {
    if table != [] { RowsOfKeeps(table[1..], borrower); }
  }

  lemma {:induction false} MaxOfOneValue<T>(column: seq<Option<T>>, less: (T, T) -> bool, c: Option<T>)
    requires forall i | 0 <= i < |column| :: column[i] == None || column[i] == c
    requires c == None || c in column
    ensures MaxOf(column, less) == c
  {
    if column != [] {
      if c == None || c in column[1..] {
        MaxOfOneValue(column[1..], less, c);
      } else {
        MaxOfOneValue(column[1..], less, None);
      }
    }
  }

  /** A MAX over the rows of a kind that occurs at most once is that event's own field. */
  lemma MaxOfOneEvent<T>(rows: seq<LoanEvent>, kind: Kind, field: LoanEvent -> Option<T>, less: (T, T) -> bool, only: Option<LoanEvent>)
    requires if only.Some? then only.value in rows && only.value.kind == kind && forall e <- rows :: e.kind == kind ==> e == only.value
             else forall e <- rows :: e.kind != kind
    ensures MaxOf(Column(rows, kind, field), less) == if only.Some? then field(only.value) else None
  {
    var column := Column(rows, kind, field);
    if only.Some? {
      var i :| 0 <= i < |rows| && rows[i] == only.value;
      assert column[i] == field(only.value);
      MaxOfOneValue(column, less, field(only.value));
    } else {
      MaxOfOneValue(column, less, None);
    }
  }

  lemma {:induction false} SumRepaidAppend(a: seq<LoanEvent>, b: seq<LoanEvent>)
    ensures SumRepaid(a + b) == SumRepaid(a) + SumRepaid(b)
  {
    if a == [] {
      assert a + b == b;
    } else {
      assert (a + b)[1..] == a[1..] + b;
      SumRepaidAppend(a[1..], b);
    }
  }

  lemma {:induction false} TotalRepaidIsSum(events: seq<LoanEvent>)
    ensures TotalRepaid(events) == SumRepaid(events)
  {
    if events != [] {
      var init, e := events[..|events| - 1], events[|events| - 1];
      TotalRepaidIsSum(init);
      SumRepaidAppend(init, [e]);
      assert events == init + [e] && [e][1..] == [];
    }
  }

  lemma WithoutOne<T>(a: seq<T>, b: seq<T>, k: nat)
    requires a != [] && multiset(a) == multiset(b) && k < |b| && b[k] == a[0]
    ensures multiset(a[1..]) == multiset(b[..k] + b[k + 1..])
  {
    assert a == [a[0]] + a[1..];
    assert b == b[..k] + [b[k]] + b[k + 1..];
    assert multiset(a[1..]) == multiset(a) - multiset{a[0]};
    assert multiset(b[..k] + b[k + 1..]) == multiset(b) - multiset{b[k]};
  }

  lemma SumRepaidWithout(b: seq<LoanEvent>, k: nat)
    requires k < |b|
    ensures SumRepaid(b) == SumRepaid([b[k]]) + SumRepaid(b[..k] + b[k + 1..])
  {
    assert b == b[..k] + ([b[k]] + b[k + 1..]);
    SumRepaidAppend(b[..k], [b[k]] + b[k + 1..]);
    SumRepaidAppend([b[k]], b[k + 1..]);
    SumRepaidAppend(b[..k], b[k + 1..]);
  }

  lemma {:induction false} SumRepaidAnyOrder(a: seq<LoanEvent>, b: seq<LoanEvent>)
    requires multiset(a) == multiset(b)
    ensures SumRepaid(a) == SumRepaid(b)
  {
    hide SumRepaid;
    if a == [] {
      assert |multiset(b)| == 0;
    } else {
      assert a[0] in multiset(b);
      var k :| 0 <= k < |b| && b[k] == a[0];
      WithoutOne(a, b, k);
      SumRepaidAnyOrder(a[1..], b[..k] + b[k + 1..]);
      SumRepaidWithout(a, 0);
      assert a[..0] + a[1..] == a[1..];
      SumRepaidWithout(b, k);
    }
  }

  lemma {:induction false} SumRepaidOfBorrower(table: seq<LoanEvent>, borrower: string)
    requires forall e <- table :: e.kind == Repaid ==> e.address == borrower
    ensures SumRepaid(RowsOf(table, borrower)) == SumRepaid(table)
  {
    if table != [] {
      SumRepaidOfBorrower(table[1..], borrower);
      assert table[0] in table;
      if table[0].address == borrower {
        assert RowsOf(table, borrower)[1..] == RowsOf(table[1..], borrower);
      } else {
        assert RowsOf(table, borrower) == RowsOf(table[1..], borrower);
      }
    }
  }

  lemma SameTotalRepaid(table: seq<LoanEvent>, ordered: seq<LoanEvent>, borrower: string)
    requires multiset(table) == multiset(ordered)
    requires forall e <- table :: e.kind == Repaid ==> e.address == borrower
    ensures SumRepaid(RowsOf(table, borrower)) == TotalRepaid(ordered)
  {
    SumRepaidOfBorrower(table, borrower);
    SumRepaidAnyOrder(table, ordered);
    TotalRepaidIsSum(ordered);
  }

  /** Under OneLoan, what the aggregate's columns hold. */
  lemma ColumnsHold(table: seq<LoanEvent>, ordered: seq<LoanEvent>, borrower: string)
    requires multiset(table) == multiset(ordered) && OneLoan(table, borrower)
    ensures var rows := RowsOf(table, borrower);
            var request := First(ordered, Requested);
            var approval := Last(ordered, Approved);
            && rows != []
            && MaxOf(Column(rows, Requested, AmountOf), (a: real, b: real) => a < b) == (if request.Some? then request.value.amount else None)
            && MaxInt(rows, Approved, LedgerOf) == (if approval.Some? then LedgerOf(approval.value) else None)
            && MaxInt(rows, Approved, RateOf) == (if approval.Some? then approval.value.rateBps else None)
            && MaxInt(rows, Approved, TermOf) == (if approval.Some? then approval.value.termLedgers else None)
            && SumRepaid(rows) == TotalRepaid(ordered)
            && ((exists e <- rows :: e.kind == Defaulted) <==> (exists e <- ordered :: e.kind == Defaulted))
  {
    hide First, Last, MaxOf, RowsOf, SumRepaid, TotalRepaid, Column;
    var rows := RowsOf(table, borrower);
    RowsOfKeeps(table, borrower);
    SameMembers(table, ordered);
    FirstFinds(ordered, Requested);
    LastFinds(ordered, Approved);
    var request := First(ordered, Requested);
    var approval := Last(ordered, Approved);
    assert forall e :: e in ordered && e.kind != Other ==> e in rows;
    MaxOfOneEvent(rows, Requested, AmountOf, (a: real, b: real) => a < b, request);
    MaxOfOneEvent(rows, Approved, LedgerOf, (a: int, b: int) => a < b, approval);
    MaxOfOneEvent(rows, Approved, RateOf, (a: int, b: int) => a < b, approval);
    MaxOfOneEvent(rows, Approved, TermOf, (a: int, b: int) => a < b, approval);
    SameTotalRepaid(table, ordered, borrower);
  }

  lemma SameMembers<T>(a: seq<T>, b: seq<T>)
    requires multiset(a) == multiset(b)
    ensures forall x :: x in a <==> x in b
  {
    assert forall x :: x in a <==> x in multiset(a);
    assert forall x :: x in b <==> x in multiset(b);
  }

  /**
   * The two views of one loan without an open dispute, in whatever order the table returns the rows, are the same
   * if and only if SameView holds: the SQL takes a stored rate or term of zero at its word where the fold replaces
   * it by the default, and a missing principal hides repayments from the SQL.
   */
  lemma ViewsAgreeIff(table: seq<LoanEvent>, ordered: seq<LoanEvent>, borrower: string, currentLedger: nat)
    requires multiset(table) == multiset(ordered) && OneLoan(table, borrower)
    ensures List(table, borrower, currentLedger) == Listed(Details(ordered, None, currentLedger))
       <==> SameView(First(ordered, Requested), Last(ordered, Approved), TotalRepaid(ordered), currentLedger)
  {
    hide First, Last, MaxOf, RowsOf, SumRepaid, TotalRepaid, Column, OneLoan, Interest;
    ColumnsHold(table, ordered, borrower);
    var request, approval := First(ordered, Requested), Last(ordered, Approved);
    if approval.Some? && approval.value.ledger.Some? && approval.value.termLedgers != Some(0) {
      DefaultRateMatters(if request.Some? then AmountOrZero(request.value) else 0.0,
                         OrElse(approval.value.termLedgers, DEFAULT_TERM_LEDGERS),
                         Elapsed(currentLedger, approval.value.ledger.value));
    }
    if request.None? || request.value.amount.None? { NoInterestOnNothing(); }
  }

  /** A rate of zero and the default rate give the same interest only on nothing or after no time. */
  lemma DefaultRateMatters(principal: real, termLedgers: int, elapsed: nat)
    requires termLedgers != 0
    ensures Interest(principal, 0, termLedgers, elapsed) == Interest(principal, DEFAULT_INTEREST_RATE_BPS, termLedgers, elapsed)
       <==> principal == 0.0 || elapsed == 0
  {
    var d := (10000 * termLedgers) as real;
    var accrued := principal * 1200.0 * (elapsed as real);
    assert Interest(principal, 0, termLedgers, elapsed) == 0.0 / d == 0.0;
    assert (accrued / d) * d == accrued;
    assert accrued == 0.0 <==> principal == 0.0 || elapsed == 0;
  }

  lemma NoInterestOnNothing()
    ensures forall rateBps, termLedgers, elapsed: nat | termLedgers != 0 :: Interest(0.0, rateBps, termLedgers, elapsed) == 0.0
  {
  }

  /** Whatever the rate and term, so long as neither is stored as zero, and the request has its amount. */
  lemma OrdinaryLoansAgree(table: seq<LoanEvent>, ordered: seq<LoanEvent>, borrower: string, currentLedger: nat)
    requires multiset(table) == multiset(ordered) && OneLoan(table, borrower)
    requires exists e <- table :: e.kind == Requested && e.amount.Some?
    requires forall e <- table :: e.kind == Approved ==> e.rateBps != Some(0) && e.termLedgers != Some(0)
    ensures List(table, borrower, currentLedger) == Listed(Details(ordered, None, currentLedger))
  {
    hide List, Details, First, Last;
    SameMembers(table, ordered);
    FirstFinds(ordered, Requested);
    LastFinds(ordered, Approved);
    ViewsAgreeIff(table, ordered, borrower, currentLedger);
  }

  const REQUEST := LoanEvent(1, Requested, "b", Some(100.0), Some(1), None, None)
  const INTEREST_FREE := LoanEvent(2, Approved, "b", None, Some(10), Some(0), Some(17280))

  /** An interest-free loan of 100 over one day: the list shows 100 owed, the loan's page 112. */
  lemma InterestFreeLoanIsShownTwoWays()
    ensures var table := [REQUEST, INTEREST_FREE];
            && OneLoan(table, "b")
            && List(table, "b", 17290) == Listed(Summary(100.0, Some(0.0), 0.0, Some(100.0), Active))
            && Details(table, None, 17290) == Summary(100.0, Some(12.0), 0.0, Some(112.0), Active)
  {
    var table := [REQUEST, INTEREST_FREE];
    InterestFreeFacts(table);
    hide OneLoan, First, Last, TotalRepaid, SumRepaid, MaxOf, Column, RowsOf;
    ColumnsHold(table, table, "b");
    InterestOfIt();
    hide Interest;
  }

  lemma InterestFreeFacts(table: seq<LoanEvent>)
    requires table == [REQUEST, INTEREST_FREE]
    ensures OneLoan(table, "b")
    ensures First(table, Requested) == Some(REQUEST) && Last(table, Approved) == Some(INTEREST_FREE) && TotalRepaid(table) == 0.0
    ensures forall e <- table :: e.kind != Defaulted
  {
    assert table[0].address == "b" && table[1].address == "b";
    assert table[..1] == [REQUEST] && [REQUEST][..0] == [];
    assert TotalRepaid([REQUEST]) == 0.0;
  }

  lemma InterestOfIt()
    ensures Interest(100.0, 0, 17280, 17280) == 0.0 && Interest(100.0, 1200, 17280, 17280) == 12.0
  {
  }

  /** An open dispute stops the interest: later ledgers add nothing, and never more than without the dispute. */
  lemma DisputeFreezesInterest(events: seq<LoanEvent>, freeze: nat, now: nat, later: nat)
    requires freeze <= now <= later
    requires First(events, Requested).Some? ==> AmountOrZero(First(events, Requested).value) >= 0.0
    requires forall e <- events :: (e.rateBps.Some? ==> e.rateBps.value >= 0) && (e.termLedgers.Some? ==> e.termLedgers.value >= 0)
    requires Details(events, Some(freeze), now).status != PendingIndexing
    ensures Details(events, Some(freeze), later) == Details(events, Some(freeze), now)
    ensures Details(events, Some(freeze), now).accruedInterest.value <= Details(events, None, now).accruedInterest.value
  {
    hide First, Last, TotalRepaid;
    LastFinds(events, Approved);
    var request, approval := First(events, Requested), Last(events, Approved);
    var approved := approval.value.ledger.value;
    InterestGrows(if request.Some? then AmountOrZero(request.value) else 0.0,
                  OrElse(approval.value.rateBps, DEFAULT_INTEREST_RATE_BPS),
                  OrElse(approval.value.termLedgers, DEFAULT_TERM_LEDGERS), Elapsed(freeze, approved), Elapsed(now, approved));
  }

  lemma InterestGrows(principal: real, rateBps: int, termLedgers: int, a: nat, b: nat)
    requires principal >= 0.0 && rateBps >= 0 && termLedgers > 0 && a <= b
    ensures Interest(principal, rateBps, termLedgers, a) <= Interest(principal, rateBps, termLedgers, b)
  {
    var perLedger := principal * (rateBps as real);
    assert perLedger >= 0.0;
    assert perLedger * (a as real) <= perLedger * (b as real);
    DivideBoth(perLedger * (a as real), perLedger * (b as real), (10000 * termLedgers) as real);
  }

  lemma DivideBoth(x: real, y: real, d: real)
    requires x <= y && d > 0.0
    ensures x / d <= y / d
  {
    assert (x / d) * d == x && (y / d) * d == y;
  }
}
