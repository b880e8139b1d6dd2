/**
 * The amortization schedule (backend/src/controllers/loanController.ts:230-299), in whole cents and exact
 * rationals: an equal share per period, rounded, and a last instalment that takes what is left.
 */
module Amortization {
  import opened Common

  /** Ledgers in a day. */
  const LEDGER_DAY := 17280

  datatype Row = Row(day: int, principalPortion: int, interestPortion: int, totalDue: int, runningBalance: int)

  datatype Schedule = Schedule(principal: int, totalInterest: int, totalDue: int, rows: seq<Row>)

  /** Math.round: to the nearest integer, halves up. */
  function Round(x: real): int {
    (x + 0.5).Floor
  }

  lemma RoundShift(x: real, k: int)
    ensures Round(x + k as real) == Round(x) + k
    ensures Round(k as real) == k
  {
    assert (x + 0.5).Floor as real <= x + 0.5 < (x + 0.5).Floor as real + 1.0;
    assert (x + k as real + 0.5).Floor as real <= x + k as real + 0.5 < (x + k as real + 0.5).Floor as real + 1.0;
  }

  function TotalInterest(principal: nat, rateBps: int): real {
    principal as real * (rateBps as real / 10000.0)
  }

  function TermDays(termLedgers: int): real {
    termLedgers as real / LEDGER_DAY as real
  }

  /** Math.max(1, Math.round(termDays / 30) || 1) */
  function PeriodCount(termLedgers: int): (n: int)
    ensures n >= 1
    ensures n == 1 <==> TermDays(termLedgers) < 45.0
  {
    var rounded := Round(TermDays(termLedgers) / 30.0);
    Max(1, if rounded == 0 then 1 else rounded)
  }

  function Each(total: real, n: int): (x: real)
    requires n >= 1
    ensures x == total / n as real && n as real * x == total
  {
    total / n as real
  }

  function Share(total: real, n: int): int
    requires n >= 1
  {
    Round(Each(total, n))
  }

  function Day(termLedgers: int, n: int, i: int): int
    requires n >= 1
  {
    DayAt(Each(TermDays(termLedgers), n), i)
  }

  function DayAt(daysPerPeriod: real, i: int): int {
    Round(daysPerPeriod * i as real)
  }

  /** The i-th of n portions of a total, counted from 1: the rounded share, or in the last one what is left of the rounded total. */
  function Portion(total: real, n: int, i: int): int
    requires 1 <= i <= n
  {
    if i == n then Round(total) - (n - 1) * Share(total, n) else Share(total, n)
  }

  /** What the running remainder holds before the i-th portion. */
  function Left(total: real, n: int, i: int): real
    requires 1 <= i <= n + 1
  {
    if i == 1 then total
    else if i == n + 1 then 0.0
    else (Round(total) - (i - 1) * Share(total, n)) as real
  }

  /** One turn of the loop, for either remainder. */
  lemma Step(total: real, n: int, i: int)
    requires 1 <= i <= n
    ensures (if i == n then Round(Left(total, n, i)) else Round(Each(total, n))) == Portion(total, n, i)
    ensures Round(Left(total, n, i) - Portion(total, n, i) as real) as real == Left(total, n, i + 1)
  {
    hide Round;
    var portion := Portion(total, n, i);
    RoundShift(total, -portion);
    RoundShift(0.0, Round(total) - (i - 1) * Share(total, n));
    RoundShift((Round(total) - (i - 1) * Share(total, n)) as real, -portion);
    assert i * Share(total, n) == (i - 1) * Share(total, n) + Share(total, n);
  }

  function RowAt(principal: nat, rateBps: int, termLedgers: int, i: int): Row
    requires 1 <= i <= PeriodCount(termLedgers)
  {
    var n := PeriodCount(termLedgers);
    var pp := Portion(principal as real, n, i);
    var ip := Portion(TotalInterest(principal, rateBps), n, i);
    Row(Day(termLedgers, n, i), pp, ip, pp + ip, Max(0, Left(principal as real, n, i + 1).Floor))
  }

  /** buildAmortizationSchedule: `remainingPrincipal` and `remainingInterest` run down as the rows are pushed. */
  method BuildAmortizationSchedule(principal: nat, rateBps: int, termLedgers: int) returns (s: Schedule)
    ensures |s.rows| == PeriodCount(termLedgers)
    ensures forall k | 0 <= k < |s.rows| :: s.rows[k] == RowAt(principal, rateBps, termLedgers, k + 1)
    ensures s.principal == principal && s.totalInterest == Round(TotalInterest(principal, rateBps))
    ensures s.totalDue == s.principal + s.totalInterest
  {
    hide Round, Portion, PeriodCount, TermDays, TotalInterest, Each, DayAt;
    var totalInterest := TotalInterest(principal, rateBps);
    var totalDue := principal as real + totalInterest;
    var n := PeriodCount(termLedgers);
    var daysPerPeriod := Each(TermDays(termLedgers), n);
    var rawPrincipalPortion := Each(principal as real, n);
    var rawInterestPortion := Each(totalInterest, n);
    var rows: seq<Row> := [];
    var remainingPrincipal, remainingInterest := principal as real, totalInterest;
    var i := 1;
    while i <= n
      invariant 1 <= i <= n + 1 && |rows| == i - 1
      invariant forall k | 0 <= k < |rows| :: rows[k] == RowAt(principal, rateBps, termLedgers, k + 1)
      invariant remainingPrincipal == Left(principal as real, n, i)
      invariant remainingInterest == Left(totalInterest, n, i)
    {
      var isLast := i == n;
      var principalPortion := if isLast then Round(remainingPrincipal) else Round(rawPrincipalPortion);
      var interestPortion := if isLast then Round(remainingInterest) else Round(rawInterestPortion);
      Step(principal as real, n, i);
      Step(totalInterest, n, i);
      hide Left;
      RoundShift(0.0, principalPortion + interestPortion);
      remainingPrincipal := Round(remainingPrincipal - principalPortion as real) as real;
      remainingInterest := Round(remainingInterest - interestPortion as real) as real;
      var row := Row(DayAt(daysPerPeriod, i), principalPortion, interestPortion,
                     Round((principalPortion + interestPortion) as real), Max(0, remainingPrincipal.Floor));
      assert row == RowAt(principal, rateBps, termLedgers, i);
      rows := rows + [row];
      i := i + 1;
    }
    RoundShift(totalInterest, principal);
    RoundShift(0.0, principal);
    s := Schedule(Round(principal as real), Round(totalInterest), Round(totalDue), rows);
  }

  // ---------- what the schedule promises ----------

  function Total(rows: seq<Row>, column: Row -> int): int {
    if rows == [] then 0 else Total(rows[..|rows| - 1], column) + column(rows[|rows| - 1])
  }

  ghost predicate Built(rows: seq<Row>, principal: nat, rateBps: int, termLedgers: int) {
    && |rows| == PeriodCount(termLedgers)
    && forall k | 0 <= k < |rows| :: rows[k] == RowAt(principal, rateBps, termLedgers, k + 1)
  }

  ghost predicate Splits(rows: seq<Row>, column: Row -> int, total: real, n: int) {
    1 <= n && |rows| == n && forall k | 0 <= k < n :: column(rows[k]) == Portion(total, n, k + 1)
  }

  lemma {:induction false} TotalOfShares(rows: seq<Row>, column: Row -> int, total: real, n: int, m: nat)
    requires Splits(rows, column, total, n) && m <= n
    ensures Total(rows[..m], column) == if m == n then Round(total) else m * Share(total, n)
  {
    if m > 0 {
      TotalOfShares(rows, column, total, n, m - 1);
      assert rows[..m][..m - 1] == rows[..m - 1];
      assert m * Share(total, n) == (m - 1) * Share(total, n) + Share(total, n);
    }
  }

  lemma {:induction false} TotalDueIsBoth(rows: seq<Row>)
    requires forall k | 0 <= k < |rows| :: rows[k].totalDue == rows[k].principalPortion + rows[k].interestPortion
    ensures Total(rows, (r: Row) => r.totalDue) == Total(rows, (r: Row) => r.principalPortion) + Total(rows, (r: Row) => r.interestPortion)
  {
    if rows != [] { TotalDueIsBoth(rows[..|rows| - 1]); }
  }

  /** No cent is lost or made up by the rounding. */
  lemma ConservesMoney(rows: seq<Row>, principal: nat, rateBps: int, termLedgers: int)
    requires Built(rows, principal, rateBps, termLedgers)
    ensures Total(rows, (r: Row) => r.principalPortion) == principal
    ensures Total(rows, (r: Row) => r.interestPortion) == Round(TotalInterest(principal, rateBps))
    ensures Total(rows, (r: Row) => r.totalDue) == principal + Round(TotalInterest(principal, rateBps))
  {
    hide Round, PeriodCount, TotalInterest;
    var n := PeriodCount(termLedgers);
    TotalOfShares(rows, (r: Row) => r.principalPortion, principal as real, n, n);
    TotalOfShares(rows, (r: Row) => r.interestPortion, TotalInterest(principal, rateBps), n, n);
    TotalDueIsBoth(rows);
    RoundShift(0.0, principal);
    assert rows[..n] == rows;
  }

  /** The running balance is the principal still unpaid, never below zero; it never rises and ends at zero. */
  lemma BalanceRunsDown(rows: seq<Row>, principal: nat, rateBps: int, termLedgers: int, k: nat)
    requires Built(rows, principal, rateBps, termLedgers) && k < |rows|
    ensures rows[k].runningBalance == Max(0, principal - Total(rows[..k + 1], (r: Row) => r.principalPortion))
    ensures rows[k].runningBalance <= if k == 0 then principal else rows[k - 1].runningBalance
    ensures rows[|rows| - 1].runningBalance == 0
  {
    hide Round, PeriodCount, TotalInterest, Share;
    var n := PeriodCount(termLedgers);
    var p := Share(principal as real, n);
    TotalOfShares(rows, (r: Row) => r.principalPortion, principal as real, n, k + 1);
    RoundShift(0.0, principal);
    ShareIsNear(principal as real, n);
    assert (k + 1) * p == k * p + p;
  }

  lemma ShareIsNear(total: real, n: int)
    requires n >= 1
    ensures -0.5 <= Share(total, n) as real - Each(total, n) <= 0.5
    ensures total >= 0.0 ==> Share(total, n) >= 0
  {
    RoundIsNear(Each(total, n));
    if Each(total, n) < 0.0 { NegativeProduct(n as real, Each(total, n)); }
  }

  /** Portions but the last are within half a cent of the equal share; the last carries the other roundings. */
  lemma PortionsAreNearEqual(total: real, n: int, i: int)
    requires 1 <= i <= n
    ensures i < n ==> -0.5 <= Portion(total, n, i) as real - Each(total, n) <= 0.5
    ensures -(n as real) / 2.0 <= Portion(total, n, n) as real - Each(total, n) <= n as real / 2.0
    ensures total == Round(total) as real ==>
              -((n - 1) as real) / 2.0 <= Portion(total, n, n) as real - Each(total, n) <= (n - 1) as real / 2.0
  {
    hide Round, Share, Each, Times;
    var x, share, m := Each(total, n), Share(total, n), (n - 1) as real;
    ShareIsNear(total, n);
    RoundIsNear(total);
    EachTimes(total, n);
    SpreadOf(m, x, share as real);
    SpreadOf(m, share as real, x);
    CastProduct(n - 1, share);
  }

  /** Multiplication under a name, so that a product meets the solver only where its laws are needed. */
  function Times(a: real, b: real): real {
    a * b
  }

  lemma CastProduct(a: int, b: int)
    ensures (a * b) as real == Times(a as real, b as real)
  {
  }

  lemma EachTimes(total: real, n: int)
    requires n >= 1
    ensures Times((n - 1) as real, Each(total, n)) + Each(total, n) == total
  {
    assert n as real * Each(total, n) == total;
  }

  lemma SpreadOf(m: real, x: real, share: real)
    requires m >= 0.0 && share - x <= 0.5
    ensures Times(m, share) <= Times(m, x) + m / 2.0
  {
    Scaled(m, share, x + 0.5);
    assert m * (x + 0.5) == m * x + m * 0.5;
  }

  lemma Scaled(m: real, a: real, b: real)
    requires m >= 0.0 && a <= b
    ensures m * a <= m * b
  {
  }

  lemma NegativeProduct(m: real, x: real)
    requires m > 0.0 && x < 0.0
    ensures m * x < 0.0
  {
  }

  lemma RoundIsNear(x: real)
    ensures -0.5 <= Round(x) as real - x <= 0.5
  {
    assert (x + 0.5).Floor as real <= x + 0.5 < (x + 0.5).Floor as real + 1.0;
  }

  lemma RoundFraction(x: real, r: nat, n: int)
    requires r < n && n as real * x == r as real
    ensures Round(x) == if 2 * r >= n then 1 else 0
  {
    hide Round;
    HalfOf(x, r as real, n as real);
    RoundIsNear(x);
    RoundHalf(x);
  }

  lemma HalfOf(x: real, r: real, n: real)
    requires n * x == r && 0.0 <= r < n
    ensures 0.0 <= x < 1.0 && (x >= 0.5 <==> 2.0 * r >= n)
  {
    Below(n, x, 0.0);
    Below(n, x, 0.5);
    Below(n, x, 1.0);
  }

  lemma Below(m: real, x: real, c: real)
    requires m > 0.0
    ensures x < c <==> m * x < m * c
  {
    assert m * (x - c) == m * x - m * c;
    if x < c { NegativeProduct(m, x - c); } else { Scaled(m, c, x); }
  }

  lemma RoundHalf(x: real)
    requires 0.0 <= x < 1.0
    ensures Round(x) == if x >= 0.5 then 1 else 0
  {
  }

  lemma ShareOfParts(k: nat, r: nat, n: int)
    requires r < n
    ensures Share((k * n + r) as real, n) == k + if 2 * r >= n then 1 else 0
  {
    hide Round;
    var x := Each((k * n + r) as real, n);
    assert (k * n) as real == k as real * n as real;
    assert n as real * (x - k as real) == r as real;
    RoundFraction(x - k as real, r, n);
    RoundShift(x - k as real, k);
  }

  lemma ShareOfWhole(total: nat, n: int)
    requires n >= 1
    ensures Share(total as real, n) == total / n + if 2 * (total % n) >= n then 1 else 0
  {
    hide Share;
    ShareOfParts(total / n, total % n, n);
  }

  /** The last instalment of a whole principal falls below zero exactly when the shares were rounded up too often for it. */
  lemma LastPortionNegativeIff(principal: nat, n: int)
    requires n >= 1
    ensures Portion(principal as real, n, n) < 0
       <==> 2 * (principal % n) >= n && principal / n + principal % n + 1 < n
  {
    hide Share, Round;
    ShareOfWhole(principal, n);
    RoundShift(0.0, principal);
    var k, r := principal / n, principal % n;
    assert principal == k * n + r;
    assert (n - 1) * k == n * k - k;
    assert (n - 1) * (k + 1) == n * k - k + n - 1;
  }

  /** What the whole shares below a total leave over. */
  function Leftover(total: real, n: int): real
    requires n >= 1
  {
    total - (Each(total, n).Floor * n) as real
  }

  /** The same for a total that is not a whole number of cents. */
  lemma FractionalLastPortionNegativeIff(total: real, n: int)
    requires n >= 1 && total >= 0.0
    ensures 0.0 <= Leftover(total, n) < n as real
    ensures Portion(total, n, n) < 0
       <==> 2.0 * Leftover(total, n) >= n as real && Each(total, n).Floor + Round(Leftover(total, n)) + 1 < n
  {
    hide Each, Round, Leftover;
    var k := Each(total, n).Floor;
    var x := Each(total, n) - k as real;
    WholeShares(total, n);
    HalfOf(x, Leftover(total, n), n as real);
    RoundHalf(x);
    LeftoverRounds(total, n);
    EachSign(total, n);
    RoundMonotone(0.0, Leftover(total, n));
    RoundShift(0.0, 0);
    ShareByParts(total, n, x, k);
    LastByParts(Round(total), Share(total, n), n, k, Round(Leftover(total, n)));
  }

  lemma ShareByParts(total: real, n: int, x: real, k: int)
    requires n >= 1 && Each(total, n) == x + k as real
    ensures Share(total, n) == Round(x) + k
  {
    RoundShift(x, k);
  }

  /** The remainder in whole numbers, with the share rounded down or up. */
  lemma LastByParts(rounded: int, share: int, n: int, k: int, left: int)
    requires rounded == left + n * k && (share == k || share == k + 1)
    ensures rounded - (n - 1) * share == if share == k then k + left else k + left + 1 - n
  {
    assert (n - 1) * k == n * k - k;
    assert (n - 1) * (k + 1) == n * k - k + n - 1;
  }

  lemma LeftoverRounds(total: real, n: int)
    requires n >= 1
    ensures Round(total) == Round(Leftover(total, n)) + n * Each(total, n).Floor
  {
    hide Each, Round;
    RoundShift(Leftover(total, n), Each(total, n).Floor * n);
  }

  lemma WholeShares(total: real, n: int)
    requires n >= 1
    ensures var x := Each(total, n) - Each(total, n).Floor as real;
            && 0.0 <= x < 1.0
            && n as real * x == Leftover(total, n) && 0.0 <= Leftover(total, n) < n as real
  {
    var k := Each(total, n).Floor;
    TimesFraction(n, Each(total, n), k);
    InUnit(n as real, Each(total, n) - k as real, Leftover(total, n));
  }

  lemma InUnit(m: real, x: real, f: real)
    requires m > 0.0 && 0.0 <= x < 1.0 && m * x == f
    ensures 0.0 <= f < m
  {
    Scaled(m, 0.0, x);
    Below(m, x, 1.0);
  }

  lemma TimesFraction(n: int, x: real, k: int)
    ensures n as real * (x - k as real) == n as real * x - (k * n) as real
  {
    assert (k * n) as real == k as real * n as real;
  }

  /** Two cents over four periods: 1, 1, 1 and then -1. */
  lemma TwoCentsOverFourPeriods()
    ensures Portion(2.0, 4, 1) == 1 && Portion(2.0, 4, 4) == -1
  {
    LastPortionNegativeIff(2, 4);
    ShareOfWhole(2, 4);
  }

  /** The terms the preview offers give at most three periods, and there no instalment is negative. */
  lemma PreviewIsNeverNegative(principal: nat, rateBps: int, termDays: int, i: int)
    requires termDays in {30, 60, 90} && 1 <= i <= PeriodCount(termDays * LEDGER_DAY)
    ensures PeriodCount(termDays * LEDGER_DAY) == termDays / 30
    ensures RowAt(principal, rateBps, termDays * LEDGER_DAY, i).principalPortion >= 0
    ensures rateBps >= 0 ==> RowAt(principal, rateBps, termDays * LEDGER_DAY, i).interestPortion >= 0
    ensures rateBps >= 0 ==> RowAt(principal, rateBps, termDays * LEDGER_DAY, i).totalDue >= 0
    ensures RowAt(principal, rateBps, termDays * LEDGER_DAY, i).day == 30 * i
  {
    var n := PeriodCount(termDays * LEDGER_DAY);
    assert TermDays(termDays * LEDGER_DAY) == termDays as real;
    assert n == termDays / 30;
    FewPortionsNonNegative(principal as real, n, i);
    if rateBps >= 0 {
      InterestSign(principal, rateBps);
      FewPortionsNonNegative(TotalInterest(principal, rateBps), n, i);
    }
    DaysOfWholeMonths(n, i);
  }

  lemma DaysOfWholeMonths(n: int, i: int)
    requires 1 <= i <= n <= 3
    ensures DayAt(Each((30 * n) as real, n), i) == 30 * i
  {
    assert Each((30 * n) as real, n) == 30.0;
    RoundShift(0.0, 30 * i);
  }

  lemma InterestSign(principal: nat, rateBps: int)
    requires rateBps >= 0
    ensures TotalInterest(principal, rateBps) >= 0.0
  {
  }

  /** At most three portions of a non-negative total are all non-negative. */
  lemma FewPortionsNonNegative(total: real, n: int, i: int)
    requires total >= 0.0 && 1 <= i <= n <= 3
    ensures Portion(total, n, i) >= 0
  {
    hide Portion;
    FractionalLastPortionNegativeIff(total, n);
    var f := Leftover(total, n);
    hide Leftover;
    ShareIsNear(total, n);
    PortionIsShare(total, n, i);
    EachSign(total, n);
    if f >= 1.0 { RoundMonotone(1.0, f); assert Round(1.0) == 1; }
    if f >= 1.5 { RoundMonotone(1.5, f); assert Round(1.5) == 2; }
  }

  lemma PortionIsShare(total: real, n: int, i: int)
    requires 1 <= i <= n
    ensures i < n ==> Portion(total, n, i) == Share(total, n)
  {
  }

  lemma EachSign(total: real, n: int)
    requires total >= 0.0 && n >= 1
    ensures Each(total, n).Floor >= 0
  {
    Below(n as real, Each(total, n), 0.0);
  }

  /** Due dates never go backwards on a non-negative term, and the last one closes the term. */
  lemma DueDatesAdvance(termLedgers: int, n: int, i: int, j: int)
    requires termLedgers >= 0 && 1 <= i <= j <= n
    ensures 0 <= Day(termLedgers, n, i) <= Day(termLedgers, n, j) <= Day(termLedgers, n, n) == Round(TermDays(termLedgers))
  {
    hide DayAt, Each, TermDays, Round;
    var step := Each(TermDays(termLedgers), n);
    if step < 0.0 { NegativeProduct(n as real, step); TermDaysSign(termLedgers); }
    DayAtAdvances(step, i, j);
    DayAtAdvances(step, j, n);
    DayAtEnd(TermDays(termLedgers), n);
  }

  lemma TermDaysSign(termLedgers: int)
    ensures termLedgers >= 0 ==> TermDays(termLedgers) >= 0.0
  {
  }

  lemma DayAtAdvances(step: real, i: int, j: int)
    requires step >= 0.0 && 0 <= i <= j
    ensures 0 <= DayAt(step, i) <= DayAt(step, j)
  {
    Scaled(step, 0.0, i as real);
    Scaled(step, i as real, j as real);
    RoundMonotone(0.0, step * i as real);
    RoundMonotone(step * i as real, step * j as real);
  }

  lemma DayAtEnd(total: real, n: int)
    requires n >= 1
    ensures DayAt(Each(total, n), n) == Round(total)
  {
    assert Each(total, n) * n as real == total;
  }

  lemma RoundMonotone(x: real, y: real)
    requires x <= y
    ensures Round(x) <= Round(y)
  {
    assert (x + 0.5).Floor as real <= x + 0.5;
    assert y + 0.5 < (y + 0.5).Floor as real + 1.0;
  }
}
