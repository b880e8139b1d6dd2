/**
 * The event table and its three unique keys
 * (backend/migrations, INSERT ... ON CONFLICT DO NOTHING in backend/src/services/eventIndexer.ts).
 */
module EventTable {
  import opened Common

  datatype EventType =
    | LoanRequested | LoanApproved | LoanRepaid | LoanDefaulted | CollateralLiquidated
    | OtherType(name: string)

  /** A decoded event; the columns no key, score or view depends on are left out. */
  datatype Row = Row(
    eventId: string,
    eventType: EventType,
    loanId: Option<int>,
    address: Option<string>,
    ledger: nat)

  predicate IsStatusEvent(t: EventType) {
    t == LoanApproved || t == LoanDefaulted
  }

  /** Two rows that some unique key keeps from being in the table together.
      A null loan id equals nothing, so only event_id can clash for such a row. */
  predicate Conflict(a: Row, b: Row) {
    || a.eventId == b.eventId
    || (a.loanId.Some? && a.loanId == b.loanId && a.eventType == b.eventType
        && (IsStatusEvent(a.eventType) || a.ledger == b.ledger))
  }

  /** Some row of the table shares a unique key with r. */
  predicate Present(table: seq<Row>, r: Row) {
    exists i | 0 <= i < |table| :: Conflict(table[i], r)
  }

  /** The unique keys hold. */
  predicate UniqueKeys(table: seq<Row>) {
    forall i, j | 0 <= i < j < |table| :: !Conflict(table[i], table[j])
  }

  /** The rows that inserting `rows` one by one really adds, in order. */
  function Inserted(table: seq<Row>, rows: seq<Row>): seq<Row>
    decreases |rows|
  {
    if rows == [] then []
    else if Present(table, rows[0]) then Inserted(table, rows[1..])
    else [rows[0]] + Inserted(table + [rows[0]], rows[1..])
  }

  lemma PresentAppend(table: seq<Row>, more: seq<Row>, r: Row)
    ensures Present(table + more, r) <==> Present(table, r) || Present(more, r)
  {
    var all := table + more;
    if Present(table, r) {
      var i :| 0 <= i < |table| && Conflict(table[i], r);
      assert all[i] == table[i];
    }
    if Present(more, r) {
      var i :| 0 <= i < |more| && Conflict(more[i], r);
      assert all[|table| + i] == more[i];
    }
  }

  /** Every row offered is represented afterwards, and nothing is represented that was not before
      or is not one of the rows added. */
  lemma {:induction false} InsertedCovers(table: seq<Row>, rows: seq<Row>)
    ensures forall r <- rows :: Present(table + Inserted(table, rows), r)
    ensures forall r <- Inserted(table, rows) :: r in rows && !Present(table, r)
    decreases |rows|
  {
    if rows != [] {
      var r0 := rows[0];
      if Present(table, r0) {
        InsertedCovers(table, rows[1..]);
        PresentAppend(table, Inserted(table, rows), r0);
      } else {
        var next := table + [r0];
        InsertedCovers(next, rows[1..]);
        var more := Inserted(next, rows[1..]);
        assert table + Inserted(table, rows) == next + more;
        assert Conflict([r0][0], r0);
        PresentAppend(table, [r0], r0);
        PresentAppend(next, more, r0);
        forall r | r in more ensures !Present(table, r) {
          PresentAppend(table, [r0], r);
        }
      }
    }
  }

  lemma UniqueKeysAppend(table: seq<Row>, r: Row)
    requires UniqueKeys(table) && !Present(table, r)
    ensures UniqueKeys(table + [r])
  {
  }

  lemma {:induction false} InsertedKeepsUniqueKeys(table: seq<Row>, rows: seq<Row>)
    requires UniqueKeys(table)
    ensures UniqueKeys(table + Inserted(table, rows))
    decreases |rows|
  {
    hide UniqueKeys, Present;
    if rows == [] {
      assert table + [] == table;
    } else if Present(table, rows[0]) {
      InsertedKeepsUniqueKeys(table, rows[1..]);
    } else {
      var next := table + [rows[0]];
      UniqueKeysAppend(table, rows[0]);
      InsertedKeepsUniqueKeys(next, rows[1..]);
      assert next + Inserted(next, rows[1..]) == table + Inserted(table, rows);
    }
  }

  /** Inserting two lists in a row is inserting their concatenation. */
  lemma {:induction false} InsertedAppend(table: seq<Row>, xs: seq<Row>, ys: seq<Row>)
    ensures Inserted(table, xs + ys) ==
            Inserted(table, xs) + Inserted(table + Inserted(table, xs), ys)
    decreases |xs|
  {
    if xs == [] {
      assert xs + ys == ys && table + [] == table;
    } else {
      assert (xs + ys)[1..] == xs[1..] + ys;
      if Present(table, xs[0]) {
        InsertedAppend(table, xs[1..], ys);
      } else {
        var next := table + [xs[0]];
        InsertedAppend(next, xs[1..], ys);
        assert next + Inserted(next, xs[1..]) == table + Inserted(table, xs);
      }
    }
  }

  /** Rows already represented insert nothing. */
  lemma {:induction false} InsertedNothing(table: seq<Row>, rows: seq<Row>)
    requires forall r <- rows :: Present(table, r)
    ensures Inserted(table, rows) == []
    decreases |rows|
  {
    if rows != [] {
      InsertedNothing(table, rows[1..]);
    }
  }

  /** The row offered at position k is added exactly when neither the table nor a row added before it shares a key
      with it; what is offered later takes nothing back. */
  lemma InsertedExactly(table: seq<Row>, rows: seq<Row>, k: nat)
    requires k < |rows|
    ensures var before, after := Inserted(table, rows[..k]), Inserted(table, rows[..k + 1]);
            && (after == before + [rows[k]] <==> !Present(table + before, rows[k]))
            && (after == before <==> Present(table + before, rows[k]))
            && after <= Inserted(table, rows)
  {
    var before := Inserted(table, rows[..k]);
    assert rows[..k + 1] == rows[..k] + [rows[k]];
    InsertedAppend(table, rows[..k], [rows[k]]);
    assert Inserted(table + before, [rows[k]]) == if Present(table + before, rows[k]) then [] else [rows[k]];
    assert rows == rows[..k + 1] + rows[k + 1..];
    InsertedAppend(table, rows[..k + 1], rows[k + 1..]);
  }

  /** Two repayments of one loan closing in the same ledger: the second is dropped, although its
      event id is new.  The documentation names event_id as the only conflict key. */
  lemma SecondRepaymentInLedgerIsDropped(loan: int, payer: string, ledger: nat)
    ensures var a := Row("a", LoanRepaid, Some(loan), Some(payer), ledger);
            var b := Row("b", LoanRepaid, Some(loan), Some(payer), ledger);
            a.eventId != b.eventId && Inserted([], [a, b]) == [a]
  {
    var a := Row("a", LoanRepaid, Some(loan), Some(payer), ledger);
    var b := Row("b", LoanRepaid, Some(loan), Some(payer), ledger);
    assert [a, b][1..] == [b];
    assert Conflict([a][0], b);
    assert [] + [a] == [a];
    assert Inserted([a], [b]) == [];
    assert !Present([], a);
  }
}
