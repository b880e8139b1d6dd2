/**
 * The admin's reprocessing of quarantined events (backend/src/controllers/indexerController.ts:733-760): every row
 * is decoded, parsed, ingested and then deleted from quarantine, or counted as failed and left there.
 */
module QuarantineReprocess {
  import opened Common
  import opened EventTable
  import opened Scores
  import opened ScoreEvents
  import opened Transaction
  import opened EventStore
  import opened Reindex
  import opened EventIndexer

  /** A quarantine row: its event id, and the raw event if the stored text still decodes. */
  datatype Item = Item(id: string, raw: Option<Event>)

  /** What goes wrong while item number i is handled: in the attempts of its store, and in its DELETE. */
  datatype Trouble = Trouble(faults: (nat, nat) -> Fault, deleteFails: nat -> bool)

  datatype Tally = Tally(db: Db, deleted: seq<Item>, failed: seq<Item>)

  function FaultsOf(trouble: Trouble, i: nat): nat -> Fault {
    (n: nat) => trouble.faults(i, n)
  }

  predicate Parseable(parse: Parser, item: Item) {
    item.raw.Some? && parse(item.raw.value).Parsed?
  }

  function AfterItem(cfg: ScoreConfig, parse: Parser, trouble: Trouble, i: nat, item: Item, t: Tally): Tally {
    if !Parseable(parse, item) then t.(failed := t.failed + [item])
    else
      var (db, outcome) := StoreSpec(cfg, parse, t.db, [item.raw.value], FaultsOf(trouble, i));
      if outcome.Threw? || trouble.deleteFails(i) then Tally(db, t.deleted, t.failed + [item])
      else Tally(db.(quarantine := db.quarantine - {item.id}), t.deleted + [item], t.failed)
  }

  function AfterItems(cfg: ScoreConfig, parse: Parser, trouble: Trouble, items: seq<Item>, db: Db): Tally {
    if items == [] then Tally(db, [], [])
    else
      var n := |items| - 1;
      AfterItem(cfg, parse, trouble, n, items[n], AfterItems(cfg, parse, trouble, items[..n], db))
  }

  method DeleteFromQuarantine(indexer: Indexer, id: string)
    modifies indexer`quarantine
    ensures indexer.quarantine == old(indexer.quarantine) - {id}
  {
    indexer.quarantine := indexer.quarantine - {id};
  }

  method ReprocessQuarantinedEvents(indexer: Indexer, items: seq<Item>, trouble: Trouble)
    returns (reprocessed: nat, failed: nat)
    modifies indexer`quarantine, indexer.pool
    ensures var t := AfterItems(indexer.cfg, indexer.parse, trouble, items, old(indexer.Database()));
            indexer.Database() == t.db && reprocessed == |t.deleted| && failed == |t.failed|
  {
    hide StoreSpec;
    reprocessed, failed := 0, 0;
    var i := 0;
    while i < |items|
      invariant i <= |items|
      invariant var t := AfterItems(indexer.cfg, indexer.parse, trouble, items[..i], old(indexer.Database()));
                indexer.Database() == t.db && reprocessed == |t.deleted| && failed == |t.failed|
    {
      var item := items[i];
      assert items[..i + 1][..i] == items[..i];
      if item.raw.None? || !indexer.parse(item.raw.value).Parsed? {
        failed := failed + 1;
      } else {
        var stored := indexer.StoreEvents([item.raw.value], FaultsOf(trouble, i));
        if stored.Threw? || trouble.deleteFails(i) {
          failed := failed + 1;
        } else {
          DeleteFromQuarantine(indexer, item.id);
          reprocessed := reprocessed + 1;
        }
      }
      i := i + 1;
    }
    assert items[..i] == items;
  }

  // ---------- what it promises ----------

  /** Whatever fails on the way, no attempt takes a row out of the table. */
  lemma {:induction false} TableOnlyGrows(
    cfg: ScoreConfig, rows: seq<Row>, faults: nat -> Fault, attempt: nat, c: Captured, d: Store)
    requires attempt <= MAX_RETRIES
    ensures d.table <= RunFrom(Attempts(cfg, rows, faults), UNDISTURBED, ALWAYS_CONNECTS, attempt, MAX_RETRIES, BASE_DELAY_MS, c, d).db.table
    decreases MAX_RETRIES - attempt
  {
    var a := Callback(cfg, rows, faults(attempt), c, d);
    if Retries(a, attempt, MAX_RETRIES) {
      TableOnlyGrows(cfg, rows, faults, attempt + 1, a.captured, Settle(d, a));
    }
  }

  lemma StoreOne(cfg: ScoreConfig, parse: Parser, db: Db, e: Event, faults: nat -> Fault)
    requires parse(e).Parsed?
    ensures var (after, outcome) := StoreSpec(cfg, parse, db, [e], faults);
            && after.quarantine == db.quarantine && db.table <= after.table
            && (outcome.Returned? ==> Present(after.table, parse(e).row))
  {
    var rows := [parse(e).row];
    assert ParsedRows(parse, [e]) == rows by { assert [e][1..] == []; }
    assert Quarantined(parse, db.quarantine, [e]) == db.quarantine by { assert [e][1..] == []; }
    TableOnlyGrows(cfg, rows, faults, 0, Captured([], map[]), Store(db.table, db.scores));
    TableAfterCommit(cfg, rows, faults, 0, Captured([], map[]), Store(db.table, db.scores));
    InsertedCovers(db.table, rows);
    assert parse(e).row in rows;
  }

  function Ids(items: seq<Item>): set<string> {
    set item <- items :: item.id
  }

  lemma IdsAppend(items: seq<Item>, item: Item)
    ensures Ids(items + [item]) == Ids(items) + {item.id}
  {
    assert forall x :: x in items + [item] <==> x in items || x == item;
    assert item in items + [item];
  }

  /** Every deleted item parses to a row that shares a unique key with some row of the table. */
  predicate Backed(parse: Parser, t: Tally) {
    forall item <- t.deleted :: Parseable(parse, item) && Present(t.db.table, parse(item.raw.value).row)
  }

  lemma OneMoreItem(cfg: ScoreConfig, parse: Parser, trouble: Trouble, n: nat, item: Item, t: Tally)
    requires Backed(parse, t)
    ensures var u := AfterItem(cfg, parse, trouble, n, item, t);
            && ((u.deleted == t.deleted + [item] && u.failed == t.failed && u.db.quarantine == t.db.quarantine - {item.id})
                || (u.deleted == t.deleted && u.failed == t.failed + [item] && u.db.quarantine == t.db.quarantine))
            && t.db.table <= u.db.table
            && Backed(parse, u)
  {
    hide StoreSpec, Present;
    var u := AfterItem(cfg, parse, trouble, n, item, t);
    if Parseable(parse, item) {
      StoreOne(cfg, parse, t.db, item.raw.value, FaultsOf(trouble, n));
      var (db, outcome) := StoreSpec(cfg, parse, t.db, [item.raw.value], FaultsOf(trouble, n));
      assert u.db.table == db.table;
      assert outcome.Returned? ==> Present(u.db.table, parse(item.raw.value).row);
      StillBacked(parse, t, u.db);
    }
  }

  lemma StillBacked(parse: Parser, t: Tally, db: Db)
    requires Backed(parse, t) && t.db.table <= db.table
    ensures Backed(parse, t.(db := db))
  {
    hide Present;
    var more := db.table[|t.db.table|..];
    assert db.table == t.db.table + more;
    forall i | i in t.deleted ensures Present(db.table, parse(i.raw.value).row) {
      PresentAppend(t.db.table, more, parse(i.raw.value).row);
    }
  }

  predicate Accounted(items: seq<Item>, db: Db, t: Tally) {
    && |t.deleted| + |t.failed| == |items|
    && multiset(t.deleted) + multiset(t.failed) == multiset(items)
    && t.db.quarantine == db.quarantine - Ids(t.deleted)
  }

  lemma AccountOneMore(items: seq<Item>, item: Item, db: Db, t: Tally, u: Tally)
    requires Accounted(items, db, t)
    requires || (u.deleted == t.deleted + [item] && u.failed == t.failed && u.db.quarantine == t.db.quarantine - {item.id})
             || (u.deleted == t.deleted && u.failed == t.failed + [item] && u.db.quarantine == t.db.quarantine)
    ensures Accounted(items + [item], db, u)
  {
    hide Ids;
    IdsAppend(t.deleted, item);
    assert db.quarantine - Ids(t.deleted) - {item.id} == db.quarantine - (Ids(t.deleted) + {item.id});
  }

  /** Every item is counted on one side, only the deleted ones have left quarantine, and each of those has a row in
      the table that shares one of its unique keys. */
  lemma {:induction false} LeavesQuarantineOnlyWithARow(
    cfg: ScoreConfig, parse: Parser, trouble: Trouble, items: seq<Item>, db: Db)
    ensures var t := AfterItems(cfg, parse, trouble, items, db);
            Accounted(items, db, t) && Backed(parse, t) && db.table <= t.db.table
  {
    hide AfterItem;
    if items != [] {
      hide Accounted, Backed;
      var n := |items| - 1;
      var t := AfterItems(cfg, parse, trouble, items[..n], db);
      LeavesQuarantineOnlyWithARow(cfg, parse, trouble, items[..n], db);
      OneMoreItem(cfg, parse, trouble, n, items[n], t);
      AccountOneMore(items[..n], items[n], db, t, AfterItem(cfg, parse, trouble, n, items[n], t));
      assert items == items[..n] + [items[n]];
    }
  }
}
