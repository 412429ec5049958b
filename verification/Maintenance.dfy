/** `dbctl purge-block`: delete a height from every table, in an order the foreign keys accept. */
module Maintenance {
  import opened Seqs
  import opened Tables
  import opened Integrity
  import opened Store

  function RowsOff(rows: seq<DerivedRow>, h: int): (kept: seq<DerivedRow>)
    ensures multiset(kept) == RowsOffHeight(multiset(rows), h)
  {
    var drop := (r: DerivedRow) => r.Height() == h;
    assert forall r :: multiset(Reject(rows, drop))[r] == RowsOffHeight(multiset(rows), h)[r] by {
      forall r ensures multiset(Reject(rows, drop))[r] == RowsOffHeight(multiset(rows), h)[r] { RejectCount(rows, drop, r); }
    }
    Reject(rows, drop)
  }

  function TracesOff(rows: seq<TraceRow>, h: int): (kept: seq<TraceRow>)
    ensures multiset(kept) == TracesOffHeight(multiset(rows), h)
  {
    var drop := (r: TraceRow) => r.blockHeight == h;
    assert forall r :: multiset(Reject(rows, drop))[r] == TracesOffHeight(multiset(rows), h)[r] by {
      forall r ensures multiset(Reject(rows, drop))[r] == TracesOffHeight(multiset(rows), h)[r] { RejectCount(rows, drop, r); }
    }
    Reject(rows, drop)
  }

  method DeleteRows(db: Database, h: int, n: nat)
    requires n < 6
    modifies db`derived
    ensures db.View() == PurgeStep(old(db.View()), h, n)
  {
    var t := PurgedTable(n);
    TablesInAt(db.derived, t);
    db.SetRows(t, RowsOff(db.RowsIn(t), h));
  }

  method DeleteTraces(db: Database, h: int)
    modifies db`traces
    ensures db.View() == PurgeStep(old(db.View()), h, 6)
  {
    db.traces := TracesOff(db.traces, h);
  }

  method DeleteProtostones(db: Database, h: int)
    modifies db`protos
    ensures db.View() == PurgeStep(old(db.View()), h, 7)
  {
    db.protos := map k | k in db.protos && db.protos[k].blockHeight != h :: db.protos[k];
  }

  /** Postgres accepts this delete only if no row is left without its transaction. */
  method DeleteTransactions(db: Database, h: int)
    requires ForeignKeys(PurgeStep(db.View(), h, 8))
    modifies db`txs
    ensures db.View() == PurgeStep(old(db.View()), h, 8)
  {
    db.txs := map id | id in db.txs && db.txs[id].blockHeight != h :: db.txs[id];
  }

  method DeleteMark(db: Database, h: int)
    modifies db`blocks
    ensures db.View() == PurgeStep(old(db.View()), h, 9)
  {
    db.blocks := map k | k in db.blocks && k != h :: db.blocks[k];
  }

  method DeleteStates(db: Database, h: int)
    modifies db`states
    ensures db.View() == PurgeStep(old(db.View()), h, 10)
  {
    db.states := map k | k in db.states && k.1 != h :: db.states[k];
  }

  lemma PrefixStep(before: Db, after: Db, h: int, n: nat)
    requires n < PURGE_STEPS && after == PurgeStep(PurgePrefix(before, h, n), h, n)
    ensures after == PurgePrefix(before, h, n + 1)
  {
  }

  /** The six derived tables, which nothing refers to. */
  method DeleteDerived(db: Database, h: int)
    modifies db`derived
    ensures db.View() == PurgePrefix(old(db.View()), h, 6)
  {
    ghost var before := db.View();
    DeleteRows(db, h, 0);
    PrefixStep(before, db.View(), h, 0);
    DeleteRows(db, h, 1);
    PrefixStep(before, db.View(), h, 1);
    DeleteRows(db, h, 2);
    PrefixStep(before, db.View(), h, 2);
    DeleteRows(db, h, 3);
    PrefixStep(before, db.View(), h, 3);
    DeleteRows(db, h, 4);
    PrefixStep(before, db.View(), h, 4);
    DeleteRows(db, h, 5);
    PrefixStep(before, db.View(), h, 5);
  }

  /** The deletes in order. On aligned tables the transaction delete is always accepted. */
  method PurgeBlock(db: Database, h: int)
    requires Aligned(db.View())
    modifies db
    ensures db.View() == Purge(old(db.View()), h)
    ensures Aligned(db.View())
  {
    ghost var before := db.View();
    DeleteDerived(db, h);
    DeleteTraces(db, h);
    PrefixStep(before, db.View(), h, 6);
    DeleteProtostones(db, h);
    PrefixStep(before, db.View(), h, 7);
    PurgeKeepsForeignKeys(before, h, 9);
    PrefixStep(before, PurgeStep(db.View(), h, 8), h, 8);
    DeleteTransactions(db, h);
    DeleteMark(db, h);
    PrefixStep(before, db.View(), h, 9);
    DeleteStates(db, h);
    PrefixStep(before, db.View(), h, 10);
    PurgeKeepsForeignKeys(before, h, PURGE_STEPS);
  }
}
