/** `process_block_sequential` on the database object: decode, derive and store a block, commit by commit. */
module Indexer {
  import opened Options
  import opened Seqs
  import opened Decoding
  import opened PoolMint
  import opened PoolBurn
  import opened PoolSwap
  import opened PoolCreate
  import opened Subfrost
  import opened Tables
  import opened Commits
  import opened Blocks
  import opened Convergence
  import opened Pipeline
  import opened Store

  function Map<A, B>(xs: seq<A>, f: A -> B): seq<B> {
    seq(|xs|, i requires 0 <= i < |xs| => f(xs[i]))
  }

  lemma MapStep<A, B>(xs: seq<A>, f: A -> B)
    requires xs != []
    ensures Map(xs, f) == Map(xs[..|xs| - 1], f) + [f(xs[|xs| - 1])]
  {
  }

  lemma MapConcat<A, B>(xs: seq<A>, ys: seq<A>, f: A -> B)
    ensures Map(xs + ys, f) == Map(xs, f) + Map(ys, f)
  {
  }

  /** Tagging the rows of all traces is collecting the tagged rows of each result. */
  lemma {:induction false} FlatMapVia<R, T, A, B>(results: seq<R>, trace: R -> T, f: T -> seq<A>, tag: A -> B, g: R -> seq<B>)
    requires forall r :: g(r) == Map(f(trace(r)), tag)
    ensures Map(FlatMap(Map(results, trace), f), tag) == FlatMap(results, g)
  {
    if results != [] {
      var n := |results| - 1;
      FlatMapVia(results[..n], trace, f, tag, g);
      MapStep(results, trace);
      var traces := Map(results, trace);
      assert traces[..n] == Map(results[..n], trace);
      MapConcat(FlatMap(traces[..n], f), f(traces[n]), tag);
    }
  }

  lemma SwapRowsTagged(h: int, results: seq<TxResult>, pools: PoolTable, book: AddressBook)
    ensures Map(SwapRows(h, Map(results, TraceOf), pools, book), (x: SwapRow) => SwapOf(x)) == Derive(Swaps, h, results, pools, book)
  {
    FlatMapVia(results, TraceOf, SwapRowsPerTx(h, pools, book), (x: SwapRow) => SwapOf(x), RowsOf(Swaps, h, pools, book));
  }

  lemma CreationRowsTagged(h: int, results: seq<TxResult>, pools: PoolTable, book: AddressBook)
    ensures Map(CreationRows(h, Map(results, TraceOf), book), (x: CreationRow) => CreationOf(x)) == Derive(Creations, h, results, pools, book)
  {
    FlatMapVia(results, TraceOf, CreationRowsPerTx(h, book), (x: CreationRow) => CreationOf(x), RowsOf(Creations, h, pools, book));
  }

  lemma MintRowsTagged(h: int, results: seq<TxResult>, pools: PoolTable, book: AddressBook)
    ensures Map(MintRows(h, Map(results, TraceOf), pools, book), (x: LiquidityRow) => LiquidityOf(x)) == Derive(Mints, h, results, pools, book)
  {
    FlatMapVia(results, TraceOf, MintRowsPerTx(h, pools, book), (x: LiquidityRow) => LiquidityOf(x), RowsOf(Mints, h, pools, book));
  }

  lemma BurnRowsTagged(h: int, results: seq<TxResult>, pools: PoolTable, book: AddressBook)
    ensures Map(BurnRows(h, Map(results, TraceOf), pools, book), (x: LiquidityRow) => LiquidityOf(x)) == Derive(Burns, h, results, pools, book)
  {
    FlatMapVia(results, TraceOf, BurnRowsPerTx(h, pools, book), (x: LiquidityRow) => LiquidityOf(x), RowsOf(Burns, h, pools, book));
  }

  lemma WrapRowsTagged(h: int, results: seq<TxResult>, pools: PoolTable, book: AddressBook)
    ensures Map(WrapRows(h, Map(results, TraceOf), book), (x: FrostRow) => FrostOf(x)) == Derive(Wraps, h, results, pools, book)
  {
    FlatMapVia(results, TraceOf, WrapRowsPerTx(h, book), (x: FrostRow) => FrostOf(x), RowsOf(Wraps, h, pools, book));
  }

  lemma UnwrapRowsTagged(h: int, results: seq<TxResult>, pools: PoolTable, book: AddressBook)
    ensures Map(UnwrapRows(h, Map(results, TraceOf), book), (x: FrostRow) => FrostOf(x)) == Derive(Unwraps, h, results, pools, book)
  {
    FlatMapVia(results, TraceOf, UnwrapRowsPerTx(h, book), (x: FrostRow) => FrostOf(x), RowsOf(Unwraps, h, pools, book));
  }

  /** The derived rows of a block for one table, with the addresses in book. */
  method DeriveRows(t: Table, h: int, results: seq<TxResult>, pools: PoolTable, book: AddressBook) returns (rows: seq<DerivedRow>)
    ensures rows == Derive(t, h, results, pools, book)
  {
    var traces := Map(results, TraceOf);
    match t {
      case Swaps =>
        var found := IndexSwaps(h, traces, pools, book);
        rows := Map(found, (x: SwapRow) => SwapOf(x));
        SwapRowsTagged(h, results, pools, book);
      case Creations =>
        var found := IndexCreations(h, traces, book);
        rows := Map(found, (x: CreationRow) => CreationOf(x));
        CreationRowsTagged(h, results, pools, book);
      case Mints =>
        var found := IndexMints(h, traces, pools, book);
        rows := Map(found, (x: LiquidityRow) => LiquidityOf(x));
        MintRowsTagged(h, results, pools, book);
      case Burns =>
        var found := IndexBurns(h, traces, pools, book);
        rows := Map(found, (x: LiquidityRow) => LiquidityOf(x));
        BurnRowsTagged(h, results, pools, book);
      case Wraps =>
        var found := IndexWraps(h, traces, book);
        rows := Map(found, (x: FrostRow) => FrostOf(x));
        WrapRowsTagged(h, results, pools, book);
      case Unwraps =>
        var found := IndexUnwraps(h, traces, book);
        rows := Map(found, (x: FrostRow) => FrostOf(x));
        UnwrapRowsTagged(h, results, pools, book);
    }
  }

  /** The payload of the base commit, collected result by result. */
  method BasePayload(h: int, results: seq<TxResult>)
    returns (txItems: seq<(string, TxRow)>, protoItems: seq<(ProtoKey, ProtoRow)>, traceItems: seq<TraceRow>)
    ensures txItems == FlatMap(results, TxItemOf(h))
    ensures protoItems == FlatMap(results, ProtoItemsOf(h))
    ensures traceItems == FlatMap(results, TraceItemsOf(h))
  {
    txItems, protoItems, traceItems := [], [], [];
    for i := 0 to |results|
      invariant txItems == FlatMap(results[..i], TxItemOf(h))
      invariant protoItems == FlatMap(results[..i], ProtoItemsOf(h))
      invariant traceItems == FlatMap(results[..i], TraceItemsOf(h))
    {
      FlatMapStep(results, TxItemOf(h), i);
      FlatMapStep(results, ProtoItemsOf(h), i);
      FlatMapStep(results, TraceItemsOf(h), i);
      txItems := txItems + TxItemOf(h)(results[i]);
      protoItems := protoItems + ProtoItemsOf(h)(results[i]);
      traceItems := traceItems + TraceItemsOf(h)(results[i]);
    }
    assert results[..|results|] == results;
  }

  /** The transaction of commit 0: on a refused statement everything is rolled back. */
  method StoreBaseRows(db: Database, ids: set<string>, txItems: seq<(string, TxRow)>, protoItems: seq<(ProtoKey, ProtoRow)>, traceItems: seq<TraceRow>)
    returns (ok: bool)
    modifies db`txs, db`protos, db`traces
    ensures NoRepeats(KeysOf(txItems)) && NoRepeats(KeysOf(protoItems)) ==> ok
    ensures ok ==>
      && db.txs == PutAll(old(db.txs), txItems)
      && db.protos == PutDecoded(WithoutProtos(old(db.protos), ids), protoItems)
      && multiset(db.traces) == WithoutTraces(old(multiset(db.traces)), ids) + multiset(traceItems)
    ensures ok && NoRepeats(KeysOf(protoItems)) && (forall k | k in KeysOf(protoItems) :: k.txid in ids) ==>
      db.protos == PutAll(WithoutProtos(old(db.protos), ids), protoItems)
    ensures !ok ==> db.txs == old(db.txs) && db.protos == old(db.protos) && db.traces == old(db.traces)
  {
    var txs, protos := db.txs, db.protos;
    ok := db.UpsertTransactions(txItems);
    if ok {
      ok := db.ReplaceProtostones(ids, protoItems);
    }
    if !ok {
      db.txs, db.protos := txs, protos;
      return;
    }
    db.ReplaceTraceEvents(ids, traceItems);
  }

  /** Commit 0. */
  method StoreBase(db: Database, b: Block) returns (ok: bool)
    requires WellFormed(b.results)
    modifies db`txs, db`protos, db`traces
    ensures ok && db.View() == Base(old(db.View()), PlanOf(b, b.results))
  {
    var txItems, protoItems, traceItems := BasePayload(b.height, b.results);
    BaseConsistent(b);
    ok := StoreBaseRows(db, Ids(b.results), txItems, protoItems, traceItems);
  }

  /** Parameters per inserted row. */
  function Width(t: Table): nat {
    match t
    case Swaps => 14
    case Creations => 14
    case Mints => 15
    case Burns => 15
    case Wraps => 7
    case Unwraps => 7
  }

  /** The constraint check of an insert: pools are known, and no pool occurs twice in the table. */
  predicate InsertAllowed(t: Table, after: seq<DerivedRow>, rows: seq<DerivedRow>, pools: PoolTable) {
    t.Creations? && rows != [] ==>
      (forall r | r in rows :: PoolOf(r) in pools) && !HasRepeats(Map(after, PoolOf))
  }

  lemma InsertAllowedMeaning(t: Table, after: seq<DerivedRow>, rows: seq<DerivedRow>, pools: PoolTable)
    ensures InsertAllowed(t, after, rows, pools) <==> RowsAllowed(t, multiset(after), multiset(rows), pools)
  {
    assert rows == [] <==> multiset(rows) == multiset{} by { assert |multiset(rows)| == |rows|; }
    assert (forall r | r in rows :: PoolOf(r) in pools) <==> (forall r | r in multiset(rows) :: PoolOf(r) in pools);
    if HasRepeats(Map(after, PoolOf)) {
      RepeatedPool(after);
    } else {
      DistinctPools(after);
    }
  }

  lemma RepeatedPool(after: seq<DerivedRow>)
    requires HasRepeats(Map(after, PoolOf))
    ensures (exists r :: r in multiset(after) && multiset(after)[r] != 1)
         || (exists r, s :: r in multiset(after) && s in multiset(after) && PoolOf(r) == PoolOf(s) && r != s)
  {
    var j, k :| 0 <= j < k < |after| && Map(after, PoolOf)[j] == Map(after, PoolOf)[k];
    assert after[j] in multiset(after) && after[k] in multiset(after);
    if after[j] == after[k] {
      assert after == after[..j] + [after[j]] + after[j + 1..k] + [after[k]] + after[k + 1..];
      assert multiset(after)[after[j]] >= 2;
    } else {
      assert PoolOf(after[j]) == PoolOf(after[k]);
    }
  }

  lemma DistinctPools(after: seq<DerivedRow>)
    requires !HasRepeats(Map(after, PoolOf))
    ensures forall r | r in multiset(after) :: multiset(after)[r] == 1
    ensures forall r, s | r in multiset(after) && s in multiset(after) && PoolOf(r) == PoolOf(s) :: r == s
  {
    assert forall j | 0 <= j < |after| :: Map(after, PoolOf)[j] == PoolOf(after[j]);
    assert NoRepeats(after);
    forall r | r in multiset(after) ensures multiset(after)[r] == 1 {
      AtMostOnce(after, r);
    }
    forall r, s | r in multiset(after) && s in multiset(after) && PoolOf(r) == PoolOf(s)
      ensures r == s
    {
      var j :| 0 <= j < |after| && after[j] == r;
      var k :| 0 <= k < |after| && after[k] == s;
    }
  }

  /** Replace a table's rows when there are any (PoolSwap: always), unless a constraint refuses. */
  method StoreRows(db: Database, t: Table, ids: set<string>, rows: seq<DerivedRow>) returns (ok: bool)
    modifies db`derived
    ensures var after := Replaced(t, old(db.View()).derived.At(t), ids, multiset(rows));
      && (ok <==> RowsAllowed(t, after, multiset(rows), db.pools))
      && (ok ==> db.View() == old(db.View()).(derived := old(db.View()).derived.Put(t, after)))
      && (!ok ==> db.View() == old(db.View()))
  {
    assert rows == [] <==> multiset(rows) == multiset{} by { assert |multiset(rows)| == |rows|; }
    TablesInAt(db.derived, t);
    if !t.Swaps? && rows == [] {
      PutSame(db.View().derived, t);
      return true;
    }
    var after := KeepRows(db.RowsIn(t), ids) + rows;
    InsertAllowedMeaning(t, after, rows, db.pools);
    ok := InsertAllowed(t, after, rows, db.pools);
    if ok {
      db.ReplaceRows(t, ids, rows, Width(t));
    }
  }

  lemma PutSame(d: DerivedTables, t: Table)
    ensures d.Put(t, d.At(t)) == d
  {
  }

  /** Commits 1 to 6: read the protostones back, derive the rows of one table, replace them. */
  method StoreTable(db: Database, b: Block, k: nat) returns (ok: bool)
    requires 1 <= k <= 6
    modifies db`derived
    ensures var done := Commit(old(db.View()), k, PlanOf(b, b.results), Rows(TableOf(k), b.height, b.results, old(db.pools), old(db.protos)));
      if ok then done == Some(db.View()) else done == None && db.View() == old(db.View())
  {
    var ids := Ids(b.results);
    var book := db.LoadBook(ids);
    var rows := DeriveRows(TableOf(k), b.height, b.results, db.pools, book);
    ok := StoreRows(db, TableOf(k), ids, rows);
  }

  /** Commit 7: the processed-block mark, refused when another height has the hash. */
  method StoreMark(db: Database, b: Block) returns (ok: bool)
    modifies db`blocks
    ensures ok <==> HashFree(old(db.blocks), b.height, b.mark)
    ensures db.View() == if ok then old(db.View()).(blocks := old(db.blocks)[b.height := b.mark]) else old(db.View())
  {
    ok := forall k | k in db.blocks && k != b.height :: db.blocks[k].hash != b.mark.hash;
    if ok {
      db.blocks := db.blocks[b.height := b.mark];
    }
  }

  lemma NextStep(db: Db, k: nat, b: Block)
    requires k < COMMITS
    ensures RunFrom(db, k, JobOf(b), b.results) ==
      match Commit(db, k, PlanOf(b, b.results),
                   if 1 <= k <= 6 then Rows(TableOf(k), b.height, b.results, db.pools, db.protos) else multiset{})
      case Some(after) => RunFrom(after, k + 1, JobOf(b), b.results)
      case None => None
  {
  }

  /**
   One run: the eight commits in their order, stopping at the first that is refused. It
   succeeds, and leaves the tables, exactly as the single run of the model does.
   */
  method ProcessBlock(db: Database, b: Block) returns (ok: bool)
    requires WellFormed(b.results)
    modifies db
    ensures ok ==> SingleRun(old(db.View()), b) == Some(db.View())
    ensures !ok ==> SingleRun(old(db.View()), b) == None
  {
    NextStep(db.View(), 0, b);
    ok := StoreBase(db, b);
    NextStep(db.View(), 1, b);
    ok := StoreTable(db, b, 1);
    if !ok { return; }
    NextStep(db.View(), 2, b);
    ok := StoreTable(db, b, 2);
    if !ok { return; }
    NextStep(db.View(), 3, b);
    ok := StoreTable(db, b, 3);
    if !ok { return; }
    NextStep(db.View(), 4, b);
    ok := StoreTable(db, b, 4);
    if !ok { return; }
    NextStep(db.View(), 5, b);
    ok := StoreTable(db, b, 5);
    if !ok { return; }
    NextStep(db.View(), 6, b);
    ok := StoreTable(db, b, 6);
    if !ok { return; }
    NextStep(db.View(), 7, b);
    ok := StoreMark(db, b);
  }
}
