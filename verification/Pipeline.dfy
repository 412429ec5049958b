/**
 Processing one block: its content decides what the eight commits write, and the
 interleaved, crashing and restarting runs of Convergence all end in the same tables.
 */
module Pipeline {
  import opened Options
  import opened Seqs
  import opened Tokens
  import opened Decoding
  import opened Tables
  import opened Commits
  import opened Blocks
  import opened Convergence

  /** a is the address of the first protostone at this vout that has one. */
  ghost predicate IsFirstAddress(protos: map<ProtoKey, ProtoRow>, txid: string, vout: int, a: string) {
    exists i: int ::
      && ProtoKey(txid, vout, i) in protos && protos[ProtoKey(txid, vout, i)].decoded.address == Some(a)
      && forall k: int | k < i && ProtoKey(txid, vout, k) in protos :: protos[ProtoKey(txid, vout, k)].decoded.address.None?
  }

  ghost function AddressedVouts(protos: map<ProtoKey, ProtoRow>, ids: set<string>): set<(string, int)> {
    set k | k in protos && k.txid in ids && protos[k].decoded.address.Some? :: (k.txid, k.vout)
  }

  lemma FirstAddressExists(protos: map<ProtoKey, ProtoRow>, k: ProtoKey)
    requires k in protos && protos[k].decoded.address.Some?
    ensures exists a :: IsFirstAddress(protos, k.txid, k.vout, a)
  {
    var rivals := set q | q in protos && q.txid == k.txid && q.vout == k.vout && protos[q].decoded.address.Some?;
    var first := LeastIndex(rivals, k);
    forall j: int | j < first.index && ProtoKey(k.txid, k.vout, j) in protos
      ensures protos[ProtoKey(k.txid, k.vout, j)].decoded.address.None?
    {
      assert ProtoKey(k.txid, k.vout, j) !in rivals;
    }
    assert ProtoKey(k.txid, k.vout, first.index) == first;
    assert IsFirstAddress(protos, k.txid, k.vout, protos[first].decoded.address.value);
  }

  lemma {:induction false} LeastIndex(keys: set<ProtoKey>, k: ProtoKey) returns (least: ProtoKey)
    requires k in keys
    ensures least in keys && forall q | q in keys :: least.index <= q.index
    decreases |keys|
  {
    if q :| q in keys && q.index < k.index {
      least := LeastIndex(keys - {k}, q);
    } else {
      least := k;
    }
  }

  /** The pointer addresses stored for these transactions. */
  ghost function BookOf(protos: map<ProtoKey, ProtoRow>, ids: set<string>): (book: AddressBook)
    ensures book.Keys == AddressedVouts(protos, ids)
    ensures forall p | p in book :: IsFirstAddress(protos, p.0, p.1, book[p])
  {
    map p | p in AddressedVouts(protos, ids) :: FirstAddress(protos, ids, p)
  }

  ghost function FirstAddress(protos: map<ProtoKey, ProtoRow>, ids: set<string>, p: (string, int)): (a: string)
    requires p in AddressedVouts(protos, ids)
    ensures IsFirstAddress(protos, p.0, p.1, a)
  {
    var k :| k in protos && k.txid in ids && protos[k].decoded.address.Some? && p == (k.txid, k.vout);
    FirstAddressExists(protos, k);
    var a :| IsFirstAddress(protos, p.0, p.1, a);
    a
  }

  const NO_ROWS := DerivedTables(multiset{}, multiset{}, multiset{}, multiset{}, multiset{}, multiset{})

  /** What a run of b writes when it meets the transactions in this order, derived rows aside. */
  function PlanOf(b: Block, order: seq<TxResult>): Plan {
    Plan(b.height, b.mark, Ids(order),
         FlatMap(order, TxItemOf(b.height)), FlatMap(order, ProtoItemsOf(b.height)), multiset(FlatMap(order, TraceItemsOf(b.height))),
         NO_ROWS)
  }

  /** The rows of table t, derived with the addresses stored in protos. */
  ghost function Rows(t: Table, h: int, results: seq<TxResult>, pools: PoolTable, protos: map<ProtoKey, ProtoRow>): multiset<DerivedRow> {
    multiset(Derive(t, h, results, pools, BookOf(protos, Ids(results))))
  }

  ghost predicate Fits(b: Block, order: seq<TxResult>) {
    multiset(order) == multiset(b.results)
  }

  ghost function JobOf(b: Block): Job<seq<TxResult>> {
    Job((order: seq<TxResult>) => PlanOf(b, order),
        (t: Table, order: seq<TxResult>, pools: PoolTable, protos: map<ProtoKey, ProtoRow>) => Rows(t, b.height, order, pools, protos),
        (order: seq<TxResult>) => Fits(b, order))
  }

  // What a complete run over db0 leaves behind

  ghost function BlockRows(t: Table, db0: Db, b: Block): multiset<DerivedRow> {
    Rows(t, b.height, b.results, db0.pools, Base(db0, PlanOf(b, b.results)).protos)
  }

  ghost function AllRows(db0: Db, b: Block): DerivedTables {
    DerivedTables(BlockRows(Swaps, db0, b), BlockRows(Creations, db0, b), BlockRows(Mints, db0, b),
                  BlockRows(Burns, db0, b), BlockRows(Wraps, db0, b), BlockRows(Unwraps, db0, b))
  }

  ghost function BlockPlan(db0: Db, b: Block): Plan {
    PlanOf(b, b.results).(rows := AllRows(db0, b))
  }

  /** The tables after one uninterrupted run of b over db0. */
  ghost function Indexed(db0: Db, b: Block): Db {
    Goal(db0, BlockPlan(db0, b))
  }

  lemma AllRowsAt(db0: Db, b: Block, t: Table)
    ensures AllRows(db0, b).At(t) == BlockRows(t, db0, b)
  {
  }

  lemma RowsOwn(t: Table, h: int, results: seq<TxResult>, pools: PoolTable, protos: map<ProtoKey, ProtoRow>, r: DerivedRow)
    requires r in Rows(t, h, results, pools, protos)
    ensures r.Txid() in Ids(results) && r.Height() == h
  {
    var book := BookOf(protos, Ids(results));
    DerivedRowsOwn(t, h, results, pools, book);
    assert r in Derive(t, h, results, pools, book);
  }

  lemma BlockRowsOwn(db0: Db, b: Block, t: Table, r: DerivedRow)
    requires r in AllRows(db0, b).At(t)
    ensures r.Txid() in Ids(b.results) && r.Height() == b.height
  {
    AllRowsAt(db0, b, t);
    RowsOwn(t, b.height, b.results, db0.pools, Base(db0, PlanOf(b, b.results)).protos, r);
  }

  lemma BaseConsistent(b: Block)
    requires WellFormed(b.results)
    ensures Consistent(PlanOf(b, b.results))
  {
    var h, results, p := b.height, b.results, PlanOf(b, b.results);
    ItemKeys(h, results);
    forall k | k in KeysOf(p.protoItems) ensures k.txid in p.ids {
      ProtoKeysOwn(h, results, k);
    }
    TraceItemsOwn(h, results);
    forall r: TraceRow | r in p.traceItems ensures r.txid in p.ids {
      assert r in FlatMap(results, TraceItemsOf(h));
    }
  }

  lemma AddRows(p: Plan, rows: DerivedTables)
    requires Consistent(p)
    requires forall t: Table, r: DerivedRow | r in rows.At(t) :: r.Txid() in p.ids
    ensures Consistent(p.(rows := rows))
    ensures forall db: Db :: Base(db, p.(rows := rows)) == Base(db, p)
  {
  }

  lemma BlockConsistent(db0: Db, b: Block)
    requires WellFormed(b.results)
    ensures Consistent(BlockPlan(db0, b)) && SameWrites(PlanOf(b, b.results), BlockPlan(db0, b))
  {
    BaseConsistent(b);
    var p, rows := PlanOf(b, b.results), AllRows(db0, b);
    forall t: Table, r: DerivedRow | r in rows.At(t)
      ensures r.Txid() in p.ids
    {
      BlockRowsOwn(db0, b, t, r);
    }
    AddRows(p, rows);
  }

  /** A run's writes do not depend on the order it met the transactions in. */
  lemma OrderlessWrites(b: Block, order: seq<TxResult>)
    requires WellFormed(b.results) && Fits(b, order)
    ensures SameWrites(PlanOf(b, order), PlanOf(b, b.results))
  {
    ReorderedContent(b.height, b.results, order);
  }

  /** Nor do the rows it derives once some run's base commit is in. */
  lemma OrderlessRows(db0: Db, b: Block, order: seq<TxResult>, t: Table)
    requires WellFormed(b.results) && Fits(b, order)
    ensures Rows(t, b.height, order, db0.pools, Base(db0, PlanOf(b, b.results)).protos) == AllRows(db0, b).At(t)
  {
    var protos := Base(db0, PlanOf(b, b.results)).protos;
    ReorderedContent(b.height, b.results, order);
    ReorderedDerive(t, b.height, b.results, order, db0.pools, BookOf(protos, Ids(b.results)));
    AllRowsAt(db0, b, t);
  }

  lemma BlockAmounts(db0: Db, b: Block)
    requires WellFormed(b.results)
    ensures Amounts(JobOf(b), db0, BlockPlan(db0, b))
  {
    var job, p := JobOf(b), BlockPlan(db0, b);
    BlockConsistent(db0, b);
    forall order: seq<TxResult> | job.fits(order)
      ensures SameWrites(job.plan(order), p)
    {
      OrderlessWrites(b, order);
    }
    assert Base(db0, p).protos == Base(db0, PlanOf(b, b.results)).protos;
    forall order: seq<TxResult>, t: Table | job.fits(order)
      ensures job.load(t, order, db0.pools, Base(db0, p).protos) == p.rows.At(t)
    {
      OrderlessRows(db0, b, order, t);
    }
  }

  /** One uninterrupted run of b over db0; None when a constraint stops it. */
  ghost function SingleRun(db0: Db, b: Block): Option<Db> {
    RunFrom(db0, 0, JobOf(b), b.results)
  }

  lemma SingleRunIndexes(db0: Db, b: Block)
    requires WellFormed(b.results)
    ensures SingleRun(db0, b) == if StorableFrom(db0, BlockPlan(db0, b), 0) then Some(Indexed(db0, b)) else None
  {
    BlockAmounts(db0, b);
    OneRun(db0, JobOf(b), BlockPlan(db0, b), b.results);
  }

  /**
   Convergence of block processing. Start any number of runs of b, each with its own
   completion order of the transactions; let them interleave step by step, crash and
   start over with new orders. At every moment each commit's tables are wholly untouched
   or wholly done. Once any run has finished, the tables are exactly those of a single
   uninterrupted run; and none ever finishes if a single run would be refused.
   */
  lemma InterleavedRunsConverge(w: World<seq<TxResult>>, b: Block, actions: seq<Action<seq<TxResult>>>)
    requires WellFormed(b.results) && Fresh(w, JobOf(b))
    ensures var end := Execute(w, JobOf(b), actions);
      && Progress(end.db, w.db, Indexed(w.db, b), 0)
      && ((exists i :: 0 <= i < |end.actors| && end.actors[i].pc == COMMITS) ==> SingleRun(w.db, b) == Some(end.db))
  {
    BlockAmounts(w.db, b);
    RunsConverge(w, JobOf(b), BlockPlan(w.db, b), actions, b.results);
  }

  /**
   Recovery. Wherever interleaved, crashed and restarted runs of b have left the tables, one
   full run, in whatever order it meets the transactions, ends exactly as a single run over
   the initial tables: in the same tables, or refused.
   */
  lemma RerunRecovers(w: World<seq<TxResult>>, b: Block, actions: seq<Action<seq<TxResult>>>, order: seq<TxResult>)
    requires WellFormed(b.results) && Fresh(w, JobOf(b)) && Fits(b, order)
    ensures RunFrom(Execute(w, JobOf(b), actions).db, 0, JobOf(b), order) == SingleRun(w.db, b)
  {
    BlockAmounts(w.db, b);
    RerunConverges(w, JobOf(b), BlockPlan(w.db, b), actions, order);
    OneRun(w.db, JobOf(b), BlockPlan(w.db, b), order);
    OneRun(w.db, JobOf(b), BlockPlan(w.db, b), b.results);
  }

  // Reindexing

  /** The rows of the block's transactions in a derived table are exactly the rows the block yields. */
  ghost predicate Clean(table: multiset<DerivedRow>, ids: set<string>, rows: multiset<DerivedRow>) {
    forall r: DerivedRow :: r.Txid() in ids ==> table[r] == rows[r]
  }

  /**
   A complete run leaves table t clean exactly when the table is PoolSwap, or the block yields
   rows for it, or the table held no row of the block's transactions to begin with.
   */
  lemma ReindexCleanWhen(db0: Db, b: Block, t: Table)
    ensures Clean(Indexed(db0, b).derived.At(t), Ids(b.results), AllRows(db0, b).At(t))
       <==> t.Swaps? || AllRows(db0, b).At(t) != multiset{} || forall r: DerivedRow | r in db0.derived.At(t) :: r.Txid() !in Ids(b.results)
  {
    GoalAt(db0, BlockPlan(db0, b), t);
    ReplacedClean(t, db0.derived.At(t), Ids(b.results), AllRows(db0, b).At(t));
  }

  const STALE_MINT := LiquidityOf(LiquidityRow("tx", 7, Token("2", "9"), "1", TokenPair(Token("2", "1"), Token("2", "3")), "1", "1", None, 0, true))
  const STALE_DB := Db(map[], map[], multiset{}, NO_ROWS.(mints := multiset{STALE_MINT}), map[], map[], map[])
  const SILENT_BLOCK := Block(7, BlockMark("hash", 0), [TxResult("tx", "", 0, false, false, [], [])])

  /** Such a block: reindexed without any event, it yields no mints and leaves the stored mint of its transaction in place. */
  lemma StaleMintSurvives()
    ensures STALE_MINT.Txid() in Ids(SILENT_BLOCK.results) && AllRows(STALE_DB, SILENT_BLOCK).At(Mints) == multiset{}
    ensures STALE_MINT in Indexed(STALE_DB, SILENT_BLOCK).derived.At(Mints)
    ensures !Clean(Indexed(STALE_DB, SILENT_BLOCK).derived.At(Mints), Ids(SILENT_BLOCK.results), AllRows(STALE_DB, SILENT_BLOCK).At(Mints))
  {
    var b, r := SILENT_BLOCK, SILENT_BLOCK.results[0];
    assert r in b.results && r.txid == "tx";
    AllRowsAt(STALE_DB, b, Mints);
    SilentMints(b.height, r, STALE_DB.pools, BookOf(Base(STALE_DB, PlanOf(b, b.results)).protos, Ids(b.results)));
    GoalAt(STALE_DB, BlockPlan(STALE_DB, b), Mints);
    ReindexCleanWhen(STALE_DB, b, Mints);
    assert STALE_MINT in STALE_DB.derived.At(Mints);
  }

  lemma SilentMints(h: int, r: TxResult, pools: PoolTable, book: AddressBook)
    requires r.events == []
    ensures Derive(Mints, h, [r], pools, book) == []
  {
    FlatMapOne(r, RowsOf(Mints, h, pools, book));
    assert RowsFor(Mints, h, r, pools, book) == [];
  }

  lemma ReplacedClean(t: Table, prior: multiset<DerivedRow>, ids: set<string>, rows: multiset<DerivedRow>)
    ensures Clean(Replaced(t, prior, ids, rows), ids, rows)
       <==> t.Swaps? || rows != multiset{} || forall r: DerivedRow | r in prior :: r.Txid() !in ids
  {
    if !t.Swaps? && rows == multiset{} {
      forall r: DerivedRow | r.Txid() in ids
        ensures prior[r] == rows[r] <==> r !in prior
      {
      }
    } else {
      assert Replaced(t, prior, ids, rows) == WithoutRows(prior, ids) + rows;
    }
  }
}
