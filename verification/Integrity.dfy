/**
 Foreign keys between the base tables, and purging a height. Every row of
 TraceEvent and DecodedProtostone must refer to a stored transaction.
 */
module Integrity {
  import opened Seqs
  import opened Tokens
  import opened Tables
  import opened Commits
  import opened Blocks
  import opened Pipeline

  ghost predicate ForeignKeys(db: Db) {
    && (forall r | r in db.traces :: r.txid in db.txs)
    && (forall k | k in db.protos :: k.txid in db.txs)
  }

  ghost predicate AlignedRows(txs: map<string, TxRow>, protos: map<ProtoKey, ProtoRow>, traces: multiset<TraceRow>) {
    && (forall r | r in traces :: r.txid in txs && txs[r.txid].blockHeight == r.blockHeight)
    && (forall k | k in protos :: k.txid in txs && txs[k.txid].blockHeight == protos[k].blockHeight)
  }

  /** Stronger: the parent transaction is at the row's own height. */
  ghost predicate Aligned(db: Db) {
    AlignedRows(db.txs, db.protos, db.traces)
  }

  // Purging a height: eleven deletes in one transaction

  const PURGE_STEPS: nat := 11

  /** The derived tables in the order they are purged. */
  function PurgedTable(n: nat): Table
    requires n < 6
  {
    [Swaps, Mints, Burns, Creations, Wraps, Unwraps][n]
  }

  function PurgeRank(t: Table): nat {
    match t
    case Swaps => 0
    case Mints => 1
    case Burns => 2
    case Creations => 3
    case Wraps => 4
    case Unwraps => 5
  }

  ghost function PurgeDerived(d: DerivedTables, h: int, t: Table): DerivedTables {
    d.Put(t, RowsOffHeight(d.At(t), h))
  }

  ghost function PurgeProtos(protos: map<ProtoKey, ProtoRow>, h: int): map<ProtoKey, ProtoRow> {
    map k | k in protos && protos[k].blockHeight != h :: protos[k]
  }

  ghost function PurgeTxs(txs: map<string, TxRow>, h: int): map<string, TxRow> {
    map id | id in txs && txs[id].blockHeight != h :: txs[id]
  }

  ghost function PurgeBlocks(blocks: map<int, BlockMark>, h: int): map<int, BlockMark> {
    map k | k in blocks && k != h :: blocks[k]
  }

  ghost function PurgeStates(states: map<(Token, int), PoolAmounts>, h: int): map<(Token, int), PoolAmounts> {
    map k | k in states && k.1 != h :: states[k]
  }

  ghost function PurgeStep(db: Db, h: int, n: nat): Db
    requires n < PURGE_STEPS
  {
    if n < 6 then db.(derived := PurgeDerived(db.derived, h, PurgedTable(n)))
    else if n == 6 then db.(traces := TracesOffHeight(db.traces, h))
    else if n == 7 then db.(protos := PurgeProtos(db.protos, h))
    else if n == 8 then db.(txs := PurgeTxs(db.txs, h))
    else if n == 9 then db.(blocks := PurgeBlocks(db.blocks, h))
    else db.(states := PurgeStates(db.states, h))
  }

  /** The tables after the first n deletes. */
  ghost function PurgePrefix(db: Db, h: int, n: nat): Db
    requires n <= PURGE_STEPS
  {
    if n == 0 then db else PurgeStep(PurgePrefix(db, h, n - 1), h, n - 1)
  }

  ghost function Purge(db: Db, h: int): Db {
    PurgePrefix(db, h, PURGE_STEPS)
  }

  ghost predicate NoTraceAt(traces: multiset<TraceRow>, h: int) {
    forall r | r in traces :: r.blockHeight != h
  }

  ghost predicate NoProtoAt(protos: map<ProtoKey, ProtoRow>, h: int) {
    forall k | k in protos :: protos[k].blockHeight != h
  }

  /** Rows at h are gone once their delete has run; transactions go only after the rows that refer to them. */
  ghost predicate Purging(db: Db, h: int, n: nat) {
    Aligned(db) && (n > 6 ==> NoTraceAt(db.traces, h)) && (n > 7 ==> NoProtoAt(db.protos, h))
  }

  lemma OtherDeletes(db: Db, h: int, n: nat)
    requires n < PURGE_STEPS && !(6 <= n <= 8)
    ensures SameBase(PurgeStep(db, h, n), db)
  {
  }

  lemma TraceDelete(db: Db, h: int)
    requires Aligned(db)
    ensures Purging(db.(traces := TracesOffHeight(db.traces, h)), h, 7)
  {
  }

  lemma ProtoDelete(db: Db, h: int)
    requires Purging(db, h, 7)
    ensures Purging(db.(protos := PurgeProtos(db.protos, h)), h, 8)
  {
  }

  lemma TxDelete(db: Db, h: int)
    requires Purging(db, h, 8)
    ensures Purging(db.(txs := PurgeTxs(db.txs, h)), h, 9)
  {
  }

  lemma PurgeStepKeeps(db: Db, h: int, n: nat)
    requires n < PURGE_STEPS && Purging(db, h, n)
    ensures Purging(PurgeStep(db, h, n), h, n + 1)
  {
    if n == 6 { TraceDelete(db, h); }
    else if n == 7 { ProtoDelete(db, h); }
    else if n == 8 { TxDelete(db, h); }
    else { OtherDeletes(db, h, n); }
  }

  lemma {:induction false} PurgeStaysAligned(db: Db, h: int, n: nat)
    requires Aligned(db) && n <= PURGE_STEPS
    ensures Purging(PurgePrefix(db, h, n), h, n)
  {
    if n > 0 {
      var before := PurgePrefix(db, h, n - 1);
      PurgeStaysAligned(db, h, n - 1);
      PurgeStepKeeps(before, h, n - 1);
      assert PurgePrefix(db, h, n) == PurgeStep(before, h, n - 1);
    }
  }

  /** No delete of a purge ever leaves a row without its transaction. */
  lemma PurgeKeepsForeignKeys(db: Db, h: int, n: nat)
    requires Aligned(db) && n <= PURGE_STEPS
    ensures ForeignKeys(PurgePrefix(db, h, n)) && Aligned(PurgePrefix(db, h, n))
  {
    PurgeStaysAligned(db, h, n);
  }

  lemma TraceParents(db: Db, h: int)
    requires ForeignKeys(db)
    ensures (forall r | r in TracesOffHeight(db.traces, h) :: r.txid in PurgeTxs(db.txs, h))
       <==> (forall r | r in db.traces && r.blockHeight != h :: db.txs[r.txid].blockHeight != h)
  {
    var left := TracesOffHeight(db.traces, h);
    assert forall r | r in db.traces && r.blockHeight != h :: r in left;
    assert forall r | r in left :: r in db.traces && r.blockHeight != h;
  }

  lemma ProtoParents(db: Db, h: int)
    requires ForeignKeys(db)
    ensures (forall k | k in PurgeProtos(db.protos, h) :: k.txid in PurgeTxs(db.txs, h))
       <==> (forall k | k in db.protos && db.protos[k].blockHeight != h :: db.txs[k.txid].blockHeight != h)
  {
    assert forall k | k in db.protos && db.protos[k].blockHeight != h :: k in PurgeProtos(db.protos, h);
  }

  /**
   Foreign keys alone would not be enough: with them, the transaction delete is accepted
   exactly when no remaining row refers to a transaction at h from another height.
   */
  lemma TransactionDeleteAccepted(db: Db, h: int)
    requires ForeignKeys(db)
    ensures ForeignKeys(PurgePrefix(db, h, 9)) <==>
      && (forall r | r in db.traces && r.blockHeight != h :: db.txs[r.txid].blockHeight != h)
      && (forall k | k in db.protos && db.protos[k].blockHeight != h :: db.txs[k.txid].blockHeight != h)
  {
    PurgeTables(db, h);
    TraceParents(db, h);
    ProtoParents(db, h);
  }

  lemma PurgeTables(db: Db, h: int)
    ensures var after := PurgePrefix(db, h, 9);
      && after.traces == TracesOffHeight(db.traces, h)
      && after.protos == PurgeProtos(db.protos, h)
      && after.txs == PurgeTxs(db.txs, h)
  {
    var d6 := PurgePrefix(db, h, 6);
    assert d6 == PurgeStep(PurgePrefix(db, h, 5), h, 5);
    DerivedDeletes(db, h);
    assert PurgePrefix(db, h, 7) == PurgeStep(d6, h, 6);
    assert PurgePrefix(db, h, 8) == PurgeStep(PurgePrefix(db, h, 7), h, 7);
    assert PurgePrefix(db, h, 9) == PurgeStep(PurgePrefix(db, h, 8), h, 8);
  }

  ghost function DerivedOffHeight(d: DerivedTables, h: int): DerivedTables {
    DerivedTables(RowsOffHeight(d.swaps, h), RowsOffHeight(d.creations, h), RowsOffHeight(d.mints, h),
                  RowsOffHeight(d.burns, h), RowsOffHeight(d.wraps, h), RowsOffHeight(d.unwraps, h))
  }

  lemma DerivedOffHeightAt(d: DerivedTables, h: int, t: Table)
    ensures DerivedOffHeight(d, h).At(t) == RowsOffHeight(d.At(t), h)
  {
  }

  lemma PurgeDerivedAt(d: DerivedTables, h: int, n: nat, t: Table)
    requires n < 6
    ensures PurgeDerived(d, h, PurgedTable(n)).At(t) == if PurgeRank(t) == n then RowsOffHeight(d.At(t), h) else d.At(t)
  {
    PutAt(d, PurgedTable(n), RowsOffHeight(d.At(PurgedTable(n)), h));
    assert PurgedTable(n) == t <==> PurgeRank(t) == n;
  }

  lemma {:induction false} DerivedPrefix(db: Db, h: int, n: nat, t: Table)
    requires n <= 6
    ensures PurgePrefix(db, h, n) == db.(derived := PurgePrefix(db, h, n).derived)
    ensures PurgePrefix(db, h, n).derived.At(t) == if PurgeRank(t) < n then RowsOffHeight(db.derived.At(t), h) else db.derived.At(t)
  {
    if n > 0 {
      DerivedPrefix(db, h, n - 1, t);
      PurgeDerivedAt(PurgePrefix(db, h, n - 1).derived, h, n - 1, t);
    }
  }

  lemma DerivedDeletes(db: Db, h: int)
    ensures PurgePrefix(db, h, 6) == db.(derived := DerivedOffHeight(db.derived, h))
  {
    var after := PurgePrefix(db, h, 6);
    DerivedPrefix(db, h, 6, Swaps);
    forall t: Table
      ensures after.derived.At(t) == DerivedOffHeight(db.derived, h).At(t)
    {
      DerivedPrefix(db, h, 6, t);
      DerivedOffHeightAt(db.derived, h, t);
      assert PurgeRank(t) < 6;
    }
    TablesEqual(after.derived, DerivedOffHeight(db.derived, h));
  }

  /** What a purge leaves, table by table. */
  lemma PurgeMeaning(db: Db, h: int)
    ensures var after := Purge(db, h);
      && after.derived == DerivedOffHeight(db.derived, h)
      && after.traces == TracesOffHeight(db.traces, h)
      && after.protos == PurgeProtos(db.protos, h)
      && after.txs == PurgeTxs(db.txs, h)
      && after.blocks == PurgeBlocks(db.blocks, h)
      && after.states == PurgeStates(db.states, h)
      && after.pools == db.pools
  {
    PurgeTables(db, h);
    DerivedDeletes(db, h);
    var p9, p10 := PurgePrefix(db, h, 9), PurgePrefix(db, h, 10);
    var p7, p8 := PurgePrefix(db, h, 7), PurgePrefix(db, h, 8);
    assert p7 == PurgeStep(PurgePrefix(db, h, 6), h, 6) && p8 == PurgeStep(p7, h, 7) && p9 == PurgeStep(p8, h, 8);
    assert p10 == PurgeStep(p9, h, 9) && Purge(db, h) == PurgeStep(p10, h, 10);
  }

  // Alignment over every history

  /** Every stored row of the plan carries its height and belongs to one of its transactions. */
  ghost predicate AlignedPlan(p: Plan) {
    && NoRepeats(KeysOf(p.txItems)) && NoRepeats(KeysOf(p.protoItems))
    && (forall i | 0 <= i < |p.txItems| :: p.txItems[i].0 in p.ids && p.txItems[i].1.blockHeight == p.height)
    && (forall id | id in p.ids :: id in KeysOf(p.txItems))
    && (forall i | 0 <= i < |p.protoItems| :: p.protoItems[i].0.txid in p.ids && p.protoItems[i].1.blockHeight == p.height)
    && (forall r | r in p.traceItems :: r.txid in p.ids && r.blockHeight == p.height)
  }

  lemma PlanAligned(b: Block, order: seq<TxResult>)
    requires WellFormed(order)
    ensures AlignedPlan(PlanOf(b, order))
  {
    var h, p := b.height, PlanOf(b, order);
    ItemKeys(h, order);
    forall i | 0 <= i < |p.txItems|
      ensures p.txItems[i].0 in p.ids && p.txItems[i].1.blockHeight == h
    {
      FlatMapMember(order, TxItemOf(h), p.txItems[i]);
      var r :| r in order && p.txItems[i] in TxItemOf(h)(r);
    }
    forall id | id in p.ids ensures id in KeysOf(p.txItems) { TxKeysOwn(h, order, id); }
    forall i | 0 <= i < |p.protoItems|
      ensures p.protoItems[i].0.txid in p.ids && p.protoItems[i].1.blockHeight == h
    {
      FlatMapMember(order, ProtoItemsOf(h), p.protoItems[i]);
      var r :| r in order && p.protoItems[i] in ProtoItemsOf(h)(r);
    }
    TraceItemsOwn(h, order);
    forall r: TraceRow | r in p.traceItems ensures r.txid in p.ids && r.blockHeight == h {
      assert r in FlatMap(order, TraceItemsOf(h));
    }
  }

  lemma TxAfter(txs: map<string, TxRow>, p: Plan, id: string)
    requires AlignedPlan(p)
    ensures id in p.ids ==> id in PutAll(txs, p.txItems) && PutAll(txs, p.txItems)[id].blockHeight == p.height
    ensures id !in p.ids && id in txs ==> id in PutAll(txs, p.txItems) && PutAll(txs, p.txItems)[id] == txs[id]
    ensures id !in p.ids && id !in txs ==> id !in PutAll(txs, p.txItems)
  {
    if id in p.ids {
      var i := IndexOfKey(p.txItems, id);
      PutAllAt(txs, p.txItems, i);
    } else {
      if id in KeysOf(p.txItems) { var i := IndexOfKey(p.txItems, id); }
      PutAllElsewhere(txs, p.txItems, id);
    }
  }

  lemma ProtoAfter(protos: map<ProtoKey, ProtoRow>, p: Plan, k: ProtoKey)
    requires AlignedPlan(p) && k in PutAll(WithoutProtos(protos, p.ids), p.protoItems)
    ensures var row := PutAll(WithoutProtos(protos, p.ids), p.protoItems)[k];
      if k.txid in p.ids then row.blockHeight == p.height else k in protos && row == protos[k]
  {
    var kept := WithoutProtos(protos, p.ids);
    if k in KeysOf(p.protoItems) {
      var i := IndexOfKey(p.protoItems, k);
      PutAllAt(kept, p.protoItems, i);
    } else {
      PutAllElsewhere(kept, p.protoItems, k);
    }
  }

  /** Storing a block's base rows aligns them, also for a transaction that moves from another height. */
  lemma BaseKeepsAligned(db: Db, p: Plan)
    requires Aligned(db) && AlignedPlan(p)
    ensures Aligned(Base(db, p))
  {
    var after := Base(db, p);
    forall r: TraceRow | r in after.traces
      ensures r.txid in after.txs && after.txs[r.txid].blockHeight == r.blockHeight
    {
      TxAfter(db.txs, p, r.txid);
      assert r in p.traceItems || r in db.traces;
    }
    forall k | k in after.protos
      ensures k.txid in after.txs && after.txs[k.txid].blockHeight == after.protos[k].blockHeight
    {
      TxAfter(db.txs, p, k.txid);
      ProtoAfter(db.protos, p, k);
    }
  }

  /** One change of the tables: any single commit of any run of any block, or a purge. */
  datatype Change =
    | Committed(k: nat, block: Block, order: seq<TxResult>, loaded: multiset<DerivedRow>)
    | Purged(height: int)

  ghost predicate Legal(c: Change) {
    c.Committed? ==> c.k < COMMITS && WellFormed(c.order)
  }

  ghost function Apply(db: Db, c: Change): Db
    requires Legal(c)
  {
    match c
    case Committed(k, b, order, loaded) =>
      (match Commit(db, k, PlanOf(b, order), loaded)
       case Some(after) => after
       case None => db)
    case Purged(h) => Purge(db, h)
  }

  ghost function ApplyAll(db: Db, cs: seq<Change>): Db
    requires forall c | c in cs :: Legal(c)
  {
    if cs == [] then db else Apply(ApplyAll(db, cs[..|cs| - 1]), cs[|cs| - 1])
  }

  lemma AlignedSame(db: Db, after: Db)
    requires Aligned(db) && SameBase(after, db)
    ensures Aligned(after)
  {
  }

  lemma LaterCommitsKeepBase(db: Db, k: nat, p: Plan, loaded: multiset<DerivedRow>)
    requires 0 < k < COMMITS && Commit(db, k, p, loaded).Some?
    ensures SameBase(Commit(db, k, p, loaded).value, db)
  {
  }

  lemma CommitKeepsAligned(db: Db, k: nat, p: Plan, loaded: multiset<DerivedRow>)
    requires Aligned(db) && AlignedPlan(p) && k < COMMITS
    requires Commit(db, k, p, loaded).Some?
    ensures Aligned(Commit(db, k, p, loaded).value)
  {
    var after := Commit(db, k, p, loaded).value;
    if k == 0 {
      BaseKeepsAligned(db, p);
    } else {
      LaterCommitsKeepBase(db, k, p, loaded);
      AlignedSame(db, after);
    }
  }

  /**
   Whatever sequence of commits (of complete, crashed or repeated runs, with transactions
   moving between heights) and purges has happened, every trace event and protostone row
   has a parent at its own height, so the next purge cannot hit a foreign key either.
   */
  lemma {:induction false} AlwaysAligned(db: Db, cs: seq<Change>)
    requires Aligned(db) && forall c | c in cs :: Legal(c)
    ensures Aligned(ApplyAll(db, cs))
    ensures forall h, n: nat | n <= PURGE_STEPS :: ForeignKeys(PurgePrefix(ApplyAll(db, cs), h, n))
  {
    if cs != [] {
      var n := |cs| - 1;
      AlwaysAligned(db, cs[..n]);
      var before := ApplyAll(db, cs[..n]);
      match cs[n] {
        case Committed(k, b, order, loaded) =>
          assert Legal(cs[n]);
          PlanAligned(b, order);
          if Commit(before, k, PlanOf(b, order), loaded).Some? {
            CommitKeepsAligned(before, k, PlanOf(b, order), loaded);
          }
        case Purged(h) =>
          PurgeKeepsForeignKeys(before, h, PURGE_STEPS);
      }
    }
    forall h, n: nat | n <= PURGE_STEPS
      ensures ForeignKeys(PurgePrefix(ApplyAll(db, cs), h, n))
    {
      PurgeKeepsForeignKeys(ApplyAll(db, cs), h, n);
    }
  }

  // When purging undoes processing

  /** Whether a run touches the rows already in table t: PoolSwap always, the others when the block yields rows. */
  ghost predicate Touches(t: Table, rows: multiset<DerivedRow>) {
    t.Swaps? || rows != multiset{}
  }

  /** No stored row is at the height, and none in a table the run touches belongs to its transactions. */
  ghost predicate FreshTable(t: Table, prior: multiset<DerivedRow>, ids: set<string>, rows: multiset<DerivedRow>, h: int) {
    forall r: DerivedRow | r in prior :: r.Height() != h && (Touches(t, rows) ==> r.Txid() !in ids)
  }

  ghost predicate FreshTxs(txs: map<string, TxRow>, ids: set<string>, h: int) {
    forall id | id in txs :: id !in ids && txs[id].blockHeight != h
  }

  ghost predicate FreshProtos(protos: map<ProtoKey, ProtoRow>, ids: set<string>, h: int) {
    forall k | k in protos :: k.txid !in ids && protos[k].blockHeight != h
  }

  ghost predicate FreshTraces(traces: multiset<TraceRow>, ids: set<string>, h: int) {
    forall r | r in traces :: r.txid !in ids && r.blockHeight != h
  }

  /** Neither the height nor, in a table the run touches, the plan's transactions occur in db. */
  ghost predicate FreshFor(db: Db, p: Plan) {
    && FreshTxs(db.txs, p.ids, p.height) && FreshProtos(db.protos, p.ids, p.height) && FreshTraces(db.traces, p.ids, p.height)
    && (forall t: Table :: FreshTable(t, db.derived.At(t), p.ids, p.rows.At(t), p.height))
    && p.height !in db.blocks
    && (forall k | k in db.states :: k.1 != p.height)
  }

  lemma UndoTxs(db: Db, p: Plan)
    requires AlignedPlan(p)
    ensures PurgeTxs(PutAll(db.txs, p.txItems), p.height) == db.txs <==> FreshTxs(db.txs, p.ids, p.height)
  {
    var left := PurgeTxs(PutAll(db.txs, p.txItems), p.height);
    forall id
      ensures id in left <==> id in db.txs && id !in p.ids && db.txs[id].blockHeight != p.height
      ensures id in left ==> left[id] == db.txs[id]
    {
      TxAfter(db.txs, p, id);
    }
    if left == db.txs {
      assert forall id | id in db.txs :: id in left;
    }
  }

  lemma ProtoLeft(db: Db, p: Plan, k: ProtoKey)
    requires AlignedPlan(p)
    ensures var left := PurgeProtos(PutAll(WithoutProtos(db.protos, p.ids), p.protoItems), p.height);
      && (k in left <==> k in db.protos && k.txid !in p.ids && db.protos[k].blockHeight != p.height)
      && (k in left ==> left[k] == db.protos[k])
  {
    var kept := WithoutProtos(db.protos, p.ids);
    if k in PutAll(kept, p.protoItems) {
      ProtoAfter(db.protos, p, k);
    } else {
      if k in KeysOf(p.protoItems) { var i := IndexOfKey(p.protoItems, k); PutAllAt(kept, p.protoItems, i); }
      PutAllElsewhere(kept, p.protoItems, k);
    }
  }

  lemma UndoProtos(db: Db, p: Plan)
    requires AlignedPlan(p)
    ensures PurgeProtos(PutAll(WithoutProtos(db.protos, p.ids), p.protoItems), p.height) == db.protos
       <==> FreshProtos(db.protos, p.ids, p.height)
  {
    var left := PurgeProtos(PutAll(WithoutProtos(db.protos, p.ids), p.protoItems), p.height);
    forall k
      ensures k in left <==> k in db.protos && k.txid !in p.ids && db.protos[k].blockHeight != p.height
      ensures k in left ==> left[k] == db.protos[k]
    {
      ProtoLeft(db, p, k);
    }
    if left == db.protos {
      assert forall k | k in db.protos :: k in left;
    }
  }

  lemma UndoTraces(db: Db, p: Plan)
    requires AlignedPlan(p)
    ensures TracesOffHeight(WithoutTraces(db.traces, p.ids) + p.traceItems, p.height) == db.traces
       <==> FreshTraces(db.traces, p.ids, p.height)
  {
    var left := TracesOffHeight(WithoutTraces(db.traces, p.ids) + p.traceItems, p.height);
    forall r: TraceRow
      ensures left[r] == if r.txid in p.ids || r.blockHeight == p.height then 0 else db.traces[r]
    {
      assert p.traceItems[r] > 0 ==> r in p.traceItems;
    }
    if FreshTraces(db.traces, p.ids, p.height) {
      forall r: TraceRow ensures left[r] == db.traces[r] { assert db.traces[r] > 0 ==> r in db.traces; }
      assert left == db.traces;
    }
  }

  lemma TableLeft(t: Table, prior: multiset<DerivedRow>, ids: set<string>, rows: multiset<DerivedRow>, h: int, r: DerivedRow)
    requires r in rows ==> r.Txid() in ids && r.Height() == h
    ensures RowsOffHeight(Replaced(t, prior, ids, rows), h)[r]
         == if r.Height() == h || (Touches(t, rows) && r.Txid() in ids) then 0 else prior[r]
  {
    assert rows[r] > 0 ==> r in rows;
  }

  lemma UndoTable(t: Table, prior: multiset<DerivedRow>, ids: set<string>, rows: multiset<DerivedRow>, h: int)
    requires forall r: DerivedRow | r in rows :: r.Txid() in ids && r.Height() == h
    ensures RowsOffHeight(Replaced(t, prior, ids, rows), h) == prior <==> FreshTable(t, prior, ids, rows, h)
  {
    var left := RowsOffHeight(Replaced(t, prior, ids, rows), h);
    if FreshTable(t, prior, ids, rows, h) {
      forall r: DerivedRow ensures left[r] == prior[r] {
        TableLeft(t, prior, ids, rows, h, r);
        assert prior[r] > 0 ==> r in prior;
      }
      assert left == prior;
    } else {
      var r :| r in prior && (r.Height() == h || (Touches(t, rows) && r.Txid() in ids));
      TableLeft(t, prior, ids, rows, h, r);
      assert left[r] != prior[r];
    }
  }

  ghost predicate Belong(rows: DerivedTables, ids: set<string>, h: int) {
    forall t: Table, r: DerivedRow | r in rows.At(t) :: r.Txid() in ids && r.Height() == h
  }

  lemma UndoAt(db: Db, p: Plan, t: Table)
    requires Belong(p.rows, p.ids, p.height)
    ensures DerivedOffHeight(Goal(db, p).derived, p.height).At(t) == db.derived.At(t)
       <==> FreshTable(t, db.derived.At(t), p.ids, p.rows.At(t), p.height)
  {
    UndoTable(t, db.derived.At(t), p.ids, p.rows.At(t), p.height);
    GoalAt(db, p, t);
    DerivedOffHeightAt(Goal(db, p).derived, p.height, t);
  }

  lemma UndoDerived(db: Db, p: Plan)
    requires Belong(p.rows, p.ids, p.height)
    ensures DerivedOffHeight(Goal(db, p).derived, p.height) == db.derived
       <==> forall t: Table :: FreshTable(t, db.derived.At(t), p.ids, p.rows.At(t), p.height)
  {
    var left := DerivedOffHeight(Goal(db, p).derived, p.height);
    forall t: Table
      ensures left.At(t) == db.derived.At(t) <==> FreshTable(t, db.derived.At(t), p.ids, p.rows.At(t), p.height)
    {
      UndoAt(db, p, t);
    }
    if forall t: Table :: left.At(t) == db.derived.At(t) {
      TablesEqual(left, db.derived);
    }
  }

  lemma UndoMarks(db: Db, p: Plan)
    ensures PurgeBlocks(db.blocks[p.height := p.mark], p.height) == db.blocks <==> p.height !in db.blocks
    ensures PurgeStates(db.states, p.height) == db.states <==> forall k | k in db.states :: k.1 != p.height
  {
    var left := PurgeStates(db.states, p.height);
    if left == db.states {
      assert forall k | k in db.states :: k in left;
    }
  }

  lemma PurgeUndoesPlan(db: Db, p: Plan)
    requires AlignedPlan(p) && Belong(p.rows, p.ids, p.height)
    ensures Purge(Goal(db, p), p.height) == db <==> FreshFor(db, p)
  {
    PurgeMeaning(Goal(db, p), p.height);
    UndoTxs(db, p);
    UndoProtos(db, p);
    UndoTraces(db, p);
    UndoDerived(db, p);
    UndoMarks(db, p);
  }

  lemma BlockTableOwn(db: Db, b: Block, t: Table)
    ensures forall r: DerivedRow | r in AllRows(db, b).At(t) :: r.Txid() in Ids(b.results) && r.Height() == b.height
  {
    forall r: DerivedRow | r in AllRows(db, b).At(t) ensures r.Txid() in Ids(b.results) && r.Height() == b.height {
      BlockRowsOwn(db, b, t, r);
    }
  }

  lemma BlockRowsAllOwn(db: Db, b: Block)
    ensures Belong(AllRows(db, b), Ids(b.results), b.height)
  {
    forall t: Table ensures forall r: DerivedRow | r in AllRows(db, b).At(t) :: r.Txid() in Ids(b.results) && r.Height() == b.height {
      BlockTableOwn(db, b, t);
    }
  }

  lemma PurgeUndoesRows(db: Db, p: Plan, rows: DerivedTables)
    requires AlignedPlan(p) && Belong(rows, p.ids, p.height)
    ensures Purge(Goal(db, p.(rows := rows)), p.height) == db <==> FreshFor(db, p.(rows := rows))
  {
    PurgeUndoesPlan(db, p.(rows := rows));
  }

  /**
   Processing a block and purging its height restores the tables exactly when nothing was
   stored at that height before, and nothing of the block's transactions in any table the
   run touched.
   */
  lemma PurgeUndoesProcessing(db: Db, b: Block)
    requires WellFormed(b.results)
    ensures Purge(Indexed(db, b), b.height) == db <==> FreshFor(db, BlockPlan(db, b))
  {
    var p, rows := PlanOf(b, b.results), AllRows(db, b);
    PlanAligned(b, b.results);
    BlockRowsAllOwn(db, b);
    PurgeUndoesRows(db, p, rows);
  }
}
