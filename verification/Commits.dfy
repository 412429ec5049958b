/**
 The eight atomic commits that store one block, as functions on the tables, and
 how they combine: each is idempotent, and they touch disjoint tables.
 */
module Commits {
  import opened Options
  import opened Seqs
  import opened Tokens
  import opened Decoding
  import opened Tables

  /** Commit 0 writes the base tables, 1 to 6 one derived table each, 7 the block mark. */
  const COMMITS: nat := 8

  function TableOf(k: nat): Table
    requires 1 <= k <= 6
  {
    match k
    case 1 => Swaps
    case 2 => Creations
    case 3 => Mints
    case 4 => Burns
    case 5 => Wraps
    case _ => Unwraps
  }

  function StageOf(t: Table): nat {
    match t
    case Swaps => 1
    case Creations => 2
    case Mints => 3
    case Burns => 4
    case Wraps => 5
    case Unwraps => 6
  }

  /** Everything one run of a block writes; ids are its transactions. */
  datatype Plan = Plan(
    height: int, mark: BlockMark, ids: set<string>,
    txItems: seq<(string, TxRow)>, protoItems: seq<(ProtoKey, ProtoRow)>, traceItems: multiset<TraceRow>,
    rows: DerivedTables)

  ghost predicate Consistent(p: Plan) {
    && NoRepeats(KeysOf(p.txItems)) && NoRepeats(KeysOf(p.protoItems))
    && (forall k | k in KeysOf(p.protoItems) :: k.txid in p.ids)
    && (forall r | r in p.traceItems :: r.txid in p.ids)
    && (forall t: Table, r: DerivedRow | r in p.rows.At(t) :: r.Txid() in p.ids)
  }

  /** Upsert the transactions, replace their protostones and trace events. */
  ghost function Base(db: Db, p: Plan): Db {
    db.(txs := PutAll(db.txs, p.txItems),
        protos := PutAll(WithoutProtos(db.protos, p.ids), p.protoItems),
        traces := WithoutTraces(db.traces, p.ids) + p.traceItems)
  }

  /** Swap rows are always replaced; the other tables only when the block yields rows for them. */
  ghost function Replaced(t: Table, prior: multiset<DerivedRow>, ids: set<string>, rows: multiset<DerivedRow>): multiset<DerivedRow> {
    if !t.Swaps? && rows == multiset{} then prior else WithoutRows(prior, ids) + rows
  }

  function PoolOf(r: DerivedRow): Token {
    match r
    case SwapOf(s) => s.pool
    case CreationOf(c) => c.pool
    case LiquidityOf(l) => l.pool
    case FrostOf(_) => Token("", "")
  }

  /** PoolCreation refers to Pool and holds each pool once; other tables and skipped replacements are unconstrained. */
  ghost predicate RowsAllowed(t: Table, after: multiset<DerivedRow>, rows: multiset<DerivedRow>, pools: PoolTable) {
    t.Creations? && rows != multiset{} ==>
      && (forall r | r in rows :: PoolOf(r) in pools)
      && (forall r | r in after :: after[r] == 1)
      && (forall r, s | r in after && s in after && PoolOf(r) == PoolOf(s) :: r == s)
  }

  /** ProcessedBlocks holds each hash once. */
  ghost predicate HashFree(blocks: map<int, BlockMark>, h: int, mark: BlockMark) {
    forall k | k in blocks && k != h :: blocks[k].hash != mark.hash
  }

  /** Commit k, writing the loaded rows where k is a derived table; None when a constraint aborts it. */
  ghost function Commit(db: Db, k: nat, p: Plan, loaded: multiset<DerivedRow>): Option<Db>
    requires k < COMMITS
  {
    if k == 0 then Some(Base(db, p))
    else if k == 7 then
      if HashFree(db.blocks, p.height, p.mark) then Some(db.(blocks := db.blocks[p.height := p.mark])) else None
    else
      var t := TableOf(k);
      var after := Replaced(t, db.derived.At(t), p.ids, loaded);
      if RowsAllowed(t, after, loaded, db.pools) then Some(db.(derived := db.derived.Put(t, after))) else None
  }

  ghost function ReplacedTables(prior: DerivedTables, ids: set<string>, rows: DerivedTables): DerivedTables {
    DerivedTables(
      Replaced(Swaps, prior.swaps, ids, rows.swaps), Replaced(Creations, prior.creations, ids, rows.creations),
      Replaced(Mints, prior.mints, ids, rows.mints), Replaced(Burns, prior.burns, ids, rows.burns),
      Replaced(Wraps, prior.wraps, ids, rows.wraps), Replaced(Unwraps, prior.unwraps, ids, rows.unwraps))
  }

  /** All eight commits applied to db0. */
  ghost function Goal(db0: Db, p: Plan): Db {
    Base(db0, p).(derived := ReplacedTables(db0.derived, p.ids, p.rows), blocks := db0.blocks[p.height := p.mark])
  }

  lemma GoalAt(db0: Db, p: Plan, t: Table)
    ensures Goal(db0, p).derived.At(t) == Replaced(t, db0.derived.At(t), p.ids, p.rows.At(t))
  {
  }

  ghost predicate SameBase(db: Db, other: Db) {
    db.txs == other.txs && db.protos == other.protos && db.traces == other.traces
  }

  ghost predicate TablesProgress(d: DerivedTables, d0: DerivedTables, goal: DerivedTables, k: nat) {
    && (forall t: Table :: d.At(t) == d0.At(t) || d.At(t) == goal.At(t))
    && (forall t: Table | StageOf(t) < k :: d.At(t) == goal.At(t))
  }

  /** Every commit's tables are untouched or complete, and those of the commits below k are complete. */
  ghost predicate Progress(db: Db, db0: Db, goal: Db, k: nat) {
    && db.pools == db0.pools && db.states == db0.states
    && (SameBase(db, db0) || SameBase(db, goal))
    && (k > 0 ==> SameBase(db, goal))
    && TablesProgress(db.derived, db0.derived, goal.derived, k)
    && (db.blocks == db0.blocks || db.blocks == goal.blocks)
    && (k > 7 ==> db.blocks == goal.blocks)
  }

  lemma AllTables(d: DerivedTables, d0: DerivedTables, goal: DerivedTables)
    requires TablesProgress(d, d0, goal, 7)
    ensures d == goal
  {
    assert StageOf(Swaps) < 7 && StageOf(Creations) < 7 && StageOf(Mints) < 7;
    assert StageOf(Burns) < 7 && StageOf(Wraps) < 7 && StageOf(Unwraps) < 7;
    assert d.At(Swaps) == goal.At(Swaps) && d.At(Creations) == goal.At(Creations) && d.At(Mints) == goal.At(Mints);
    assert d.At(Burns) == goal.At(Burns) && d.At(Wraps) == goal.At(Wraps) && d.At(Unwraps) == goal.At(Unwraps);
  }

  lemma CompleteIsGoal(db: Db, db0: Db, p: Plan)
    requires Progress(db, db0, Goal(db0, p), COMMITS)
    ensures db == Goal(db0, p)
  {
    AllTables(db.derived, db0.derived, Goal(db0, p).derived);
  }

  /** Commit k meets the constraints in a run without interference. */
  ghost predicate Permitted(db0: Db, p: Plan, k: nat) {
    && (1 <= k <= 6 ==> RowsAllowed(TableOf(k), Goal(db0, p).derived.At(TableOf(k)), p.rows.At(TableOf(k)), db0.pools))
    && (k == 7 ==> HashFree(db0.blocks, p.height, p.mark))
  }

  // Idempotence

  lemma ProtosTwice(protos: map<ProtoKey, ProtoRow>, p: Plan)
    requires Consistent(p)
    ensures WithoutProtos(PutAll(WithoutProtos(protos, p.ids), p.protoItems), p.ids) == WithoutProtos(protos, p.ids)
  {
    var kept := WithoutProtos(protos, p.ids);
    var once := PutAll(kept, p.protoItems);
    forall k | k in WithoutProtos(once, p.ids).Keys + kept.Keys
      ensures k in WithoutProtos(once, p.ids) && k in kept && WithoutProtos(once, p.ids)[k] == kept[k]
    {
      PutAllElsewhere(kept, p.protoItems, k);
    }
  }

  lemma BaseTwice(db: Db, p: Plan)
    requires Consistent(p)
    ensures Base(Base(db, p), p) == Base(db, p)
  {
    PutAllTwice(db.txs, p.txItems);
    ProtosTwice(db.protos, p);
    assert WithoutTraces(WithoutTraces(db.traces, p.ids) + p.traceItems, p.ids) == WithoutTraces(db.traces, p.ids);
  }

  lemma ReplacedTwice(t: Table, prior: multiset<DerivedRow>, ids: set<string>, rows: multiset<DerivedRow>)
    requires forall r: DerivedRow | r in rows :: r.Txid() in ids
    ensures Replaced(t, Replaced(t, prior, ids, rows), ids, rows) == Replaced(t, prior, ids, rows)
  {
    assert WithoutRows(WithoutRows(prior, ids) + rows, ids) == WithoutRows(prior, ids);
  }

  // Commits of interleaved runs

  lemma CommitBase(db: Db, db0: Db, p: Plan, m: nat)
    requires Consistent(p) && Progress(db, db0, Goal(db0, p), m)
    ensures Progress(Base(db, p), db0, Goal(db0, p), m) && (m == 0 ==> Progress(Base(db, p), db0, Goal(db0, p), 1))
  {
    BaseTwice(db0, p);
    assert SameBase(Base(db, p), Goal(db0, p));
  }

  lemma CommitTable(db: Db, db0: Db, p: Plan, t: Table, m: nat)
    requires Consistent(p) && Progress(db, db0, Goal(db0, p), m)
    ensures var after := Replaced(t, db.derived.At(t), p.ids, p.rows.At(t));
      && after == Goal(db0, p).derived.At(t)
      && Progress(db.(derived := db.derived.Put(t, after)), db0, Goal(db0, p), m)
      && (m == StageOf(t) ==> Progress(db.(derived := db.derived.Put(t, after)), db0, Goal(db0, p), m + 1))
  {
    ReplacedTwice(t, db0.derived.At(t), p.ids, p.rows.At(t));
    GoalAt(db0, p, t);
    var after := Goal(db0, p).derived.At(t);
    PutAt(db.derived, t, after);
    PutProgress(db.derived, db0.derived, Goal(db0, p).derived, t, m);
  }

  lemma TablesEqual(d: DerivedTables, e: DerivedTables)
    requires forall t: Table :: d.At(t) == e.At(t)
    ensures d == e
  {
    assert d.At(Swaps) == e.At(Swaps) && d.At(Creations) == e.At(Creations) && d.At(Mints) == e.At(Mints);
    assert d.At(Burns) == e.At(Burns) && d.At(Wraps) == e.At(Wraps) && d.At(Unwraps) == e.At(Unwraps);
  }

  lemma PutAt(d: DerivedTables, t: Table, rows: multiset<DerivedRow>)
    ensures forall u: Table :: d.Put(t, rows).At(u) == if u == t then rows else d.At(u)
  {
  }

  lemma StageDistinct(t: Table, u: Table)
    ensures StageOf(t) == StageOf(u) <==> t == u
  {
  }

  lemma PutProgress(d: DerivedTables, d0: DerivedTables, goal: DerivedTables, t: Table, m: nat)
    requires TablesProgress(d, d0, goal, m)
    ensures TablesProgress(d.Put(t, goal.At(t)), d0, goal, m)
    ensures m == StageOf(t) ==> TablesProgress(d.Put(t, goal.At(t)), d0, goal, m + 1)
  {
    PutAt(d, t, goal.At(t));
    forall u: Table ensures StageOf(u) == StageOf(t) <==> u == t {
      StageDistinct(u, t);
    }
  }

  lemma MarkTwice(blocks: map<int, BlockMark>, h: int, mark: BlockMark)
    ensures blocks[h := mark][h := mark] == blocks[h := mark]
    ensures HashFree(blocks[h := mark], h, mark) <==> HashFree(blocks, h, mark)
  {
    var marked := blocks[h := mark];
    assert forall k | k != h :: k in marked <==> k in blocks;
    assert forall k | k != h && k in blocks :: marked[k] == blocks[k];
  }

  lemma CommitMark(db: Db, db0: Db, p: Plan, m: nat)
    requires Progress(db, db0, Goal(db0, p), m)
    ensures HashFree(db.blocks, p.height, p.mark) <==> HashFree(db0.blocks, p.height, p.mark)
    ensures var next := db.(blocks := db.blocks[p.height := p.mark]);
      Progress(next, db0, Goal(db0, p), m) && (m == 7 ==> Progress(next, db0, Goal(db0, p), 8))
  {
    MarkTwice(db0.blocks, p.height, p.mark);
  }

  /**
   A commit by any run moves its tables from untouched to complete or leaves them
   complete, keeps everybody's progress m, and is refused exactly when it would be
   refused in a run without interference.
   */
  lemma CommitProgress(db: Db, db0: Db, p: Plan, k: nat, m: nat, loaded: multiset<DerivedRow>)
    requires Consistent(p) && k < COMMITS
    requires Progress(db, db0, Goal(db0, p), k) && Progress(db, db0, Goal(db0, p), m)
    requires 1 <= k <= 6 ==> loaded == p.rows.At(TableOf(k))
    ensures var after := Commit(db, k, p, loaded);
      && (after.Some? <==> Permitted(db0, p, k))
      && (after.Some? ==> Progress(after.value, db0, Goal(db0, p), k + 1) && Progress(after.value, db0, Goal(db0, p), m))
  {
    if k == 0 {
      CommitBase(db, db0, p, m);
      CommitBase(db, db0, p, k);
    } else if k == 7 {
      CommitMark(db, db0, p, m);
      CommitMark(db, db0, p, k);
    } else {
      assert StageOf(TableOf(k)) == k;
      CommitTable(db, db0, p, TableOf(k), m);
      CommitTable(db, db0, p, TableOf(k), k);
    }
  }
}
