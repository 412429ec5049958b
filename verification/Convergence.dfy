/**
 Interleaved runs of one block, whatever its content: what a run writes and what
 it loads before each commit are functions of the run's order of the transactions.
 */
module Convergence {
  import opened Options
  import opened Decoding
  import opened Tables
  import opened Commits

  /** plan: what a run writes. load: the rows it derives, given Pool and DecodedProtostone. fits: the orders of this block. */
  datatype Job<!Order> = Job(
    plan: Order -> Plan,
    load: (Table, Order, PoolTable, map<ProtoKey, ProtoRow>) -> multiset<DerivedRow>,
    fits: Order -> bool)

  ghost function Load<Order>(db: Db, k: nat, job: Job<Order>, order: Order): multiset<DerivedRow> {
    if 1 <= k <= 6 then job.load(TableOf(k), order, db.pools, db.protos) else multiset{}
  }

  /** One uninterrupted run, from commit k on. */
  ghost function RunFrom<Order>(db: Db, k: nat, job: Job<Order>, order: Order): Option<Db>
    requires k <= COMMITS
    decreases COMMITS - k
  {
    if k == COMMITS then Some(db)
    else
      match Commit(db, k, job.plan(order), Load(db, k, job, order))
      case Some(after) => RunFrom(after, k + 1, job, order)
      case None => None
  }

  ghost predicate SameWrites(q: Plan, p: Plan) {
    && q.height == p.height && q.mark == p.mark && q.ids == p.ids
    && forall db: Db :: Base(db, q) == Base(db, p)
  }

  /** p is what every run over db0 amounts to, whichever order it met. */
  ghost predicate Amounts<Order(!new)>(job: Job<Order>, db0: Db, p: Plan) {
    && Consistent(p)
    && (forall order: Order | job.fits(order) :: SameWrites(job.plan(order), p))
    && (forall order: Order, t: Table | job.fits(order) :: job.load(t, order, db0.pools, Base(db0, p).protos) == p.rows.At(t))
  }

  /** No commit from k on violates a constraint. */
  ghost predicate StorableFrom(db0: Db, p: Plan, k: nat)
    decreases COMMITS - k
  {
    k < COMMITS ==> Permitted(db0, p, k) && StorableFrom(db0, p, k + 1)
  }

  lemma SameCommit(db: Db, k: nat, q: Plan, p: Plan, loaded: multiset<DerivedRow>)
    requires SameWrites(q, p) && k < COMMITS
    ensures Commit(db, k, q, loaded) == Commit(db, k, p, loaded)
  {
  }

  /** Once the base commit of any run is in, every run loads the same rows. */
  lemma LoadMeaning<Order(!new)>(db: Db, db0: Db, job: Job<Order>, p: Plan, k: nat, order: Order)
    requires Amounts(job, db0, p) && job.fits(order)
    requires 1 <= k <= 6 && Progress(db, db0, Goal(db0, p), k)
    ensures Load(db, k, job, order) == p.rows.At(TableOf(k))
  {
    assert db.protos == Base(db0, p).protos;
  }

  lemma StorableStep(db0: Db, p: Plan, k: nat)
    requires k < COMMITS
    ensures StorableFrom(db0, p, k) <==> Permitted(db0, p, k) && StorableFrom(db0, p, k + 1)
  {
  }

  lemma {:induction false} RunReachesGoal<Order(!new)>(db: Db, db0: Db, job: Job<Order>, p: Plan, k: nat, order: Order)
    requires Amounts(job, db0, p) && job.fits(order)
    requires k <= COMMITS && Progress(db, db0, Goal(db0, p), k)
    ensures RunFrom(db, k, job, order) == if StorableFrom(db0, p, k) then Some(Goal(db0, p)) else None
    decreases COMMITS - k
  {
    if k == COMMITS {
      CompleteIsGoal(db, db0, p);
    } else {
      NextCommit(db, db0, job, p, k, order);
      StorableStep(db0, p, k);
      var after := Commit(db, k, job.plan(order), Load(db, k, job, order));
      if after.Some? {
        RunReachesGoal(after.value, db0, job, p, k + 1, order);
      }
    }
  }

  lemma NextCommit<Order(!new)>(db: Db, db0: Db, job: Job<Order>, p: Plan, k: nat, order: Order)
    requires Amounts(job, db0, p) && job.fits(order)
    requires k < COMMITS && Progress(db, db0, Goal(db0, p), k)
    ensures var after := Commit(db, k, job.plan(order), Load(db, k, job, order));
      && (after.Some? <==> Permitted(db0, p, k))
      && (after.Some? ==> Progress(after.value, db0, Goal(db0, p), k + 1))
  {
    var loaded := Load(db, k, job, order);
    if 1 <= k <= 6 {
      LoadMeaning(db, db0, job, p, k, order);
    }
    assert SameWrites(job.plan(order), p);
    SameCommit(db, k, job.plan(order), p, loaded);
    CommitProgress(db, db0, p, k, k, loaded);
  }

  /** Both jobs have the same writes and the same loaded rows for this order. */
  ghost predicate SameFor<Order(!new)>(job: Job<Order>, other: Job<Order>, order: Order) {
    && job.plan(order) == other.plan(order)
    && forall t, pools, protos :: job.load(t, order, pools, protos) == other.load(t, order, pools, protos)
  }

  lemma {:induction false} SameJobRun<Order(!new)>(db: Db, k: nat, job: Job<Order>, other: Job<Order>, order: Order)
    requires k <= COMMITS && SameFor(job, other, order)
    ensures RunFrom(db, k, job, order) == RunFrom(db, k, other, order)
    decreases COMMITS - k
  {
    if k < COMMITS {
      assert Load(db, k, job, order) == Load(db, k, other, order);
      var after := Commit(db, k, job.plan(order), Load(db, k, job, order));
      if after.Some? {
        SameJobRun(after.value, k + 1, job, other, order);
      }
    }
  }

  /** A single run succeeds exactly when no constraint is violated, and then leaves the goal. */
  lemma OneRun<Order(!new)>(db0: Db, job: Job<Order>, p: Plan, order: Order)
    requires Amounts(job, db0, p) && job.fits(order)
    ensures RunFrom(db0, 0, job, order) == if StorableFrom(db0, p, 0) then Some(Goal(db0, p)) else None
  {
    RunReachesGoal(db0, db0, job, p, 0, order);
  }

  /** One run in flight: its next commit, the rows it loaded for it, its order of the transactions. */
  datatype Actor<Order> = Actor(pc: nat, loaded: Option<multiset<DerivedRow>>, order: Order)

  datatype World<Order> = World(db: Db, actors: seq<Actor<Order>>)

  datatype Action<Order> =
    | Read(actor: nat)
    | Write(actor: nat)
    | Restart(actor: nat, order: Order)  // crash, or the next attempt after an error

  ghost function ReadStep<Order>(db: Db, a: Actor<Order>, job: Job<Order>): Actor<Order> {
    if 1 <= a.pc <= 6 then a.(loaded := Some(Load(db, a.pc, job, a.order))) else a
  }

  /** A refused commit sends the run back to its start. */
  ghost function WriteStep<Order>(db: Db, a: Actor<Order>, job: Job<Order>): (Db, Actor<Order>) {
    if a.pc >= COMMITS || (1 <= a.pc <= 6 && a.loaded.None?) then (db, a)
    else
      match Commit(db, a.pc, job.plan(a.order), a.loaded.GetOr(multiset{}))
      case Some(after) => (after, Actor(a.pc + 1, None, a.order))
      case None => (db, Actor(0, None, a.order))
  }

  /** One atomic step; an action that does not apply leaves the world as it is. */
  ghost function Next<Order>(w: World<Order>, job: Job<Order>, action: Action<Order>): World<Order> {
    if action.actor >= |w.actors| then w
    else
      var i, a := action.actor, w.actors[action.actor];
      match action
      case Read(_) => w.(actors := w.actors[i := ReadStep(w.db, a, job)])
      case Write(_) => World(WriteStep(w.db, a, job).0, w.actors[i := WriteStep(w.db, a, job).1])
      case Restart(_, order) =>
        if job.fits(order) then w.(actors := w.actors[i := Actor(0, None, order)]) else w
  }

  ghost function Execute<Order>(w: World<Order>, job: Job<Order>, actions: seq<Action<Order>>): World<Order> {
    if actions == [] then w
    else Next(Execute(w, job, actions[..|actions| - 1]), job, actions[|actions| - 1])
  }

  ghost predicate Fresh<Order>(w: World<Order>, job: Job<Order>) {
    forall i | 0 <= i < |w.actors| :: w.actors[i].pc == 0 && w.actors[i].loaded == None && job.fits(w.actors[i].order)
  }

  ghost predicate GoodActor<Order>(a: Actor<Order>, db: Db, db0: Db, job: Job<Order>, p: Plan) {
    && job.fits(a.order)
    && a.pc <= COMMITS && Progress(db, db0, Goal(db0, p), a.pc)
    && (StorableFrom(db0, p, a.pc) ==> StorableFrom(db0, p, 0))
    && (a.loaded.Some? ==> 1 <= a.pc <= 6 && a.loaded.value == p.rows.At(TableOf(a.pc)))
  }

  ghost predicate Inv<Order>(w: World<Order>, db0: Db, job: Job<Order>, p: Plan) {
    && Progress(w.db, db0, Goal(db0, p), 0)
    && forall i | 0 <= i < |w.actors| :: GoodActor(w.actors[i], w.db, db0, job, p)
  }

  predicate CanWrite<Order>(a: Actor<Order>) {
    a.pc < COMMITS && (1 <= a.pc <= 6 ==> a.loaded.Some?)
  }

  /** What becomes of any progress m when a good run commits. */
  lemma WriteProgress<Order(!new)>(db: Db, db0: Db, a: Actor<Order>, m: nat, job: Job<Order>, p: Plan)
    requires Amounts(job, db0, p) && GoodActor(a, db, db0, job, p) && CanWrite(a)
    requires Progress(db, db0, Goal(db0, p), m)
    ensures var after := Commit(db, a.pc, job.plan(a.order), a.loaded.GetOr(multiset{}));
      && (after.Some? <==> Permitted(db0, p, a.pc))
      && (after.Some? ==> Progress(after.value, db0, Goal(db0, p), a.pc + 1) && Progress(after.value, db0, Goal(db0, p), m))
  {
    var loaded := a.loaded.GetOr(multiset{});
    assert SameWrites(job.plan(a.order), p);
    SameCommit(db, a.pc, job.plan(a.order), p, loaded);
    CommitProgress(db, db0, p, a.pc, m, loaded);
  }

  /** The writer is good afterwards. */
  lemma WriterStaysGood<Order(!new)>(db: Db, db0: Db, a: Actor<Order>, job: Job<Order>, p: Plan)
    requires Amounts(job, db0, p) && GoodActor(a, db, db0, job, p)
    requires Progress(db, db0, Goal(db0, p), 0)
    ensures var (after, next) := WriteStep(db, a, job);
      Progress(after, db0, Goal(db0, p), 0) && GoodActor(next, after, db0, job, p)
  {
    if CanWrite(a) {
      WriteProgress(db, db0, a, 0, job, p);
    }
  }

  /** A bystander is as far along as it was. */
  lemma BystanderStaysGood<Order(!new)>(db: Db, db0: Db, a: Actor<Order>, other: Actor<Order>, job: Job<Order>, p: Plan)
    requires Amounts(job, db0, p) && GoodActor(a, db, db0, job, p) && GoodActor(other, db, db0, job, p)
    ensures GoodActor(other, WriteStep(db, a, job).0, db0, job, p)
  {
    if CanWrite(a) {
      WriteProgress(db, db0, a, other.pc, job, p);
    }
  }

  lemma WriteKeepsInv<Order(!new)>(w: World<Order>, db0: Db, job: Job<Order>, p: Plan, i: nat)
    requires Amounts(job, db0, p) && Inv(w, db0, job, p) && i < |w.actors|
    ensures Inv(Next(w, job, Write(i)), db0, job, p)
  {
    var next := Next(w, job, Write(i));
    WriterStaysGood(w.db, db0, w.actors[i], job, p);
    forall j | 0 <= j < |w.actors|
      ensures GoodActor(next.actors[j], next.db, db0, job, p)
    {
      if j != i {
        BystanderStaysGood(w.db, db0, w.actors[i], w.actors[j], job, p);
      }
    }
  }

  lemma ReadKeepsInv<Order(!new)>(w: World<Order>, db0: Db, job: Job<Order>, p: Plan, i: nat)
    requires Amounts(job, db0, p) && Inv(w, db0, job, p) && i < |w.actors|
    ensures Inv(Next(w, job, Read(i)), db0, job, p)
  {
    var a := w.actors[i];
    assert GoodActor(a, w.db, db0, job, p);
    if 1 <= a.pc <= 6 {
      LoadMeaning(w.db, db0, job, p, a.pc, a.order);
    }
    assert GoodActor(ReadStep(w.db, a, job), w.db, db0, job, p);
  }

  lemma {:induction false} ExecuteKeepsInv<Order(!new)>(w: World<Order>, db0: Db, job: Job<Order>, p: Plan, actions: seq<Action<Order>>)
    requires Amounts(job, db0, p) && Inv(w, db0, job, p)
    ensures Inv(Execute(w, job, actions), db0, job, p)
  {
    if actions != [] {
      var before, action := Execute(w, job, actions[..|actions| - 1]), actions[|actions| - 1];
      ExecuteKeepsInv(w, db0, job, p, actions[..|actions| - 1]);
      if action.actor < |before.actors| {
        match action {
          case Read(i) => ReadKeepsInv(before, db0, job, p, i);
          case Write(i) => WriteKeepsInv(before, db0, job, p, i);
          case Restart(i, order) => assert job.fits(order) ==> GoodActor(Actor(0, None, order), before.db, db0, job, p);
        }
      }
    }
  }

  /**
   However many runs interleave, crash and restart: at every moment each commit's tables
   are wholly untouched or wholly done; once some run has made its last commit, the tables
   are those of a single run; and no run finishes if a single run would be refused.
   */
  lemma RunsConverge<Order(!new)>(w: World<Order>, job: Job<Order>, p: Plan, actions: seq<Action<Order>>, order: Order)
    requires Amounts(job, w.db, p) && Fresh(w, job) && job.fits(order)
    ensures var end := Execute(w, job, actions);
      && Progress(end.db, w.db, Goal(w.db, p), 0)
      && ((exists i :: 0 <= i < |end.actors| && end.actors[i].pc == COMMITS) ==> RunFrom(w.db, 0, job, order) == Some(end.db))
  {
    ExecuteKeepsInv(w, w.db, job, p, actions);
    var end := Execute(w, job, actions);
    if i :| 0 <= i < |end.actors| && end.actors[i].pc == COMMITS {
      assert GoodActor(end.actors[i], end.db, w.db, job, p);
      CompleteIsGoal(end.db, w.db, p);
      OneRun(w.db, job, p, order);
    }
  }

  /** From wherever the interleaved runs were left, one more uninterrupted run ends as a single run over the initial tables would. */
  lemma RerunConverges<Order(!new)>(w: World<Order>, job: Job<Order>, p: Plan, actions: seq<Action<Order>>, order: Order)
    requires Amounts(job, w.db, p) && Fresh(w, job) && job.fits(order)
    ensures RunFrom(Execute(w, job, actions).db, 0, job, order) == RunFrom(w.db, 0, job, order)
  {
    RunsConverge(w, job, p, actions, order);
    RunReachesGoal(Execute(w, job, actions).db, w.db, job, p, 0, order);
    OneRun(w.db, job, p, order);
  }
}
