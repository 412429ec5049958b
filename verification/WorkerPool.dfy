/**
 The concurrency of `decode_and_trace_for_block`: one worker per batch runs concurrently
 with the others, sharing a results list and a fatal-error cell. Each lock of a shared
 cell is one atomic step. What processing an item comes to is a fixed function of it.
 */
module WorkerPool {
  import opened Options
  import opened Seqs
  import opened Chunking

  datatype Outcome<+R> = Fatal(error: string) | Skipped | Done(result: R)

  type Processing<!T, R> = T -> Outcome<R>

  /** At most ten batches of equal, rounded-up size. */
  function Batches<T>(items: seq<T>): seq<seq<T>> {
    if items == [] then []
    else
      var number := if |items| < 10 then |items| else 10;
      Chunks(items, (|items| + number - 1) / number)
  }

  /** The batches are the items in order, and there are at most ten of them. */
  lemma BatchesMeaning<T>(items: seq<T>)
    ensures Join(Batches(items)) == items && |Batches(items)| <= 10
    ensures forall k | 0 <= k < |Batches(items)| :: Batches(items)[k] != []
  {
    if items != [] {
      var number := if |items| < 10 then |items| else 10;
      var size := (|items| + number - 1) / number;
      if |items| < 10 {
        SizeOne(|items|);
      }
      assert size * number >= |items|;
      ChunksMeaning(items, size);
      ChunkCount(items, size, number);
    }
  }

  lemma SizeOne(n: nat)
    requires 0 < n < 10
    ensures (n + n - 1) / n == 1
  {
  }

  /** The result an item contributes, if any. */
  function DoneOf<T, R>(process: Processing<T, R>): T -> seq<R> {
    (t: T) => match process(t) case Done(r) => [r] case _ => []
  }

  /** What processing the items one after the other would collect. */
  function Sequential<T, R>(items: seq<T>, process: Processing<T, R>): seq<R> {
    FlatMap(items, DoneOf(process))
  }

  // The interleaving

  datatype Phase =
    | Checking   // about to look at the fatal cell
    | Working    // past the check, its transaction in hand
    | Stopped

  datatype Worker<T> = Worker(batch: seq<T>, next: nat, phase: Phase)

  datatype State<T, R> = State(results: seq<R>, fatal: Option<string>, workers: seq<Worker<T>>)

  function Start<T, R>(batches: seq<seq<T>>): State<T, R> {
    State([], None, seq(|batches|, k requires 0 <= k < |batches| => Worker(batches[k], 0, Checking)))
  }

  /** What one step of a worker does: its own new state, results appended, the fatal cell afterwards. */
  datatype Effect<T, R> = Effect(worker: Worker<T>, added: seq<R>, fatal: Option<string>)

  /** Look at the fatal cell, or finish the item in hand. */
  function Move<T, R>(w: Worker<T>, fatal: Option<string>, process: Processing<T, R>): Effect<T, R> {
    match w.phase
    case Stopped => Effect(w, [], fatal)
    case Checking =>
      if w.next >= |w.batch| || fatal.Some? then Effect(w.(phase := Stopped), [], fatal)
      else Effect(w.(phase := Working), [], fatal)
    case Working =>
      if w.next >= |w.batch| then Effect(w.(phase := Stopped), [], fatal)
      else
        match process(w.batch[w.next])
        case Fatal(error) => Effect(w.(phase := Stopped), [], Some(error))
        case Skipped => Effect(w.(next := w.next + 1, phase := Checking), [], fatal)
        case Done(r) => Effect(w.(next := w.next + 1, phase := Checking), [r], fatal)
  }

  /** Worker i moves. */
  function Step<T, R>(s: State<T, R>, i: nat, process: Processing<T, R>): State<T, R>
    requires i < |s.workers|
  {
    var e := Move(s.workers[i], s.fatal, process);
    State(s.results + e.added, e.fatal, s.workers[i := e.worker])
  }

  /** A schedule names the worker that moves next; moves of workers that do not exist are dropped. */
  function Execute<T, R>(s: State<T, R>, schedule: seq<nat>, process: Processing<T, R>): State<T, R> {
    if schedule == [] then s
    else
      var before, i := Execute(s, schedule[..|schedule| - 1], process), schedule[|schedule| - 1];
      if i < |before.workers| then Step(before, i, process) else before
  }

  predicate Complete<T, R>(s: State<T, R>) {
    forall i | 0 <= i < |s.workers| :: s.workers[i].phase.Stopped?
  }

  /** The error of some transaction of the block. */
  ghost predicate ErrorOf<T, R>(txs: seq<T>, error: string, process: Processing<T, R>) {
    exists t :: t in txs && process(t) == Fatal(error)
  }

  ghost predicate NoFatal<T, R>(txs: seq<T>, process: Processing<T, R>) {
    forall k | 0 <= k < |txs| :: !process(txs[k]).Fatal?
  }

  /** What a worker has contributed so far. */
  ghost function Share<T, R>(w: Worker<T>, process: Processing<T, R>): multiset<R> {
    if w.next <= |w.batch| then multiset(Sequential(w.batch[..w.next], process)) else multiset{}
  }

  /** All results contributed so far. */
  ghost function Pushed<T, R>(ws: seq<Worker<T>>, process: Processing<T, R>): multiset<R> {
    if ws == [] then multiset{} else Pushed(ws[..|ws| - 1], process) + Share(ws[|ws| - 1], process)
  }

  ghost predicate GoodWorker<T, R>(w: Worker<T>, batch: seq<T>, fatal: Option<string>, process: Processing<T, R>) {
    && w.batch == batch && w.next <= |batch| && NoFatal(batch[..w.next], process)
    && (w.phase.Working? ==> w.next < |batch|)
    && (w.phase.Stopped? ==> w.next == |batch| || fatal.Some?)
  }

  ghost predicate Inv<T, R>(s: State<T, R>, batches: seq<seq<T>>, process: Processing<T, R>) {
    && |s.workers| == |batches|
    && (forall i | 0 <= i < |batches| :: GoodWorker(s.workers[i], batches[i], s.fatal, process))
    && (s.fatal.Some? ==> ErrorOf(Join(batches), s.fatal.value, process))
    && multiset(s.results) == Pushed(s.workers, process)
  }

  lemma {:induction false} StartInv<T, R>(batches: seq<seq<T>>, process: Processing<T, R>)
    ensures Inv(Start(batches), batches, process)
  {
    var start: State<T, R> := Start(batches);
    NothingPushed(start.workers, process);
  }

  lemma {:induction false} NothingPushed<T, R>(ws: seq<Worker<T>>, process: Processing<T, R>)
    requires forall i | 0 <= i < |ws| :: ws[i].next == 0
    ensures Pushed(ws, process) == multiset{}
  {
    if ws != [] {
      NothingPushed(ws[..|ws| - 1], process);
      var w := ws[|ws| - 1];
      assert w.batch[..0] == [];
    }
  }

  /** Only the worker that moved changes the total. */
  lemma {:induction false} PushedUpdate<T, R>(ws: seq<Worker<T>>, i: nat, w: Worker<T>, more: multiset<R>, process: Processing<T, R>)
    requires i < |ws| && Share(w, process) == Share(ws[i], process) + more
    ensures Pushed(ws[i := w], process) == Pushed(ws, process) + more
  {
    var n := |ws| - 1;
    if i == n {
      assert ws[i := w][..n] == ws[..n];
    } else {
      PushedUpdate(ws[..n], i, w, more, process);
      assert ws[i := w][..n] == ws[..n][i := w];
    }
  }

  lemma {:induction false} BatchInJoin<T>(batches: seq<seq<T>>, i: nat, t: T)
    requires i < |batches| && t in batches[i]
    ensures t in Join(batches)
  {
    if i > 0 {
      BatchInJoin(batches[1..], i - 1, t);
    }
  }

  lemma OneMore<T, R>(batch: seq<T>, k: nat, process: Processing<T, R>)
    requires k < |batch|
    ensures Sequential(batch[..k + 1], process) == Sequential(batch[..k], process) + DoneOf(process)(batch[k])
  {
    FlatMapStep(batch, DoneOf(process), k);
  }

  /** The mover stays good, adds exactly what it passed, and can only raise an error of its own batch. */
  lemma MoveKeepsGood<T, R>(w: Worker<T>, batch: seq<T>, fatal: Option<string>, process: Processing<T, R>)
    requires GoodWorker(w, batch, fatal, process)
    ensures var e := Move(w, fatal, process);
      && GoodWorker(e.worker, batch, e.fatal, process)
      && Sequential(e.worker.batch[..e.worker.next], process) == Sequential(w.batch[..w.next], process) + e.added
      && (fatal.Some? ==> e.fatal.Some?)
      && (e.fatal == fatal || (e.fatal.Some? && ErrorOf(batch, e.fatal.value, process)))
      && (!w.phase.Stopped? ==> Left(e.worker) < Left(w))
  {
    if w.phase.Working? {
      OneMore(batch, w.next, process);
      assert batch[..w.next + 1] == batch[..w.next] + [batch[w.next]];
    }
  }

  /** A raised error does not make the others any worse. */
  lemma BystanderStaysGood<T, R>(w: Worker<T>, batch: seq<T>, before: Option<string>, after: Option<string>, process: Processing<T, R>)
    requires GoodWorker(w, batch, before, process) && (before.Some? ==> after.Some?)
    ensures GoodWorker(w, batch, after, process)
  {
  }

  lemma ErrorInJoin<T, R>(batches: seq<seq<T>>, i: nat, error: string, process: Processing<T, R>)
    requires i < |batches| && ErrorOf(batches[i], error, process)
    ensures ErrorOf(Join(batches), error, process)
  {
    var t :| t in batches[i] && process(t) == Fatal(error);
    BatchInJoin(batches, i, t);
  }

  lemma StepInv<T, R>(s: State<T, R>, batches: seq<seq<T>>, i: nat, process: Processing<T, R>)
    requires Inv(s, batches, process) && i < |s.workers|
    ensures Inv(Step(s, i, process), batches, process)
  {
    var w, next := s.workers[i], Step(s, i, process);
    var e := Move(w, s.fatal, process);
    MoveKeepsGood(w, batches[i], s.fatal, process);
    forall k | 0 <= k < |batches|
      ensures GoodWorker(next.workers[k], batches[k], next.fatal, process)
    {
      if k != i {
        BystanderStaysGood(s.workers[k], batches[k], s.fatal, e.fatal, process);
      }
    }
    if e.fatal != s.fatal {
      ErrorInJoin(batches, i, e.fatal.value, process);
    }
    PushedUpdate(s.workers, i, e.worker, multiset(e.added), process);
  }

  lemma {:induction false} ExecuteInv<T, R>(batches: seq<seq<T>>, schedule: seq<nat>, process: Processing<T, R>)
    ensures Inv(Execute(Start(batches), schedule, process), batches, process)
  {
    if schedule == [] {
      StartInv(batches, process);
    } else {
      ExecuteInv(batches, schedule[..|schedule| - 1], process);
      var before, i := Execute(Start(batches), schedule[..|schedule| - 1], process), schedule[|schedule| - 1];
      if i < |before.workers| {
        StepInv(before, batches, i, process);
      }
    }
  }

  // What a finished interleaving means

  lemma {:induction false} AllPushed<T, R>(ws: seq<Worker<T>>, batches: seq<seq<T>>, process: Processing<T, R>)
    requires |ws| == |batches|
    requires forall i | 0 <= i < |ws| :: ws[i].batch == batches[i] && ws[i].next == |batches[i]|
    ensures Pushed(ws, process) == multiset(Sequential(Join(batches), process))
  {
    if ws != [] {
      var n := |ws| - 1;
      AllPushed(ws[..n], batches[..n], process);
      JoinLast(batches);
      FlatMapSplits(Join(batches[..n]), batches[n], DoneOf(process));
      assert ws[n].batch[..ws[n].next] == batches[n];
    }
  }

  lemma {:induction false} JoinLast<T>(pieces: seq<seq<T>>)
    requires pieces != []
    ensures Join(pieces) == Join(pieces[..|pieces| - 1]) + pieces[|pieces| - 1]
  {
    if |pieces| == 1 {
      assert pieces[1..] == [] && pieces[..0] == [];
    } else {
      JoinLast(pieces[1..]);
      assert pieces[..|pieces| - 1][1..] == pieces[1..][..|pieces| - 2];
    }
  }

  lemma {:induction false} InSomeBatch<T>(batches: seq<seq<T>>, t: T) returns (i: nat)
    requires t in Join(batches)
    ensures i < |batches| && t in batches[i]
  {
    if t in batches[0] {
      i := 0;
    } else {
      var j := InSomeBatch(batches[1..], t);
      i := j + 1;
    }
  }

  /** A finished state without a fatal error has been through every transaction. */
  lemma FinishedMeaning<T, R>(s: State<T, R>, batches: seq<seq<T>>, process: Processing<T, R>)
    requires Inv(s, batches, process) && Complete(s)
    ensures s.fatal.None? <==> forall t | t in Join(batches) :: !process(t).Fatal?
    ensures s.fatal.None? ==> multiset(s.results) == multiset(Sequential(Join(batches), process))
  {
    assert forall i | 0 <= i < |batches| :: GoodWorker(s.workers[i], batches[i], s.fatal, process) && s.workers[i].phase.Stopped?;
    if s.fatal.None? {
      AllPushed(s.workers, batches, process);
      forall t | t in Join(batches)
        ensures !process(t).Fatal?
      {
        var i := InSomeBatch(batches, t);
        assert batches[i][..s.workers[i].next] == batches[i];
      }
    }
  }

  /**
   Schedule independence. In every complete interleaving the pool fails exactly when some
   item has a fatal outcome, with the error of such an item; otherwise the results are a
   permutation of what processing the items one after the other collects.
   */
  lemma EveryScheduleAgrees<T, R>(items: seq<T>, schedule: seq<nat>, process: Processing<T, R>)
    requires Complete(Execute(Start(Batches(items)), schedule, process))
    ensures var end := Execute(Start(Batches(items)), schedule, process);
      && (end.fatal.None? <==> forall t | t in items :: !process(t).Fatal?)
      && (end.fatal.None? ==> multiset(end.results) == multiset(Sequential(items, process)))
      && (end.fatal.Some? ==> ErrorOf(items, end.fatal.value, process))
  {
    var batches := Batches(items);
    BatchesMeaning(items);
    ExecuteInv(batches, schedule, process);
    FinishedMeaning(Execute(Start(batches), schedule, process), batches, process);
  }

  // Progress

  function Left<T>(w: Worker<T>): nat {
    match w.phase
    case Stopped => 0
    case Checking => (if w.next < |w.batch| then 2 * (|w.batch| - w.next) else 0) + 2
    case Working => (if w.next < |w.batch| then 2 * (|w.batch| - w.next) else 0) + 1
  }

  /** Steps the workers can still take together. */
  function Measure<T>(ws: seq<Worker<T>>): nat {
    if ws == [] then 0 else Measure(ws[..|ws| - 1]) + Left(ws[|ws| - 1])
  }

  lemma {:induction false} MeasureUpdate<T>(ws: seq<Worker<T>>, i: nat, w: Worker<T>)
    requires i < |ws|
    ensures Measure(ws[i := w]) == Measure(ws) - Left(ws[i]) + Left(w)
  {
    var n := |ws| - 1;
    if i == n {
      assert ws[i := w][..n] == ws[..n];
    } else {
      MeasureUpdate(ws[..n], i, w);
      assert ws[i := w][..n] == ws[..n][i := w];
    }
  }

  /** Every move of an unfinished worker uses up one step, so no interleaving runs for ever and none gets stuck. */
  lemma StepProgresses<T, R>(s: State<T, R>, batches: seq<seq<T>>, i: nat, process: Processing<T, R>)
    requires Inv(s, batches, process) && i < |s.workers| && !s.workers[i].phase.Stopped?
    ensures Measure(Step(s, i, process).workers) < Measure(s.workers)
  {
    MoveKeepsGood(s.workers[i], batches[i], s.fatal, process);
    MeasureUpdate(s.workers, i, Step(s, i, process).workers[i]);
  }

  /** The pool under an arbitrary scheduler: whichever unfinished worker moves next. */
  method RunPool<T(==), R>(items: seq<T>, process: Processing<T, R>) returns (end: State<T, R>)
    ensures end.fatal.None? <==> forall t | t in items :: !process(t).Fatal?
    ensures end.fatal.None? ==> multiset(end.results) == multiset(Sequential(items, process))
    ensures end.fatal.Some? ==> ErrorOf(items, end.fatal.value, process)
  {
    var batches := Batches(items);
    BatchesMeaning(items);
    StartInv(batches, process);
    end := Start(batches);
    while !Complete(end)
      invariant Inv(end, batches, process)
      decreases Measure(end.workers)
    {
      var i :| 0 <= i < |end.workers| && !end.workers[i].phase.Stopped?;
      StepInv(end, batches, i, process);
      StepProgresses(end, batches, i, process);
      end := Step(end, i, process);
    }
    FinishedMeaning(end, batches, process);
  }
}
