/** `CatchUpCoordinator::run_once` over the durable progress cell of `ProgressStore`. */
module Coordinator {
  import opened Options

  /** What happened to each height: processed, with the outcome, or its number recorded as progress. */
  datatype Entry = Processed(height: nat, ok: bool) | Recorded(height: nat)

  /** How far a pass gets with one height. */
  datatype Fate =
    | Dies                // crash before the block was processed
    | Fails               // processing failed: the pass breaks
    | DiesUnrecorded      // processed, then a crash or a failed progress write
    | Succeeds

  /** One pass: the tip and the progress cell, if both could be read, and the fate of each height. */
  datatype Pass = Pass(tip: Option<nat>, fate: nat -> Fate)

  datatype State = State(stored: Option<nat>, log: seq<Entry>)

  /** Heights h..tip in order, until one does not get through. */
  function CatchUp(s: State, h: nat, tip: nat, fate: nat -> Fate): State
    decreases tip + 1 - h
  {
    if h > tip then s
    else
      match fate(h)
      case Dies => s
      case Fails => s.(log := s.log + [Processed(h, false)])
      case DiesUnrecorded => s.(log := s.log + [Processed(h, true)])
      case Succeeds => CatchUp(State(Some(h), s.log + [Processed(h, true), Recorded(h)]), h + 1, tip, fate)
  }

  function NextHeight(stored: Option<nat>, start: nat): nat {
    if stored.Some? then stored.value + 1 else start
  }

  function RunOnce(s: State, startHeight: Option<nat>, p: Pass): State {
    if startHeight.None? || p.tip.None? then s
    else CatchUp(s, NextHeight(s.stored, startHeight.value), p.tip.value, p.fate)
  }

  /** Passes one after the other; the process may have been restarted before any of them. */
  function RunAll(startHeight: Option<nat>, passes: seq<Pass>): State {
    if passes == [] then State(None, [])
    else RunOnce(RunAll(startHeight, passes[..|passes| - 1]), startHeight, passes[|passes| - 1])
  }

  /** The one durable key: it survives the coordinator. */
  class ProgressStore {
    var stored: Option<nat>

    constructor ()
      ensures stored == None
    {
      stored := None;
    }

    method Get() returns (height: Option<nat>)
      ensures height == stored
    {
      height := stored;
    }

    method Set(height: nat)
      modifies this
      ensures stored == Some(height)
    {
      stored := Some(height);
    }
  }

  class CatchUpCoordinator {
    const startHeight: Option<nat>
    const progress: ProgressStore
    ghost var log: seq<Entry>

    constructor (startHeight: Option<nat>, progress: ProgressStore)
      ensures this.startHeight == startHeight && this.progress == progress && log == []
    {
      this.startHeight, this.progress, log := startHeight, progress, [];
    }

    method RunPass(p: Pass)
      modifies this, progress
      ensures State(progress.stored, log) == RunOnce(old(State(progress.stored, log)), startHeight, p)
    {
      if startHeight.None? || p.tip.None? { return; }
      var last := progress.Get();
      var h := NextHeight(last, startHeight.value);
      while h <= p.tip.value
        invariant CatchUp(State(progress.stored, log), h, p.tip.value, p.fate)
               == RunOnce(old(State(progress.stored, log)), startHeight, p)
        decreases p.tip.value + 1 - h
      {
        match p.fate(h) {
          case Dies => return;
          case Fails =>
            log := log + [Processed(h, false)];
            return;
          case DiesUnrecorded =>
            log := log + [Processed(h, true)];
            return;
          case Succeeds =>
            ghost var before := log;
            log := log + [Processed(h, true)];
            progress.Set(h);
            log := log + [Recorded(h)];
            assert log == before + [Processed(h, true), Recorded(h)];
            h := h + 1;
        }
      }
    }
  }

  // Every run

  /** The stored progress as the log tells it. */
  function LastRecorded(log: seq<Entry>): Option<nat> {
    if log == [] then None
    else if log[|log| - 1].Recorded? then Some(log[|log| - 1].height)
    else LastRecorded(log[..|log| - 1])
  }

  lemma LastRecordedStep(log: seq<Entry>, e: Entry)
    ensures LastRecorded(log + [e]) == if e.Recorded? then Some(e.height) else LastRecorded(log)
  {
    assert (log + [e])[..|log|] == log;
  }

  /** The entry is about the height right after the progress stored so far; recording follows success at once. */
  ghost predicate FitsAfter(before: seq<Entry>, e: Entry, start: nat) {
    && e.height == NextHeight(LastRecorded(before), start)
    && (e.Recorded? ==> before != [] && before[|before| - 1] == Processed(e.height, true))
  }

  ghost predicate Orderly(log: seq<Entry>, start: nat) {
    forall j: nat | j < |log| :: FitsAfter(log[..j], log[j], start)
  }

  lemma OrderlyStep(log: seq<Entry>, e: Entry, start: nat)
    requires Orderly(log, start) && FitsAfter(log, e, start)
    ensures Orderly(log + [e], start)
  {
    var more := log + [e];
    forall j: nat | j < |more|
      ensures FitsAfter(more[..j], more[j], start)
    {
      assert more[..j] == if j < |log| then log[..j] else log;
      assert j < |log| ==> more[j] == log[j];
    }
  }

  lemma OrderlyFront(log: seq<Entry>, start: nat)
    requires Orderly(log, start) && log != []
    ensures Orderly(log[..|log| - 1], start) && FitsAfter(log[..|log| - 1], log[|log| - 1], start)
  {
    var front := log[..|log| - 1];
    forall j: nat | j < |front|
      ensures FitsAfter(front[..j], front[j], start)
    {
      assert front[..j] == log[..j] && front[j] == log[j];
    }
  }

  ghost predicate Inv(s: State, start: nat) {
    s.stored == LastRecorded(s.log) && Orderly(s.log, start)
  }

  lemma {:induction false} CatchUpKeepsInv(s: State, h: nat, tip: nat, fate: nat -> Fate, start: nat)
    requires Inv(s, start) && h == NextHeight(s.stored, start)
    ensures Inv(CatchUp(s, h, tip, fate), start)
    decreases tip + 1 - h
  {
    if h <= tip {
      match fate(h) {
        case Dies =>
        case Fails => LogProcessed(s, h, false, start);
        case DiesUnrecorded => LogProcessed(s, h, true, start);
        case Succeeds =>
          var next := State(Some(h), s.log + [Processed(h, true), Recorded(h)]);
          LogRecorded(s, h, start);
          CatchUpKeepsInv(next, h + 1, tip, fate, start);
      }
    }
  }

  lemma LogProcessed(s: State, h: nat, ok: bool, start: nat)
    requires Inv(s, start) && h == NextHeight(s.stored, start)
    ensures Inv(s.(log := s.log + [Processed(h, ok)]), start)
  {
    OrderlyStep(s.log, Processed(h, ok), start);
    LastRecordedStep(s.log, Processed(h, ok));
  }

  lemma LogRecorded(s: State, h: nat, start: nat)
    requires Inv(s, start) && h == NextHeight(s.stored, start)
    ensures Inv(State(Some(h), s.log + [Processed(h, true), Recorded(h)]), start)
  {
    LogProcessed(s, h, true, start);
    var log := s.log + [Processed(h, true)];
    OrderlyStep(log, Recorded(h), start);
    LastRecordedStep(log, Recorded(h));
    assert log + [Recorded(h)] == s.log + [Processed(h, true), Recorded(h)];
  }

  lemma {:induction false} RunAllInv(start: nat, passes: seq<Pass>)
    ensures Inv(RunAll(Some(start), passes), start)
  {
    if passes != [] {
      var s, p := RunAll(Some(start), passes[..|passes| - 1]), passes[|passes| - 1];
      RunAllInv(start, passes[..|passes| - 1]);
      if p.tip.Some? {
        CatchUpKeepsInv(s, NextHeight(s.stored, start), p.tip.value, p.fate, start);
      }
    }
  }

  /** Everything from the start height to the last recorded one was processed successfully. */
  lemma {:induction false} RecordedMeansProcessed(log: seq<Entry>, start: nat, h: nat)
    requires Orderly(log, start) && LastRecorded(log).Some? && start <= h <= LastRecorded(log).value
    ensures Processed(h, true) in log
  {
    var n := |log| - 1;
    var front := log[..n];
    OrderlyFront(log, start);
    if log[n].Recorded? && h == log[n].height {
      assert front[n - 1] == Processed(h, true);
      assert log[n - 1] == Processed(h, true);
    } else {
      RecordedMeansProcessed(front, start, h);
      assert log == front + [log[n]];
    }
  }

  /** The recorded height never goes down along the log. */
  lemma {:induction false} RecordedOnlyGrows(log: seq<Entry>, start: nat, i: nat, j: nat)
    requires Orderly(log, start) && i <= j <= |log| && LastRecorded(log[..i]).Some?
    ensures LastRecorded(log[..j]).Some? && LastRecorded(log[..i]).value <= LastRecorded(log[..j]).value
    decreases j
  {
    if i < j {
      RecordedOnlyGrows(log, start, i, j - 1);
      assert log[..j] == log[..j - 1] + [log[j - 1]];
      LastRecordedStep(log[..j - 1], log[j - 1]);
    }
  }

  /**
   Across any passes with failures, crashes between processing and recording, and restarts,
   from empty progress: every height from the start height to the stored progress has been
   processed successfully; each height attempted is the one right after the progress stored
   at that moment; and a recorded height is never attempted again.
   */
  lemma CatchUpIsComplete(start: nat, passes: seq<Pass>)
    ensures var s := RunAll(Some(start), passes);
      && s.stored == LastRecorded(s.log)
      && (s.stored.Some? ==> forall h: nat | start <= h <= s.stored.value :: Processed(h, true) in s.log)
      && (forall j: nat | j < |s.log| :: s.log[j].height == NextHeight(LastRecorded(s.log[..j]), start))
      && (forall i: nat, j: nat | i < j < |s.log| && s.log[i].Recorded? :: s.log[j].height > s.log[i].height)
  {
    var s := RunAll(Some(start), passes);
    RunAllInv(start, passes);
    forall h: nat | s.stored.Some? && start <= h <= s.stored.value
      ensures Processed(h, true) in s.log
    {
      RecordedMeansProcessed(s.log, start, h);
    }
    forall j: nat | j < |s.log|
      ensures s.log[j].height == NextHeight(LastRecorded(s.log[..j]), start)
    {
      assert FitsAfter(s.log[..j], s.log[j], start);
    }
    forall i: nat, j: nat | i < j < |s.log| && s.log[i].Recorded?
      ensures s.log[j].height > s.log[i].height
    {
      assert s.log[..i + 1] == s.log[..i] + [s.log[i]];
      LastRecordedStep(s.log[..i], s.log[i]);
      RecordedOnlyGrows(s.log, start, i + 1, j);
    }
  }
}
