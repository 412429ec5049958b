/** `BlockPoller::run`: following the tip, block by block, with backoff while the tip cannot be read. */
module Poller {
  import opened Options

  /** What the poller sees and does, in order. */
  datatype Entry =
    | Seen(tip: nat)
    | TipUnknown
    | Attempt(height: nat, ok: bool)

  /** One tick: the tip, if it could be read, and which heights would be processed successfully now. */
  datatype Tick = Tick(tip: Option<nat>, succeeds: nat -> bool)

  datatype State = State(last: Option<nat>, log: seq<Entry>)

  /** Process from..upTo in order, stopping at the first failure. */
  function Advance(s: State, from: nat, upTo: nat, succeeds: nat -> bool): State
    decreases upTo + 1 - from
  {
    if from > upTo then s
    else if succeeds(from) then Advance(State(Some(from), s.log + [Attempt(from, true)]), from + 1, upTo, succeeds)
    else s.(log := s.log + [Attempt(from, false)])
  }

  function TickOnce(s: State, startHeight: Option<nat>, t: Tick): State {
    match t.tip
    case None => s.(log := s.log + [TipUnknown])
    case Some(tip) =>
      var seen := s.log + [Seen(tip)];
      match s.last
      case None =>
        State(Some(tip), if startHeight.None? then seen + [Attempt(tip, t.succeeds(tip))] else seen)
      case Some(prev) =>
        if tip > prev then Advance(State(s.last, seen), prev + 1, tip, t.succeeds)
        else if tip < prev then State(Some(tip), seen)
        else State(s.last, seen)
  }

  function Run(startHeight: Option<nat>, ticks: seq<Tick>): State {
    if ticks == [] then State(None, [])
    else TickOnce(Run(startHeight, ticks[..|ticks| - 1]), startHeight, ticks[|ticks| - 1])
  }

  const BACKOFF_CAP: nat := 30000

  class BlockPoller {
    const pollInterval: nat
    const startHeight: Option<nat>
    var lastHeight: Option<nat>
    var backoff: nat
    ghost var log: seq<Entry>

    constructor (pollInterval: nat, startHeight: Option<nat>)
      ensures this.pollInterval == pollInterval && this.startHeight == startHeight
      ensures State(lastHeight, log) == Run(startHeight, [])
      ensures backoff == if pollInterval < 250 then 250 else pollInterval
    {
      this.pollInterval, this.startHeight := pollInterval, startHeight;
      lastHeight, log := None, [];
      backoff := if pollInterval < 250 then 250 else pollInterval;
    }

    /** One turn of the loop. */
    method Turn(t: Tick)
      modifies this
      ensures State(lastHeight, log) == TickOnce(old(State(lastHeight, log)), startHeight, t)
      ensures backoff == if t.tip.Some? then pollInterval else if 2 * old(backoff) < BACKOFF_CAP then 2 * old(backoff) else BACKOFF_CAP
    {
      match t.tip {
        case None =>
          log := log + [TipUnknown];
          backoff := if 2 * backoff < BACKOFF_CAP then 2 * backoff else BACKOFF_CAP;
        case Some(tip) =>
          backoff := pollInterval;
          log := log + [Seen(tip)];
          match lastHeight {
            case None =>
              if startHeight.None? {
                log := log + [Attempt(tip, t.succeeds(tip))];
              }
              lastHeight := Some(tip);
            case Some(prev) =>
              if tip > prev {
                ProcessUpTo(prev + 1, tip, t.succeeds);
              } else if tip < prev {
                lastHeight := Some(tip);
              }
          }
      }
    }

    /** The inner loop: each success advances the pointer, the first failure breaks. */
    method ProcessUpTo(from: nat, upTo: nat, succeeds: nat -> bool)
      modifies this`lastHeight, this`log
      ensures State(lastHeight, log) == Advance(old(State(lastHeight, log)), from, upTo, succeeds)
    {
      var h := from;
      while h <= upTo
        invariant Advance(State(lastHeight, log), h, upTo, succeeds) == Advance(old(State(lastHeight, log)), from, upTo, succeeds)
        decreases upTo + 1 - h
      {
        log := log + [Attempt(h, succeeds(h))];
        if !succeeds(h) { return; }
        lastHeight := Some(h);
        h := h + 1;
      }
    }
  }

  // Coverage

  /** h was processed successfully, and since then no tip below h was seen. */
  ghost predicate Covered(log: seq<Entry>, h: nat) {
    exists i :: 0 <= i < |log| && log[i] == Attempt(h, true) && NoTipBelow(log[i + 1..], h)
  }

  ghost predicate NoTipBelow(log: seq<Entry>, h: nat) {
    forall k | 0 <= k < |log| && log[k].Seen? :: log[k].tip >= h
  }

  ghost predicate SomeTipBelow(log: seq<Entry>, h: nat) {
    exists k :: 0 <= k < |log| && log[k].Seen? && log[k].tip < h
  }

  ghost predicate Coverage(s: State) {
    && (s.last.None? ==> forall k | 0 <= k < |s.log| :: !s.log[k].Seen?)
    && (s.last.Some? ==> forall h: nat | h <= s.last.value && SomeTipBelow(s.log, h) :: Covered(s.log, h))
  }

  /** Entries that are no lower tips do not undo coverage. */
  lemma CoveredStays(log: seq<Entry>, e: Entry, h: nat)
    requires Covered(log, h) && (e.Seen? ==> e.tip >= h)
    ensures Covered(log + [e], h)
  {
    var i :| 0 <= i < |log| && log[i] == Attempt(h, true) && NoTipBelow(log[i + 1..], h);
    assert (log + [e])[i] == Attempt(h, true);
    assert (log + [e])[i + 1..] == log[i + 1..] + [e];
  }

  lemma TipBelowOf(log: seq<Entry>, e: Entry, h: nat)
    requires SomeTipBelow(log + [e], h)
    ensures SomeTipBelow(log, h) || (e.Seen? && e.tip < h)
  {
    var k :| 0 <= k < |log + [e]| && (log + [e])[k].Seen? && (log + [e])[k].tip < h;
    if k < |log| {
      assert log[k].Seen? && log[k].tip < h;
    }
  }

  /** Seeing a tip keeps what lies at or below both the pointer and the tip. */
  lemma SeenKeepsCoverage(s: State, tip: nat, last: nat)
    requires Coverage(s) && s.last.Some? && last <= s.last.value && last <= tip
    ensures Coverage(State(Some(last), s.log + [Seen(tip)]))
  {
    forall h: nat | h <= last && SomeTipBelow(s.log + [Seen(tip)], h)
      ensures Covered(s.log + [Seen(tip)], h)
    {
      TipBelowOf(s.log, Seen(tip), h);
      CoveredStays(s.log, Seen(tip), h);
    }
  }

  lemma AttemptKeepsCoverage(s: State, h: nat, ok: bool)
    requires Coverage(s) && s.last.Some?
    ensures Coverage(s.(log := s.log + [Attempt(h, ok)]))
    ensures ok && h == s.last.value + 1 ==> Coverage(State(Some(h), s.log + [Attempt(h, ok)]))
  {
    var log := s.log + [Attempt(h, ok)];
    forall g: nat | g <= s.last.value && SomeTipBelow(log, g)
      ensures Covered(log, g)
    {
      TipBelowOf(s.log, Attempt(h, ok), g);
      CoveredStays(s.log, Attempt(h, ok), g);
    }
    if ok && h == s.last.value + 1 {
      assert log[|s.log|] == Attempt(h, true) && log[|s.log| + 1..] == [];
      assert Covered(log, h);
    }
  }

  lemma {:induction false} AdvanceKeepsCoverage(s: State, from: nat, upTo: nat, succeeds: nat -> bool)
    requires Coverage(s) && s.last == Some(from - 1) && from > 0
    ensures Coverage(Advance(s, from, upTo, succeeds))
    decreases upTo + 1 - from
  {
    if from <= upTo {
      AttemptKeepsCoverage(s, from, succeeds(from));
      if succeeds(from) {
        AdvanceKeepsCoverage(State(Some(from), s.log + [Attempt(from, true)]), from + 1, upTo, succeeds);
      }
    }
  }

  lemma FirstTick(s: State, startHeight: Option<nat>, t: Tick)
    requires Coverage(s) && s.last.None? && t.tip.Some?
    ensures Coverage(TickOnce(s, startHeight, t))
  {
    var next := TickOnce(s, startHeight, t);
    forall h: nat | h <= t.tip.value
      ensures !SomeTipBelow(next.log, h)
    {
      assert forall k | 0 <= k < |next.log| && next.log[k].Seen? :: k == |s.log|;
    }
  }

  lemma TickKeepsCoverage(s: State, startHeight: Option<nat>, t: Tick)
    requires Coverage(s)
    ensures Coverage(TickOnce(s, startHeight, t))
  {
    match t.tip {
      case None =>
        var log := s.log + [TipUnknown];
        if s.last.Some? {
          forall h: nat | h <= s.last.value && SomeTipBelow(log, h) ensures Covered(log, h) {
            TipBelowOf(s.log, TipUnknown, h);
            CoveredStays(s.log, TipUnknown, h);
          }
        }
      case Some(tip) =>
        if s.last.None? {
          FirstTick(s, startHeight, t);
        } else {
          var prev := s.last.value;
          if tip < prev {
            SeenKeepsCoverage(s, tip, tip);
          } else {
            SeenKeepsCoverage(s, tip, prev);
            AdvanceKeepsCoverage(State(s.last, s.log + [Seen(tip)]), prev + 1, tip, t.succeeds);
          }
        }
    }
  }

  /**
   Over every run of tips, failures and drops: each height at or below the pointer that
   lies above some observed tip was processed successfully, and after the most recent
   tip seen below it.
   */
  lemma {:induction false} EveryPassedHeightIsCovered(startHeight: Option<nat>, ticks: seq<Tick>)
    ensures Coverage(Run(startHeight, ticks))
  {
    if ticks != [] {
      EveryPassedHeightIsCovered(startHeight, ticks[..|ticks| - 1]);
      TickKeepsCoverage(Run(startHeight, ticks[..|ticks| - 1]), startHeight, ticks[|ticks| - 1]);
    }
  }

  // Which height is attempted next

  /** The pointer as the log tells it: tips only ever lower it, successes set it. */
  function Pointer(log: seq<Entry>): Option<nat> {
    if log == [] then None
    else
      var before := Pointer(log[..|log| - 1]);
      match log[|log| - 1]
      case Seen(tip) => if before.None? || tip < before.value then Some(tip) else before
      case Attempt(h, true) => Some(h)
      case _ => before
  }

  lemma PointerStep(log: seq<Entry>, e: Entry)
    ensures Pointer(log + [e]) ==
      match e
      case Seen(tip) => (if Pointer(log).None? || tip < Pointer(log).value then Some(tip) else Pointer(log))
      case Attempt(h, true) => Some(h)
      case _ => Pointer(log)
  {
    assert (log + [e])[..|log|] == log;
  }

  /** The log has just seen its first tip. */
  ghost predicate JustOpened(log: seq<Entry>) {
    log != [] && log[|log| - 1].Seen? && Pointer(log[..|log| - 1]).None?
  }

  /** j is the attempt of the very first tick. */
  ghost predicate Opening(log: seq<Entry>, j: nat) {
    j <= |log| && JustOpened(log[..j])
  }

  /** After the opening tip the attempt is for the tip itself, else for the height right above the pointer. */
  ghost predicate FitsAfter(before: seq<Entry>, h: nat) {
    if JustOpened(before) then h == before[|before| - 1].tip
    else Pointer(before).Some? && h == Pointer(before).value + 1
  }

  ghost predicate Steady(log: seq<Entry>) {
    forall j: nat | j < |log| && log[j].Attempt? :: FitsAfter(log[..j], log[j].height)
  }

  lemma SteadyStep(log: seq<Entry>, e: Entry)
    requires Steady(log) && (e.Attempt? ==> FitsAfter(log, e.height))
    ensures Steady(log + [e])
  {
    var more := log + [e];
    forall j: nat | j < |more| && more[j].Attempt?
      ensures FitsAfter(more[..j], more[j].height)
    {
      assert more[..j] == if j < |log| then log[..j] else log;
      assert j < |log| ==> more[j] == log[j];
    }
  }

  ghost predicate Follows(s: State) {
    s.last == Pointer(s.log) && Steady(s.log)
  }

  lemma {:induction false} AdvanceFollows(s: State, from: nat, upTo: nat, succeeds: nat -> bool)
    requires Follows(s) && from > 0 && s.last == Some(from - 1) && !JustOpened(s.log)
    ensures Follows(Advance(s, from, upTo, succeeds))
    decreases upTo + 1 - from
  {
    if from <= upTo {
      var e := Attempt(from, succeeds(from));
      SteadyStep(s.log, e);
      PointerStep(s.log, e);
      if succeeds(from) {
        AdvanceFollows(State(Some(from), s.log + [Attempt(from, true)]), from + 1, upTo, succeeds);
      }
    }
  }

  lemma TickFollows(s: State, startHeight: Option<nat>, t: Tick, tip: nat)
    requires Follows(s) && t.tip == Some(tip)
    ensures Follows(TickOnce(s, startHeight, t))
  {
    var seen := s.log + [Seen(tip)];
    SteadyStep(s.log, Seen(tip));
    PointerStep(s.log, Seen(tip));
    assert seen[..|s.log|] == s.log;
    if s.last.None? {
      var e := Attempt(tip, t.succeeds(tip));
      SteadyStep(seen, e);
      PointerStep(seen, e);
    } else if tip > s.last.value {
      AdvanceFollows(State(s.last, seen), s.last.value + 1, tip, t.succeeds);
    }
  }

  lemma {:induction false} RunFollows(startHeight: Option<nat>, ticks: seq<Tick>)
    ensures Follows(Run(startHeight, ticks))
  {
    if ticks != [] {
      var s, t := Run(startHeight, ticks[..|ticks| - 1]), ticks[|ticks| - 1];
      RunFollows(startHeight, ticks[..|ticks| - 1]);
      if t.tip.Some? {
        TickFollows(s, startHeight, t, t.tip.value);
      } else {
        SteadyStep(s.log, TipUnknown);
        PointerStep(s.log, TipUnknown);
      }
    }
  }

  /** Without a tip below the pointer and without attempts, the pointer stands still. */
  lemma {:induction false} PointerHolds(log: seq<Entry>, i: nat, j: nat)
    requires i <= j <= |log| && Pointer(log[..i]).Some?
    requires forall k | i <= k < j :: !log[k].Attempt? && (log[k].Seen? ==> log[k].tip >= Pointer(log[..i]).value)
    ensures Pointer(log[..j]) == Pointer(log[..i])
    decreases j
  {
    if i < j {
      PointerHolds(log, i, j - 1);
      assert log[..j] == log[..j - 1] + [log[j - 1]];
      PointerStep(log[..j - 1], log[j - 1]);
    }
  }

  /**
   Unless a lower tip is seen in between, the attempt after a failed one is for the same
   height, and the attempt after a successful one for the next. The one exception is a
   failure in the first tick, which moves on to the next height as if it had succeeded.
   */
  lemma NextAttempt(startHeight: Option<nat>, ticks: seq<Tick>, i: nat, j: nat)
    requires var log := Run(startHeight, ticks).log;
      && i < j < |log| && log[i].Attempt? && log[j].Attempt?
      && (forall k | i < k < j :: !log[k].Attempt?)
      && (forall k | i < k < j && log[k].Seen? :: log[k].tip >= if log[i].ok || Opening(log, i) then log[i].height else log[i].height - 1)
    ensures var log := Run(startHeight, ticks).log;
      log[j].height == if log[i].ok || Opening(log, i) then log[i].height + 1 else log[i].height
  {
    var log := Run(startHeight, ticks).log;
    RunFollows(startHeight, ticks);
    PointerAfterAttempt(log, i);
    PointerHolds(log, i + 1, j);
    NotOpeningAgain(log, i, j);
    assert FitsAfter(log[..j], log[j].height);
  }

  const FAILED_OPENING := [Tick(Some(5), (h: nat) => false), Tick(Some(6), (h: nat) => true)]

  /** Such a run: height 5 fails in the first tick, the pointer moves there all the same, and 6 is next. */
  lemma FailedOpeningIsPassed()
    ensures Run(None, FAILED_OPENING[..1]) == State(Some(5), [Seen(5), Attempt(5, false)])
    ensures Run(None, FAILED_OPENING) == State(Some(6), [Seen(5), Attempt(5, false), Seen(6), Attempt(6, true)])
    ensures Attempt(5, true) !in Run(None, FAILED_OPENING).log
  {
    var s0, s1 := State(None, []), State(Some(5), [Seen(5), Attempt(5, false)]);
    var ticks := FAILED_OPENING;
    assert ticks[..1][..0] == [] && ticks[..1][0] == ticks[0];
    assert Run(None, ticks[..1]) == TickOnce(s0, None, ticks[0]) == s1;
    var seen := State(Some(5), s1.log + [Seen(6)]);
    assert TickOnce(s1, None, ticks[1]) == Advance(seen, 6, 6, ticks[1].succeeds);
    assert Advance(State(Some(6), seen.log + [Attempt(6, true)]), 7, 6, ticks[1].succeeds) == State(Some(6), seen.log + [Attempt(6, true)]);
  }

  /** After a drop to tip t, and until a lower one, the next attempt is for t + 1: t itself is not processed again. */
  lemma AttemptAfterDrop(startHeight: Option<nat>, ticks: seq<Tick>, i: nat, j: nat)
    requires var log := Run(startHeight, ticks).log;
      && i < j < |log| && log[i].Seen? && log[j].Attempt?
      && Pointer(log[..i]).Some? && log[i].tip < Pointer(log[..i]).value
      && (forall k | i < k < j :: !log[k].Attempt?)
      && (forall k | i < k < j && log[k].Seen? :: log[k].tip >= log[i].tip)
    ensures var log := Run(startHeight, ticks).log; log[j].height == log[i].tip + 1
  {
    var log := Run(startHeight, ticks).log;
    RunFollows(startHeight, ticks);
    PointerAfterDrop(log, i, j);
    assert FitsAfter(log[..j], log[j].height);
  }

  const DROP := [Tick(Some(5), (h: nat) => true), Tick(Some(3), (h: nat) => true), Tick(Some(4), (h: nat) => true)]

  /** Such a run: after the drop from 5 to 3 the next attempt is 4, and 3 is never attempted. */
  lemma DroppedTipIsSkipped()
    ensures Run(None, DROP) == State(Some(4), [Seen(5), Attempt(5, true), Seen(3), Seen(4), Attempt(4, true)])
    ensures forall e | e in Run(None, DROP).log && e.Attempt? :: e.height != 3
  {
    var s1, s2 := State(Some(5), [Seen(5), Attempt(5, true)]), State(Some(3), [Seen(5), Attempt(5, true), Seen(3)]);
    assert DROP[..2][..1] == DROP[..1] && DROP[..1][..0] == [] && DROP[..1][0] == DROP[0] && DROP[..2][1] == DROP[1];
    assert Run(None, DROP[..1]) == TickOnce(State(None, []), None, DROP[0]) == s1;
    assert Run(None, DROP[..2]) == TickOnce(s1, None, DROP[1]) == s2;
    var seen := State(Some(3), s2.log + [Seen(4)]);
    assert TickOnce(s2, None, DROP[2]) == Advance(seen, 4, 4, DROP[2].succeeds);
    assert Advance(State(Some(4), seen.log + [Attempt(4, true)]), 5, 4, DROP[2].succeeds) == State(Some(4), seen.log + [Attempt(4, true)]);
  }

  lemma PointerAfterDrop(log: seq<Entry>, i: nat, j: nat)
    requires i < j <= |log| && log[i].Seen? && Pointer(log[..i]).Some? && log[i].tip < Pointer(log[..i]).value
    requires forall k | i < k < j :: !log[k].Attempt? && (log[k].Seen? ==> log[k].tip >= log[i].tip)
    ensures Pointer(log[..j]) == Some(log[i].tip) && !JustOpened(log[..j])
  {
    assert log[..i + 1] == log[..i] + [log[i]];
    PointerStep(log[..i], log[i]);
    PointerHolds(log, i + 1, j);
    PointerKnown(log, i, j - 1);
    assert log[..j][..j - 1] == log[..j - 1];
  }

  lemma PointerAfterAttempt(log: seq<Entry>, i: nat)
    requires Steady(log) && i < |log| && log[i].Attempt?
    ensures Pointer(log[..i + 1]) == Some(if log[i].ok || Opening(log, i) then log[i].height else log[i].height - 1)
  {
    var before := log[..i];
    assert log[..i + 1] == before + [log[i]];
    PointerStep(before, log[i]);
    assert FitsAfter(before, log[i].height);
    if JustOpened(before) {
      assert before == before[..i - 1] + [before[i - 1]];
      PointerStep(before[..i - 1], before[i - 1]);
    }
  }

  lemma NotOpeningAgain(log: seq<Entry>, i: nat, j: nat)
    requires i < j < |log| && log[i].Attempt? && Pointer(log[..i + 1]).Some?
    ensures !Opening(log, j)
  {
    assert log[..j][..j - 1] == log[..j - 1];
    if i + 1 < j {
      PointerKnown(log, i + 1, j - 1);
    }
  }

  /** Once a tip was seen the pointer is known for good. */
  lemma {:induction false} PointerKnown(log: seq<Entry>, i: nat, j: nat)
    requires i <= j <= |log| && Pointer(log[..i]).Some?
    ensures Pointer(log[..j]).Some?
    decreases j
  {
    if i < j {
      PointerKnown(log, i, j - 1);
      assert log[..j] == log[..j - 1] + [log[j - 1]];
      PointerStep(log[..j - 1], log[j - 1]);
    }
  }
}
