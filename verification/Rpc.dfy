/**
 The resilient RPC wrapper: a circuit breaker and a semaphore shared by concurrent
 callers, and a retry loop with exponential backoff. Tripping the breaker is one
 atomic step and the clock never goes back.
 */
module Rpc {
  import opened Arithmetic

  datatype Config = Config(maxAttempts: nat, baseDelay: nat, maxDelay: nat, cooldown: nat)

  /** How one attempt ends: a value, the known client error, or an error or timeout. */
  datatype Reply = Value | NonRetriable | Failure

  datatype Ending = Succeeded | GaveUp | Exhausted

  // One call's retry loop

  /** The pause after the attempt-th attempt. */
  function Delay(c: Config, attempt: nat, jitter: nat): nat
    requires attempt > 0
  {
    var d := Uncapped(c.baseDelay, attempt, jitter);
    if d < c.maxDelay then d else c.maxDelay
  }

  /** The attempts a call makes at most: at least one, whatever the limit says. */
  function Limit(c: Config): nat {
    if c.maxAttempts == 0 then 1 else c.maxAttempts
  }

  /**
   The loop of `resilient_call`. It ends with the first attempt that does not fail in a
   retriable way; it is exhausted, and trips the breaker, exactly when the first Limit
   attempts all fail so; it pauses between attempts for the computed delays.
   */
  method Retry(c: Config, replies: nat -> Reply, jitter: nat -> nat)
    returns (ending: Ending, attempts: nat, delays: seq<nat>)
    ensures 1 <= attempts <= Limit(c)
    ensures forall k | 1 <= k < attempts :: replies(k).Failure?
    ensures ending == match replies(attempts) case Value => Succeeded case NonRetriable => GaveUp case Failure => Exhausted
    ensures ending.Exhausted? <==> forall k | 1 <= k <= Limit(c) :: replies(k).Failure?
    ensures ending.Exhausted? ==> attempts == Limit(c)
    ensures |delays| == attempts - 1
    ensures forall k | 1 <= k < attempts :: delays[k - 1] == Delay(c, k, jitter(k))
  {
    attempts, delays := 0, [];
    while true
      invariant attempts < Limit(c) && |delays| == attempts
      invariant forall k | 1 <= k <= attempts :: replies(k).Failure? && delays[k - 1] == Delay(c, k, jitter(k))
      decreases Limit(c) - attempts
    {
      attempts := attempts + 1;
      match replies(attempts) {
        case Value => return Succeeded, attempts, delays;
        case NonRetriable => return GaveUp, attempts, delays;
        case Failure =>
      }
      if attempts >= c.maxAttempts {
        return Exhausted, attempts, delays;
      }
      delays := delays + [Delay(c, attempts, jitter(attempts))];
    }
  }

  const U64_MAX: nat := 0xFFFF_FFFF_FFFF_FFFF
  const U128_MAX: nat := 0xFFFF_FFFF_FFFF_FFFF_FFFF_FFFF_FFFF_FFFF

  /** The u128 intermediate of the delay, before the cap. */
  function Uncapped(base: nat, attempt: nat, jitter: nat): nat
    requires attempt > 0
  {
    base * Pow2(attempt - 1) + jitter
  }

  /** The intermediate fits its u128 for every 64-bit base and jitter exactly up to attempt 65. */
  lemma DelayFits(attempt: nat)
    requires attempt > 0
    ensures attempt <= 65 <==>
      forall base: nat, jitter: nat | base <= U64_MAX && jitter < base :: Uncapped(base, attempt, jitter) <= U128_MAX
  {
    WordPowers();
    if attempt <= 65 {
      forall base: nat, jitter: nat | base <= U64_MAX && jitter < base ensures Uncapped(base, attempt, jitter) <= U128_MAX {
        Pow2Grows(attempt - 1, 64);
        ProductBound(base, Pow2(attempt - 1), U64_MAX, Pow2(64));
      }
    } else {
      Pow2Grows(65, attempt - 1);
      ProductBound(U64_MAX, Pow2(65), U64_MAX, Pow2(attempt - 1));
      assert Uncapped(U64_MAX, attempt, 0) > U128_MAX;
    }
  }

  /**
   Backoff doubles below the cap and never shortens: the first pause is the base plus its
   jitter, each later one doubles the part without jitter, and the cap is held once reached.
   */
  lemma DelaysDouble(c: Config, attempt: nat, before: nat, after: nat)
    requires attempt > 0 && before < c.baseDelay
    ensures Delay(c, 1, before) == if c.baseDelay + before < c.maxDelay then c.baseDelay + before else c.maxDelay
    ensures Delay(c, attempt + 1, after) < c.maxDelay ==> Delay(c, attempt + 1, after) - after == 2 * (Delay(c, attempt, before) - before)
    ensures Delay(c, attempt, before) <= Delay(c, attempt + 1, after) <= c.maxDelay
  {
    var p := Pow2(attempt - 1);
    Pow2Positive(attempt - 1);
    assert Pow2(attempt) == 2 * p;
    Doubled(c.baseDelay, p);
  }

  lemma Doubled(base: nat, p: nat)
    requires p > 0
    ensures base * (2 * p) == 2 * (base * p) >= base * p + base
  {
    ProductLess(0, p, base);
    assert base * (2 * p) == 2 * (base * p) && base * p == p * base;
  }

  // Concurrent callers

  /** Where a caller stands: between calls, past the breaker, or holding a permit with some attempts made. */
  datatype Caller = Idle | Waiting | Holding(attempts: nat)

  datatype Entry =
    | Passed(time: nat)
    | Refused(time: nat)
    | Tripped(time: nat)
    | Ended(attempts: nat, ending: Ending)

  datatype State = State(now: nat, open: bool, lastOpen: nat, free: nat, callers: seq<Caller>, log: seq<Entry>)

  datatype Action =
    | Tick(later: nat)
    | Check(caller: nat)
    | Acquire(caller: nat)
    | Attempt(caller: nat, reply: Reply)

  /** `circuit_open`: refuse while cooling down, else let the call through and half-open. */
  function CheckStep(s: State, i: nat, c: Config): State
    requires i < |s.callers|
  {
    if s.open && s.now - s.lastOpen < c.cooldown then s.(log := s.log + [Refused(s.now)])
    else s.(open := false, callers := s.callers[i := Waiting], log := s.log + [Passed(s.now)])
  }

  /** One attempt of a caller that holds a permit; the permit is released when the call ends. */
  function AttemptStep(s: State, i: nat, attempts: nat, reply: Reply, c: Config): State
    requires i < |s.callers|
  {
    var made := attempts + 1;
    var freed := s.(free := s.free + 1, callers := s.callers[i := Idle]);
    match reply
    case Value => freed.(log := s.log + [Ended(made, Succeeded)])
    case NonRetriable => freed.(log := s.log + [Ended(made, GaveUp)])
    case Failure =>
      if made >= c.maxAttempts then
        freed.(open := true, lastOpen := s.now, log := s.log + [Tripped(s.now), Ended(made, Exhausted)])
      else s.(callers := s.callers[i := Holding(made)])
  }

  /** One atomic step; an action that does not apply changes nothing. */
  function Next(s: State, a: Action, c: Config): State {
    match a
    case Tick(later) => if later >= s.now then s.(now := later) else s
    case Check(i) => if i < |s.callers| && s.callers[i].Idle? then CheckStep(s, i, c) else s
    case Acquire(i) =>
      if i < |s.callers| && s.callers[i].Waiting? && s.free > 0
      then s.(free := s.free - 1, callers := s.callers[i := Holding(0)]) else s
    case Attempt(i, reply) =>
      if i < |s.callers| && s.callers[i].Holding? then AttemptStep(s, i, s.callers[i].attempts, reply, c) else s
  }

  function Run(s: State, actions: seq<Action>, c: Config): State {
    if actions == [] then s else Next(Run(s, actions[..|actions| - 1], c), actions[|actions| - 1], c)
  }

  function Start(callers: nat, permits: nat, now: nat): State {
    State(now, false, 0, permits, seq(callers, _ => Idle), [])
  }

  function Held(callers: seq<Caller>): nat {
    if callers == [] then 0
    else Held(callers[..|callers| - 1]) + (if callers[|callers| - 1].Holding? then 1 else 0)
  }

  lemma {:induction false} HeldUpdate(callers: seq<Caller>, i: nat, next: Caller)
    requires i < |callers|
    ensures Held(callers[i := next]) == Held(callers) - (if callers[i].Holding? then 1 else 0) + (if next.Holding? then 1 else 0)
  {
    var n := |callers| - 1;
    if i == n {
      assert callers[i := next][..n] == callers[..n];
    } else {
      HeldUpdate(callers[..n], i, next);
      assert callers[i := next][..n] == callers[..n][i := next];
    }
  }

  lemma {:induction false} NoneHeld(callers: seq<Caller>)
    requires forall i | 0 <= i < |callers| :: callers[i].Idle?
    ensures Held(callers) == 0
  {
    if callers != [] { NoneHeld(callers[..|callers| - 1]); }
  }

  ghost predicate TripsBy(log: seq<Entry>, limit: int) {
    forall e | e in log && e.Tripped? :: e.time <= limit
  }

  /** Every trip lies in the past, no later than the recorded one; a closed breaker means all have cooled down. */
  ghost predicate Breaker(s: State, c: Config) {
    && TripsBy(s.log, s.now)
    && (if s.open then s.lastOpen <= s.now && TripsBy(s.log, s.lastOpen) else TripsBy(s.log, s.now - c.cooldown))
  }

  /** No call passes the breaker sooner than the cooldown after any earlier trip. */
  ghost predicate Cooled(log: seq<Entry>, c: Config) {
    forall j | 0 <= j < |log| && log[j].Passed? :: TripsBy(log[..j], log[j].time - c.cooldown)
  }

  ghost predicate EndFits(log: seq<Entry>, i: nat, c: Config)
    requires i < |log|
  {
    match log[i]
    case Ended(attempts, ending) =>
      && 1 <= attempts <= Limit(c)
      && (ending.Exhausted? ==> attempts == Limit(c) && i > 0 && log[i - 1].Tripped?)
    case Tripped(_) => i + 1 < |log| && log[i + 1] == Ended(Limit(c), Exhausted)
    case _ => true
  }

  /** Calls end within the limit; the breaker trips just before a call ends exhausted, after all its attempts, and only then. */
  ghost predicate Ends(log: seq<Entry>, c: Config) {
    forall i | 0 <= i < |log| :: EndFits(log, i, c)
  }

  lemma EndsAppend(log: seq<Entry>, more: seq<Entry>, c: Config)
    requires Ends(log, c) && Ends(more, c)
    ensures Ends(log + more, c)
  {
    forall i | 0 <= i < |log + more| ensures EndFits(log + more, i, c) {
      if i < |log| { assert EndFits(log, i, c); } else { assert EndFits(more, i - |log|, c); }
    }
  }

  lemma CooledAppend(log: seq<Entry>, e: Entry, c: Config)
    requires Cooled(log, c) && (e.Passed? ==> TripsBy(log, e.time - c.cooldown))
    ensures Cooled(log + [e], c)
  {
    forall j | 0 <= j <= |log| && (log + [e])[j].Passed? ensures TripsBy((log + [e])[..j], (log + [e])[j].time - c.cooldown) {
      assert (log + [e])[..j] == log[..j];
      if j == |log| { assert log[..j] == log; }
    }
  }

  ghost predicate Inv(s: State, permits: nat, c: Config) {
    && s.free + Held(s.callers) == permits
    && Breaker(s, c) && Cooled(s.log, c) && Ends(s.log, c)
    && (forall i | 0 <= i < |s.callers| && s.callers[i].Holding? :: s.callers[i].attempts < Limit(c))
  }

  lemma CheckKeepsInv(s: State, i: nat, permits: nat, c: Config)
    requires Inv(s, permits, c) && i < |s.callers| && s.callers[i].Idle?
    ensures Inv(CheckStep(s, i, c), permits, c)
  {
    HeldUpdate(s.callers, i, Waiting);
    var e := if s.open && s.now - s.lastOpen < c.cooldown then Refused(s.now) else Passed(s.now);
    assert EndFits([e], 0, c);
    EndsAppend(s.log, [e], c);
    CooledAppend(s.log, e, c);
  }

  lemma EndKeepsInv(s: State, i: nat, e: Entry, permits: nat, c: Config)
    requires Inv(s, permits, c) && i < |s.callers| && s.callers[i].Holding?
    requires e.Ended? && Ends([e], c)
    ensures Inv(s.(free := s.free + 1, callers := s.callers[i := Idle], log := s.log + [e]), permits, c)
  {
    HeldUpdate(s.callers, i, Idle);
    EndsAppend(s.log, [e], c);
    CooledAppend(s.log, e, c);
  }

  lemma TripKeepsInv(s: State, i: nat, permits: nat, c: Config)
    requires Inv(s, permits, c) && i < |s.callers| && s.callers[i].Holding?
    ensures Inv(s.(free := s.free + 1, callers := s.callers[i := Idle], open := true, lastOpen := s.now,
      log := s.log + [Tripped(s.now), Ended(Limit(c), Exhausted)]), permits, c)
  {
    HeldUpdate(s.callers, i, Idle);
    var more := [Tripped(s.now), Ended(Limit(c), Exhausted)];
    assert EndFits(more, 0, c) && EndFits(more, 1, c);
    EndsAppend(s.log, more, c);
    CooledAppend(s.log, more[0], c);
    CooledAppend(s.log + [more[0]], more[1], c);
    assert s.log + more == s.log + [more[0]] + [more[1]];
  }

  lemma AttemptKeepsInv(s: State, i: nat, reply: Reply, permits: nat, c: Config)
    requires Inv(s, permits, c) && i < |s.callers| && s.callers[i].Holding?
    ensures Inv(AttemptStep(s, i, s.callers[i].attempts, reply, c), permits, c)
  {
    var made := s.callers[i].attempts + 1;
    match reply {
      case Value =>
        assert EndFits([Ended(made, Succeeded)], 0, c);
        EndKeepsInv(s, i, Ended(made, Succeeded), permits, c);
      case NonRetriable =>
        assert EndFits([Ended(made, GaveUp)], 0, c);
        EndKeepsInv(s, i, Ended(made, GaveUp), permits, c);
      case Failure =>
        if made >= c.maxAttempts {
          TripKeepsInv(s, i, permits, c);
        } else {
          HeldUpdate(s.callers, i, Holding(made));
        }
    }
  }

  lemma NextKeepsInv(s: State, a: Action, permits: nat, c: Config)
    requires Inv(s, permits, c)
    ensures Inv(Next(s, a, c), permits, c)
  {
    match a {
      case Tick(_) =>
      case Check(i) => if i < |s.callers| && s.callers[i].Idle? { CheckKeepsInv(s, i, permits, c); }
      case Acquire(i) => if i < |s.callers| { HeldUpdate(s.callers, i, Holding(0)); }
      case Attempt(i, reply) => if i < |s.callers| && s.callers[i].Holding? { AttemptKeepsInv(s, i, reply, permits, c); }
    }
  }

  /**
   In every run of concurrent callers: free and held permits add up to the same number, no
   call passes the breaker within the cooldown of any earlier trip, every call ends within
   its limit of attempts, and the breaker trips exactly when a call is exhausted.
   */
  lemma {:induction false} EveryRunIsGuarded(callers: nat, permits: nat, now: nat, actions: seq<Action>, c: Config)
    ensures var s := Run(Start(callers, permits, now), actions, c);
      s.free + Held(s.callers) == permits && Cooled(s.log, c) && Ends(s.log, c)
    ensures Inv(Run(Start(callers, permits, now), actions, c), permits, c)
  {
    if actions == [] {
      NoneHeld(Start(callers, permits, now).callers);
    } else {
      EveryRunIsGuarded(callers, permits, now, actions[..|actions| - 1], c);
      NextKeepsInv(Run(Start(callers, permits, now), actions[..|actions| - 1], c), actions[|actions| - 1], permits, c);
    }
  }
}
