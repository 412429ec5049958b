/**
 Pool discovery and the compressed history of pool states: a snapshot is stored at a
 tip only when it differs from the pool's latest one.
 */
module PoolHistory {
  import opened Tokens
  import opened Decoding
  import opened Tables

  type States = map<(Token, int), PoolAmounts>

  datatype PoolRow = PoolRow(factory: Token, tokens: TokenPair)

  datatype Fetched = Fetched(pool: Token, tokens: TokenPair, amounts: PoolAmounts)

  // Reading the history

  /** h is the pool's highest snapshot height at or below the bound. */
  ghost predicate IsLatest(states: States, pool: Token, bound: int, h: int) {
    && (pool, h) in states && h <= bound
    && forall k: int | (pool, k) in states && k <= bound :: k <= h
  }

  /** h is the pool's highest snapshot height. */
  ghost predicate IsTop(states: States, pool: Token, h: int) {
    && (pool, h) in states
    && forall k: int | (pool, k) in states :: k <= h
  }

  /** What a reader finds at a height: the latest snapshot at or below it. */
  ghost predicate Shows(states: States, pool: Token, height: int, amounts: PoolAmounts) {
    exists h: int :: IsLatest(states, pool, height, h) && states[(pool, h)] == amounts
  }

  ghost predicate TopIs(states: States, pool: Token, amounts: PoolAmounts) {
    exists h: int :: IsTop(states, pool, h) && states[(pool, h)] == amounts
  }

  lemma ShowsOnce(states: States, pool: Token, height: int, a: PoolAmounts, b: PoolAmounts)
    requires Shows(states, pool, height, a) && Shows(states, pool, height, b)
    ensures a == b
  {
  }

  // One refresh

  /** All snapshots of a refresh: changes are judged against the states before it, an existing (pool, tip) is kept. */
  ghost function Snapshots(before: States, tip: int, known: set<Token>, fetched: seq<Fetched>): States {
    if fetched == [] then before
    else
      var done, f := Snapshots(before, tip, known, fetched[..|fetched| - 1]), fetched[|fetched| - 1];
      if f.pool in known && !TopIs(before, f.pool, f.amounts) && (f.pool, tip) !in done
      then done[(f.pool, tip) := f.amounts] else done
  }

  /** Entry i is the first fetched for pool p. */
  ghost predicate IsFirstFetched(fetched: seq<Fetched>, p: Token, i: nat) {
    i < |fetched| && fetched[i].pool == p && forall k | 0 <= k < i :: fetched[k].pool != p
  }

  class PoolStore {
    var pools: map<Token, PoolRow>
    var states: States

    constructor ()
      ensures pools == map[] && states == map[]
    {
      pools, states := map[], map[];
    }

    /** `get_latest_pool_states`: the top snapshot of each requested pool. */
    method LatestStates(wanted: set<Token>) returns (latest: map<Token, PoolAmounts>)
      ensures forall p, a | p in wanted :: (p in latest && latest[p] == a) <==> TopIs(states, p, a)
    {
      var at: map<Token, int> := map[];
      latest := map[];
      var left := states.Keys;
      while left != {}
        invariant left <= states.Keys
        invariant at.Keys == latest.Keys
        invariant forall k | k in states.Keys - left && k.0 in wanted :: k.0 in at && k.1 <= at[k.0]
        invariant forall p | p in latest :: (p, at[p]) in states && states[(p, at[p])] == latest[p] && p in wanted
        decreases |left|
      {
        var k :| k in left;
        left := left - {k};
        if k.0 in wanted && (k.0 !in at || at[k.0] < k.1) {
          at := at[k.0 := k.1];
          latest := latest[k.0 := states[k]];
        }
      }
      forall p, a | p in wanted
        ensures (p in latest && latest[p] == a) <==> TopIs(states, p, a)
      {
        if p in latest {
          assert IsTop(states, p, at[p]);
        }
      }
    }

    /** Register the pools not yet known for this factory; a pool of another factory is left to it. */
    method InsertNewPools(factory: Token, fetched: seq<Fetched>)
      modifies this`pools
      ensures forall p | p in old(pools) :: p in pools && pools[p] == old(pools)[p]
      ensures forall p :: p in pools <==> p in old(pools) || exists i: nat :: IsFirstFetched(fetched, p, i)
      ensures forall p, i: nat | p !in old(pools) && IsFirstFetched(fetched, p, i) :: pools[p] == PoolRow(factory, fetched[i].tokens)
      ensures forall f | f in fetched :: f.pool in pools
    {
      for i := 0 to |fetched|
        invariant forall p | p in old(pools) :: p in pools && pools[p] == old(pools)[p]
        invariant forall k | 0 <= k < i :: fetched[k].pool in pools
        invariant forall p | p in pools && p !in old(pools) :: exists k: nat :: k < i && IsFirstFetched(fetched, p, k)
        invariant forall p, k: nat | p !in old(pools) && k < i && IsFirstFetched(fetched, p, k) :: pools[p] == PoolRow(factory, fetched[k].tokens)
      {
        if fetched[i].pool !in pools {
          pools := pools[fetched[i].pool := PoolRow(factory, fetched[i].tokens)];
          assert IsFirstFetched(fetched, fetched[i].pool, i);
        }
      }
    }

    ghost function Known(factory: Token): set<Token>
      reads this
    {
      set p | p in pools && pools[p].factory == factory
    }

    /** `fetch_and_upsert_pools_for_tip`, from the fetched details on. */
    method Refresh(factory: Token, tip: int, fetched: seq<Fetched>)
      modifies this
      ensures states == Snapshots(old(states), tip, Known(factory), fetched)
      ensures forall f | f in fetched :: f.pool in Known(factory) <==> f.pool !in old(pools) || old(pools)[f.pool].factory == factory
    {
      if fetched == [] { return; }
      InsertNewPools(factory, fetched);
      var ids := set p | p in pools && pools[p].factory == factory;
      var latest := LatestStates(ids);
      var snapshots: seq<Fetched> := [];
      for i := 0 to |fetched|
        invariant Insertions(states, tip, snapshots) == Snapshots(states, tip, ids, fetched[..i])
      {
        assert fetched[..i + 1][..i] == fetched[..i];
        var f := fetched[i];
        if f.pool in ids {
          var changed := f.pool !in latest || latest[f.pool] != f.amounts;
          assert changed == !TopIs(states, f.pool, f.amounts);
          if changed {
            snapshots := snapshots + [f];
            assert snapshots[..|snapshots| - 1] + [f] == snapshots;
          }
        }
      }
      assert fetched[..|fetched|] == fetched;
      InsertSnapshots(tip, snapshots);
    }

    /** `insert_pool_state_snapshots`: on conflict do nothing. */
    method InsertSnapshots(tip: int, snapshots: seq<Fetched>)
      modifies this`states
      ensures states == Insertions(old(states), tip, snapshots)
    {
      for i := 0 to |snapshots|
        invariant states == Insertions(old(states), tip, snapshots[..i])
      {
        assert snapshots[..i + 1][..i] == snapshots[..i];
        if (snapshots[i].pool, tip) !in states {
          states := states[(snapshots[i].pool, tip) := snapshots[i].amounts];
        }
      }
      assert snapshots[..|snapshots|] == snapshots;
    }
  }

  function Insertions(states: States, tip: int, snapshots: seq<Fetched>): States {
    if snapshots == [] then states
    else
      var done, f := Insertions(states, tip, snapshots[..|snapshots| - 1]), snapshots[|snapshots| - 1];
      if (f.pool, tip) in done then done else done[(f.pool, tip) := f.amounts]
  }

  // What a refresh changes

  ghost predicate DistinctPools(fetched: seq<Fetched>) {
    forall i, j | 0 <= i < j < |fetched| :: fetched[i].pool != fetched[j].pool
  }

  /** A refresh only adds rows at the tip, and only for fetched, known, changed pools. */
  lemma {:induction false} OtherRowsStay(before: States, tip: int, known: set<Token>, fetched: seq<Fetched>, k: (Token, int))
    requires k.1 != tip || k in before || !(exists i :: 0 <= i < |fetched| && fetched[i].pool == k.0)
    ensures var after := Snapshots(before, tip, known, fetched);
      (k in after <==> k in before) && (k in before ==> after[k] == before[k])
  {
    if fetched != [] {
      var n := |fetched| - 1;
      assert forall i | 0 <= i < n :: fetched[..n][i] == fetched[i];
      OtherRowsStay(before, tip, known, fetched[..n], k);
    }
  }

  /** The row at the tip of a fetched, known pool. */
  lemma {:induction false} RowAtTip(before: States, tip: int, known: set<Token>, fetched: seq<Fetched>, i: nat)
    requires DistinctPools(fetched) && i < |fetched| && fetched[i].pool in known
    ensures var (after, f) := (Snapshots(before, tip, known, fetched), fetched[i]);
      if (f.pool, tip) in before then (f.pool, tip) in after && after[(f.pool, tip)] == before[(f.pool, tip)]
      else if TopIs(before, f.pool, f.amounts) then (f.pool, tip) !in after
      else (f.pool, tip) in after && after[(f.pool, tip)] == f.amounts
  {
    var n := |fetched| - 1;
    if i == n {
      assert forall j | 0 <= j < n :: fetched[..n][j].pool != fetched[n].pool;
      OtherRowsStay(before, tip, known, fetched[..n], (fetched[n].pool, tip));
    } else {
      RowAtTip(before, tip, known, fetched[..n], i);
    }
  }

  /** What a caller can check before a refresh to know that the tip will show what was fetched. */
  ghost predicate WillShow(before: States, tip: int, f: Fetched) {
    if TopIs(before, f.pool, f.amounts) then Shows(before, f.pool, tip, f.amounts)
    else (f.pool, tip) in before ==> before[(f.pool, tip)] == f.amounts
  }

  lemma ShowsByRows(s: States, t: States, pool: Token, height: int, amounts: PoolAmounts)
    requires forall k: int | k <= height :: ((pool, k) in s <==> (pool, k) in t) && ((pool, k) in s ==> s[(pool, k)] == t[(pool, k)])
    requires Shows(s, pool, height, amounts)
    ensures Shows(t, pool, height, amounts)
  {
    var h: int :| IsLatest(s, pool, height, h) && s[(pool, h)] == amounts;
    assert IsLatest(t, pool, height, h);
  }

  lemma RowAtTipShows(s: States, pool: Token, tip: int)
    requires (pool, tip) in s
    ensures forall a :: Shows(s, pool, tip, a) <==> a == s[(pool, tip)]
  {
    assert IsLatest(s, pool, tip, tip);
    forall a | Shows(s, pool, tip, a) ensures a == s[(pool, tip)] {
      ShowsOnce(s, pool, tip, a, s[(pool, tip)]);
    }
  }

  /**
   After a refresh at any tip, also one below stored heights, the tip shows a fetched pool's
   amounts exactly when the condition held before.
   */
  lemma RefreshShowsWhen(before: States, tip: int, known: set<Token>, fetched: seq<Fetched>, i: nat)
    requires DistinctPools(fetched) && i < |fetched| && fetched[i].pool in known
    ensures Shows(Snapshots(before, tip, known, fetched), fetched[i].pool, tip, fetched[i].amounts)
       <==> WillShow(before, tip, fetched[i])
  {
    var after, f := Snapshots(before, tip, known, fetched), fetched[i];
    RowAtTip(before, tip, known, fetched, i);
    if (f.pool, tip) in after {
      RowAtTipShows(after, f.pool, tip);
      if (f.pool, tip) in before {
        RowAtTipShows(before, f.pool, tip);
      }
    } else {
      forall k: int
        ensures (f.pool, k) in before <==> (f.pool, k) in after
        ensures (f.pool, k) in before ==> before[(f.pool, k)] == after[(f.pool, k)]
      {
        if k != tip { OtherRowsStay(before, tip, known, fetched, (f.pool, k)); }
      }
      if Shows(before, f.pool, tip, f.amounts) { ShowsByRows(before, after, f.pool, tip, f.amounts); }
      if Shows(after, f.pool, tip, f.amounts) { ShowsByRows(after, before, f.pool, tip, f.amounts); }
    }
  }

  /** A refresh never changes what lower heights show. */
  lemma EarlierLookupsStay(before: States, tip: int, known: set<Token>, fetched: seq<Fetched>, pool: Token, height: int, amounts: PoolAmounts)
    requires height < tip
    ensures Shows(before, pool, height, amounts) <==> Shows(Snapshots(before, tip, known, fetched), pool, height, amounts)
  {
    var after := Snapshots(before, tip, known, fetched);
    forall k: int | k <= height
      ensures (pool, k) in before <==> (pool, k) in after
      ensures (pool, k) in before ==> before[(pool, k)] == after[(pool, k)]
    {
      OtherRowsStay(before, tip, known, fetched, (pool, k));
    }
    if Shows(before, pool, height, amounts) { ShowsByRows(before, after, pool, height, amounts); }
    if Shows(after, pool, height, amounts) { ShowsByRows(after, before, pool, height, amounts); }
  }

  // Runs of refreshes

  datatype Refreshed = Refreshed(tip: int, known: set<Token>, fetched: seq<Fetched>)

  ghost function After(start: States, refreshes: seq<Refreshed>): States {
    if refreshes == [] then start
    else
      var r := refreshes[|refreshes| - 1];
      Snapshots(After(start, refreshes[..|refreshes| - 1]), r.tip, r.known, r.fetched)
  }

  ghost predicate Below(states: States, tip: int) {
    forall k | k in states :: k.1 < tip
  }

  /** The tips grow strictly, starting above every stored height. */
  ghost predicate Rising(start: States, refreshes: seq<Refreshed>) {
    && (forall i | 0 <= i < |refreshes| :: DistinctPools(refreshes[i].fetched) && Below(start, refreshes[i].tip))
    && (forall i, j | 0 <= i < j < |refreshes| :: refreshes[i].tip < refreshes[j].tip)
  }

  lemma {:induction false} AfterBelow(start: States, refreshes: seq<Refreshed>, tip: int)
    requires Below(start, tip) && forall i | 0 <= i < |refreshes| :: refreshes[i].tip < tip
    ensures Below(After(start, refreshes), tip)
  {
    if refreshes != [] {
      var n := |refreshes| - 1;
      var r, before := refreshes[n], After(start, refreshes[..n]);
      AfterBelow(start, refreshes[..n], tip);
      forall k | k in After(start, refreshes)
        ensures k.1 < tip
      {
        if k.1 != r.tip { OtherRowsStay(before, r.tip, r.known, r.fetched, k); }
      }
    }
  }

  /** With every stored height below the tip, the top snapshot is what the tip shows. */
  lemma TopIsShown(states: States, tip: int, f: Fetched)
    requires Below(states, tip)
    ensures WillShow(states, tip, f)
  {
    if TopIs(states, f.pool, f.amounts) {
      var h: int :| IsTop(states, f.pool, h) && states[(f.pool, h)] == f.amounts;
      assert IsLatest(states, f.pool, tip, h);
    }
  }

  /**
   Over any run of refreshes at strictly increasing tips, and after any later refreshes, looking
   up a tip gives for every pool fetched there exactly what was fetched.
   */
  lemma {:induction false} HistoryIsExact(start: States, refreshes: seq<Refreshed>, i: nat, j: nat)
    requires Rising(start, refreshes) && i < |refreshes|
    requires j < |refreshes[i].fetched| && refreshes[i].fetched[j].pool in refreshes[i].known
    ensures var f := refreshes[i].fetched[j];
      forall a :: Shows(After(start, refreshes), f.pool, refreshes[i].tip, a) <==> a == f.amounts
    decreases |refreshes|
  {
    var n := |refreshes| - 1;
    var r, before, f := refreshes[n], After(start, refreshes[..n]), refreshes[i].fetched[j];
    if i == n {
      AfterBelow(start, refreshes[..n], r.tip);
      TopIsShown(before, r.tip, f);
      RefreshShowsWhen(before, r.tip, r.known, r.fetched, j);
    } else {
      HistoryIsExact(start, refreshes[..n], i, j);
      EarlierLookupsStay(before, r.tip, r.known, r.fetched, f.pool, refreshes[i].tip, f.amounts);
    }
    forall a | Shows(After(start, refreshes), f.pool, refreshes[i].tip, a)
      ensures a == f.amounts
    {
      ShowsOnce(After(start, refreshes), f.pool, refreshes[i].tip, a, f.amounts);
    }
  }

  /** No two neighbouring snapshots of a pool are equal. */
  ghost predicate Compressed(states: States) {
    forall p: Token, g: int, h: int | (p, g) in states && (p, h) in states && g < h && states[(p, g)] == states[(p, h)] ::
      exists k: int :: g < k < h && (p, k) in states
  }

  lemma {:induction false} HistoryStaysCompressed(start: States, refreshes: seq<Refreshed>)
    requires Rising(start, refreshes) && Compressed(start)
    ensures Compressed(After(start, refreshes))
  {
    if refreshes != [] {
      var n := |refreshes| - 1;
      var r, before := refreshes[n], After(start, refreshes[..n]);
      HistoryStaysCompressed(start, refreshes[..n]);
      AfterBelow(start, refreshes[..n], r.tip);
      RefreshStaysCompressed(before, r);
    }
  }

  lemma RefreshStaysCompressed(before: States, r: Refreshed)
    requires Compressed(before) && Below(before, r.tip) && DistinctPools(r.fetched)
    ensures Compressed(Snapshots(before, r.tip, r.known, r.fetched))
  {
    var after := Snapshots(before, r.tip, r.known, r.fetched);
    forall p: Token, g: int, h: int | (p, g) in after && (p, h) in after && g < h && after[(p, g)] == after[(p, h)]
      ensures exists k: int :: g < k < h && (p, k) in after
    {
      NewRowsAtTip(before, r, (p, g));
      NewRowsAtTip(before, r, (p, h));
      if h == r.tip {
        NewRowDiffers(before, r, p, g);
      } else {
        var k: int :| g < k < h && (p, k) in before;
        OtherRowsStay(before, r.tip, r.known, r.fetched, (p, k));
      }
    }
  }

  lemma NewRowsAtTip(before: States, r: Refreshed, k: (Token, int))
    requires Below(before, r.tip) && k in Snapshots(before, r.tip, r.known, r.fetched)
    ensures k.1 <= r.tip && (k.1 < r.tip ==> k in before && Snapshots(before, r.tip, r.known, r.fetched)[k] == before[k])
  {
    if k.1 != r.tip { OtherRowsStay(before, r.tip, r.known, r.fetched, k); }
  }

  /** A new row equal to an earlier one has another snapshot in between: it differed from the top one. */
  lemma NewRowDiffers(before: States, r: Refreshed, p: Token, g: int)
    requires Below(before, r.tip) && DistinctPools(r.fetched) && (p, g) in before
    requires var after := Snapshots(before, r.tip, r.known, r.fetched);
      (p, r.tip) in after && (p, g) in after && after[(p, r.tip)] == before[(p, g)]
    ensures exists k: int :: g < k < r.tip && (p, k) in Snapshots(before, r.tip, r.known, r.fetched)
  {
    if !(exists i :: 0 <= i < |r.fetched| && r.fetched[i].pool == p) {
      OtherRowsStay(before, r.tip, r.known, r.fetched, (p, r.tip));
    }
    var i :| 0 <= i < |r.fetched| && r.fetched[i].pool == p;
    AddedKnown(before, r.tip, r.known, r.fetched, p);
    RowAtTip(before, r.tip, r.known, r.fetched, i);
    assert !TopIs(before, p, before[(p, g)]);
    assert !IsTop(before, p, g);
    var k: int :| (p, k) in before && k > g;
    OtherRowsStay(before, r.tip, r.known, r.fetched, (p, k));
  }

  lemma {:induction false} AddedKnown(before: States, tip: int, known: set<Token>, fetched: seq<Fetched>, p: Token)
    requires (p, tip) !in before && (p, tip) in Snapshots(before, tip, known, fetched)
    ensures p in known
  {
    if fetched != [] && (p, tip) in Snapshots(before, tip, known, fetched[..|fetched| - 1]) {
      AddedKnown(before, tip, known, fetched[..|fetched| - 1], p);
    }
  }

  /** A tip below a stored height, as after a drop of the tip, can show nothing of what was just fetched. */
  lemma LowerTipCanMiss(pool: Token, tokens: TokenPair, amounts: PoolAmounts)
    ensures var (before, f) := (map[(pool, 10) := amounts], Fetched(pool, tokens, amounts));
      !Shows(Snapshots(before, 9, {pool}, [f]), pool, 9, amounts)
  {
    var before, f := map[(pool, 10) := amounts], Fetched(pool, tokens, amounts);
    assert IsTop(before, pool, 10);
    RefreshShowsWhen(before, 9, {pool}, [f], 0);
    assert forall h: int :: !IsLatest(before, pool, 9, h);
  }
}
