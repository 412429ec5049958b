/**
 The candidate scan shared by the mint, burn and creation decoders: among the
 returns that qualify, the least score wins and the latest wins a tie.
 */
module BestReturn {
  import opened Options
  import opened Numerals

  datatype Score = Score(major: nat, minor: nat)

  predicate Below(a: Score, b: Score) {
    a.major < b.major || (a.major == b.major && a.minor < b.minor)
  }

  /** Entry j is the score of return j, or None when it does not qualify. */
  type Candidates = seq<Option<Score>>

  ghost predicate Beats(c: Candidates, j: nat, k: nat)
    requires j < |c| && c[j].Some? && k < |c| && c[k].Some?
  {
    Below(c[j].value, c[k].value) || (c[j].value == c[k].value && k <= j)
  }

  ghost predicate IsBest(c: Candidates, j: nat) {
    && j < |c| && c[j].Some?
    && forall k: nat | k < |c| && c[k].Some? :: Beats(c, j, k)
  }

  function Best(c: Candidates): (best: Option<nat>)
    ensures best.None? <==> forall k | 0 <= k < |c| :: c[k].None?
    ensures best.Some? ==> IsBest(c, best.value)
  {
    if c == [] then None
    else
      var n := |c| - 1;
      var earlier := Best(c[..n]);
      if c[n].None? then earlier
      else if earlier.Some? && Below(c[earlier.value].value, c[n].value) then earlier
      else Some(n)
  }

  lemma BestIsUnique(c: Candidates, j: nat, k: nat)
    requires IsBest(c, j) && IsBest(c, k)
    ensures j == k
  {
    assert Beats(c, j, k) && Beats(c, k, j);
  }

  /** The scan as written: a running choice and its score, replaced when strictly lower or equal and later. */
  method PickBest(c: Candidates, from: nat) returns (chosen: Option<nat>)
    requires from <= |c|
    requires forall k | 0 <= k < from :: c[k].None?
    ensures chosen == Best(c)
    ensures chosen.Some? ==> IsBest(c, chosen.value)
    ensures chosen.None? <==> forall k | 0 <= k < |c| :: c[k].None?
  {
    chosen := None;
    var best, bestAt := Score(U128_MAX, U128_MAX), 0;
    for j := from to |c|
      invariant chosen.None? <==> forall k | 0 <= k < j :: c[k].None?
      invariant chosen.Some? ==> chosen.value == bestAt < j && c[bestAt] == Some(best)
      invariant chosen.Some? ==> forall k: nat | k < j && c[k].Some? :: Beats(c, bestAt, k)
    {
      if c[j].Some? {
        var score := c[j].value;
        var better := match chosen
          case None => true
          case Some(_) =>
            score.major < best.major ||
            (score.major == best.major && (score.minor < best.minor || (score.minor == best.minor && j > bestAt)));
        if better {
          chosen, best, bestAt := Some(j), score, j;
        }
      }
    }
    if chosen.Some? {
      assert IsBest(c, chosen.value);
      BestIsUnique(c, chosen.value, Best(c).value);
    }
  }
}
