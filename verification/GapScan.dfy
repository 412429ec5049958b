/**
 The gap-limit scan for the last used wallet address. Address derivation and the
 transaction lookup are one given predicate: used(chain, index).
 */
module GapScan {
  const GAP_LIMIT: nat := 20

  /** Twenty unused addresses in a row from index w on. */
  ghost predicate Gap(used: (nat, nat) -> bool, chain: nat, w: nat) {
    forall j | w <= j < w + GAP_LIMIT :: !used(chain, j)
  }

  /** No gap lies wholly below the index. */
  ghost predicate Reached(used: (nat, nat) -> bool, chain: nat, index: nat) {
    forall w: nat | w + GAP_LIMIT <= index :: !Gap(used, chain, w)
  }

  /** Only finitely many addresses of a chain are used. */
  ghost predicate UnusedFrom(used: (nat, nat) -> bool, chain: nat, bound: nat) {
    forall j: nat | j >= bound :: !used(chain, j)
  }

  /** The largest of the used indices the scan reaches and the start value. */
  ghost predicate IsLast(used: (nat, nat) -> bool, chain: nat, start: nat, last: nat) {
    && last >= start
    && (forall j: nat | used(chain, j) && Reached(used, chain, j) :: j <= last)
    && (last == start || (used(chain, last) && Reached(used, chain, last)))
  }

  /** One chain: the scan ends, at the first gap, and has met every used index before it. */
  method ScanChain(used: (nat, nat) -> bool, chain: nat, start: nat, ghost bound: nat) returns (last: nat)
    requires UnusedFrom(used, chain, bound)
    ensures IsLast(used, chain, start, last)
  {
    last := start;
    var index, unused := 0, 0;
    while true
      invariant unused <= index && unused < GAP_LIMIT
      invariant forall j | index - unused <= j < index :: !used(chain, j)
      invariant unused < index ==> used(chain, index - unused - 1)
      invariant Reached(used, chain, index)
      invariant last >= start && (last == start || (last < index && used(chain, last)))
      invariant forall j: nat | j < index && used(chain, j) :: j <= last
      invariant index <= bound + unused
      decreases bound + GAP_LIMIT - index
    {
      if used(chain, index) {
        last := if index > last then index else last;
        unused := 0;
      } else {
        unused := unused + 1;
      }
      index := index + 1;
      if unused >= GAP_LIMIT {
        assert Gap(used, chain, index - GAP_LIMIT);
        break;
      }
      NoGapEndsHere(used, chain, index, unused);
    }
  }

  lemma NoGapEndsHere(used: (nat, nat) -> bool, chain: nat, index: nat, unused: nat)
    requires index > 0 && Reached(used, chain, index - 1)
    requires unused <= index && unused < GAP_LIMIT && (unused < index ==> used(chain, index - unused - 1))
    ensures Reached(used, chain, index)
  {
    forall w: nat | w + GAP_LIMIT <= index ensures !Gap(used, chain, w) {
      if w + GAP_LIMIT == index { assert used(chain, index - unused - 1); }
    }
  }

  /** The largest used index reached on either chain, or 0. */
  ghost predicate Found(used: (nat, nat) -> bool, last: nat) {
    && (forall chain: nat, j: nat | chain < 2 && used(chain, j) && Reached(used, chain, j) :: j <= last)
    && (last == 0 || exists chain: nat :: chain < 2 && used(chain, last) && Reached(used, chain, last))
  }

  /** The largest used index over the two chains, or 0 if none is used. */
  ghost predicate Largest(used: (nat, nat) -> bool, largest: nat) {
    && (forall chain: nat, j: nat | chain < 2 && used(chain, j) :: j <= largest)
    && (largest == 0 || exists chain: nat :: chain < 2 && used(chain, largest))
  }

  /**
   `get_last_used_address_index`: the receiving chain, then the change chain. It finds the
   largest used index exactly when some chain that uses it has no gap before it.
   */
  method LastUsedIndex(used: (nat, nat) -> bool, ghost bound: nat) returns (last: nat)
    requires UnusedFrom(used, 0, bound) && UnusedFrom(used, 1, bound)
    ensures Found(used, last)
    ensures forall largest: nat | Largest(used, largest) :: last == largest <==>
      largest == 0 || exists chain: nat :: chain < 2 && used(chain, largest) && Reached(used, chain, largest)
  {
    last := ScanChain(used, 0, 0, bound);
    last := ScanChain(used, 1, last, bound);
  }

  /** Every used index comes at most a gap limit after the one before, or after the start. */
  ghost predicate ShortGaps(used: (nat, nat) -> bool, chain: nat) {
    forall j: nat | used(chain, j) && j >= GAP_LIMIT :: exists i: nat :: used(chain, i) && j - GAP_LIMIT <= i < j
  }

  /** With short gaps every used index is reached. */
  lemma {:induction false} ShortGapsReach(used: (nat, nat) -> bool, chain: nat, j: nat)
    requires ShortGaps(used, chain) && used(chain, j)
    ensures Reached(used, chain, j)
    decreases j
  {
    forall w: nat | w + GAP_LIMIT <= j ensures !Gap(used, chain, w) {
      var i: nat :| used(chain, i) && j - GAP_LIMIT <= i < j;
      ShortGapsReach(used, chain, i);
    }
  }

  /** When every gap is shorter than the limit on both chains the scan is right. */
  lemma ShortGapsSuffice(used: (nat, nat) -> bool, last: nat, largest: nat)
    requires Found(used, last) && Largest(used, largest) && ShortGaps(used, 0) && ShortGaps(used, 1)
    ensures last == largest
  {
    if largest > 0 {
      var chain: nat :| chain < 2 && used(chain, largest);
      ShortGapsReach(used, chain, largest);
      assert largest <= last;
    }
  }
}
