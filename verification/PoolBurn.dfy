/** Remove-liquidity rows: opcode 2 delegate calls matched with the return that gave up LP tokens. */
module PoolBurn {
  import opened Options
  import opened Numerals
  import opened Seqs
  import opened Tokens
  import opened Events
  import opened BestReturn
  import opened Decoding

  /** The score of return j for invoke i: the LP it leaves over, if it pays out both tokens and, given LP, burns some. */
  function BurnScore(es: seq<Event>, i: nat, j: nat, tokens: TokenPair): Option<Score>
    requires i < |es| && j < |es|
  {
    var ev, ret := es[i], es[j];
    if j <= i || !Answers(ret, ev) then None
    else if SaturatingSub(PaidOut(ret, tokens.token0), Received(ev, tokens.token0)) == 0 then None
    else if SaturatingSub(PaidOut(ret, tokens.token1), Received(ev, tokens.token1)) == 0 then None
    else if Received(ev, ev.target) > 0 && PaidOut(ret, ev.target) >= Received(ev, ev.target) then None
    else Some(Score(PaidOut(ret, ev.target), 0))
  }

  function BurnCandidates(es: seq<Event>, i: nat, tokens: TokenPair): Candidates
    requires i < |es|
  {
    seq(|es|, j requires 0 <= j < |es| => BurnScore(es, i, j, tokens))
  }

  predicate IsBurnInvoke(e: Event, pools: PoolTable) {
    IsDelegateInvoke(e, 2) && NamesPool(e) && e.target in pools
  }

  function BurnRow(height: int, tr: TxTrace, ev: Event, paid: seq<Alkane>, found: bool, tokens: TokenPair, book: AddressBook): LiquidityRow
  {
    var amount0 := SaturatingSub(Total(paid, tokens.token0), Received(ev, tokens.token0));
    var amount1 := SaturatingSub(Total(paid, tokens.token1), Received(ev, tokens.token1));
    var lp := SaturatingSub(Received(ev, ev.target), Total(paid, ev.target));
    var good := found && amount0 > 0 && amount1 > 0 && lp > 0;
    LiquidityRow(
      tr.txid, height, ev.target,
      if good then Decimal(lp) else "0", tokens,
      if good then Decimal(amount0) else "0", if good then Decimal(amount1) else "0",
      AddressAt(book, tr.txid, InvokeVout(ev)), tr.timestamp, good)
  }

  function BurnRowAt(height: int, tr: TxTrace, es: seq<Event>, i: nat, pools: PoolTable, book: AddressBook): Option<LiquidityRow>
    requires i < |es|
  {
    if !IsBurnInvoke(es[i], pools) then None
    else
      var tokens := pools[es[i].target];
      var chosen := Best(BurnCandidates(es, i, tokens));
      var paid := if chosen.Some? then es[chosen.value].outgoing else [];
      Some(BurnRow(height, tr, es[i], paid, chosen.Some?, tokens, book))
  }

  function BurnRowsAt(height: int, tr: TxTrace, es: seq<Event>, pools: PoolTable, book: AddressBook): seq<Option<LiquidityRow>> {
    seq(|es|, i requires 0 <= i < |es| => BurnRowAt(height, tr, es, i, pools, book))
  }

  function BurnRowsOfTx(height: int, tr: TxTrace, pools: PoolTable, book: AddressBook): seq<LiquidityRow> {
    Somes(BurnRowsAt(height, tr, Ordered(tr.events), pools, book))
  }

  function BurnRowsPerTx(height: int, pools: PoolTable, book: AddressBook): TxTrace -> seq<LiquidityRow> {
    (tr: TxTrace) => BurnRowsOfTx(height, tr, pools, book)
  }

  function BurnRows(height: int, traces: seq<TxTrace>, pools: PoolTable, book: AddressBook): seq<LiquidityRow> {
    FlatMap(traces, BurnRowsPerTx(height, pools, book))
  }

  /** One invoke: look up the pool, scan for the return, recompute the amounts from it. */
  method DecodeBurn(height: int, tr: TxTrace, es: seq<Event>, i: nat, pools: PoolTable, book: AddressBook)
    returns (row: Option<LiquidityRow>)
    requires i < |es|
    ensures row == BurnRowAt(height, tr, es, i, pools, book)
  {
    var ev := es[i];
    if !IsBurnInvoke(ev, pools) { return None; }
    var tokens := pools[ev.target];
    var chosen := PickBest(BurnCandidates(es, i, tokens), i + 1);
    var paid := if chosen.Some? then es[chosen.value].outgoing else [];
    row := Some(BurnRow(height, tr, ev, paid, chosen.Some?, tokens, book));
  }

  method IndexBurnsOfTx(height: int, tr: TxTrace, pools: PoolTable, book: AddressBook) returns (rows: seq<LiquidityRow>)
    ensures rows == BurnRowsOfTx(height, tr, pools, book)
  {
    rows := [];
    var ordered := Ordered(tr.events);
    ghost var rowsAt := BurnRowsAt(height, tr, ordered, pools, book);
    for i := 0 to |ordered|
      invariant rows == Somes(rowsAt[..i])
    {
      var row := DecodeBurn(height, tr, ordered, i, pools, book);
      assert row == rowsAt[i];
      SomesStep(rowsAt, i);
      if row.Some? {
        rows := rows + [row.value];
      }
    }
    assert rowsAt[..|ordered|] == rowsAt;
  }

  /** `index_pool_burns_for_block`, up to the replacement of the stored rows. */
  method IndexBurns(height: int, traces: seq<TxTrace>, pools: PoolTable, book: AddressBook) returns (rows: seq<LiquidityRow>)
    ensures rows == BurnRows(height, traces, pools, book)
  {
    rows := [];
    ghost var perTx := BurnRowsPerTx(height, pools, book);
    for t := 0 to |traces|
      invariant rows == FlatMap(traces[..t], perTx)
    {
      var mine := IndexBurnsOfTx(height, traces[t], pools, book);
      rows := rows + mine;
      FlatMapStep(traces, perTx, t);
    }
    assert traces[..|traces|] == traces;
  }

  /** What it takes for the return r to complete the burn that e began. */
  ghost predicate CompletesBurn(r: Event, e: Event, tokens: TokenPair) {
    && Answers(r, e)
    && PaidOut(r, e.target) < Received(e, e.target)
    && Received(e, tokens.token0) < PaidOut(r, tokens.token0)
    && Received(e, tokens.token1) < PaidOut(r, tokens.token1)
  }

  /** Among the returns after invoke i that complete its burn, j leaves the least LP, and is the latest that does. */
  ghost predicate ChosenBurn(es: seq<Event>, i: nat, j: nat, tokens: TokenPair)
    requires i < |es|
  {
    && i < j < |es| && CompletesBurn(es[j], es[i], tokens)
    && (forall k | i < k < |es| && CompletesBurn(es[k], es[i], tokens) ::
        || PaidOut(es[j], es[i].target) < PaidOut(es[k], es[i].target)
        || (PaidOut(es[j], es[i].target) == PaidOut(es[k], es[i].target) && k <= j))
  }

  ghost predicate StatesFlow(r: LiquidityRow, e: Event, ret: Event, tokens: TokenPair)
    requires CompletesBurn(ret, e, tokens)
  {
    && r.amount0 == Decimal(PaidOut(ret, tokens.token0) - Received(e, tokens.token0))
    && r.amount1 == Decimal(PaidOut(ret, tokens.token1) - Received(e, tokens.token1))
    && r.lpAmount == Decimal(Received(e, e.target) - PaidOut(ret, e.target))
  }

  /** A return scores without completing the burn only when the invoke brought no LP at all. */
  lemma BurnScoreMeaning(es: seq<Event>, i: nat, j: nat, tokens: TokenPair)
    requires i < |es| && j < |es|
    ensures BringsNoLp(es[i]) ==> !CompletesBurn(es[j], es[i], tokens)
    ensures !BringsNoLp(es[i]) ==>
      (BurnScore(es, i, j, tokens).Some? <==> i < j && CompletesBurn(es[j], es[i], tokens))
    ensures BurnScore(es, i, j, tokens).Some? ==>
      BurnScore(es, i, j, tokens).value == Score(PaidOut(es[j], es[i].target), 0)
  {
  }

  ghost predicate BringsNoLp(e: Event) {
    Received(e, e.target) == 0
  }

  lemma BestIsChosenBurn(es: seq<Event>, i: nat, tokens: TokenPair)
    requires i < |es| && !BringsNoLp(es[i])
    ensures var best := Best(BurnCandidates(es, i, tokens));
      && (best.Some? <==> exists j :: i < j < |es| && CompletesBurn(es[j], es[i], tokens))
      && (best.Some? ==> ChosenBurn(es, i, best.value, tokens))
  {
    var c := BurnCandidates(es, i, tokens);
    forall k: nat | k < |es|
      ensures c[k].Some? <==> i < k && CompletesBurn(es[k], es[i], tokens)
      ensures c[k].Some? ==> c[k].value == Score(PaidOut(es[k], es[i].target), 0)
    {
      BurnScoreMeaning(es, i, k, tokens);
    }
    if Best(c).Some? {
      var j := Best(c).value;
      forall k | i < k < |es| && CompletesBurn(es[k], es[i], tokens)
        ensures PaidOut(es[j], es[i].target) <= PaidOut(es[k], es[i].target)
        ensures PaidOut(es[j], es[i].target) == PaidOut(es[k], es[i].target) ==> k <= j
      {
        assert c[k].Some? && Beats(c, j, k);
      }
    }
  }

  lemma NoLpNoBurn(height: int, tr: TxTrace, es: seq<Event>, i: nat, pools: PoolTable, book: AddressBook)
    requires i < |es| && IsBurnInvoke(es[i], pools) && BringsNoLp(es[i])
    ensures var r := BurnRowAt(height, tr, es, i, pools, book).value;
      !r.successful && r.amount0 == r.amount1 == r.lpAmount == "0"
    ensures forall j | 0 <= j < |es| :: !CompletesBurn(es[j], es[i], pools[es[i].target])
  {
  }

  const NO_LP_INVOKE := Event(Some(4), Invoke, Token("2", "9"), "delegatecall", [Some("2")], [Entry(1, 5), Entry(3, 5)], "", [])
  const NO_LP_RETURN := Event(Some(4), Return, Token("", ""), "", [], [], "", [Entry(1, 6), Entry(3, 6)])
  const NO_LP_POOLS: PoolTable := map[Token("2", "9") := TokenPair(Token("2", "1"), Token("2", "3"))]

  /** Such an invoke: it brings no LP, a return is chosen for it all the same, and the row is unsuccessful. */
  lemma CandidateRejected(height: int, tr: TxTrace, book: AddressBook)
    ensures var es := [NO_LP_INVOKE, NO_LP_RETURN];
      && IsBurnInvoke(es[0], NO_LP_POOLS) && BringsNoLp(es[0])
      && Best(BurnCandidates(es, 0, NO_LP_POOLS[es[0].target])) == Some(1)
      && !BurnRowAt(height, tr, es, 0, NO_LP_POOLS, book).value.successful
  {
    var es := [NO_LP_INVOKE, NO_LP_RETURN];
    NoLpInvoke();
    NoLpTotals();
    var c := BurnCandidates(es, 0, NO_LP_POOLS[es[0].target]);
    assert c[0].None? && c[1].Some?;
    NoLpNoBurn(height, tr, es, 0, NO_LP_POOLS, book);
  }

  lemma NoLpInvoke()
    ensures IsBurnInvoke(NO_LP_INVOKE, NO_LP_POOLS)
  {
    assert HexToU128("2") == Some(2) by {
      assert "2"[..0] == "";
      assert Digits("2", 16);
    }
  }

  lemma NoLpTotals()
    ensures var (t0, t1, lp) := (Token("2", "1"), Token("2", "3"), Token("2", "9"));
      && Received(NO_LP_INVOKE, t0) == 5 && Received(NO_LP_INVOKE, t1) == 5 && Received(NO_LP_INVOKE, lp) == 0
      && PaidOut(NO_LP_RETURN, t0) == 6 && PaidOut(NO_LP_RETURN, t1) == 6 && PaidOut(NO_LP_RETURN, lp) == 0
  {
    assert [Glyph(1)] == "1" && [Glyph(3)] == "3" && [Glyph(9)] == "9";
    EntryPairTotal(1, 5, 3, 5, 1);
    EntryPairTotal(1, 5, 3, 5, 3);
    EntryPairTotal(1, 5, 3, 5, 9);
    EntryPairTotal(1, 6, 3, 6, 1);
    EntryPairTotal(1, 6, 3, 6, 3);
    EntryPairTotal(1, 6, 3, 6, 9);
  }

  lemma ChosenBurnStated(height: int, tr: TxTrace, es: seq<Event>, i: nat, j: nat, tokens: TokenPair, book: AddressBook)
    requires i < |es| && j < |es| && CompletesBurn(es[j], es[i], tokens)
    ensures var r := BurnRow(height, tr, es[i], es[j].outgoing, true, tokens, book);
      r.successful && StatesFlow(r, es[i], es[j], tokens)
  {
  }

  /**
   A burn row is successful exactly when LP came in and some later return pays out
   both tokens net while giving back less LP; it then carries the exact, positive
   differences against the chosen return, and zeros otherwise. In particular a return
   chosen for an invoke without LP never yields a successful row.
   */
  lemma BurnRowMeaning(height: int, tr: TxTrace, es: seq<Event>, i: nat, pools: PoolTable, book: AddressBook)
    requires i < |es| && IsBurnInvoke(es[i], pools)
    ensures var r, tokens := BurnRowAt(height, tr, es, i, pools, book).value, pools[es[i].target];
      && (r.successful <==> exists j :: i < j < |es| && CompletesBurn(es[j], es[i], tokens))
      && (r.successful ==> exists j: nat :: ChosenBurn(es, i, j, tokens) && StatesFlow(r, es[i], es[j], tokens))
      && (!r.successful ==> r.amount0 == r.amount1 == r.lpAmount == "0")
  {
    if BringsNoLp(es[i]) {
      NoLpNoBurn(height, tr, es, i, pools, book);
    } else {
      var tokens := pools[es[i].target];
      BestIsChosenBurn(es, i, tokens);
      var best := Best(BurnCandidates(es, i, tokens));
      if best.Some? {
        ChosenBurnStated(height, tr, es, i, best.value, tokens, book);
        assert ChosenBurn(es, i, best.value, tokens);
      }
    }
  }

  /** Burn rows do not depend on how events of different classes were interleaved. */
  lemma BurnRowsIgnoreReordering(height: int, tr: TxTrace, fs: seq<Event>, pools: PoolTable, book: AddressBook)
    requires Reordering(tr.events, fs)
    ensures BurnRowsOfTx(height, tr, pools, book) == BurnRowsOfTx(height, tr.(events := fs), pools, book)
  {
    ReorderingsSortAlike(tr.events, fs);
    var es := Ordered(fs);
    forall i | 0 <= i < |es|
      ensures BurnRowAt(height, tr, es, i, pools, book) == BurnRowAt(height, tr.(events := fs), es, i, pools, book)
    {
    }
    assert BurnRowsAt(height, tr, es, pools, book) == BurnRowsAt(height, tr.(events := fs), es, pools, book);
  }

  /** The candidates behind an invoke with an explicit vout are all the candidates of the transaction. */
  lemma BurnCandidatesAnywhere(events: seq<Event>, i: nat, tokens: TokenPair)
    requires i < |Ordered(events)| && Ordered(events)[i].eventType.Invoke? && Ordered(events)[i].vout.Some?
    ensures var es := Ordered(events);
      (exists j :: i < j < |es| && CompletesBurn(es[j], es[i], tokens)) <==> exists r :: r in events && CompletesBurn(r, es[i], tokens)
  {
    var es := Ordered(events);
    OrderedIsStableSort(events);
    forall j | i < j < |es| && CompletesBurn(es[j], es[i], tokens) ensures es[j] in events {
      assert es[j] in multiset(es);
    }
    forall r | r in events && CompletesBurn(r, es[i], tokens)
      ensures exists j :: i < j < |es| && CompletesBurn(es[j], es[i], tokens)
    {
      assert r in multiset(es);
      var j :| 0 <= j < |es| && es[j] == r;
      ReturnsFollowInvokes(es, i, j);
    }
  }

  /** For an invoke with an explicit vout, every return of the transaction is considered, wherever it arrived. */
  lemma BurnSearchesWholeTx(height: int, tr: TxTrace, i: nat, pools: PoolTable, book: AddressBook)
    requires i < |Ordered(tr.events)| && IsBurnInvoke(Ordered(tr.events)[i], pools)
    requires Ordered(tr.events)[i].vout.Some?
    ensures var ev := Ordered(tr.events)[i];
      BurnRowAt(height, tr, Ordered(tr.events), i, pools, book).value.successful
      <==> exists r :: r in tr.events && CompletesBurn(r, ev, pools[ev.target])
  {
    var es := Ordered(tr.events);
    BurnRowMeaning(height, tr, es, i, pools, book);
    BurnCandidatesAnywhere(tr.events, i, pools[es[i].target]);
  }

}
