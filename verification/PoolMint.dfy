/** Add-liquidity rows: opcode 1 delegate calls matched with the return that minted LP tokens. */
module PoolMint {
  import opened Options
  import opened Numerals
  import opened Seqs
  import opened Tokens
  import opened Events
  import opened BestReturn
  import opened Decoding

  /** The score of return j for invoke i: its token payouts, if it mints LP and keeps some of both tokens. */
  function MintScore(es: seq<Event>, i: nat, j: nat, tokens: TokenPair): Option<Score>
    requires i < |es| && j < |es|
  {
    var ev, ret := es[i], es[j];
    if j <= i || !Answers(ret, ev) then None
    else if PaidOut(ret, ev.target) <= Received(ev, ev.target) then None
    else if SaturatingSub(Received(ev, tokens.token0), PaidOut(ret, tokens.token0)) == 0 then None
    else if SaturatingSub(Received(ev, tokens.token1), PaidOut(ret, tokens.token1)) == 0 then None
    else Some(Score(PaidOut(ret, tokens.token0), PaidOut(ret, tokens.token1)))
  }

  function MintCandidates(es: seq<Event>, i: nat, tokens: TokenPair): Candidates
    requires i < |es|
  {
    seq(|es|, j requires 0 <= j < |es| => MintScore(es, i, j, tokens))
  }

  predicate IsMintInvoke(e: Event, pools: PoolTable) {
    IsDelegateInvoke(e, 1) && NamesPool(e) && e.target in pools
  }

  /** The row of an invoke, the second pass over the chosen return's amounts included. */
  function MintRow(height: int, tr: TxTrace, ev: Event, paid: seq<Alkane>, found: bool, tokens: TokenPair, book: AddressBook): LiquidityRow
  {
    var amount0 := SaturatingSub(Received(ev, tokens.token0), Total(paid, tokens.token0));
    var amount1 := SaturatingSub(Received(ev, tokens.token1), Total(paid, tokens.token1));
    var lp := SaturatingSub(Total(paid, ev.target), Received(ev, ev.target));
    var good := found && amount0 > 0 && amount1 > 0 && lp > 0;
    LiquidityRow(
      tr.txid, height, ev.target,
      if good then Decimal(lp) else "0", tokens,
      if good then Decimal(amount0) else "0", if good then Decimal(amount1) else "0",
      AddressAt(book, tr.txid, InvokeVout(ev)), tr.timestamp, good)
  }

  function MintRowAt(height: int, tr: TxTrace, es: seq<Event>, i: nat, pools: PoolTable, book: AddressBook): Option<LiquidityRow>
    requires i < |es|
  {
    if !IsMintInvoke(es[i], pools) then None
    else
      var tokens := pools[es[i].target];
      var chosen := Best(MintCandidates(es, i, tokens));
      var paid := if chosen.Some? then es[chosen.value].outgoing else [];
      Some(MintRow(height, tr, es[i], paid, chosen.Some?, tokens, book))
  }

  function MintRowsAt(height: int, tr: TxTrace, es: seq<Event>, pools: PoolTable, book: AddressBook): seq<Option<LiquidityRow>> {
    seq(|es|, i requires 0 <= i < |es| => MintRowAt(height, tr, es, i, pools, book))
  }

  function MintRowsOfTx(height: int, tr: TxTrace, pools: PoolTable, book: AddressBook): seq<LiquidityRow> {
    Somes(MintRowsAt(height, tr, Ordered(tr.events), pools, book))
  }

  function MintRowsPerTx(height: int, pools: PoolTable, book: AddressBook): TxTrace -> seq<LiquidityRow> {
    (tr: TxTrace) => MintRowsOfTx(height, tr, pools, book)
  }

  function MintRows(height: int, traces: seq<TxTrace>, pools: PoolTable, book: AddressBook): seq<LiquidityRow> {
    FlatMap(traces, MintRowsPerTx(height, pools, book))
  }

  /** One invoke: look up the pool, scan for the return, recompute the amounts from it. */
  method DecodeMint(height: int, tr: TxTrace, es: seq<Event>, i: nat, pools: PoolTable, book: AddressBook)
    returns (row: Option<LiquidityRow>)
    requires i < |es|
    ensures row == MintRowAt(height, tr, es, i, pools, book)
  {
    var ev := es[i];
    if !IsMintInvoke(ev, pools) { return None; }
    var tokens := pools[ev.target];
    var chosen := PickBest(MintCandidates(es, i, tokens), i + 1);
    var paid := if chosen.Some? then es[chosen.value].outgoing else [];
    row := Some(MintRow(height, tr, ev, paid, chosen.Some?, tokens, book));
  }

  method IndexMintsOfTx(height: int, tr: TxTrace, pools: PoolTable, book: AddressBook) returns (rows: seq<LiquidityRow>)
    ensures rows == MintRowsOfTx(height, tr, pools, book)
  {
    rows := [];
    var ordered := Ordered(tr.events);
    ghost var rowsAt := MintRowsAt(height, tr, ordered, pools, book);
    for i := 0 to |ordered|
      invariant rows == Somes(rowsAt[..i])
    {
      var row := DecodeMint(height, tr, ordered, i, pools, book);
      assert row == rowsAt[i];
      SomesStep(rowsAt, i);
      if row.Some? {
        rows := rows + [row.value];
      }
    }
    assert rowsAt[..|ordered|] == rowsAt;
  }

  /** `index_pool_mints_for_block`, up to the replacement of the stored rows. */
  method IndexMints(height: int, traces: seq<TxTrace>, pools: PoolTable, book: AddressBook) returns (rows: seq<LiquidityRow>)
    ensures rows == MintRows(height, traces, pools, book)
  {
    rows := [];
    ghost var perTx := MintRowsPerTx(height, pools, book);
    for t := 0 to |traces|
      invariant rows == FlatMap(traces[..t], perTx)
    {
      var mine := IndexMintsOfTx(height, traces[t], pools, book);
      rows := rows + mine;
      FlatMapStep(traces, perTx, t);
    }
    assert traces[..|traces|] == traces;
  }

  /** What it takes for the return r to complete the mint that e began. */
  ghost predicate CompletesMint(r: Event, e: Event, tokens: TokenPair) {
    && Answers(r, e)
    && Received(e, e.target) < PaidOut(r, e.target)
    && PaidOut(r, tokens.token0) < Received(e, tokens.token0)
    && PaidOut(r, tokens.token1) < Received(e, tokens.token1)
  }

  /** r is preferred to q: lexicographically smaller payouts of token 0, then token 1. */
  ghost predicate PaysLess(r: Event, q: Event, tokens: TokenPair) {
    || PaidOut(r, tokens.token0) < PaidOut(q, tokens.token0)
    || (PaidOut(r, tokens.token0) == PaidOut(q, tokens.token0) && PaidOut(r, tokens.token1) < PaidOut(q, tokens.token1))
  }

  /** Among the returns after invoke i that complete its mint, j pays out least, and is the latest that does. */
  ghost predicate ChosenMint(es: seq<Event>, i: nat, j: nat, tokens: TokenPair)
    requires i < |es|
  {
    && i < j < |es| && CompletesMint(es[j], es[i], tokens)
    && (forall k | i < k < |es| && CompletesMint(es[k], es[i], tokens) ::
        !PaysLess(es[k], es[j], tokens) && (k <= j || PaysLess(es[j], es[k], tokens)))
  }

  /** The row r states exactly what changed hands between e and r's chosen return ret. */
  ghost predicate StatesFlow(r: LiquidityRow, e: Event, ret: Event, tokens: TokenPair)
    requires CompletesMint(ret, e, tokens)
  {
    && r.amount0 == Decimal(Received(e, tokens.token0) - PaidOut(ret, tokens.token0))
    && r.amount1 == Decimal(Received(e, tokens.token1) - PaidOut(ret, tokens.token1))
    && r.lpAmount == Decimal(PaidOut(ret, e.target) - Received(e, e.target))
  }

  lemma MintScoreMeaning(es: seq<Event>, i: nat, j: nat, tokens: TokenPair)
    requires i < |es| && j < |es|
    ensures MintScore(es, i, j, tokens).Some? <==> i < j && CompletesMint(es[j], es[i], tokens)
    ensures MintScore(es, i, j, tokens).Some? ==>
      MintScore(es, i, j, tokens).value == Score(PaidOut(es[j], tokens.token0), PaidOut(es[j], tokens.token1))
  {
  }

  lemma BestIsChosenMint(es: seq<Event>, i: nat, tokens: TokenPair)
    requires i < |es|
    ensures var best := Best(MintCandidates(es, i, tokens));
      && (best.Some? <==> exists j :: i < j < |es| && CompletesMint(es[j], es[i], tokens))
      && (best.Some? ==> ChosenMint(es, i, best.value, tokens))
  {
    var c := MintCandidates(es, i, tokens);
    forall k: nat | k < |es|
      ensures c[k].Some? <==> i < k && CompletesMint(es[k], es[i], tokens)
      ensures c[k].Some? ==> c[k].value == Score(PaidOut(es[k], tokens.token0), PaidOut(es[k], tokens.token1))
    {
      MintScoreMeaning(es, i, k, tokens);
    }
    if Best(c).Some? {
      var j := Best(c).value;
      assert i < j && CompletesMint(es[j], es[i], tokens);
      forall k | i < k < |es| && CompletesMint(es[k], es[i], tokens)
        ensures !PaysLess(es[k], es[j], tokens) && (k <= j || PaysLess(es[j], es[k], tokens))
      {
        assert c[k].Some? && Beats(c, j, k);
      }
    }
  }

  lemma ChosenMintStated(height: int, tr: TxTrace, es: seq<Event>, i: nat, j: nat, tokens: TokenPair, book: AddressBook)
    requires i < |es| && j < |es| && CompletesMint(es[j], es[i], tokens)
    ensures var r := MintRow(height, tr, es[i], es[j].outgoing, true, tokens, book);
      r.successful && StatesFlow(r, es[i], es[j], tokens)
  {
  }

  /**
   A mint row is successful exactly when some later return completes the mint; it
   then carries the exact, positive differences against the chosen return, and zeros otherwise.
   */
  lemma MintRowMeaning(height: int, tr: TxTrace, es: seq<Event>, i: nat, pools: PoolTable, book: AddressBook)
    requires i < |es| && IsMintInvoke(es[i], pools)
    ensures var r, tokens := MintRowAt(height, tr, es, i, pools, book).value, pools[es[i].target];
      && (r.successful <==> exists j :: i < j < |es| && CompletesMint(es[j], es[i], tokens))
      && (r.successful ==> exists j: nat :: ChosenMint(es, i, j, tokens) && StatesFlow(r, es[i], es[j], tokens))
      && (!r.successful ==> r.amount0 == r.amount1 == r.lpAmount == "0")
  {
    var tokens := pools[es[i].target];
    BestIsChosenMint(es, i, tokens);
    var best := Best(MintCandidates(es, i, tokens));
    if best.Some? {
      ChosenMintStated(height, tr, es, i, best.value, tokens, book);
      assert ChosenMint(es, i, best.value, tokens);
    }
  }

  /** Mint rows do not depend on how events of different classes were interleaved. */
  lemma MintRowsIgnoreReordering(height: int, tr: TxTrace, fs: seq<Event>, pools: PoolTable, book: AddressBook)
    requires Reordering(tr.events, fs)
    ensures MintRowsOfTx(height, tr, pools, book) == MintRowsOfTx(height, tr.(events := fs), pools, book)
  {
    ReorderingsSortAlike(tr.events, fs);
    var es := Ordered(fs);
    forall i | 0 <= i < |es|
      ensures MintRowAt(height, tr, es, i, pools, book) == MintRowAt(height, tr.(events := fs), es, i, pools, book)
    {
    }
    assert MintRowsAt(height, tr, es, pools, book) == MintRowsAt(height, tr.(events := fs), es, pools, book);
  }

  /** For an invoke with an explicit vout, every return of the transaction is considered, wherever it arrived. */
  lemma MintSearchesWholeTx(height: int, tr: TxTrace, i: nat, pools: PoolTable, book: AddressBook)
    requires i < |Ordered(tr.events)| && IsMintInvoke(Ordered(tr.events)[i], pools)
    requires Ordered(tr.events)[i].vout.Some?
    ensures var ev := Ordered(tr.events)[i];
      MintRowAt(height, tr, Ordered(tr.events), i, pools, book).value.successful
      <==> exists r :: r in tr.events && CompletesMint(r, ev, pools[ev.target])
  {
    var es := Ordered(tr.events);
    var ev, tokens := es[i], pools[es[i].target];
    OrderedIsStableSort(tr.events);
    MintRowMeaning(height, tr, es, i, pools, book);
    forall j | i < j < |es| && CompletesMint(es[j], ev, tokens)
      ensures es[j] in tr.events
    {
      assert es[j] in multiset(es);
    }
    forall r | r in tr.events && CompletesMint(r, ev, tokens)
      ensures exists j :: i < j < |es| && CompletesMint(es[j], ev, tokens)
    {
      assert r in multiset(es);
      var j :| 0 <= j < |es| && es[j] == r;
      ReturnsFollowInvokes(es, i, j);
    }
  }
}
