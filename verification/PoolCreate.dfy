/** Pool creation rows: opcode 0 delegate calls that deposit two tokens and mint the first LP supply. */
module PoolCreate {
  import opened Options
  import opened Numerals
  import opened Seqs
  import opened Tokens
  import opened Events
  import opened BestReturn
  import opened Decoding

  datatype CreationRow = CreationRow(
    txid: string, blockHeight: int, pool: Token, tokens: TokenPair,
    amount0: string, amount1: string, tokenSupply: string,
    address: Option<string>, timestamp: int)

  /** The distinct ids other than the pool's own, in order of first appearance. */
  function DistinctIds(incoming: seq<Alkane>, pool: Token): (ids: seq<Token>)
  {
    if incoming == [] then []
    else
      var earlier := DistinctIds(incoming[..|incoming| - 1], pool);
      var last := incoming[|incoming| - 1];
      if last.id.None? then earlier
      else
        var id := TokenOf(last.id.value);
        if id == pool || id in earlier then earlier else earlier + [id]
  }

  ghost predicate Occurs(incoming: seq<Alkane>, t: Token) {
    exists k | 0 <= k < |incoming| :: incoming[k].id.Some? && TokenOf(incoming[k].id.value) == t
  }

  lemma OccursStep(front: seq<Alkane>, last: Alkane, t: Token)
    ensures Occurs(front + [last], t) <==> Occurs(front, t) || (last.id.Some? && TokenOf(last.id.value) == t)
  {
    var all := front + [last];
    assert all[|front|] == last;
    if k :| 0 <= k < |front| && front[k].id.Some? && TokenOf(front[k].id.value) == t {
      assert all[k] == front[k];
    }
  }

  method CollectIds(incoming: seq<Alkane>, pool: Token) returns (ids: seq<Token>)
    ensures ids == DistinctIds(incoming, pool)
    ensures forall t :: t in ids <==> t != pool && Occurs(incoming, t)
    ensures NoRepeats(ids)
  {
    ids := [];
    for k := 0 to |incoming|
      invariant ids == DistinctIds(incoming[..k], pool)
    {
      assert incoming[..k + 1][..k] == incoming[..k];
      if incoming[k].id.Some? {
        var id := TokenOf(incoming[k].id.value);
        if id != pool && id !in ids {
          ids := ids + [id];
        }
      }
    }
    assert incoming[..|incoming|] == incoming;
    DistinctIdsHaveNoRepeats(incoming, pool);
    forall t: Token
      ensures t in ids <==> t != pool && Occurs(incoming, t)
    {
      DistinctIdsMeaning(incoming, pool, t);
    }
  }

  lemma NoRepeatsStep(ids: seq<Token>, t: Token)
    requires NoRepeats(ids) && t !in ids
    ensures NoRepeats(ids + [t])
  {
  }

  lemma {:induction false} DistinctIdsHaveNoRepeats(incoming: seq<Alkane>, pool: Token)
    ensures NoRepeats(DistinctIds(incoming, pool))
  {
    if incoming != [] {
      var n := |incoming| - 1;
      var earlier := DistinctIds(incoming[..n], pool);
      DistinctIdsHaveNoRepeats(incoming[..n], pool);
      if DistinctIds(incoming, pool) != earlier {
        NoRepeatsStep(earlier, TokenOf(incoming[n].id.value));
      }
    }
  }

  /** The ids are exactly the non-pool ids that occur. */
  lemma {:induction false} DistinctIdsMeaning(incoming: seq<Alkane>, pool: Token, t: Token)
    ensures t in DistinctIds(incoming, pool) <==> t != pool && Occurs(incoming, t)
  {
    if incoming != [] {
      var n := |incoming| - 1;
      DistinctIdsMeaning(incoming[..n], pool, t);
      assert incoming == incoming[..n] + [incoming[n]];
      OccursStep(incoming[..n], incoming[n], t);
    }
  }

  /** The score of return j for invoke i: its token payouts, if it mints LP. Net deposits are not looked at. */
  function CreateScore(es: seq<Event>, i: nat, j: nat, tokens: TokenPair): Option<Score>
    requires i < |es| && j < |es|
  {
    var ev, ret := es[i], es[j];
    if j <= i || !Answers(ret, ev) then None
    else if PaidOut(ret, ev.target) <= Received(ev, ev.target) then None
    else Some(Score(PaidOut(ret, tokens.token0), PaidOut(ret, tokens.token1)))
  }

  function CreateCandidates(es: seq<Event>, i: nat, tokens: TokenPair): Candidates
    requires i < |es|
  {
    seq(|es|, j requires 0 <= j < |es| => CreateScore(es, i, j, tokens))
  }

  predicate IsCreateInvoke(e: Event) {
    IsDelegateInvoke(e, 0) && NamesPool(e) && |DistinctIds(e.incoming, e.target)| >= 2
  }

  function FirstTwo(e: Event): TokenPair
    requires IsCreateInvoke(e)
  {
    var ids := DistinctIds(e.incoming, e.target);
    TokenPair(ids[0], ids[1])
  }

  /** The second pass: a row, or nothing when one of the three net amounts is zero. */
  function CreationRowFor(height: int, tr: TxTrace, ev: Event, ret: Event, tokens: TokenPair, book: AddressBook): Option<CreationRow>
  {
    var amount0 := SaturatingSub(Received(ev, tokens.token0), PaidOut(ret, tokens.token0));
    var amount1 := SaturatingSub(Received(ev, tokens.token1), PaidOut(ret, tokens.token1));
    var supply := SaturatingSub(PaidOut(ret, ev.target), Received(ev, ev.target));
    if amount0 == 0 || amount1 == 0 || supply == 0 then None
    else Some(CreationRow(
      tr.txid, height, ev.target, tokens, Decimal(amount0), Decimal(amount1), Decimal(supply),
      AddressAt(book, tr.txid, InvokeVout(ev)), tr.timestamp))
  }

  function CreationRowAt(height: int, tr: TxTrace, es: seq<Event>, i: nat, book: AddressBook): Option<CreationRow>
    requires i < |es|
  {
    if !IsCreateInvoke(es[i]) then None
    else
      var chosen := Best(CreateCandidates(es, i, FirstTwo(es[i])));
      if chosen.None? then None
      else CreationRowFor(height, tr, es[i], es[chosen.value], FirstTwo(es[i]), book)
  }

  function CreationRowsAt(height: int, tr: TxTrace, es: seq<Event>, book: AddressBook): seq<Option<CreationRow>> {
    seq(|es|, i requires 0 <= i < |es| => CreationRowAt(height, tr, es, i, book))
  }

  function CreationRowsOfTx(height: int, tr: TxTrace, book: AddressBook): seq<CreationRow> {
    Somes(CreationRowsAt(height, tr, Ordered(tr.events), book))
  }

  function CreationRowsPerTx(height: int, book: AddressBook): TxTrace -> seq<CreationRow> {
    (tr: TxTrace) => CreationRowsOfTx(height, tr, book)
  }

  function CreationRows(height: int, traces: seq<TxTrace>, book: AddressBook): seq<CreationRow> {
    FlatMap(traces, CreationRowsPerTx(height, book))
  }

  method DecodeCreation(height: int, tr: TxTrace, es: seq<Event>, i: nat, book: AddressBook)
    returns (row: Option<CreationRow>)
    requires i < |es|
    ensures row == CreationRowAt(height, tr, es, i, book)
  {
    var ev := es[i];
    if !IsDelegateInvoke(ev, 0) || !NamesPool(ev) { return None; }
    var ids := CollectIds(ev.incoming, ev.target);
    if |ids| < 2 { return None; }
    var tokens := TokenPair(ids[0], ids[1]);
    var chosen := PickBest(CreateCandidates(es, i, tokens), i + 1);
    if chosen.None? { return None; }
    row := CreationRowFor(height, tr, ev, es[chosen.value], tokens, book);
  }

  /** `detect_pool_creations_for_tx` */
  method DetectCreationsOfTx(height: int, tr: TxTrace, book: AddressBook) returns (rows: seq<CreationRow>)
    ensures rows == CreationRowsOfTx(height, tr, book)
  {
    rows := [];
    var ordered := Ordered(tr.events);
    ghost var rowsAt := CreationRowsAt(height, tr, ordered, book);
    for i := 0 to |ordered|
      invariant rows == Somes(rowsAt[..i])
    {
      var row := DecodeCreation(height, tr, ordered, i, book);
      assert row == rowsAt[i];
      SomesStep(rowsAt, i);
      if row.Some? {
        rows := rows + [row.value];
      }
    }
    assert rowsAt[..|ordered|] == rowsAt;
  }

  method IndexCreations(height: int, traces: seq<TxTrace>, book: AddressBook) returns (rows: seq<CreationRow>)
    ensures rows == CreationRows(height, traces, book)
  {
    rows := [];
    ghost var perTx := CreationRowsPerTx(height, book);
    for t := 0 to |traces|
      invariant rows == FlatMap(traces[..t], perTx)
    {
      var mine := DetectCreationsOfTx(height, traces[t], book);
      rows := rows + mine;
      FlatMapStep(traces, perTx, t);
    }
    assert traces[..|traces|] == traces;
  }

  ghost predicate MintsLp(r: Event, e: Event) {
    Answers(r, e) && Received(e, e.target) < PaidOut(r, e.target)
  }

  /** Both tokens stay behind, net. */
  ghost predicate KeepsDeposits(r: Event, e: Event, tokens: TokenPair) {
    && PaidOut(r, tokens.token0) < Received(e, tokens.token0)
    && PaidOut(r, tokens.token1) < Received(e, tokens.token1)
  }

  /** Of the returns after invoke i that mint LP, j pays out least (token 0 first), latest on ties. */
  ghost predicate LeastPayout(es: seq<Event>, i: nat, j: nat, tokens: TokenPair)
    requires i < |es|
  {
    && i < j < |es| && MintsLp(es[j], es[i])
    && (forall k | i < k < |es| && MintsLp(es[k], es[i]) ::
        || PaidOut(es[j], tokens.token0) < PaidOut(es[k], tokens.token0)
        || (PaidOut(es[j], tokens.token0) == PaidOut(es[k], tokens.token0)
            && (PaidOut(es[j], tokens.token1) < PaidOut(es[k], tokens.token1)
                || (PaidOut(es[j], tokens.token1) == PaidOut(es[k], tokens.token1) && k <= j))))
  }

  lemma BestIsLeastPayout(es: seq<Event>, i: nat, tokens: TokenPair)
    requires i < |es|
    ensures var best := Best(CreateCandidates(es, i, tokens));
      && (best.Some? <==> exists j :: i < j < |es| && MintsLp(es[j], es[i]))
      && (best.Some? ==> LeastPayout(es, i, best.value, tokens))
  {
    var c := CreateCandidates(es, i, tokens);
    assert forall k | 0 <= k < |es| :: c[k] == CreateScore(es, i, k, tokens);
    assert forall k | 0 <= k < |es| :: c[k].Some? <==> i < k && MintsLp(es[k], es[i]);
    if Best(c).Some? {
      var j := Best(c).value;
      forall k | i < k < |es| && MintsLp(es[k], es[i])
        ensures Beats(c, j, k)
      {
        assert c[k].Some?;
      }
    }
  }

  ghost predicate StatesDeposit(r: CreationRow, e: Event, ret: Event, tokens: TokenPair)
    requires MintsLp(ret, e) && KeepsDeposits(ret, e, tokens)
  {
    && r.pool == e.target && r.tokens == tokens
    && r.amount0 == Decimal(Received(e, tokens.token0) - PaidOut(ret, tokens.token0))
    && r.amount1 == Decimal(Received(e, tokens.token1) - PaidOut(ret, tokens.token1))
    && r.tokenSupply == Decimal(PaidOut(ret, e.target) - Received(e, e.target))
  }

  lemma CreationRowForMeaning(height: int, tr: TxTrace, ev: Event, ret: Event, tokens: TokenPair, book: AddressBook)
    requires MintsLp(ret, ev)
    ensures var row := CreationRowFor(height, tr, ev, ret, tokens, book);
      && (row.Some? <==> KeepsDeposits(ret, ev, tokens))
      && (row.Some? ==> StatesDeposit(row.value, ev, ret, tokens))
  {
  }

  /**
   A creation is recorded exactly when the least-paying LP-minting return keeps both
   deposits, whatever the other returns do; it states that return's exact net flow.
   */
  lemma CreationRowMeaning(height: int, tr: TxTrace, es: seq<Event>, i: nat, book: AddressBook)
    requires i < |es| && IsCreateInvoke(es[i])
    ensures var row, tokens := CreationRowAt(height, tr, es, i, book), FirstTwo(es[i]);
      && (row.Some? <==> exists j: nat :: LeastPayout(es, i, j, tokens) && KeepsDeposits(es[j], es[i], tokens))
      && (row.Some? ==> exists j: nat :: LeastPayout(es, i, j, tokens) && KeepsDeposits(es[j], es[i], tokens)
                                         && StatesDeposit(row.value, es[i], es[j], tokens))
  {
    var tokens := FirstTwo(es[i]);
    BestIsLeastPayout(es, i, tokens);
    var best := Best(CreateCandidates(es, i, tokens));
    if best.Some? {
      CreationRowForMeaning(height, tr, es[i], es[best.value], tokens, book);
      forall j: nat | LeastPayout(es, i, j, tokens)
        ensures j == best.value
      {
      }
    }
  }

  const LOST_INVOKE := Event(Some(4), Invoke, Token("2", "9"), "delegatecall", [Some("0")], [Entry(1, 5), Entry(3, 5)], "", [])
  const LOST_COMPLETE := Event(Some(4), Return, Token("", ""), "", [], [], "", [Entry(9, 7), Entry(1, 1)])
  const LOST_REFUND := Event(Some(4), Return, Token("", ""), "", [], [], "", [Entry(9, 7), Entry(3, 5)])

  /**
   The mint decoder's promise fails here: this creation has a return that mints LP and
   keeps both deposits, and it still gets no row, because a refund of token 1 alone
   scores lower than a payout of token 0.
   */
  lemma CompleteCreationLost(height: int, tr: TxTrace, book: AddressBook)
    ensures var es := [LOST_INVOKE, LOST_COMPLETE, LOST_REFUND];
      && IsCreateInvoke(es[0]) && FirstTwo(es[0]) == TokenPair(Token("2", "1"), Token("2", "3"))
      && MintsLp(es[1], es[0]) && KeepsDeposits(es[1], es[0], FirstTwo(es[0]))
      && CreationRowAt(height, tr, es, 0, book) == None
  {
    var es := [LOST_INVOKE, LOST_COMPLETE, LOST_REFUND];
    LostInvoke();
    LostTotals();
    CreationRowMeaning(height, tr, es, 0, book);
    assert MintsLp(es[2], es[0]) && !KeepsDeposits(es[2], es[0], FirstTwo(es[0]));
    assert !LeastPayout(es, 0, 1, FirstTwo(es[0]));
  }

  lemma LostTotals()
    ensures Answers(LOST_COMPLETE, LOST_INVOKE) && Answers(LOST_REFUND, LOST_INVOKE)
    ensures var (t0, t1, lp) := (Token("2", "1"), Token("2", "3"), Token("2", "9"));
      && Received(LOST_INVOKE, t0) == 5 && Received(LOST_INVOKE, t1) == 5 && Received(LOST_INVOKE, lp) == 0
      && PaidOut(LOST_COMPLETE, t0) == 1 && PaidOut(LOST_COMPLETE, t1) == 0 && PaidOut(LOST_COMPLETE, lp) == 7
      && PaidOut(LOST_REFUND, t0) == 0 && PaidOut(LOST_REFUND, t1) == 5 && PaidOut(LOST_REFUND, lp) == 7
  {
    assert [Glyph(1)] == "1" && [Glyph(3)] == "3" && [Glyph(9)] == "9";
    EntryPairTotal(1, 5, 3, 5, 1);
    EntryPairTotal(1, 5, 3, 5, 3);
    EntryPairTotal(1, 5, 3, 5, 9);
    EntryPairTotal(9, 7, 1, 1, 1);
    EntryPairTotal(9, 7, 1, 1, 3);
    EntryPairTotal(9, 7, 1, 1, 9);
    EntryPairTotal(9, 7, 3, 5, 1);
    EntryPairTotal(9, 7, 3, 5, 3);
    EntryPairTotal(9, 7, 3, 5, 9);
  }

  lemma LostInvoke()
    ensures IsCreateInvoke(LOST_INVOKE)
    ensures FirstTwo(LOST_INVOKE) == TokenPair(Token("2", "1"), Token("2", "3"))
  {
    assert Decimal(2) == "2" && Decimal(1) == "1" && Decimal(3) == "3";
    var incoming := LOST_INVOKE.incoming;
    assert incoming[..1] == [Entry(1, 5)] && incoming[..1][..0] == [];
    assert DistinctIds(incoming[..1], LOST_INVOKE.target) == [Token("2", "1")];
    assert HexToU128("0") == Some(0) by {
      assert "0"[..0] == "";
      assert Digits("0", 16);
    }
  }

  /** Creation rows do not depend on how events of different classes were interleaved. */
  lemma CreationRowsIgnoreReordering(height: int, tr: TxTrace, fs: seq<Event>, book: AddressBook)
    requires Reordering(tr.events, fs)
    ensures CreationRowsOfTx(height, tr, book) == CreationRowsOfTx(height, tr.(events := fs), book)
  {
    ReorderingsSortAlike(tr.events, fs);
    var es := Ordered(fs);
    forall i | 0 <= i < |es|
      ensures CreationRowAt(height, tr, es, i, book) == CreationRowAt(height, tr.(events := fs), es, i, book)
    {
    }
    assert CreationRowsAt(height, tr, es, book) == CreationRowsAt(height, tr.(events := fs), es, book);
  }
}
