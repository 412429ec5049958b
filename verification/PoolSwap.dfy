/** Swap rows: opcode 3 delegate calls, matched on the events in their order of arrival. */
module PoolSwap {
  import opened Options
  import opened Numerals
  import opened Seqs
  import opened Tokens
  import opened Events
  import opened Decoding

  /** A PoolSwap row; amounts before their conversion to floating point. */
  datatype SwapRow = SwapRow(
    txid: string, blockHeight: int, pool: Token, sold: Token, bought: Token,
    soldAmount: u128, boughtAmount: u128, address: Option<string>, timestamp: int, successful: bool)

  /** `is_delegate_invoke`: the opcode is compared as decimal text. */
  predicate IsSwapCall(e: Event) {
    && e.eventType.Invoke? && e.callType == "delegatecall"
    && e.inputs != [] && e.inputs[0].Some?
    && HexToDecimal(e.inputs[0].value) == Some("3")
  }

  lemma SwapOpcodeIsThree(e: Event)
    ensures IsSwapCall(e) <==> IsDelegateInvoke(e, 3)
  {
    if e.inputs != [] && e.inputs[0].Some? && HexToU128(e.inputs[0].value).Some? {
      PrintInjective(HexToU128(e.inputs[0].value).value, 3, 10);
      assert Decimal(3) == "3";
    }
  }

  predicate IsSwapInvoke(e: Event, pools: PoolTable) {
    && IsSwapCall(e) && NamesPool(e) && e.target in pools
    && (Received(e, pools[e.target].token0) > 0 || Received(e, pools[e.target].token1) > 0)
  }

  /** The amounts the caller asked for: inputs 1 and 2 of the readable inputs. */
  function AllowedAmounts(e: Event): seq<u128> {
    var inputs := Somes(e.inputs);
    (if |inputs| > 1 && HexToU128(inputs[1]).Some? then [HexToU128(inputs[1]).value] else []) +
    (if |inputs| > 2 && HexToU128(inputs[2]).Some? then [HexToU128(inputs[2]).value] else [])
  }

  /** One entry of the expected token, of an allowed amount when amounts were asked for. */
  predicate EntryMatches(a: Alkane, expected: Token, allowed: seq<u128>) {
    && a.id.Some? && TokenOf(a.id.value) == expected
    && (allowed == [] || (NormaliseField(a.value).Some? && NormaliseField(a.value).value in allowed))
  }

  predicate Delivers(r: Event, expected: Token, allowed: seq<u128>) {
    exists k | 0 <= k < |r.outgoing| :: EntryMatches(r.outgoing[k], expected, allowed)
  }

  function StrictFlags(es: seq<Event>, i: nat, expected: Token, allowed: seq<u128>): seq<bool>
    requires i < |es|
  {
    seq(|es|, j requires 0 <= j < |es| => i < j && Answers(es[j], es[i]) && Delivers(es[j], expected, allowed))
  }

  function LooseFlags(es: seq<Event>, i: nat): seq<bool>
    requires i < |es|
  {
    seq(|es|, j requires 0 <= j < |es| => i < j && Answers(es[j], es[i]))
  }

  /** `find_matching_return_strict` */
  method FindMatchingReturnStrict(es: seq<Event>, i: nat, expected: Token, allowed: seq<u128>) returns (found: Option<nat>)
    requires i < |es|
    ensures found == First(StrictFlags(es, i, expected, allowed))
    ensures found.Some? ==> i < found.value < |es| && Delivers(es[found.value], expected, allowed)
  {
    ghost var flags := StrictFlags(es, i, expected, allowed);
    for j := i + 1 to |es|
      invariant forall k | 0 <= k < j :: !flags[k]
    {
      if Answers(es[j], es[i]) {
        for k := 0 to |es[j].outgoing|
          invariant forall m | 0 <= m < k :: !EntryMatches(es[j].outgoing[m], expected, allowed)
        {
          if EntryMatches(es[j].outgoing[k], expected, allowed) {
            FirstIsUnique(flags, j);
            return Some(j);
          }
        }
      }
    }
    found := None;
  }

  /** `find_matching_return` */
  method FindMatchingReturn(es: seq<Event>, i: nat) returns (found: Option<nat>)
    requires i < |es|
    ensures found == First(LooseFlags(es, i))
  {
    ghost var flags := LooseFlags(es, i);
    for j := i + 1 to |es|
      invariant forall k | 0 <= k < j :: !flags[k]
    {
      if Answers(es[j], es[i]) {
        FirstIsUnique(flags, j);
        return Some(j);
      }
    }
    found := None;
  }

  /** The token the caller expects back: the one opposite to token 0 if any of token 0 came in. */
  function Expected(e: Event, tokens: TokenPair): Token {
    if Received(e, tokens.token0) > 0 then tokens.token1 else tokens.token0
  }

  function MatchedReturn(es: seq<Event>, i: nat, tokens: TokenPair): Option<nat>
    requires i < |es|
  {
    var strict := First(StrictFlags(es, i, Expected(es[i], tokens), AllowedAmounts(es[i])));
    if strict.Some? then strict else First(LooseFlags(es, i))
  }

  /** The row of an invoke: direction first, then the amounts, zeroed unless both are positive. */
  function SwapRowFor(height: int, tr: TxTrace, ev: Event, paid: seq<Alkane>, found: bool, tokens: TokenPair, book: AddressBook): SwapRow
  {
    var sellsToken0 := Total(paid, tokens.token0) == 0 && Received(ev, tokens.token1) == 0;
    var sold := if sellsToken0 then tokens.token0 else tokens.token1;
    var bought := if sellsToken0 then tokens.token1 else tokens.token0;
    var soldAmount := Received(ev, sold);
    var boughtAmount := Total(paid, bought);
    var good := found && soldAmount > 0 && boughtAmount > 0;
    SwapRow(
      tr.txid, height, ev.target, sold, bought,
      if good then soldAmount else 0, if good then boughtAmount else 0,
      AddressAt(book, tr.txid, InvokeVout(ev)), tr.timestamp, good)
  }

  function SwapRowAt(height: int, tr: TxTrace, es: seq<Event>, i: nat, pools: PoolTable, book: AddressBook): Option<SwapRow>
    requires i < |es|
  {
    if !IsSwapInvoke(es[i], pools) then None
    else
      var tokens := pools[es[i].target];
      var ret := MatchedReturn(es, i, tokens);
      var paid := if ret.Some? then es[ret.value].outgoing else [];
      Some(SwapRowFor(height, tr, es[i], paid, ret.Some?, tokens, book))
  }

  function SwapRowsAt(height: int, tr: TxTrace, pools: PoolTable, book: AddressBook): seq<Option<SwapRow>> {
    seq(|tr.events|, i requires 0 <= i < |tr.events| => SwapRowAt(height, tr, tr.events, i, pools, book))
  }

  function SwapRowsOfTx(height: int, tr: TxTrace, pools: PoolTable, book: AddressBook): seq<SwapRow> {
    Somes(SwapRowsAt(height, tr, pools, book))
  }

  function SwapRowsPerTx(height: int, pools: PoolTable, book: AddressBook): TxTrace -> seq<SwapRow> {
    (tr: TxTrace) => SwapRowsOfTx(height, tr, pools, book)
  }

  function SwapRows(height: int, traces: seq<TxTrace>, pools: PoolTable, book: AddressBook): seq<SwapRow> {
    FlatMap(traces, SwapRowsPerTx(height, pools, book))
  }

  method DecodeSwap(height: int, tr: TxTrace, es: seq<Event>, i: nat, pools: PoolTable, book: AddressBook)
    returns (row: Option<SwapRow>)
    requires i < |es|
    ensures row == SwapRowAt(height, tr, es, i, pools, book)
  {
    var ev := es[i];
    if !IsSwapInvoke(ev, pools) { return None; }
    var tokens := pools[ev.target];
    var ret := FindMatchingReturnStrict(es, i, Expected(ev, tokens), AllowedAmounts(ev));
    if ret.None? {
      ret := FindMatchingReturn(es, i);
    }
    var paid := if ret.Some? then es[ret.value].outgoing else [];
    row := Some(SwapRowFor(height, tr, ev, paid, ret.Some?, tokens, book));
  }

  method IndexSwapsOfTx(height: int, tr: TxTrace, pools: PoolTable, book: AddressBook) returns (rows: seq<SwapRow>)
    ensures rows == SwapRowsOfTx(height, tr, pools, book)
  {
    rows := [];
    ghost var rowsAt := SwapRowsAt(height, tr, pools, book);
    for i := 0 to |tr.events|
      invariant rows == Somes(rowsAt[..i])
    {
      var row := DecodeSwap(height, tr, tr.events, i, pools, book);
      assert row == rowsAt[i];
      SomesStep(rowsAt, i);
      if row.Some? {
        rows := rows + [row.value];
      }
    }
    assert rowsAt[..|tr.events|] == rowsAt;
  }

  /** `index_pool_swaps_for_block`, up to the replacement of the stored rows. */
  method IndexSwaps(height: int, traces: seq<TxTrace>, pools: PoolTable, book: AddressBook) returns (rows: seq<SwapRow>)
    ensures rows == SwapRows(height, traces, pools, book)
  {
    rows := [];
    ghost var perTx := SwapRowsPerTx(height, pools, book);
    for t := 0 to |traces|
      invariant rows == FlatMap(traces[..t], perTx)
    {
      var mine := IndexSwapsOfTx(height, traces[t], pools, book);
      rows := rows + mine;
      FlatMapStep(traces, perTx, t);
    }
    assert traces[..|traces|] == traces;
  }

  /**
   Which return a swap is matched with: the first later one on its vout that delivers
   what was asked for, or else the first later one on its vout, or none at all.
   */
  lemma MatchedReturnMeaning(es: seq<Event>, i: nat, tokens: TokenPair)
    requires i < |es|
    ensures var (j, e, want, allowed) := (MatchedReturn(es, i, tokens), es[i], Expected(es[i], tokens), AllowedAmounts(es[i]));
      && (j.None? <==> forall k | i < k < |es| :: !Answers(es[k], e))
      && (j.Some? ==>
            && i < j.value < |es| && Answers(es[j.value], e)
            && (forall k | i < k < j.value && Answers(es[k], e) :: !Delivers(es[k], want, allowed))
            && (!Delivers(es[j.value], want, allowed) ==>
                 && (forall k | i < k < |es| && Answers(es[k], e) :: !Delivers(es[k], want, allowed))
                 && (forall k | i < k < j.value :: !Answers(es[k], e))))
  {
    var e, want, allowed := es[i], Expected(es[i], tokens), AllowedAmounts(es[i]);
    var strict, loose := StrictFlags(es, i, want, allowed), LooseFlags(es, i);
    assert forall k | 0 <= k < |es| :: strict[k] <==> i < k && Answers(es[k], e) && Delivers(es[k], want, allowed);
    assert forall k | 0 <= k < |es| :: loose[k] <==> i < k && Answers(es[k], e);
  }

  /**
   A swap succeeds exactly when a return answers it and the trade is one-way in one of the
   two directions: token 0 in with no token 0 back and no token 1 in, or token 1 in with
   token 0 back. The row then names the pair in that direction with the full amounts.
   */
  lemma SwapRowMeaning(height: int, tr: TxTrace, es: seq<Event>, i: nat, pools: PoolTable, book: AddressBook)
    requires i < |es| && IsSwapInvoke(es[i], pools)
    ensures var (r, e, tokens) := (SwapRowAt(height, tr, es, i, pools, book).value, es[i], pools[es[i].target]);
      var j := MatchedReturn(es, i, tokens);
      && (r.successful ==> j.Some?)
      && (j.Some? ==>
        var ret := es[j.value];
        var forward := Received(e, tokens.token1) == 0 && PaidOut(ret, tokens.token0) == 0 && PaidOut(ret, tokens.token1) > 0;
        var backward := Received(e, tokens.token1) > 0 && PaidOut(ret, tokens.token0) > 0;
        && (r.successful <==> forward || backward)
        && (forward ==> r.sold == tokens.token0 && r.bought == tokens.token1
                        && r.soldAmount == Received(e, tokens.token0) > 0 && r.boughtAmount == PaidOut(ret, tokens.token1))
        && (backward ==> r.sold == tokens.token1 && r.bought == tokens.token0
                         && r.soldAmount == Received(e, tokens.token1) && r.boughtAmount == PaidOut(ret, tokens.token0)))
      && (!r.successful ==> r.soldAmount == 0 && r.boughtAmount == 0)
  {
    var tokens := pools[es[i].target];
    assert MatchedReturn(es, i, tokens).None? ==> Total([], tokens.token0) == 0 && Total([], tokens.token1) == 0;
  }
}
