/** Wraps and unwraps of the Subfrost token 32:0, matched with a successful return on the same vout. */
module Subfrost {
  import opened Options
  import opened Numerals
  import opened Seqs
  import opened Tokens
  import opened Events
  import opened Decoding

  /** A SubfrostWrap or SubfrostUnwrap row. */
  datatype FrostRow = FrostRow(
    txid: string, blockHeight: int, address: Option<string>, amount: string, successful: bool, timestamp: int)

  const WRAP_OPCODE: nat := 77
  const UNWRAP_OPCODE: nat := 78
  const SUBFROST := Token("32", "0")

  predicate IsFrostInvoke(e: Event, opcode: nat) {
    HasOpcode(e, opcode) && e.target == SUBFROST
  }

  predicate EqIgnoreCase(s: string, t: string) {
    |s| == |t| && forall i | 0 <= i < |s| :: LowerAscii(s[i]) == LowerAscii(t[i])
  }

  predicate StatusOk(r: Event) {
    EqIgnoreCase(r.status, "success") || EqIgnoreCase(r.status, "ok")
  }

  predicate Settles(r: Event, e: Event) {
    Answers(r, e) && StatusOk(r)
  }

  /** Ids are read as hexadecimal text only; anything else reads as no number. */
  predicate HexIs(field: Option<Json>, v: u128) {
    field.Some? && field.value.Text? && HexToU128(field.value.text) == Some(v)
  }

  /** The value of an entry of token 0x20:0, if it can be read. */
  function FrostOf(a: Alkane): Option<u128> {
    if a.id.Some? && HexIs(a.id.value.block, 0x20) && HexIs(a.id.value.tx, 0) then NormaliseField(a.value) else None
  }

  function SumOf<T>(xs: seq<T>, f: T -> Option<u128>): nat {
    if xs == [] then 0 else SumOf(xs[..|xs| - 1], f) + f(xs[|xs| - 1]).GetOr(0)
  }

  predicate AnyOf<T>(xs: seq<T>, f: T -> Option<u128>) {
    exists k | 0 <= k < |xs| :: f(xs[k]).Some?
  }

  lemma SumStep<T>(xs: seq<T>, f: T -> Option<u128>, k: nat)
    requires k < |xs|
    ensures SumOf(xs[..k + 1], f) == SumOf(xs[..k], f) + f(xs[k]).GetOr(0)
  {
    assert xs[..k + 1][..k] == xs[..k];
  }

  /** The inner loop of both decoders: the capped sum, and whether any entry counted. */
  method AddUp<T>(xs: seq<T>, f: T -> Option<u128>, start: u128) returns (total: u128, any: bool)
    ensures total == Cap(start + SumOf(xs, f))
    ensures any == AnyOf(xs, f)
  {
    total, any := start, false;
    for k := 0 to |xs|
      invariant total == Cap(start + SumOf(xs[..k], f))
      invariant any == exists m | 0 <= m < k :: f(xs[m]).Some?
    {
      SumStep(xs, f, k);
      if f(xs[k]).Some? {
        total := SaturatingAdd(total, f(xs[k]).value);
        any := true;
      }
    }
    assert xs[..|xs|] == xs;
  }

  lemma {:induction false} NoneNoSum<T>(xs: seq<T>, f: T -> Option<u128>)
    requires !AnyOf(xs, f)
    ensures SumOf(xs, f) == 0
  {
    if xs != [] {
      var n := |xs| - 1;
      assert f(xs[n]).None?;
      assert forall k | 0 <= k < n :: xs[..n][k] == xs[k];
      NoneNoSum(xs[..n], f);
    }
  }

  function FrostTotal(alkanes: seq<Alkane>): u128 {
    Cap(SumOf(alkanes, FrostOf))
  }

  predicate HasFrost(alkanes: seq<Alkane>) {
    AnyOf(alkanes, FrostOf)
  }

  predicate Wraps(r: Event, e: Event) {
    Settles(r, e) && HasFrost(r.outgoing)
  }

  function WrapFlags(es: seq<Event>, i: nat): seq<bool>
    requires i < |es|
  {
    seq(|es|, j requires 0 <= j < |es| => i < j && Wraps(es[j], es[i]))
  }

  function UnwrapFlags(es: seq<Event>, i: nat): seq<bool>
    requires i < |es|
  {
    seq(|es|, j requires 0 <= j < |es| => i < j && Settles(es[j], es[i]))
  }

  function RowFor(height: int, tr: TxTrace, e: Event, amount: u128, success: bool, book: AddressBook): FrostRow {
    FrostRow(tr.txid, height, AddressAt(book, tr.txid, InvokeVout(e)),
             if success then Decimal(amount) else "0", success, tr.timestamp)
  }

  function WrapRowAt(height: int, tr: TxTrace, es: seq<Event>, i: nat, book: AddressBook): Option<FrostRow>
    requires i < |es|
  {
    if !IsFrostInvoke(es[i], WRAP_OPCODE) then None
    else
      var j := First(WrapFlags(es, i));
      Some(RowFor(height, tr, es[i], if j.Some? then FrostTotal(es[j.value].outgoing) else 0, j.Some?, book))
  }

  /** What a settled unwrap keeps of the token: in minus out, not below zero. */
  function UnwrapNet(es: seq<Event>, i: nat, j: Option<nat>): u128
    requires i < |es| && (j.Some? ==> j.value < |es|)
  {
    if j.Some? then SaturatingSub(FrostTotal(es[i].incoming), FrostTotal(es[j.value].outgoing)) else 0
  }

  function UnwrapRowAt(height: int, tr: TxTrace, es: seq<Event>, i: nat, book: AddressBook): Option<FrostRow>
    requires i < |es|
  {
    if !IsFrostInvoke(es[i], UNWRAP_OPCODE) then None
    else
      var j := First(UnwrapFlags(es, i));
      Some(RowFor(height, tr, es[i], UnwrapNet(es, i, j), j.Some?, book))
  }

  /** The return scan of a wrap: sums up return after return until one carried the token. */
  method ScanWrap(es: seq<Event>, i: nat) returns (found: Option<nat>, amount: u128)
    requires i < |es|
    ensures found == First(WrapFlags(es, i))
    ensures amount == if found.Some? then FrostTotal(es[found.value].outgoing) else 0
  {
    amount := 0;
    ghost var flags := WrapFlags(es, i);
    for j := i + 1 to |es|
      invariant amount == 0 && forall k | 0 <= k < j :: !flags[k]
    {
      var settles := Settles(es[j], es[i]);
      if settles {
        var success;
        amount, success := AddUp(es[j].outgoing, FrostOf, amount);
        assert flags[j] == success;
        if success {
          FirstIsUnique(flags, j);
          return Some(j), amount;
        }
        NoneNoSum(es[j].outgoing, FrostOf);
      }
    }
    found := None;
  }

  method ScanUnwrap(es: seq<Event>, i: nat) returns (found: Option<nat>, amount: u128)
    requires i < |es|
    ensures found == First(UnwrapFlags(es, i))
    ensures amount == if found.Some? then FrostTotal(es[found.value].outgoing) else 0
  {
    amount := 0;
    ghost var flags := UnwrapFlags(es, i);
    for j := i + 1 to |es|
      invariant amount == 0 && forall k | 0 <= k < j :: !flags[k]
    {
      if Settles(es[j], es[i]) {
        var any;
        amount, any := AddUp(es[j].outgoing, FrostOf, amount);
        FirstIsUnique(flags, j);
        return Some(j), amount;
      }
    }
    found := None;
  }

  /** What came in, less what the first settling return sends back. */
  method NetUnwrap(es: seq<Event>, i: nat) returns (found: Option<nat>, net: u128)
    requires i < |es|
    ensures found == First(UnwrapFlags(es, i)) && net == UnwrapNet(es, i, found)
  {
    var incoming, present := AddUp(es[i].incoming, FrostOf, 0);
    var outgoing;
    found, outgoing := ScanUnwrap(es, i);
    net := if found.Some? then SaturatingSub(incoming, outgoing) else 0;
  }

  method DecodeWrap(height: int, tr: TxTrace, es: seq<Event>, i: nat, book: AddressBook) returns (row: Option<FrostRow>)
    requires i < |es|
    ensures row == WrapRowAt(height, tr, es, i, book)
  {
    if !IsFrostInvoke(es[i], WRAP_OPCODE) { return None; }
    var found, amount := ScanWrap(es, i);
    row := Some(RowFor(height, tr, es[i], amount, found.Some?, book));
  }

  method DecodeUnwrap(height: int, tr: TxTrace, es: seq<Event>, i: nat, book: AddressBook) returns (row: Option<FrostRow>)
    requires i < |es|
    ensures row == UnwrapRowAt(height, tr, es, i, book)
  {
    if !IsFrostInvoke(es[i], UNWRAP_OPCODE) { return None; }
    var found, net := NetUnwrap(es, i);
    row := Some(RowFor(height, tr, es[i], net, found.Some?, book));
  }

  function WrapRowsAt(height: int, tr: TxTrace, es: seq<Event>, book: AddressBook): seq<Option<FrostRow>> {
    seq(|es|, i requires 0 <= i < |es| => WrapRowAt(height, tr, es, i, book))
  }

  function UnwrapRowsAt(height: int, tr: TxTrace, es: seq<Event>, book: AddressBook): seq<Option<FrostRow>> {
    seq(|es|, i requires 0 <= i < |es| => UnwrapRowAt(height, tr, es, i, book))
  }

  function WrapRowsOfTx(height: int, tr: TxTrace, book: AddressBook): seq<FrostRow> {
    Somes(WrapRowsAt(height, tr, Ordered(tr.events), book))
  }

  function UnwrapRowsOfTx(height: int, tr: TxTrace, book: AddressBook): seq<FrostRow> {
    Somes(UnwrapRowsAt(height, tr, Ordered(tr.events), book))
  }

  function WrapRowsPerTx(height: int, book: AddressBook): TxTrace -> seq<FrostRow> {
    (tr: TxTrace) => WrapRowsOfTx(height, tr, book)
  }

  function WrapRows(height: int, traces: seq<TxTrace>, book: AddressBook): seq<FrostRow> {
    FlatMap(traces, WrapRowsPerTx(height, book))
  }

  function UnwrapRowsPerTx(height: int, book: AddressBook): TxTrace -> seq<FrostRow> {
    (tr: TxTrace) => UnwrapRowsOfTx(height, tr, book)
  }

  function UnwrapRows(height: int, traces: seq<TxTrace>, book: AddressBook): seq<FrostRow> {
    FlatMap(traces, UnwrapRowsPerTx(height, book))
  }

  /** `index_subfrost_wraps_for_block`, up to the replacement of the stored rows. */
  method IndexWraps(height: int, traces: seq<TxTrace>, book: AddressBook) returns (rows: seq<FrostRow>)
    ensures rows == WrapRows(height, traces, book)
  {
    rows := [];
    ghost var perTx := WrapRowsPerTx(height, book);
    for t := 0 to |traces|
      invariant rows == FlatMap(traces[..t], perTx)
    {
      var ordered, mine := Ordered(traces[t].events), [];
      ghost var rowsAt := WrapRowsAt(height, traces[t], ordered, book);
      for i := 0 to |ordered|
        invariant mine == Somes(rowsAt[..i])
      {
        var row := DecodeWrap(height, traces[t], ordered, i, book);
        assert row == rowsAt[i];
        SomesStep(rowsAt, i);
        if row.Some? { mine := mine + [row.value]; }
      }
      assert rowsAt[..|ordered|] == rowsAt;
      rows := rows + mine;
      FlatMapStep(traces, perTx, t);
    }
    assert traces[..|traces|] == traces;
  }

  /** `index_subfrost_unwraps_for_block`, up to the replacement of the stored rows. */
  method IndexUnwraps(height: int, traces: seq<TxTrace>, book: AddressBook) returns (rows: seq<FrostRow>)
    ensures rows == UnwrapRows(height, traces, book)
  {
    rows := [];
    ghost var perTx := UnwrapRowsPerTx(height, book);
    for t := 0 to |traces|
      invariant rows == FlatMap(traces[..t], perTx)
    {
      var ordered, mine := Ordered(traces[t].events), [];
      ghost var rowsAt := UnwrapRowsAt(height, traces[t], ordered, book);
      for i := 0 to |ordered|
        invariant mine == Somes(rowsAt[..i])
      {
        var row := DecodeUnwrap(height, traces[t], ordered, i, book);
        assert row == rowsAt[i];
        SomesStep(rowsAt, i);
        if row.Some? { mine := mine + [row.value]; }
      }
      assert rowsAt[..|ordered|] == rowsAt;
      rows := rows + mine;
      FlatMapStep(traces, perTx, t);
    }
    assert traces[..|traces|] == traces;
  }

  /**
   A wrap succeeds exactly when a successful later return on its vout carries the token,
   and records everything the first such return carries; returns before it add nothing.
   */
  lemma WrapRowMeaning(height: int, tr: TxTrace, es: seq<Event>, i: nat, book: AddressBook)
    requires i < |es| && IsFrostInvoke(es[i], WRAP_OPCODE)
    ensures var r := WrapRowAt(height, tr, es, i, book).value;
      && (r.successful <==> exists j :: i < j < |es| && Settles(es[j], es[i]) && HasFrost(es[j].outgoing))
      && (r.successful ==> exists j: nat :: FirstWrapReturn(es, i, j) && r.amount == Decimal(FrostTotal(es[j].outgoing)))
      && (!r.successful ==> r.amount == "0")
  {
    FirstWrapFlag(es, i);
  }

  /** j is the first successful return on the vout of invoke i that carries the token. */
  ghost predicate FirstWrapReturn(es: seq<Event>, i: nat, j: nat)
    requires i < |es|
  {
    && i < j < |es| && Settles(es[j], es[i]) && HasFrost(es[j].outgoing)
    && forall k | i < k < j && Settles(es[k], es[i]) :: !HasFrost(es[k].outgoing)
  }

  lemma FirstWrapFlag(es: seq<Event>, i: nat)
    requires i < |es|
    ensures var j := First(WrapFlags(es, i));
      && (j.Some? <==> exists k :: i < k < |es| && Settles(es[k], es[i]) && HasFrost(es[k].outgoing))
      && (j.Some? ==> FirstWrapReturn(es, i, j.value))
  {
    var flags := WrapFlags(es, i);
    assert forall k | 0 <= k < |es| :: flags[k] <==> i < k && Settles(es[k], es[i]) && HasFrost(es[k].outgoing);
  }

  /** An unwrap succeeds exactly when a successful return follows on its vout, and records what did not come back. */
  lemma UnwrapRowMeaning(height: int, tr: TxTrace, es: seq<Event>, i: nat, book: AddressBook)
    requires i < |es| && IsFrostInvoke(es[i], UNWRAP_OPCODE)
    ensures var r := UnwrapRowAt(height, tr, es, i, book).value;
      && (r.successful <==> exists j :: i < j < |es| && Settles(es[j], es[i]))
      && (r.successful ==> exists j: nat ::
            FirstSettlement(es, i, j) && r.amount == Decimal(SaturatingSub(FrostTotal(es[i].incoming), FrostTotal(es[j].outgoing))))
      && (!r.successful ==> r.amount == "0")
  {
    FirstUnwrapFlag(es, i);
  }

  /** j is the first successful return on the vout of invoke i. */
  ghost predicate FirstSettlement(es: seq<Event>, i: nat, j: nat)
    requires i < |es|
  {
    && i < j < |es| && Settles(es[j], es[i])
    && forall k | i < k < j :: !Settles(es[k], es[i])
  }

  lemma FirstUnwrapFlag(es: seq<Event>, i: nat)
    requires i < |es|
    ensures var j := First(UnwrapFlags(es, i));
      && (j.Some? <==> exists k :: i < k < |es| && Settles(es[k], es[i]))
      && (j.Some? ==> FirstSettlement(es, i, j.value))
  {
    var flags := UnwrapFlags(es, i);
    assert forall k | 0 <= k < |es| :: flags[k] <==> i < k && Settles(es[k], es[i]);
  }

  /** Wrap and unwrap rows do not depend on how events of different classes were interleaved. */
  lemma FrostRowsIgnoreReordering(height: int, tr: TxTrace, fs: seq<Event>, book: AddressBook)
    requires Reordering(tr.events, fs)
    ensures WrapRowsOfTx(height, tr, book) == WrapRowsOfTx(height, tr.(events := fs), book)
    ensures UnwrapRowsOfTx(height, tr, book) == UnwrapRowsOfTx(height, tr.(events := fs), book)
  {
    ReorderingsSortAlike(tr.events, fs);
    var es, other := Ordered(fs), tr.(events := fs);
    assert WrapRowsAt(height, tr, es, book) == WrapRowsAt(height, other, es, book) by {
      forall i | 0 <= i < |es| ensures WrapRowAt(height, tr, es, i, book) == WrapRowAt(height, other, es, i, book) {}
    }
    assert UnwrapRowsAt(height, tr, es, book) == UnwrapRowsAt(height, other, es, book) by {
      forall i | 0 <= i < |es| ensures UnwrapRowAt(height, tr, es, i, book) == UnwrapRowAt(height, other, es, i, book) {}
    }
  }
}
