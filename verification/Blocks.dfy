/** The decoded content of a block and the rows it yields, table by table. */
module Blocks {
  import opened Seqs
  import opened Events
  import opened Decoding
  import opened PoolMint
  import opened PoolBurn
  import opened PoolSwap
  import opened PoolCreate
  import opened Subfrost
  import opened Tables

  datatype ProtoItem = ProtoItem(vout: int, index: int, decoded: Decoded)

  /** What decoding and tracing one transaction yields. */
  datatype TxResult = TxResult(
    txid: string, data: string, timestamp: int, hasTrace: bool, traceSucceed: bool,
    protos: seq<ProtoItem>, events: seq<Event>)

  datatype Block = Block(height: int, mark: BlockMark, results: seq<TxResult>)

  function Ids(results: seq<TxResult>): set<string> {
    set r | r in results :: r.txid
  }

  function TxidOf(): TxResult -> seq<string> {
    (r: TxResult) => [r.txid]
  }

  function TxItemOf(h: int): TxResult -> seq<(string, TxRow)> {
    (r: TxResult) => [(r.txid, TxRow(h, r.hasTrace, r.traceSucceed, r.data))]
  }

  function ProtoKeysOf(): TxResult -> seq<ProtoKey> {
    (r: TxResult) => seq(|r.protos|, i requires 0 <= i < |r.protos| => ProtoKey(r.txid, r.protos[i].vout, r.protos[i].index))
  }

  function ProtoItemsOf(h: int): TxResult -> seq<(ProtoKey, ProtoRow)> {
    (r: TxResult) => seq(|r.protos|, i requires 0 <= i < |r.protos| =>
      (ProtoKey(r.txid, r.protos[i].vout, r.protos[i].index), ProtoRow(h, r.protos[i].decoded)))
  }

  function TraceItemsOf(h: int): TxResult -> seq<TraceRow> {
    (r: TxResult) => seq(|r.events|, i requires 0 <= i < |r.events| => TraceRow(r.txid, h, r.events[i]))
  }

  /** Transactions and protostones are told apart by their keys. */
  ghost predicate WellFormed(results: seq<TxResult>) {
    NoRepeats(FlatMap(results, TxidOf())) && NoRepeats(FlatMap(results, ProtoKeysOf()))
  }

  function TraceOf(r: TxResult): TxTrace {
    TxTrace(r.txid, r.timestamp, r.events)
  }

  function SwapsOf(rows: seq<SwapRow>): seq<DerivedRow> {
    seq(|rows|, i requires 0 <= i < |rows| => SwapOf(rows[i]))
  }

  function CreationsOf(rows: seq<CreationRow>): seq<DerivedRow> {
    seq(|rows|, i requires 0 <= i < |rows| => CreationOf(rows[i]))
  }

  function LiquiditiesOf(rows: seq<LiquidityRow>): seq<DerivedRow> {
    seq(|rows|, i requires 0 <= i < |rows| => LiquidityOf(rows[i]))
  }

  function FrostsOf(rows: seq<FrostRow>): seq<DerivedRow> {
    seq(|rows|, i requires 0 <= i < |rows| => FrostOf(rows[i]))
  }

  /** The rows of one transaction for one derived table. */
  function RowsFor(t: Table, h: int, r: TxResult, pools: PoolTable, book: AddressBook): seq<DerivedRow> {
    match t
    case Swaps => SwapsOf(SwapRowsOfTx(h, TraceOf(r), pools, book))
    case Creations => CreationsOf(CreationRowsOfTx(h, TraceOf(r), book))
    case Mints => LiquiditiesOf(MintRowsOfTx(h, TraceOf(r), pools, book))
    case Burns => LiquiditiesOf(BurnRowsOfTx(h, TraceOf(r), pools, book))
    case Wraps => FrostsOf(WrapRowsOfTx(h, TraceOf(r), book))
    case Unwraps => FrostsOf(UnwrapRowsOfTx(h, TraceOf(r), book))
  }

  function RowsOf(t: Table, h: int, pools: PoolTable, book: AddressBook): TxResult -> seq<DerivedRow> {
    (r: TxResult) => RowsFor(t, h, r, pools, book)
  }

  function Derive(t: Table, h: int, results: seq<TxResult>, pools: PoolTable, book: AddressBook): seq<DerivedRow> {
    FlatMap(results, RowsOf(t, h, pools, book))
  }

  // The rows carry the transaction and height they were derived for

  lemma MintRowsOwn(h: int, tr: TxTrace, pools: PoolTable, book: AddressBook, x: LiquidityRow)
    requires x in MintRowsOfTx(h, tr, pools, book)
    ensures x.txid == tr.txid && x.blockHeight == h
  {
    SomesMember(MintRowsAt(h, tr, Ordered(tr.events), pools, book), x);
  }

  lemma BurnRowsOwn(h: int, tr: TxTrace, pools: PoolTable, book: AddressBook, x: LiquidityRow)
    requires x in BurnRowsOfTx(h, tr, pools, book)
    ensures x.txid == tr.txid && x.blockHeight == h
  {
    SomesMember(BurnRowsAt(h, tr, Ordered(tr.events), pools, book), x);
  }

  lemma SwapRowsOwn(h: int, tr: TxTrace, pools: PoolTable, book: AddressBook, x: SwapRow)
    requires x in SwapRowsOfTx(h, tr, pools, book)
    ensures x.txid == tr.txid && x.blockHeight == h
  {
    SomesMember(SwapRowsAt(h, tr, pools, book), x);
  }

  lemma CreationRowsOwn(h: int, tr: TxTrace, book: AddressBook, x: CreationRow)
    requires x in CreationRowsOfTx(h, tr, book)
    ensures x.txid == tr.txid && x.blockHeight == h
  {
    SomesMember(CreationRowsAt(h, tr, Ordered(tr.events), book), x);
  }

  lemma WrapRowsOwn(h: int, tr: TxTrace, book: AddressBook, x: FrostRow)
    requires x in WrapRowsOfTx(h, tr, book)
    ensures x.txid == tr.txid && x.blockHeight == h
  {
    SomesMember(WrapRowsAt(h, tr, Ordered(tr.events), book), x);
  }

  lemma UnwrapRowsOwn(h: int, tr: TxTrace, book: AddressBook, x: FrostRow)
    requires x in UnwrapRowsOfTx(h, tr, book)
    ensures x.txid == tr.txid && x.blockHeight == h
  {
    SomesMember(UnwrapRowsAt(h, tr, Ordered(tr.events), book), x);
  }

  lemma RowsForOwn(t: Table, h: int, r: TxResult, pools: PoolTable, book: AddressBook, x: DerivedRow)
    requires x in RowsFor(t, h, r, pools, book)
    ensures x.Txid() == r.txid && x.Height() == h
  {
    var tr := TraceOf(r);
    match t {
      case Swaps => SwapRowsOwn(h, tr, pools, book, x.swap);
      case Creations => CreationRowsOwn(h, tr, book, x.creation);
      case Mints => MintRowsOwn(h, tr, pools, book, x.liquidity);
      case Burns => BurnRowsOwn(h, tr, pools, book, x.liquidity);
      case Wraps => WrapRowsOwn(h, tr, book, x.frost);
      case Unwraps => UnwrapRowsOwn(h, tr, book, x.frost);
    }
  }

  /** Every derived row of a block belongs to one of its transactions and to its height. */
  lemma DerivedRowsOwn(t: Table, h: int, results: seq<TxResult>, pools: PoolTable, book: AddressBook)
    ensures forall x | x in Derive(t, h, results, pools, book) :: x.Txid() in Ids(results) && x.Height() == h
  {
    var f := RowsOf(t, h, pools, book);
    forall x | x in Derive(t, h, results, pools, book)
      ensures x.Txid() in Ids(results) && x.Height() == h
    {
      FlatMapMember(results, f, x);
      var r :| r in results && x in f(r);
      assert x in RowsFor(t, h, r, pools, book);
      RowsForOwn(t, h, r, pools, book, x);
    }
  }

  lemma TraceItemsOwn(h: int, results: seq<TxResult>)
    ensures forall x | x in FlatMap(results, TraceItemsOf(h)) :: x.txid in Ids(results) && x.blockHeight == h
  {
    forall x | x in FlatMap(results, TraceItemsOf(h))
      ensures x.txid in Ids(results) && x.blockHeight == h
    {
      FlatMapMember(results, TraceItemsOf(h), x);
      var r :| r in results && x in TraceItemsOf(h)(r);
    }
  }

  lemma {:induction false} ItemKeys(h: int, results: seq<TxResult>)
    ensures KeysOf(FlatMap(results, TxItemOf(h))) == FlatMap(results, TxidOf())
    ensures KeysOf(FlatMap(results, ProtoItemsOf(h))) == FlatMap(results, ProtoKeysOf())
  {
    if results != [] {
      var n := |results| - 1;
      ItemKeys(h, results[..n]);
      assert KeysOf(ProtoItemsOf(h)(results[n])) == ProtoKeysOf()(results[n]);
      assert KeysOf(TxItemOf(h)(results[n])) == TxidOf()(results[n]);
      KeysOfConcat(FlatMap(results[..n], TxItemOf(h)), TxItemOf(h)(results[n]));
      KeysOfConcat(FlatMap(results[..n], ProtoItemsOf(h)), ProtoItemsOf(h)(results[n]));
    }
  }

  lemma KeysOfConcat<K, V>(xs: seq<(K, V)>, ys: seq<(K, V)>)
    ensures KeysOf(xs + ys) == KeysOf(xs) + KeysOf(ys)
  {
  }

  /** Keys of the written rows are keys of the block. */
  lemma ProtoKeysOwn(h: int, results: seq<TxResult>, k: ProtoKey)
    requires k in KeysOf(FlatMap(results, ProtoItemsOf(h)))
    ensures k.txid in Ids(results)
  {
    ItemKeys(h, results);
    FlatMapMember(results, ProtoKeysOf(), k);
    var r :| r in results && k in ProtoKeysOf()(r);
  }

  lemma TxKeysOwn(h: int, results: seq<TxResult>, k: string)
    ensures k in KeysOf(FlatMap(results, TxItemOf(h))) <==> k in Ids(results)
  {
    ItemKeys(h, results);
    FlatMapMember(results, TxidOf(), k);
    if k in Ids(results) {
      var r :| r in results && r.txid == k;
      assert k in TxidOf()(r);
    }
  }

  /** Content, not order, decides what is written. */
  lemma ReorderedContent(h: int, xs: seq<TxResult>, ys: seq<TxResult>)
    requires multiset(xs) == multiset(ys) && WellFormed(xs)
    ensures WellFormed(ys) && Ids(xs) == Ids(ys)
    ensures multiset(FlatMap(xs, TraceItemsOf(h))) == multiset(FlatMap(ys, TraceItemsOf(h)))
    ensures forall m :: PutAll(m, FlatMap(xs, TxItemOf(h))) == PutAll(m, FlatMap(ys, TxItemOf(h)))
    ensures forall m :: PutAll(m, FlatMap(xs, ProtoItemsOf(h))) == PutAll(m, FlatMap(ys, ProtoItemsOf(h)))
  {
    FlatMapPermutes(xs, ys, TxidOf());
    FlatMapPermutes(xs, ys, ProtoKeysOf());
    NoRepeatsPermutes(FlatMap(xs, TxidOf()), FlatMap(ys, TxidOf()));
    NoRepeatsPermutes(FlatMap(xs, ProtoKeysOf()), FlatMap(ys, ProtoKeysOf()));
    FlatMapPermutes(xs, ys, TraceItemsOf(h));
    FlatMapPermutes(xs, ys, TxItemOf(h));
    FlatMapPermutes(xs, ys, ProtoItemsOf(h));
    ItemKeys(h, xs);
    ItemKeys(h, ys);
    assert Ids(xs) == Ids(ys) by {
      assert forall r :: r in xs <==> r in multiset(xs);
      assert forall r :: r in ys <==> r in multiset(ys);
    }
    forall m
      ensures PutAll(m, FlatMap(xs, TxItemOf(h))) == PutAll(m, FlatMap(ys, TxItemOf(h)))
    {
      PutAllPermutes(m, FlatMap(xs, TxItemOf(h)), FlatMap(ys, TxItemOf(h)));
    }
    forall m
      ensures PutAll(m, FlatMap(xs, ProtoItemsOf(h))) == PutAll(m, FlatMap(ys, ProtoItemsOf(h)))
    {
      PutAllPermutes(m, FlatMap(xs, ProtoItemsOf(h)), FlatMap(ys, ProtoItemsOf(h)));
    }
  }

  lemma ReorderedDerive(t: Table, h: int, xs: seq<TxResult>, ys: seq<TxResult>, pools: PoolTable, book: AddressBook)
    requires multiset(xs) == multiset(ys)
    ensures multiset(Derive(t, h, xs, pools, book)) == multiset(Derive(t, h, ys, pools, book))
  {
    FlatMapPermutes(xs, ys, RowsOf(t, h, pools, book));
  }
}
