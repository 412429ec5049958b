/**
 The indexer's tables as values, and the statements it runs on them. The
 transactionIndex, createdAt and updatedAt columns are not represented.
 */
module Tables {
  import opened Options
  import opened Seqs
  import opened Tokens
  import opened Events
  import opened Decoding
  import opened PoolSwap
  import opened PoolCreate
  import opened Subfrost

  datatype Decoded = Decoded(address: Option<string>, body: string)

  datatype TxRow = TxRow(blockHeight: int, hasTrace: bool, traceSucceed: bool, data: string)

  datatype ProtoKey = ProtoKey(txid: string, vout: int, index: int)
  datatype ProtoRow = ProtoRow(blockHeight: int, decoded: Decoded)

  datatype TraceRow = TraceRow(txid: string, blockHeight: int, event: Event)

  /** A row of one of the six tables derived from the trace. */
  datatype DerivedRow =
    | SwapOf(swap: SwapRow)
    | CreationOf(creation: CreationRow)
    | LiquidityOf(liquidity: LiquidityRow)
    | FrostOf(frost: FrostRow)
  {
    function Txid(): string {
      match this
      case SwapOf(r) => r.txid
      case CreationOf(r) => r.txid
      case LiquidityOf(r) => r.txid
      case FrostOf(r) => r.txid
    }

    function Height(): int {
      match this
      case SwapOf(r) => r.blockHeight
      case CreationOf(r) => r.blockHeight
      case LiquidityOf(r) => r.blockHeight
      case FrostOf(r) => r.blockHeight
    }
  }

  datatype Table = Swaps | Creations | Mints | Burns | Wraps | Unwraps

  datatype BlockMark = BlockMark(hash: string, timestamp: int)
  datatype PoolAmounts = PoolAmounts(token0: string, token1: string, supply: string)

  datatype DerivedTables = DerivedTables(
    swaps: multiset<DerivedRow>, creations: multiset<DerivedRow>, mints: multiset<DerivedRow>,
    burns: multiset<DerivedRow>, wraps: multiset<DerivedRow>, unwraps: multiset<DerivedRow>)
  {
    function At(t: Table): multiset<DerivedRow> {
      match t
      case Swaps => swaps
      case Creations => creations
      case Mints => mints
      case Burns => burns
      case Wraps => wraps
      case Unwraps => unwraps
    }

    function Put(t: Table, rows: multiset<DerivedRow>): DerivedTables {
      match t
      case Swaps => this.(swaps := rows)
      case Creations => this.(creations := rows)
      case Mints => this.(mints := rows)
      case Burns => this.(burns := rows)
      case Wraps => this.(wraps := rows)
      case Unwraps => this.(unwraps := rows)
    }
  }

  datatype Db = Db(
    txs: map<string, TxRow>,
    protos: map<ProtoKey, ProtoRow>,
    traces: multiset<TraceRow>,
    derived: DerivedTables,
    blocks: map<int, BlockMark>,
    pools: PoolTable,
    states: map<(Token, int), PoolAmounts>)

  /** The part of a multiset that satisfies p, multiplicities included. */
  ghost function Keep<T(!new)>(m: multiset<T>, p: T -> bool): (kept: multiset<T>)
    ensures forall x :: kept[x] == if p(x) then m[x] else 0
    decreases |m|
  {
    if m == multiset{} then multiset{}
    else
      var x :| x in m;
      var rest := Keep(m - multiset{x}, p);
      if p(x) then rest + multiset{x} else rest
  }

  ghost function WithoutTraces(m: multiset<TraceRow>, ids: set<string>): (kept: multiset<TraceRow>)
    ensures forall r :: kept[r] == if r.txid in ids then 0 else m[r]
  {
    Keep(m, (r: TraceRow) => r.txid !in ids)
  }

  ghost function WithoutRows(m: multiset<DerivedRow>, ids: set<string>): (kept: multiset<DerivedRow>)
    ensures forall r :: kept[r] == if r.Txid() in ids then 0 else m[r]
  {
    Keep(m, (r: DerivedRow) => r.Txid() !in ids)
  }

  ghost function TracesOffHeight(m: multiset<TraceRow>, h: int): (kept: multiset<TraceRow>)
    ensures forall r :: kept[r] == if r.blockHeight == h then 0 else m[r]
  {
    Keep(m, (r: TraceRow) => r.blockHeight != h)
  }

  ghost function RowsOffHeight(m: multiset<DerivedRow>, h: int): (kept: multiset<DerivedRow>)
    ensures forall r :: kept[r] == if r.Height() == h then 0 else m[r]
  {
    Keep(m, (r: DerivedRow) => r.Height() != h)
  }

  /** Insert or overwrite entry after entry. */
  function PutAll<K, V>(m: map<K, V>, items: seq<(K, V)>): map<K, V> {
    if items == [] then m
    else PutAll(m, items[..|items| - 1])[items[|items| - 1].0 := items[|items| - 1].1]
  }

  function KeysOf<K, V>(items: seq<(K, V)>): seq<K> {
    seq(|items|, k requires 0 <= k < |items| => items[k].0)
  }

  function WithoutProtos(protos: map<ProtoKey, ProtoRow>, ids: set<string>): map<ProtoKey, ProtoRow> {
    map k | k in protos && k.txid !in ids :: protos[k]
  }

  lemma {:induction false} NoRepeatsPermutes<T>(xs: seq<T>, ys: seq<T>)
    requires multiset(xs) == multiset(ys) && NoRepeats(xs)
    ensures NoRepeats(ys)
  {
    forall j, k | 0 <= j < k < |ys|
      ensures ys[j] != ys[k]
    {
      assert ys == ys[..j] + [ys[j]] + ys[j + 1..k] + [ys[k]] + ys[k + 1..];
      if ys[j] == ys[k] {
        assert multiset(ys)[ys[j]] >= 2;
        AtMostOnce(xs, ys[j]);
      }
    }
  }

  lemma {:induction false} AtMostOnce<T>(xs: seq<T>, x: T)
    requires NoRepeats(xs)
    ensures multiset(xs)[x] <= 1
  {
    if xs != [] {
      var n := |xs| - 1;
      assert xs == xs[..n] + [xs[n]];
      AtMostOnce(xs[..n], x);
      assert multiset(xs[..n])[xs[n]] == 0 by {
        assert xs[n] !in xs[..n];
      }
    }
  }

  /** An entry's key holds the entry's value afterwards. */
  lemma {:induction false} PutAllAt<K, V>(m: map<K, V>, items: seq<(K, V)>, i: nat)
    requires i < |items| && NoRepeats(KeysOf(items))
    ensures items[i].0 in PutAll(m, items) && PutAll(m, items)[items[i].0] == items[i].1
  {
    var n := |items| - 1;
    if i < n {
      var front := items[..n];
      assert forall k | 0 <= k < n :: KeysOf(items)[k] == KeysOf(front)[k];
      assert KeysOf(items)[i] != KeysOf(items)[n];
      PutAllAt(m, front, i);
    }
  }

  /** Every other key is left alone. */
  lemma {:induction false} PutAllElsewhere<K, V>(m: map<K, V>, items: seq<(K, V)>, k: K)
    requires k !in KeysOf(items)
    ensures k in PutAll(m, items) <==> k in m
    ensures k in m ==> PutAll(m, items)[k] == m[k]
  {
    if items != [] {
      var n := |items| - 1;
      assert KeysOf(items)[n] != k;
      assert k !in KeysOf(items[..n]) by {
        assert forall i | 0 <= i < n :: KeysOf(items[..n])[i] == KeysOf(items)[i];
      }
      PutAllElsewhere(m, items[..n], k);
    }
  }

  lemma IndexOfKey<K, V>(items: seq<(K, V)>, k: K) returns (i: nat)
    requires k in KeysOf(items)
    ensures i < |items| && items[i].0 == k
  {
    i :| 0 <= i < |KeysOf(items)| && KeysOf(items)[i] == k;
  }

  lemma SameKeys<K, V>(xs: seq<(K, V)>, ys: seq<(K, V)>, i: nat) returns (j: nat)
    requires multiset(xs) == multiset(ys) && i < |xs|
    ensures j < |ys| && ys[j] == xs[i] && xs[i].0 in KeysOf(ys)
  {
    assert xs[i] in multiset(ys);
    j :| 0 <= j < |ys| && ys[j] == xs[i];
    assert KeysOf(ys)[j] == xs[i].0;
  }

  lemma PutAllAgreeAt<K, V>(m: map<K, V>, xs: seq<(K, V)>, ys: seq<(K, V)>, k: K)
    requires multiset(xs) == multiset(ys)
    requires NoRepeats(KeysOf(xs)) && NoRepeats(KeysOf(ys))
    ensures k in PutAll(m, xs) <==> k in PutAll(m, ys)
    ensures k in PutAll(m, xs) ==> PutAll(m, xs)[k] == PutAll(m, ys)[k]
  {
    if k in KeysOf(xs) {
      var i := IndexOfKey(xs, k);
      var j := SameKeys(xs, ys, i);
      PutAllAt(m, xs, i);
      PutAllAt(m, ys, j);
    } else {
      if k in KeysOf(ys) {
        var j := IndexOfKey(ys, k);
        var i := SameKeys(ys, xs, j);
      }
      PutAllElsewhere(m, xs, k);
      PutAllElsewhere(m, ys, k);
    }
  }

  /** With distinct keys the order of the entries is irrelevant. */
  lemma PutAllPermutes<K, V>(m: map<K, V>, xs: seq<(K, V)>, ys: seq<(K, V)>)
    requires multiset(xs) == multiset(ys)
    requires NoRepeats(KeysOf(xs)) && NoRepeats(KeysOf(ys))
    ensures PutAll(m, xs) == PutAll(m, ys)
  {
    var a, b := PutAll(m, xs), PutAll(m, ys);
    forall k | k in a.Keys + b.Keys
      ensures k in a && k in b && a[k] == b[k]
    {
      PutAllAgreeAt(m, xs, ys, k);
    }
    assert a.Keys == b.Keys;
  }

  /** Writing the same entries again over any state that already holds them changes nothing. */
  lemma PutAllTwice<K, V>(m: map<K, V>, items: seq<(K, V)>)
    requires NoRepeats(KeysOf(items))
    ensures PutAll(PutAll(m, items), items) == PutAll(m, items)
  {
    var once := PutAll(m, items);
    var twice := PutAll(once, items);
    forall k | k in once.Keys + twice.Keys
      ensures k in once && k in twice && twice[k] == once[k]
    {
      if k in KeysOf(items) {
        var i := IndexOfKey(items, k);
        PutAllAt(m, items, i);
        PutAllAt(once, items, i);
      } else {
        PutAllElsewhere(once, items, k);
      }
    }
    assert once.Keys == twice.Keys;
  }
}
