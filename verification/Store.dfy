/**
 The database as an object, with the statements that upsert or replace a block's
 rows chunk by chunk and the address lookup over the stored protostones.
 */
module Store {
  import opened Options
  import opened Seqs
  import opened Chunking
  import opened Tokens
  import opened Decoding
  import opened Tables
  import opened Commits
  import opened Pipeline

  predicate HasRepeats<T(==)>(xs: seq<T>) {
    exists j, k :: 0 <= j < k < |xs| && xs[j] == xs[k]
  }

  /** Insert, and where the key exists already overwrite the decoded column only. */
  function PutDecoded(m: map<ProtoKey, ProtoRow>, items: seq<(ProtoKey, ProtoRow)>): map<ProtoKey, ProtoRow> {
    if items == [] then m
    else
      var rest, (k, row) := PutDecoded(m, items[..|items| - 1]), items[|items| - 1];
      rest[k := if k in rest then rest[k].(decoded := row.decoded) else row]
  }

  lemma {:induction false} PutAllSplits<K, V>(m: map<K, V>, xs: seq<(K, V)>, ys: seq<(K, V)>)
    ensures PutAll(PutAll(m, xs), ys) == PutAll(m, xs + ys)
  {
    if ys == [] {
      assert xs + ys == xs;
    } else {
      var n := |ys| - 1;
      assert (xs + ys)[..|xs| + n] == xs + ys[..n];
      PutAllSplits(m, xs, ys[..n]);
    }
  }

  lemma {:induction false} PutDecodedSplits(m: map<ProtoKey, ProtoRow>, xs: seq<(ProtoKey, ProtoRow)>, ys: seq<(ProtoKey, ProtoRow)>)
    ensures PutDecoded(PutDecoded(m, xs), ys) == PutDecoded(m, xs + ys)
  {
    if ys == [] {
      assert xs + ys == xs;
    } else {
      var n := |ys| - 1;
      assert (xs + ys)[..|xs| + n] == xs + ys[..n];
      PutDecodedSplits(m, xs, ys[..n]);
    }
  }

  /** The conflict arm never fires when the keys are new and distinct. */
  lemma {:induction false} NoConflict(m: map<ProtoKey, ProtoRow>, items: seq<(ProtoKey, ProtoRow)>)
    requires NoRepeats(KeysOf(items))
    requires forall k | k in KeysOf(items) :: k !in m
    ensures PutDecoded(m, items) == PutAll(m, items)
  {
    if items != [] {
      var n := |items| - 1;
      var front := items[..n];
      assert forall i | 0 <= i < n :: KeysOf(items)[i] == KeysOf(front)[i];
      assert KeysOf(items)[n] == items[n].0;
      assert forall k | k in KeysOf(front) :: k in KeysOf(items);
      assert items[n].0 !in KeysOf(front);
      NoConflict(m, front);
      PutAllElsewhere(m, front, items[n].0);
    }
  }

  /** Join of the pieces up to k is a prefix of the whole. */
  lemma {:induction false} JoinStep<T>(pieces: seq<seq<T>>, k: nat)
    requires k < |pieces|
    ensures Join(pieces[..k + 1]) == Join(pieces[..k]) + pieces[k]
  {
    if k == 0 {
      assert pieces[..1] == [pieces[0]] && pieces[..0] == [];
      assert [pieces[0]][1..] == [];
    } else {
      JoinStep(pieces[1..], k - 1);
      assert pieces[..k + 1][1..] == pieces[1..][..k] && pieces[..k][1..] == pieces[1..][..k - 1];
    }
  }

  lemma {:induction false} JoinAt<T>(pieces: seq<seq<T>>, k: nat)
    requires k < |pieces|
    ensures Join(pieces) == Join(pieces[..k]) + pieces[k] + Join(pieces[k + 1..])
  {
    if k == 0 {
      assert pieces[..0] == [];
    } else {
      JoinAt(pieces[1..], k - 1);
      assert pieces[..k][1..] == pieces[1..][..k - 1];
      assert pieces[..k][0] == pieces[0];
      assert pieces[1..][k..] == pieces[k + 1..];
    }
  }

  lemma PieceHasNoRepeats<K, V>(items: seq<(K, V)>, pieces: seq<seq<(K, V)>>, k: nat)
    requires Join(pieces) == items && k < |pieces| && NoRepeats(KeysOf(items))
    ensures NoRepeats(KeysOf(pieces[k]))
  {
    JoinAt(pieces, k);
    var before := Join(pieces[..k]);
    assert forall i | 0 <= i < |pieces[k]| :: KeysOf(pieces[k])[i] == KeysOf(items)[|before| + i];
  }

  function KeepTraces(rows: seq<TraceRow>, ids: set<string>): (kept: seq<TraceRow>)
    ensures multiset(kept) == WithoutTraces(multiset(rows), ids)
  {
    var drop := (r: TraceRow) => r.txid in ids;
    assert forall r :: multiset(Reject(rows, drop))[r] == WithoutTraces(multiset(rows), ids)[r] by {
      forall r ensures multiset(Reject(rows, drop))[r] == WithoutTraces(multiset(rows), ids)[r] { RejectCount(rows, drop, r); }
    }
    Reject(rows, drop)
  }

  function KeepRows(rows: seq<DerivedRow>, ids: set<string>): (kept: seq<DerivedRow>)
    ensures multiset(kept) == WithoutRows(multiset(rows), ids)
  {
    var drop := (r: DerivedRow) => r.Txid() in ids;
    assert forall r :: multiset(Reject(rows, drop))[r] == WithoutRows(multiset(rows), ids)[r] by {
      forall r ensures multiset(Reject(rows, drop))[r] == WithoutRows(multiset(rows), ids)[r] { RejectCount(rows, drop, r); }
    }
    Reject(rows, drop)
  }

  /** Bulk insert, one statement per chunk. */
  method InsertChunks<T>(rows: seq<T>, items: seq<T>, width: nat, cap: nat) returns (all: seq<T>)
    requires 0 < width <= MAX_PARAMS && cap > 0
    ensures all == rows + items
  {
    all := rows;
    assert MaxRows(width, cap) > 0 by { StatementFits(width, cap, 0); }
    var pieces := Chunks(items, MaxRows(width, cap));
    ChunksMeaning(items, MaxRows(width, cap));
    for c := 0 to |pieces|
      invariant all == rows + Join(pieces[..c])
    {
      StatementFits(width, cap, |pieces[c]|);
      assert |pieces[c]| * width <= MAX_PARAMS;
      JoinStep(pieces, c);
      all := all + pieces[c];
    }
    assert pieces[..|pieces|] == pieces;
  }

  /** The rows stored for a table; a table never written to is empty. */
  function RowsAt(derived: map<Table, seq<DerivedRow>>, t: Table): seq<DerivedRow> {
    if t in derived then derived[t] else []
  }

  function TablesIn(derived: map<Table, seq<DerivedRow>>): DerivedTables {
    DerivedTables(multiset(RowsAt(derived, Swaps)), multiset(RowsAt(derived, Creations)), multiset(RowsAt(derived, Mints)),
                  multiset(RowsAt(derived, Burns)), multiset(RowsAt(derived, Wraps)), multiset(RowsAt(derived, Unwraps)))
  }

  lemma TablesInAt(derived: map<Table, seq<DerivedRow>>, t: Table)
    ensures TablesIn(derived).At(t) == multiset(RowsAt(derived, t))
  {
  }

  lemma TablesPutAt(derived: map<Table, seq<DerivedRow>>, t: Table, rows: seq<DerivedRow>, u: Table)
    ensures TablesIn(derived[t := rows]).At(u) == TablesIn(derived).Put(t, multiset(rows)).At(u)
  {
    TablesInAt(derived, u);
    TablesInAt(derived[t := rows], u);
    PutAt(TablesIn(derived), t, multiset(rows));
  }

  lemma TablesPut(derived: map<Table, seq<DerivedRow>>, t: Table, rows: seq<DerivedRow>)
    ensures TablesIn(derived[t := rows]) == TablesIn(derived).Put(t, multiset(rows))
  {
    var d, e := TablesIn(derived[t := rows]), TablesIn(derived).Put(t, multiset(rows));
    forall u: Table ensures d.At(u) == e.At(u) {
      TablesPutAt(derived, t, rows, u);
    }
    TablesEqual(d, e);
  }

  class Database {
    var txs: map<string, TxRow>
    var protos: map<ProtoKey, ProtoRow>
    var traces: seq<TraceRow>
    var derived: map<Table, seq<DerivedRow>>
    var blocks: map<int, BlockMark>
    var pools: PoolTable
    var states: map<(Token, int), PoolAmounts>

    function RowsIn(t: Table): seq<DerivedRow>
      reads this
    {
      RowsAt(derived, t)
    }

    ghost function View(): Db
      reads this
    {
      Db(txs, protos, multiset(traces),
         TablesIn(derived), blocks, pools, states)
    }

    /** An empty database that knows some pools. */
    constructor (pools: PoolTable)
      ensures View() == Db(map[], map[], multiset{}, DerivedTables(multiset{}, multiset{}, multiset{}, multiset{}, multiset{}, multiset{}), map[], pools, map[])
    {
      txs, protos, traces, derived, blocks, states := map[], map[], [], map[], map[], map[];
      this.pools := pools;
    }

    /**
     `upsert_alkane_transactions`: one statement per chunk of at most 1500 rows. A statement
     that meets the same id twice is refused, which is the only way to fail.
     */
    method UpsertTransactions(items: seq<(string, TxRow)>) returns (ok: bool)
      modifies this`txs
      ensures ok ==> txs == PutAll(old(txs), items)
      ensures NoRepeats(KeysOf(items)) ==> ok
    {
      var pieces := Chunks(items, MaxRows(6, 1500));
      ChunksMeaning(items, MaxRows(6, 1500));
      for c := 0 to |pieces|
        invariant txs == PutAll(old(txs), Join(pieces[..c]))
      {
        StatementFits(6, 1500, |pieces[c]|);
        if HasRepeats(KeysOf(pieces[c])) {
          assert NoRepeats(KeysOf(items)) ==> NoRepeats(KeysOf(pieces[c])) by {
            if NoRepeats(KeysOf(items)) { PieceHasNoRepeats(items, pieces, c); }
          }
          return false;
        }
        PutAllSplits(old(txs), Join(pieces[..c]), pieces[c]);
        JoinStep(pieces, c);
        txs := PutAll(txs, pieces[c]);
      }
      assert pieces[..|pieces|] == pieces;
      ok := true;
    }

    /** `replace_decoded_protostones`: delete by transaction, then insert in chunks of at most 2000 rows. */
    method ReplaceProtostones(ids: set<string>, items: seq<(ProtoKey, ProtoRow)>) returns (ok: bool)
      modifies this`protos
      ensures ok ==> protos == PutDecoded(WithoutProtos(old(protos), ids), items)
      ensures NoRepeats(KeysOf(items)) ==> ok
      ensures NoRepeats(KeysOf(items)) && (forall k | k in KeysOf(items) :: k.txid in ids) ==>
        protos == PutAll(WithoutProtos(old(protos), ids), items)
    {
      protos := WithoutProtos(protos, ids);
      ghost var kept := protos;
      var pieces := Chunks(items, MaxRows(5, 2000));
      ChunksMeaning(items, MaxRows(5, 2000));
      for c := 0 to |pieces|
        invariant protos == PutDecoded(kept, Join(pieces[..c]))
      {
        StatementFits(5, 2000, |pieces[c]|);
        if HasRepeats(KeysOf(pieces[c])) {
          assert NoRepeats(KeysOf(items)) ==> NoRepeats(KeysOf(pieces[c])) by {
            if NoRepeats(KeysOf(items)) { PieceHasNoRepeats(items, pieces, c); }
          }
          return false;
        }
        PutDecodedSplits(kept, Join(pieces[..c]), pieces[c]);
        JoinStep(pieces, c);
        protos := PutDecoded(protos, pieces[c]);
      }
      assert pieces[..|pieces|] == pieces;
      ok := true;
      if NoRepeats(KeysOf(items)) && forall k | k in KeysOf(items) :: k.txid in ids {
        NoConflict(kept, items);
      }
    }

    /** `replace_trace_events` */
    method ReplaceTraceEvents(ids: set<string>, items: seq<TraceRow>)
      modifies this`traces
      ensures multiset(traces) == WithoutTraces(old(multiset(traces)), ids) + multiset(items)
    {
      traces := KeepTraces(traces, ids);
      traces := InsertChunks(traces, items, 7, 2000);
    }

    /** The other `replace_*` functions: delete by transaction, then insert in chunks of rows of this width. */
    method ReplaceRows(t: Table, ids: set<string>, items: seq<DerivedRow>, width: nat)
      requires 0 < width <= MAX_PARAMS
      modifies this`derived
      ensures View() == old(View()).(derived := old(View()).derived.Put(t, WithoutRows(old(View()).derived.At(t), ids) + multiset(items)))
    {
      TablesInAt(derived, t);
      var rows := KeepRows(RowsIn(t), ids);
      rows := InsertChunks(rows, items, width, MAX_PARAMS);
      SetRows(t, rows);
    }

    method SetRows(t: Table, rows: seq<DerivedRow>)
      modifies this`derived
      ensures View() == old(View()).(derived := old(View()).derived.Put(t, multiset(rows)))
    {
      TablesPut(derived, t, rows);
      derived := derived[t := rows];
    }

    /** `get_decoded_protostones_by_txid_vout` and the address search over its rows. */
    method LoadBook(ids: set<string>) returns (book: AddressBook)
      ensures book == BookOf(protos, ids)
    {
      var first: map<(string, int), int> := map[];
      book := map[];
      var left := protos.Keys;
      while left != {}
        invariant left <= protos.Keys
        invariant first.Keys == book.Keys
        invariant forall k | k in protos.Keys - left && k.txid in ids && protos[k].decoded.address.Some? ::
          (k.txid, k.vout) in first && first[(k.txid, k.vout)] <= k.index
        invariant forall p | p in book ::
          && ProtoKey(p.0, p.1, first[p]) in protos && p.0 in ids
          && protos[ProtoKey(p.0, p.1, first[p])].decoded.address == Some(book[p])
        decreases |left|
      {
        var k :| k in left;
        left := left - {k};
        if k.txid in ids && protos[k].decoded.address.Some? {
          var p := (k.txid, k.vout);
          if p !in first || k.index < first[p] {
            first := first[p := k.index];
            book := book[p := protos[k].decoded.address.value];
          }
        }
      }
      BookFound(protos, ids, first, book);
    }
  }

  lemma BookFound(protos: map<ProtoKey, ProtoRow>, ids: set<string>, first: map<(string, int), int>, book: AddressBook)
    requires first.Keys == book.Keys
    requires forall k | k in protos && k.txid in ids && protos[k].decoded.address.Some? ::
      (k.txid, k.vout) in first && first[(k.txid, k.vout)] <= k.index
    requires forall p | p in book ::
      && ProtoKey(p.0, p.1, first[p]) in protos && p.0 in ids
      && protos[ProtoKey(p.0, p.1, first[p])].decoded.address == Some(book[p])
    ensures book == BookOf(protos, ids)
  {
    var target := BookOf(protos, ids);
    forall p | p in book
      ensures p in AddressedVouts(protos, ids) && IsFirstAddress(protos, p.0, p.1, book[p])
    {
      var k := ProtoKey(p.0, p.1, first[p]);
      assert k in protos && (k.txid, k.vout) == p;
    }
    assert book.Keys == target.Keys;
    forall p | p in book
      ensures book[p] == target[p]
    {
      FirstAddressUnique(protos, p.0, p.1, book[p], target[p]);
    }
  }

  lemma FirstAddressUnique(protos: map<ProtoKey, ProtoRow>, txid: string, vout: int, a: string, b: string)
    requires IsFirstAddress(protos, txid, vout, a) && IsFirstAddress(protos, txid, vout, b)
    ensures a == b
  {
    var i: int :| ProtoKey(txid, vout, i) in protos && protos[ProtoKey(txid, vout, i)].decoded.address == Some(a)
      && forall k: int | k < i && ProtoKey(txid, vout, k) in protos :: protos[ProtoKey(txid, vout, k)].decoded.address.None?;
    var j: int :| ProtoKey(txid, vout, j) in protos && protos[ProtoKey(txid, vout, j)].decoded.address == Some(b)
      && forall k: int | k < j && ProtoKey(txid, vout, k) in protos :: protos[ProtoKey(txid, vout, k)].decoded.address.None?;
    assert ProtoKey(txid, vout, i) in protos && ProtoKey(txid, vout, j) in protos;
  }
}
