/** `decode_and_trace_for_block` on a block's transactions, whatever the schedule of its workers. */
module BlockDecode {
  import opened Seqs
  import opened Tables
  import opened Blocks
  import opened Convergence
  import opened Pipeline
  import opened Protostones
  import opened WorkerPool

  const IGNORED_TRACE_TXIDS: set<string> := {
    "a807e8d4e91a6fa957c3f9929d267f6795971e41e6da61c44886deaa45797830",
    "33c5a9f2d415b2b826a2ea1230d1849be0a74dc73857460c9c7674fe76147830",
    "79c202e94c425320c91d6176108b93c033fb5a627fc2750453e97c6c434e7830",
    "12a6c6f41a722e75d48caf57ed7a22feb56686c2ba51e226e6b6033ef3357830",
    "6ee9eda5df0814af442f75db1d553f951f04699b854b9e0cff6d1395c2bdf075",
    "c4c00e467ec76aa228a737156488b74dc27a998cf3056655612dbd3eeb5e6fb0",
    "9d258d9e805ca9252101d5839aee46d63fbda8786e3f80988f5b10ce35aa060e",
    "83d0deb1d223c932e0ff4306c0f408d17dbd520bd1dfb9e8d5823b711be77830",
    "b19dd4c02942b0c2f19c5f11e9e4b1211051a779ff4bb8e84b02f37a2f415f6d"
  }

  /** OP_RETURN transactions that are not on the ignore list. */
  function Filtered(txs: seq<Tx>): seq<Tx> {
    FlatMap(txs, KeptOf())
  }

  function KeptOf(): Tx -> seq<Tx> {
    (t: Tx) => if t.opReturn && t.txid !in IGNORED_TRACE_TXIDS then [t] else []
  }

  lemma FilteredMeaning(txs: seq<Tx>)
    ensures forall t :: t in Filtered(txs) <==> t in txs && t.opReturn && t.txid !in IGNORED_TRACE_TXIDS
  {
    forall t ensures t in Filtered(txs) <==> t in txs && t.opReturn && t.txid !in IGNORED_TRACE_TXIDS {
      FlatMapMember(txs, KeptOf(), t);
      assert t in txs && t.opReturn && t.txid !in IGNORED_TRACE_TXIDS ==> t in KeptOf()(t);
    }
  }

  method DecodeAndTraceForBlock(txs: seq<Tx>) returns (ok: bool, results: seq<TxResult>, error: string)
    ensures ok <==> forall t | t in txs && t.opReturn && t.txid !in IGNORED_TRACE_TXIDS :: !Decode(t).Fatal?
    ensures ok ==> multiset(results) == multiset(Sequential(Filtered(txs), Decode))
    ensures !ok ==> ErrorOf(Filtered(txs), error, Decode)
  {
    FilteredMeaning(txs);
    var end := RunPool(Filtered(txs), Decode);
    match end.fatal {
      case Some(e) => ok, results, error := false, [], e;
      case None => ok, results, error := true, end.results, "";
    }
  }

  // From schedules to tables

  function TxidsOf(): Tx -> seq<string> {
    (t: Tx) => [t.txid]
  }

  lemma {:induction false} DecodedIds(txs: seq<Tx>, r: TxResult)
    requires r in Sequential(txs, Decode)
    ensures r.txid in FlatMap(txs, TxidsOf())
  {
    FlatMapMember(txs, DoneOf(Decode), r);
    var t :| t in txs && r in DoneOf(Decode)(t);
    DoneKeys(t);
    assert t.txid in TxidsOf()(t);
    FlatMapMember(txs, TxidsOf(), t.txid);
  }

  lemma AppendDistinct<T>(xs: seq<T>, ys: seq<T>)
    requires NoRepeats(xs) && NoRepeats(ys) && forall x | x in xs :: x !in ys
    ensures NoRepeats(xs + ys)
  {
    forall j, k | 0 <= j < k < |xs + ys|
      ensures (xs + ys)[j] != (xs + ys)[k]
    {
      if j < |xs| <= k {
        assert xs[j] in xs && ys[k - |xs|] in ys;
      }
    }
  }

  /** A result whose transaction is new to a well-formed list keeps it well-formed. */
  lemma AppendResult(results: seq<TxResult>, r: TxResult)
    requires WellFormed(results) && NoRepeats(ProtoKeysOf()(r))
    requires forall q | q in results :: q.txid != r.txid
    ensures WellFormed(results + [r])
  {
    FlatMapSplits(results, [r], TxidOf());
    FlatMapSplits(results, [r], ProtoKeysOf());
    FlatMapOne(r, TxidOf());
    FlatMapOne(r, ProtoKeysOf());
    forall id | id in FlatMap(results, TxidOf()) ensures id !in [r.txid] {
      FlatMapMember(results, TxidOf(), id);
      var q :| q in results && id in TxidOf()(q);
    }
    forall k | k in FlatMap(results, ProtoKeysOf()) ensures k !in ProtoKeysOf()(r) {
      FlatMapMember(results, ProtoKeysOf(), k);
      var q :| q in results && k in ProtoKeysOf()(q);
      assert k.txid == q.txid;
    }
    AppendDistinct(FlatMap(results, TxidOf()), [r.txid]);
    AppendDistinct(FlatMap(results, ProtoKeysOf()), ProtoKeysOf()(r));
  }

  /** Decoding transactions with distinct ids yields distinct transaction and protostone keys. */
  lemma {:induction false} DecodedWellFormed(txs: seq<Tx>)
    requires NoRepeats(FlatMap(txs, TxidsOf()))
    ensures WellFormed(Sequential(txs, Decode))
  {
    if txs != [] {
      var n := |txs| - 1;
      var ids := FlatMap(txs[..n], TxidsOf());
      assert FlatMap(txs, TxidsOf()) == ids + [txs[n].txid];
      assert NoRepeats(ids) by {
        assert forall i | 0 <= i < |ids| :: ids[i] == (ids + [txs[n].txid])[i];
      }
      DecodedWellFormed(txs[..n]);
      assert Sequential(txs, Decode) == Sequential(txs[..n], Decode) + DoneOf(Decode)(txs[n]);
      if !Decode(txs[n]).Done? {
        assert Sequential(txs, Decode) == Sequential(txs[..n], Decode);
      } else {
        assert Sequential(txs, Decode) == Sequential(txs[..n], Decode) + [Decode(txs[n]).result];
        DoneKeys(txs[n]);
        forall q | q in Sequential(txs[..n], Decode) ensures q.txid != txs[n].txid {
          DecodedIds(txs[..n], q);
          var i :| 0 <= i < |ids| && ids[i] == q.txid;
          assert (ids + [txs[n].txid])[i] != (ids + [txs[n].txid])[|ids|];
        }
        AppendResult(Sequential(txs[..n], Decode), Decode(txs[n]).result);
      }
    }
  }

  ghost function Outcomes(txs: seq<Tx>, schedule: seq<nat>): State<Tx, TxResult> {
    WorkerPool.Execute(Start(Batches(Filtered(txs))), schedule, Decode)
  }

  ghost predicate DecodedFully(txs: seq<Tx>, schedule: seq<nat>) {
    Complete(Outcomes(txs, schedule)) && Outcomes(txs, schedule).fatal.None?
  }

  /** Two schedules that get through yield the same block content, in some order each. */
  lemma SchedulesFit(txs: seq<Tx>, h: int, mark: BlockMark, s1: seq<nat>, s2: seq<nat>)
    requires NoRepeats(FlatMap(Filtered(txs), TxidsOf()))
    requires DecodedFully(txs, s1) && DecodedFully(txs, s2)
    ensures WellFormed(Outcomes(txs, s1).results) && WellFormed(Outcomes(txs, s2).results)
    ensures Fits(Block(h, mark, Outcomes(txs, s1).results), Outcomes(txs, s2).results)
  {
    var kept := Filtered(txs);
    EveryScheduleAgrees(kept, s1, Decode);
    EveryScheduleAgrees(kept, s2, Decode);
    DecodedWellFormed(kept);
    ReorderedContent(h, Sequential(kept, Decode), Outcomes(txs, s1).results);
    ReorderedContent(h, Sequential(kept, Decode), Outcomes(txs, s2).results);
  }

  /** Only the order given to a run matters, not the order the block value happens to list. */
  lemma SameRun(db: Db, b1: Block, b2: Block, order: seq<TxResult>)
    requires b1.height == b2.height && b1.mark == b2.mark
    ensures RunFrom(db, 0, JobOf(b1), order) == RunFrom(db, 0, JobOf(b2), order)
  {
    assert SameFor(JobOf(b1), JobOf(b2), order);
    SameJobRun(db, 0, JobOf(b1), JobOf(b2), order);
  }

  /**
   From the workers' schedule to the stored tables: two attempts at a block that both get
   through, whatever the interleaving of their workers, store the same tables.
   */
  lemma StoredTablesIgnoreSchedule(db: Db, txs: seq<Tx>, h: int, mark: BlockMark, s1: seq<nat>, s2: seq<nat>)
    requires NoRepeats(FlatMap(Filtered(txs), TxidsOf()))
    requires DecodedFully(txs, s1) && DecodedFully(txs, s2)
    ensures SingleRun(db, Block(h, mark, Outcomes(txs, s1).results)) == SingleRun(db, Block(h, mark, Outcomes(txs, s2).results))
  {
    var b1, b2 := Block(h, mark, Outcomes(txs, s1).results), Block(h, mark, Outcomes(txs, s2).results);
    SchedulesFit(txs, h, mark, s1, s2);
    BlockAmounts(db, b1);
    OneRun(db, JobOf(b1), BlockPlan(db, b1), b1.results);
    OneRun(db, JobOf(b1), BlockPlan(db, b1), b2.results);
    SameRun(db, b1, b2, b2.results);
  }
}
