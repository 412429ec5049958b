/** Decoding and tracing one transaction: its protostones, shadow vouts, trace replies and flags. */
module Protostones {
  import opened Options
  import opened Seqs
  import opened Numerals
  import opened Tokens
  import opened Events
  import opened Decoding
  import opened Tables
  import opened Blocks
  import opened WorkerPool

  /** One element of a trace reply that is a list. */
  datatype RawEvent = RawEvent(
    name: string,                   // "unknown" when missing
    myselfBlock: string, myselfTx: string,
    callType: string, inputs: seq<Option<string>>, incoming: seq<Alkane>,
    status: string, outgoing: seq<Alkane>)

  /**
   A trace reply, as far as it is looked at: the exit statuses per call if it parses as a
   trace, its elements if it is a list. A list that also parses as a trace has both.
   */
  datatype Reply = Reply(calls: Option<seq<seq<string>>>, list: Option<seq<RawEvent>>)

  /** alkanes_trace: a reply, the known upstream type error, or any other failure. */
  datatype Trace = Answered(reply: Reply) | KnownTypeError | TraceFailed(error: string)

  datatype Protostone = Protostone(decoded: Decoded, trace: Trace)

  /** What fetching and decoding the transaction comes to. */
  datatype Content =
    | Unavailable(error: string)
    | Undecodable                   // decoder error or panic
    | Runestone(outputs: nat, protostones: seq<Protostone>)

  datatype Tx = Tx(txid: string, opReturn: bool, data: string, timestamp: int, content: Content)

  function Lower(s: string): string {
    seq(|s|, i requires 0 <= i < |s| => LowerAscii(s[i]))
  }

  predicate Contains(s: string, part: string) {
    exists i | 0 <= i <= |s| :: part <= s[i..]
  }

  predicate Succeeded(status: string) {
    Contains(Lower(status), "ok") || Contains(Lower(status), "success")
  }

  predicate ReturnsOk(e: RawEvent) {
    e.name == "return" && Succeeded(e.status)
  }

  /** A parsed trace is judged by its first call alone, even when the reply is a list as well. */
  predicate ReplyOk(reply: Reply) {
    match reply.calls
    case Some(calls) => calls != [] && exists k | 0 <= k < |calls[0]| :: Succeeded(calls[0][k])
    case None => reply.list.Some? && exists k | 0 <= k < |reply.list.value| :: ReturnsOk(reply.list.value[k])
  }

  /** Shadow vout of protostone i: past the real outputs, as i32. */
  function ShadowVout(outputs: nat, i: nat): i64 {
    AsI32((outputs + 1 + i) % 0x1_0000_0000)
  }

  function HexOrSame(hex: string): string {
    if hex == "" then "" else HexToDecimal(hex).GetOr(hex)
  }

  function Flatten(e: RawEvent, vout: i64): Event {
    var kind := if e.name == "invoke" then Invoke else if e.name == "return" then Return else OtherType;
    var target := if kind.Invoke? then Token(HexOrSame(e.myselfBlock), HexOrSame(e.myselfTx)) else Token("", "");
    Event(Some(vout), kind, target, e.callType, e.inputs, e.incoming, e.status, e.outgoing)
  }

  function ReplyEvents(reply: Reply, vout: i64): seq<Event> {
    match reply.list
    case Some(events) => seq(|events|, k requires 0 <= k < |events| => Flatten(events[k], vout))
    case None => [Event(Some(vout), OtherType, Token("", ""), "", [], [], "", [])]
  }

  /** What has been collected after some protostones. */
  datatype Collected = Collected(items: seq<ProtoItem>, events: seq<Event>, hasTrace: bool, traceSucceed: bool)

  function Collect(outputs: nat, protos: seq<Protostone>): Collected {
    if protos == [] then Collected([], [], false, false)
    else
      var i := |protos| - 1;
      var before, vout := Collect(outputs, protos[..i]), ShadowVout(outputs, i);
      var items := before.items + [ProtoItem(vout, i, protos[i].decoded)];
      match protos[i].trace
      case Answered(reply) =>
        Collected(items, before.events + ReplyEvents(reply, vout), true, before.traceSucceed || ReplyOk(reply))
      case _ => before.(items := items)
  }

  function FailureFlags(protos: seq<Protostone>): seq<bool> {
    seq(|protos|, i requires 0 <= i < |protos| => protos[i].trace.TraceFailed?)
  }

  function Decode(tx: Tx): Outcome<TxResult> {
    match tx.content
    case Unavailable(error) => Fatal(error)
    case Undecodable => Skipped
    case Runestone(outputs, protos) =>
      match First(FailureFlags(protos))
      case Some(i) => Fatal(protos[i].trace.error)
      case None =>
        var c := Collect(outputs, protos);
        Done(TxResult(tx.txid, tx.data, tx.timestamp, c.hasTrace, c.traceSucceed, c.items, c.events))
  }

  /** The body of a worker's loop for one transaction. */
  method DecodeTx(tx: Tx) returns (outcome: Outcome<TxResult>)
    ensures outcome == Decode(tx)
  {
    match tx.content {
      case Unavailable(error) => return Fatal(error);
      case Undecodable => return Skipped;
      case Runestone(outputs, protos) =>
        var items, events, hasTrace, traceSucceed := [], [], false, false;
        ghost var flags := FailureFlags(protos);
        for i := 0 to |protos|
          invariant Collected(items, events, hasTrace, traceSucceed) == Collect(outputs, protos[..i])
          invariant forall k | 0 <= k < i :: !flags[k]
        {
          assert protos[..i + 1][..i] == protos[..i];
          var vout := ShadowVout(outputs, i);
          items := items + [ProtoItem(vout, i, protos[i].decoded)];
          match protos[i].trace {
            case Answered(reply) =>
              hasTrace := true;
              if ReplyOk(reply) { traceSucceed := true; }
              events := events + ReplyEvents(reply, vout);
            case KnownTypeError =>
            case TraceFailed(error) =>
              FirstIsUnique(flags, i);
              return Fatal(error);
          }
        }
        assert protos[..|protos|] == protos;
        outcome := Done(TxResult(tx.txid, tx.data, tx.timestamp, hasTrace, traceSucceed, items, events));
    }
  }

  lemma {:induction false} CollectedItems(outputs: nat, protos: seq<Protostone>)
    ensures var items := Collect(outputs, protos).items;
      && |items| == |protos|
      && (forall i | 0 <= i < |protos| :: items[i] == ProtoItem(ShadowVout(outputs, i), i, protos[i].decoded))
  {
    if protos != [] {
      CollectedItems(outputs, protos[..|protos| - 1]);
    }
  }

  lemma {:induction false} CollectedTrace(outputs: nat, protos: seq<Protostone>)
    ensures Collect(outputs, protos).hasTrace <==> exists i :: 0 <= i < |protos| && protos[i].trace.Answered?
    ensures Collect(outputs, protos).events != [] ==> Collect(outputs, protos).hasTrace
  {
    if protos != [] {
      var n := |protos| - 1;
      var front := protos[..n];
      CollectedTrace(outputs, front);
      assert forall i | 0 <= i < n :: front[i] == protos[i];
      if i :| 0 <= i < |protos| && protos[i].trace.Answered? {
        assert i < n ==> front[i].trace.Answered?;
      }
    }
  }

  /** The trace was answered, and with success. */
  ghost predicate Confirmed(p: Protostone) {
    p.trace.Answered? && ReplyOk(p.trace.reply)
  }

  lemma {:induction false} CollectedSuccess(outputs: nat, protos: seq<Protostone>)
    ensures Collect(outputs, protos).traceSucceed <==> exists i :: 0 <= i < |protos| && Confirmed(protos[i])
  {
    if protos != [] {
      var n := |protos| - 1;
      var front := protos[..n];
      CollectedSuccess(outputs, front);
      assert forall i | 0 <= i < n :: front[i] == protos[i];
      if i :| 0 <= i < |protos| && Confirmed(protos[i]) {
        assert i < n ==> Confirmed(front[i]);
      }
    }
  }

  /** The items and flags of a run over all protostones. */
  lemma CollectMeaning(outputs: nat, protos: seq<Protostone>)
    ensures var c := Collect(outputs, protos);
      && |c.items| == |protos|
      && (forall i | 0 <= i < |protos| :: c.items[i] == ProtoItem(ShadowVout(outputs, i), i, protos[i].decoded))
      && (c.hasTrace <==> exists i :: 0 <= i < |protos| && protos[i].trace.Answered?)
      && (c.traceSucceed <==> exists i :: 0 <= i < |protos| && Confirmed(protos[i]))
      && (c.events != [] ==> c.hasTrace)
  {
    CollectedItems(outputs, protos);
    CollectedTrace(outputs, protos);
    CollectedSuccess(outputs, protos);
  }

  lemma ShadowVoutExact(outputs: nat, i: nat)
    requires outputs + 1 + i < 0x8000_0000
    ensures ShadowVout(outputs, i) == outputs + 1 + i
  {
  }

  /** Within the range of i32 the shadow vouts count on from past the real outputs, so no two coincide. */
  lemma ShadowVoutsApart(outputs: nat, protos: seq<Protostone>, i: nat)
    requires i < |protos| && outputs + |protos| < 0x8000_0000
    ensures var items := Collect(outputs, protos).items; i < |items| && items[i].vout == outputs + 1 + i
  {
    CollectMeaning(outputs, protos);
    ShadowVoutExact(outputs, i);
    assert Collect(outputs, protos).items[i] == ProtoItem(ShadowVout(outputs, i), i, protos[i].decoded);
  }

  /** The protostone was traced and its reply contains the event, stored at this vout. */
  ghost predicate Traced(p: Protostone, vout: i64, e: Event) {
    p.trace.Answered? && e in ReplyEvents(p.trace.reply, vout)
  }

  /** Exactly the events of answered traces are stored. */
  lemma {:induction false} EventsMeaning(outputs: nat, protos: seq<Protostone>, e: Event)
    ensures e in Collect(outputs, protos).events <==> exists i :: 0 <= i < |protos| && Traced(protos[i], ShadowVout(outputs, i), e)
  {
    if protos != [] {
      var n := |protos| - 1;
      var front, vout := protos[..n], ShadowVout(outputs, n);
      EventsMeaning(outputs, front, e);
      EventsStep(outputs, protos, e);
      if i :| 0 <= i < |protos| && Traced(protos[i], ShadowVout(outputs, i), e) {
        assert i < n ==> Traced(front[i], ShadowVout(outputs, i), e);
      }
      if i :| 0 <= i < n && Traced(front[i], ShadowVout(outputs, i), e) {
        assert Traced(protos[i], ShadowVout(outputs, i), e);
      }
    }
  }

  lemma EventsStep(outputs: nat, protos: seq<Protostone>, e: Event)
    requires protos != []
    ensures var n := |protos| - 1;
      e in Collect(outputs, protos).events <==> e in Collect(outputs, protos[..n]).events || Traced(protos[n], ShadowVout(outputs, n), e)
  {
  }

  /** A stored event carries the shadow vout of a traced protostone, and only invokes name a target. */
  lemma EventsNameShadowVouts(outputs: nat, protos: seq<Protostone>, e: Event)
    requires e in Collect(outputs, protos).events
    ensures exists i :: 0 <= i < |protos| && protos[i].trace.Answered? && e.vout == Some(ShadowVout(outputs, i))
    ensures e.eventType.Invoke? || e.target == Token("", "")
  {
    EventsMeaning(outputs, protos, e);
    var i :| 0 <= i < |protos| && Traced(protos[i], ShadowVout(outputs, i), e);
    ReplyEventShape(protos[i].trace.reply, ShadowVout(outputs, i), e);
  }

  lemma ReplyEventShape(reply: Reply, vout: i64, e: Event)
    requires e in ReplyEvents(reply, vout)
    ensures e.vout == Some(vout) && (e.eventType.Invoke? || e.target == Token("", ""))
  {
  }

  /** A transaction aborts its block exactly when it cannot be fetched or a trace fails for an unknown reason. */
  lemma FatalWhen(tx: Tx)
    ensures Decode(tx).Fatal? <==>
      || tx.content.Unavailable?
      || (tx.content.Runestone? && exists i :: 0 <= i < |tx.content.protostones| && tx.content.protostones[i].trace.TraceFailed?)
  {
    if tx.content.Runestone? {
      var protos := tx.content.protostones;
      var flags := FailureFlags(protos);
      assert forall i | 0 <= i < |protos| :: flags[i] <==> protos[i].trace.TraceFailed?;
    }
  }

  /** A decoded transaction keeps its id and gives its protostones distinct keys. */
  lemma DoneKeys(tx: Tx)
    requires Decode(tx).Done?
    ensures Decode(tx).result.txid == tx.txid
    ensures NoRepeats(ProtoKeysOf()(Decode(tx).result))
  {
    CollectMeaning(tx.content.outputs, tx.content.protostones);
  }
}
