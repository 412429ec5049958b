/** What the pool and Subfrost decoders share: their inputs, the invoke test and row collection. */
module Decoding {
  import opened Options
  import opened Numerals
  import opened Tokens
  import opened Events

  datatype TokenPair = TokenPair(token0: Token, token1: Token)

  /** The Pool table, read by pool id. */
  type PoolTable = map<Token, TokenPair>

  /** First pointer address stored for a transaction and a vout. */
  type AddressBook = map<(string, int), string>

  datatype TxTrace = TxTrace(txid: string, timestamp: int, events: seq<Event>)

  /** A PoolMint or PoolBurn row; amounts are decimal text. */
  datatype LiquidityRow = LiquidityRow(
    txid: string, blockHeight: int, pool: Token,
    lpAmount: string, tokens: TokenPair, amount0: string, amount1: string,
    address: Option<string>, timestamp: int, successful: bool)

  /** `as i32`: keep the low 32 bits, two's complement. */
  function AsI32(v: i64): int {
    var low := v % 0x1_0000_0000;
    if low >= 0x8000_0000 then low - 0x1_0000_0000 else low
  }

  function AddressAt(book: AddressBook, txid: string, vout: i64): Option<string> {
    if (txid, AsI32(vout)) in book then Some(book[(txid, AsI32(vout))]) else None
  }

  function LowerAscii(c: char): char {
    if 'A' <= c <= 'Z' then (c as nat - 'A' as nat + 'a' as nat) as char else c
  }

  function InvokeVout(e: Event): i64 {
    e.vout.GetOr(-1)
  }

  predicate HasOpcode(e: Event, opcode: nat) {
    && e.eventType.Invoke?
    && e.inputs != [] && e.inputs[0].Some?
    && HexToU128(e.inputs[0].value) == Some(opcode)
  }

  predicate IsDelegateInvoke(e: Event, opcode: nat) {
    HasOpcode(e, opcode) && e.callType == "delegatecall"
  }

  predicate NamesPool(e: Event) {
    e.target.block != "" && e.target.tx != ""
  }

  /** r is a return on the vout of the invoke e. */
  predicate Answers(r: Event, e: Event) {
    r.eventType.Return? && r.vout == Some(InvokeVout(e))
  }

  function Received(e: Event, t: Token): u128 {
    Total(e.incoming, t)
  }

  function PaidOut(r: Event, t: Token): u128 {
    Total(r.outgoing, t)
  }

  /** j is the first position that is set. */
  ghost predicate IsFirst(flags: seq<bool>, j: nat) {
    j < |flags| && flags[j] && forall k | 0 <= k < j :: !flags[k]
  }

  function First(flags: seq<bool>): (j: Option<nat>)
    ensures j.None? <==> forall k | 0 <= k < |flags| :: !flags[k]
    ensures j.Some? ==> IsFirst(flags, j.value)
  {
    if flags == [] then None
    else
      var n := |flags| - 1;
      var earlier := First(flags[..n]);
      if earlier.Some? then earlier else if flags[n] then Some(n) else None
  }

  lemma FirstIsUnique(flags: seq<bool>, j: nat)
    requires IsFirst(flags, j)
    ensures First(flags) == Some(j)
  {
    var f := First(flags);
    assert f.Some? && IsFirst(flags, f.value);
  }
}
