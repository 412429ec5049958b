/** Token ids, token amounts and the saturating total every trace decoder takes of an alkane list. */
module Tokens {
  import opened Options
  import opened Numerals

  /** A token or pool id in the text form the database stores. */
  datatype Token = Token(block: string, tx: string)

  datatype AlkaneId = AlkaneId(block: Option<Json>, tx: Option<Json>)

  /** One transferred amount in a trace; every field may be missing. */
  datatype Alkane = Alkane(id: Option<AlkaneId>, value: Option<Json>)

  function NormaliseField(field: Option<Json>): Option<u128> {
    match field
    case Some(v) => Normalise(v)
    case None => None
  }

  /** An unreadable half of an id counts as 0. */
  function IdHalf(field: Option<Json>): u128 {
    NormaliseField(field).GetOr(0)
  }

  function TokenOf(id: AlkaneId): Token {
    Token(Decimal(IdHalf(id.block)), Decimal(IdHalf(id.tx)))
  }

  /** What one entry contributes to the total of token t. */
  function Contribution(a: Alkane, t: Token): nat {
    if a.id.Some? && TokenOf(a.id.value) == t then NormaliseField(a.value).GetOr(0) else 0
  }

  /** The true, unbounded sum of token t. */
  function Sum(alkanes: seq<Alkane>, t: Token): nat {
    if alkanes == [] then 0
    else Sum(alkanes[..|alkanes| - 1], t) + Contribution(alkanes[|alkanes| - 1], t)
  }

  /** A sum held at u128::MAX. */
  function Cap(n: nat): u128 {
    if n <= U128_MAX then n else U128_MAX
  }

  function Total(alkanes: seq<Alkane>, t: Token): u128 {
    Cap(Sum(alkanes, t))
  }

  function SaturatingAdd(x: u128, y: u128): u128 {
    Cap(x + y)
  }

  function SaturatingSub(x: u128, y: u128): u128 {
    if x < y then 0 else x - y
  }

  /** `calculate_token_total`: adding up with saturation at every step gives the capped true sum. */
  method CalculateTokenTotal(alkanes: seq<Alkane>, t: Token) returns (total: u128)
    ensures total == if Sum(alkanes, t) <= U128_MAX then Sum(alkanes, t) else U128_MAX
  {
    total := 0;
    for k := 0 to |alkanes|
      invariant total == Total(alkanes[..k], t)
    {
      assert alkanes[..k + 1][..k] == alkanes[..k];
      var a := alkanes[k];
      if a.id.Some? && TokenOf(a.id.value) == t {
        var v := NormaliseField(a.value);
        if v.Some? {
          total := SaturatingAdd(total, v.value);
        }
      }
    }
    assert alkanes[..|alkanes|] == alkanes;
  }

  lemma {:induction false} SumSplits(front: seq<Alkane>, back: seq<Alkane>, t: Token)
    ensures Sum(front + back, t) == Sum(front, t) + Sum(back, t)
  {
    if back == [] {
      assert front + back == front;
    } else {
      var last := |back| - 1;
      assert (front + back)[..|front| + last] == front + back[..last];
      SumSplits(front, back[..last], t);
    }
  }

  /** The total does not depend on the order of the entries. */
  lemma {:induction false} TotalIgnoresOrder(xs: seq<Alkane>, ys: seq<Alkane>, t: Token)
    requires multiset(xs) == multiset(ys)
    ensures Total(xs, t) == Total(ys, t) && Sum(xs, t) == Sum(ys, t)
    decreases |xs|
  {
    if xs == [] {
      assert |multiset(ys)| == 0;
    } else {
      var last := |xs| - 1;
      var x := xs[last];
      assert xs == xs[..last] + [x];
      assert x in multiset(ys);
      var k :| 0 <= k < |ys| && ys[k] == x;
      var rest := ys[..k] + ys[k + 1..];
      assert ys == ys[..k] + ([x] + ys[k + 1..]);
      assert multiset(xs[..last]) == multiset(xs) - multiset{x};
      assert multiset(rest) == multiset(ys) - multiset{x};
      TotalIgnoresOrder(xs[..last], rest, t);
      SumSplits(ys[..k], [x] + ys[k + 1..], t);
      SumSplits([x], ys[k + 1..], t);
      SumSplits(ys[..k], ys[k + 1..], t);
      assert Sum([x], t) == Contribution(x, t) by { assert [x][..0] == []; }
    }
  }

  /** Comparing ids as decimal text is comparing them as numbers. */
  lemma TextIdsAreNumericIds(id: AlkaneId, block: nat, tx: nat)
    ensures TokenOf(id) == Token(Decimal(block), Decimal(tx))
       <==> IdHalf(id.block) == block && IdHalf(id.tx) == tx
  {
    PrintInjective(IdHalf(id.block), block, 10);
    PrintInjective(IdHalf(id.tx), tx, 10);
  }

  /** An entry of token 2:tx, for the examples the decoders give. */
  function Entry(tx: u64, amount: u64): Alkane {
    Alkane(Some(AlkaneId(Some(Number(Some(2))), Some(Number(Some(tx))))), Some(Number(Some(amount))))
  }

  lemma EntryPairTotal(tx0: u64, n0: u64, tx1: u64, n1: u64, tx: u64)
    requires tx0 < 10 && tx1 < 10 && tx < 10
    ensures Total([Entry(tx0, n0), Entry(tx1, n1)], Token("2", [Glyph(tx)]))
         == (if tx0 == tx then n0 else 0) + (if tx1 == tx then n1 else 0)
  {
    var es := [Entry(tx0, n0), Entry(tx1, n1)];
    assert es[..1] == [Entry(tx0, n0)] && es[..1][..0] == [];
    assert Decimal(2) == "2";
    assert Decimal(tx0) == [Glyph(tx0)] && Decimal(tx1) == [Glyph(tx1)];
    assert Glyph(tx0) == Glyph(tx) <==> tx0 == tx;
    assert Glyph(tx1) == Glyph(tx) <==> tx1 == tx;
    var t := Token("2", [Glyph(tx)]);
    assert TokenOf(es[0].id.value) == t <==> tx0 == tx;
    assert TokenOf(es[1].id.value) == t <==> tx1 == tx;
    assert Sum(es, t) == Sum(es[..1], t) + Contribution(es[1], t);
  }
}
