/**
 The integers of a runestone payload: little-endian base-128 numerals (ULEB128,
 section 7.6 of the DWARF 5 standard) and the tagged values among them.
 */
module Varint {
  import opened Arithmetic
  import opened Numerals

  type byte = b: nat | b < 256

  datatype Reading =
    | Done(value: u128, length: nat)
    | Truncated
    | TooLarge

  datatype Payload = Integers(integers: seq<u128>) | Failed(position: nat, why: Reading)

  // Machine arithmetic on unsigned 128-bit words

  const WORD: nat := 0x1_0000_0000_0000_0000_0000_0000_0000_0000

  /** Bitwise or. */
  function Or(x: nat, y: nat): nat {
    if x == 0 && y == 0 then 0
    else 2 * Or(x / 2, y / 2) + (if x % 2 == 1 || y % 2 == 1 then 1 else 0)
  }

  /** Shift left, dropping what leaves the word. */
  function ShiftLeft(x: nat, shift: nat): nat
    requires shift < 128
  {
    x * Pow2(shift) % WORD
  }

  lemma {:induction false} OrZero(y: nat)
    ensures Or(0, y) == y
  {
    if y > 0 { OrZero(y / 2); }
  }

  /** Words without a common bit are added by the bitwise or. */
  lemma {:induction false} OrDisjoint(x: nat, n: nat, q: nat)
    requires x < Pow2(n)
    ensures Or(x, q * Pow2(n)) == x + q * Pow2(n)
    decreases n
  {
    if n == 0 {
      OrZero(q);
    } else {
      var y := q * Pow2(n - 1);
      assert q * Pow2(n) == 2 * y;
      OrDisjoint(x / 2, n - 1, q);
      assert Or(x / 2, y) == x / 2 + y;
    }
  }

  /** Scaling divides out of a remainder. */
  lemma ModOfScaled(x: nat, add: nat, m: nat, p: nat)
    requires m > 0 && add < p
    ensures m * p > 0 && (x * p + add) % (m * p) == x % m * p + add
  {
    var q, r := x / m, x % m;
    assert x == q * m + r;
    ProductLess(0, m, p);
    ProductLess(r, m, p);
    ScaleSum(q, m, r, p);
    Division(x * p + add, m * p, q, r * p + add);
  }

  lemma ScaleSum(q: nat, m: nat, r: nat, p: nat)
    ensures (q * m + r) * p == q * (m * p) + r * p
  {
    assert (q * m + r) * p == q * m * p + r * p;
    assert q * m * p == q * (m * p);
  }

  lemma WordSplits(shift: nat)
    requires shift < 128
    ensures Pow2(shift) > 0 && Pow2(128 - shift) > 0 && Pow2(128 - shift) * Pow2(shift) == WORD
  {
    WordPowers();
    Pow2Positive(shift);
    Pow2Positive(128 - shift);
    Pow2Sum(128 - shift, shift);
  }

  lemma OrScaled(word: nat, low: nat, shift: nat, m: nat, p: nat)
    requires word < p == Pow2(shift) && m > 0
    ensures m * p > 0 && Or(word, low * p % (m * p)) == (low * p + word) % (m * p)
  {
    ModOfScaled(low, 0, m, p);
    ModOfScaled(low, word, m, p);
    OrDisjoint(word, shift, low % m);
  }

  /** Or-ing in shifted bits adds them, modulo the word. */
  lemma ShiftOrAdds(word: nat, low: nat, shift: nat)
    requires shift < 128 && word < Pow2(shift)
    ensures Or(word, ShiftLeft(low, shift)) == (low * Pow2(shift) + word) % WORD
  {
    WordSplits(shift);
    OrScaled(word, low, shift, Pow2(128 - shift), Pow2(shift));
  }

  // One integer

  /** The number of leading bytes that announce another one. */
  function Continued(bytes: seq<byte>): (n: nat)
    ensures n <= |bytes|
  {
    if bytes == [] || bytes[0] < 128 then 0 else 1 + Continued(bytes[1..])
  }

  /** The base-128 numeral the low seven bits spell, least significant first. */
  function Positional(bytes: seq<byte>): nat {
    if bytes == [] then 0 else bytes[0] % 128 + 128 * Positional(bytes[1..])
  }

  /** What one decode returns: at most 19 bytes are looked at. */
  function Read(bytes: seq<byte>): Reading {
    var n := Continued(bytes);
    if n >= 19 then TooLarge
    else if n == |bytes| then Truncated
    else Done(Positional(bytes[..n + 1]) % WORD, n + 1)
  }

  lemma {:induction false} ContinuedMeaning(bytes: seq<byte>, n: nat)
    requires n <= |bytes| && forall k | 0 <= k < n :: bytes[k] >= 128
    ensures Continued(bytes) >= n
    ensures n < |bytes| && bytes[n] < 128 ==> Continued(bytes) == n
  {
    if n > 0 { ContinuedMeaning(bytes[1..], n - 1); }
  }

  lemma SevenMoreBits(x: nat, n: nat)
    ensures 128 * (x * Pow2(n)) == x * Pow2(n + 7) && 128 * Pow2(n) == Pow2(n + 7)
  {
    assert Pow2(n + 2) == 4 * Pow2(n) && Pow2(n + 4) == 4 * Pow2(n + 2) && Pow2(n + 6) == 4 * Pow2(n + 4);
    assert Pow2(n + 7) == 2 * Pow2(n + 6);
    Regroup(128, x, Pow2(n));
  }

  lemma Regroup(k: nat, x: nat, p: nat)
    ensures k * (x * p) == x * (k * p)
  {
  }

  lemma {:induction false} PositionalAppend(bytes: seq<byte>, b: byte)
    ensures Positional(bytes + [b]) == Positional(bytes) + b % 128 * Pow2(7 * |bytes|)
  {
    if bytes == [] {
      assert [b][1..] == [];
    } else {
      PositionalAppend(bytes[1..], b);
      assert (bytes + [b])[1..] == bytes[1..] + [b];
      SevenMoreBits(b % 128, 7 * |bytes[1..]|);
    }
  }

  lemma {:induction false} PositionalBound(bytes: seq<byte>)
    ensures Positional(bytes) < Pow2(7 * |bytes|)
  {
    if bytes != [] {
      PositionalBound(bytes[1..]);
      SevenMoreBits(0, 7 * |bytes[1..]|);
    }
  }

  /** Up to eighteen bytes fit the word. */
  lemma WordHolds(bytes: seq<byte>)
    requires |bytes| <= 18
    ensures Positional(bytes) < WORD
  {
    PositionalBound(bytes);
    WordPowers();
    Pow2Grows(7 * |bytes|, 128);
  }

  lemma PrefixGrows(bytes: seq<byte>, i: nat)
    requires i < |bytes|
    ensures Positional(bytes[..i]) < Pow2(7 * i)
    ensures Positional(bytes[..i + 1]) == bytes[i] % 128 * Pow2(7 * i) + Positional(bytes[..i])
  {
    PositionalBound(bytes[..i]);
    PositionalAppend(bytes[..i], bytes[i]);
    assert bytes[..i + 1] == bytes[..i] + [bytes[i]];
  }

  /** One turn of the loop extends the positional value by a byte, modulo the word. */
  lemma LoopTurn(bytes: seq<byte>, i: nat)
    requires i < |bytes| && i <= 18
    ensures Or(Positional(bytes[..i]), ShiftLeft(bytes[i] % 128, 7 * i)) == Positional(bytes[..i + 1]) % WORD
  {
    PrefixGrows(bytes, i);
    ShiftOrAdds(Positional(bytes[..i]), bytes[i] % 128, 7 * i);
  }

  /** Before the nineteenth byte nothing is cut off. */
  lemma EarlyTurn(bytes: seq<byte>, i: nat)
    requires i < |bytes| && i < 18
    ensures Positional(bytes[..i + 1]) % WORD == Positional(bytes[..i + 1])
  {
    WordHolds(bytes[..i + 1]);
  }

  /** `decode_varint`: the shift-and-or loop reads the positional value modulo 2^128. */
  method DecodeVarint(bytes: seq<byte>) returns (r: Reading)
    ensures r == Read(bytes)
  {
    var word, shift, i := 0, 0, 0;
    while true
      invariant i <= |bytes| && i <= 18 && shift == 7 * i
      invariant forall k | 0 <= k < i :: bytes[k] >= 128
      invariant word == Positional(bytes[..i])
      decreases |bytes| - i
    {
      ContinuedMeaning(bytes, i);
      if i >= |bytes| {
        return Truncated;
      }
      var b := bytes[i];
      LoopTurn(bytes, i);
      word := Or(word, ShiftLeft(b % 128, shift));
      i := i + 1;
      if b < 128 {
        return Done(word, i);
      }
      shift := shift + 7;
      ContinuedMeaning(bytes, i);
      if shift > 127 {
        return TooLarge;
      }
      EarlyTurn(bytes, i - 1);
    }
  }

  // Encoding and reading back

  function Encode(v: nat): seq<byte> {
    if v < 128 then [v] else [128 + v % 128] + Encode(v / 128)
  }

  lemma {:induction false} EncodeLength(v: nat, n: nat)
    requires n > 0 && v < Pow2(7 * n)
    ensures 1 <= |Encode(v)| <= n
    decreases n
  {
    WordPowers();
    if v >= 128 {
      if n == 1 { assert false; }
      Pow2Sum(7 * (n - 1), 7);
      EncodeLength(v / 128, n - 1);
    }
  }

  lemma {:induction false} EncodePositional(v: nat)
    ensures Positional(Encode(v)) == v
  {
    if v < 128 {
      assert [v as byte][1..] == [];
    } else {
      EncodePositional(v / 128);
      assert Encode(v)[1..] == Encode(v / 128);
    }
  }

  lemma ContinuedStep(b: byte, rest: seq<byte>)
    ensures Continued([b] + rest) == if b < 128 then 0 else 1 + Continued(rest)
  {
    assert ([b] + rest)[1..] == rest;
  }

  lemma {:induction false} EncodeContinues(v: nat, rest: seq<byte>)
    ensures Encode(v) != [] && Continued(Encode(v) + rest) == |Encode(v)| - 1
  {
    if v < 128 {
      ContinuedStep(v, rest);
    } else {
      var tail := Encode(v / 128);
      EncodeContinues(v / 128, rest);
      ContinuedStep(128 + v % 128, tail + rest);
      assert [(128 + v % 128) as byte] + tail + rest == [(128 + v % 128) as byte] + (tail + rest);
    }
  }

  lemma FitsWord(p: nat)
    ensures p % WORD == p <==> p <= U128_MAX
  {
  }

  lemma NineteenBytes(v: u128)
    ensures |Encode(v)| <= 19
  {
    WordPowers();
    Pow2Grows(128, 7 * 19);
    EncodeLength(v, 19);
  }

  /** Any u128, encoded and followed by anything, is read back from at most 19 bytes. */
  lemma ReadEncoded(v: u128, rest: seq<byte>)
    ensures |Encode(v)| <= 19
    ensures Read(Encode(v) + rest) == Done(v, |Encode(v)|)
  {
    var bytes := Encode(v);
    NineteenBytes(v);
    EncodePositional(v);
    EncodeContinues(v, rest);
    assert (bytes + rest)[..|bytes|] == bytes;
    FitsWord(v);
  }

  /** No needless zero byte at the end. */
  predicate Minimal(bytes: seq<byte>)
    requires bytes != []
  {
    |bytes| == 1 || bytes[|bytes| - 1] != 0
  }

  lemma {:induction false} EncodeMinimal(v: nat)
    ensures Encode(v) != [] && Minimal(Encode(v))
    ensures v > 0 ==> Encode(v)[|Encode(v)| - 1] != 0
  {
    if v >= 128 { EncodeMinimal(v / 128); }
  }

  lemma {:induction false} EncodeOfMinimal(bytes: seq<byte>)
    requires bytes != [] && Continued(bytes) == |bytes| - 1 && Minimal(bytes)
    ensures Encode(Positional(bytes)) == bytes
    ensures bytes[|bytes| - 1] != 0 ==> Positional(bytes) > 0
  {
    var tail := bytes[1..];
    assert bytes == [bytes[0]] + tail;
    if tail == [] {
      assert bytes[0] < 128;
    } else {
      EncodeOfMinimal(tail);
      assert Positional(bytes) / 128 == Positional(tail) && Positional(bytes) % 128 == bytes[0] - 128;
    }
  }

  lemma {:induction false} ContinuedPrefix(bytes: seq<byte>, n: nat)
    requires Continued(bytes) < n <= |bytes|
    ensures Continued(bytes[..n]) == Continued(bytes)
  {
    if bytes[0] >= 128 {
      ContinuedPrefix(bytes[1..], n - 1);
      assert bytes[..n][1..] == bytes[1..][..n - 1];
    }
  }

  lemma EncodesTo(v: nat, bytes: seq<byte>)
    requires bytes != [] && Continued(bytes) == |bytes| - 1
    ensures Encode(v) == bytes <==> v == Positional(bytes) && Minimal(bytes)
  {
    EncodeMinimal(v);
    EncodePositional(v);
    if v == Positional(bytes) && Minimal(bytes) { EncodeOfMinimal(bytes); }
  }

  /** The bytes read are the encoding of the value exactly when nothing was cut off and no zero byte ends them. */
  lemma ReadIsCanonicalWhen(bytes: seq<byte>)
    requires Read(bytes).Done?
    ensures var n := Read(bytes).length;
      && 1 <= n <= 19 && n <= |bytes|
      && (Encode(Read(bytes).value) == bytes[..n] <==> Positional(bytes[..n]) <= U128_MAX && Minimal(bytes[..n]))
  {
    var n := Read(bytes).length;
    ContinuedPrefix(bytes, n);
    EncodesTo(Read(bytes).value, bytes[..n]);
    FitsWord(Positional(bytes[..n]));
  }

  // The whole payload

  function ReadAll(payload: seq<byte>, at: nat): Payload
    requires at <= |payload|
    decreases |payload| - at
  {
    if at == |payload| then Integers([])
    else
      match Read(payload[at..])
      case Done(v, n) =>
        if at + n <= |payload| then
          (match ReadAll(payload, at + n)
           case Integers(rest) => Integers([v] + rest)
           case Failed(p, why) => Failed(p, why))
        else Failed(at, Truncated)
      case why => Failed(at, why)
  }

  /** `decode_integers` */
  method DecodeIntegers(payload: seq<byte>) returns (p: Payload)
    ensures p == ReadAll(payload, 0)
  {
    var integers, i := [], 0;
    while i < |payload|
      invariant i <= |payload|
      invariant ReadAll(payload, 0) == Prepend(integers, ReadAll(payload, i))
    {
      var r := DecodeVarint(payload[i..]);
      if !r.Done? {
        return Failed(i, r);
      }
      assert integers + ([r.value] + []) == integers + [r.value];
      PrependOne(integers, r.value, ReadAll(payload, i + r.length));
      integers := integers + [r.value];
      i := i + r.length;
    }
    return Integers(integers);
  }

  function Prepend(front: seq<u128>, p: Payload): Payload {
    match p
    case Integers(rest) => Integers(front + rest)
    case Failed(_, _) => p
  }

  lemma PrependOne(front: seq<u128>, v: u128, p: Payload)
    ensures Prepend(front, Prepend([v], p)) == Prepend(front + [v], p)
  {
    if p.Integers? { assert front + ([v] + p.integers) == front + [v] + p.integers; }
  }

  function EncodeAll(vs: seq<u128>): seq<byte> {
    if vs == [] then [] else Encode(vs[0]) + EncodeAll(vs[1..])
  }

  lemma ReadAllStep(payload: seq<byte>, at: nat, v: u128, rest: seq<byte>) returns (n: nat)
    requires at <= |payload| && payload[at..] == Encode(v) + rest
    ensures n <= |payload| && payload[n..] == rest
    ensures ReadAll(payload, at) == Prepend([v], ReadAll(payload, n))
  {
    ReadEncoded(v, rest);
    EncodeContinues(v, rest);
    n := at + |Encode(v)|;
    assert payload[n..] == payload[at..][|Encode(v)|..];
  }

  lemma ReadAllEnd(payload: seq<byte>, at: nat)
    requires at <= |payload| && payload[at..] == []
    ensures ReadAll(payload, at) == Integers([])
  {
    assert |payload[at..]| == 0;
  }

  lemma {:induction false} ReadAllEncoded(payload: seq<byte>, at: nat, vs: seq<u128>)
    requires at <= |payload| && payload[at..] == EncodeAll(vs)
    ensures ReadAll(payload, at) == Integers(vs)
    decreases |vs|
  {
    if vs == [] {
      ReadAllEnd(payload, at);
    } else {
      var n := ReadAllStep(payload, at, vs[0], EncodeAll(vs[1..]));
      ReadAllEncoded(payload, n, vs[1..]);
      assert vs == [vs[0]] + vs[1..];
    }
  }

  /** Decoding the concatenated encodings of any u128 list returns the list. */
  lemma PayloadRoundTrip(vs: seq<u128>)
    ensures ReadAll(EncodeAll(vs), 0) == Integers(vs)
  {
    ReadAllEncoded(EncodeAll(vs), 0, vs);
  }

  // Tagged values

  const PROTOCOL_TAG: u128 := 13

  /** The values of a tag: integers come in pairs of tag and value, an odd last one is no pair. */
  function TagValues(integers: seq<u128>, tag: u128): seq<u128> {
    if |integers| < 2 then []
    else (if integers[0] == tag then [integers[1]] else []) + TagValues(integers[2..], tag)
  }

  /** `extract_protocol_data` */
  method ExtractProtocolData(integers: seq<u128>) returns (data: seq<u128>)
    ensures data == TagValues(integers, PROTOCOL_TAG)
  {
    data := [];
    var i := 0;
    while i < |integers|
      invariant i <= |integers|
      invariant TagValues(integers, PROTOCOL_TAG) == data + TagValues(integers[i..], PROTOCOL_TAG)
    {
      var rest := integers[i..];
      var tag := integers[i];
      i := i + 1;
      if tag == PROTOCOL_TAG && i < |integers| {
        data := data + [integers[i]];
        i := i + 1;
      } else if i < |integers| {
        i := i + 1;
      }
      assert |rest| >= 2 ==> rest[2..] == integers[i..];
    }
  }

  /** A tag with values is a key for them; a tag without is no key. */
  ghost predicate Grouped(tags: map<u128, seq<u128>>, integers: seq<u128>, tag: u128) {
    && (tag in tags <==> TagValues(integers, tag) != [])
    && (tag in tags ==> tags[tag] == TagValues(integers, tag))
  }

  ghost predicate Groups(tags: map<u128, seq<u128>>, integers: seq<u128>) {
    forall t: u128 :: Grouped(tags, integers, t)
  }

  lemma {:induction false} TagValuesAppend(integers: seq<u128>, more: seq<u128>, tag: u128)
    requires |integers| % 2 == 0
    ensures TagValues(integers + more, tag) == TagValues(integers, tag) + TagValues(more, tag)
  {
    if integers == [] {
      assert integers + more == more;
    } else {
      assert (integers + more)[2..] == integers[2..] + more;
      TagValuesAppend(integers[2..], more, tag);
    }
  }

  function AddTag(tags: map<u128, seq<u128>>, tag: u128, value: u128): map<u128, seq<u128>> {
    if tag !in tags then tags[tag := [value]] else tags[tag := tags[tag] + [value]]
  }

  lemma PairTurn(tags: map<u128, seq<u128>>, integers: seq<u128>, tag: u128, value: u128)
    requires |integers| % 2 == 0 && Groups(tags, integers)
    ensures Groups(AddTag(tags, tag, value), integers + [tag, value])
  {
    forall t: u128 ensures Grouped(AddTag(tags, tag, value), integers + [tag, value], t) {
      assert Grouped(tags, integers, t);
      TagValuesAppend(integers, [tag, value], t);
      assert [tag, value][2..] == [];
    }
  }

  lemma LastTurn(tags: map<u128, seq<u128>>, integers: seq<u128>, last: u128)
    requires |integers| % 2 == 0 && Groups(tags, integers)
    ensures Groups(tags, integers + [last])
  {
    forall t: u128 ensures Grouped(tags, integers + [last], t) {
      assert Grouped(tags, integers, t);
      TagValuesAppend(integers, [last], t);
    }
  }

  /** `extract_all_tags` */
  method ExtractAllTags(integers: seq<u128>) returns (tags: map<u128, seq<u128>>)
    ensures Groups(tags, integers)
  {
    tags := map[];
    var i := 0;
    ghost var seen: seq<u128> := [];
    while i < |integers|
      invariant i <= |integers| && seen == integers[..i] && (i < |integers| ==> i % 2 == 0)
      invariant Groups(tags, seen)
    {
      if i + 1 < |integers| {
        PairTurn(tags, seen, integers[i], integers[i + 1]);
        tags := AddTag(tags, integers[i], integers[i + 1]);
        seen := seen + [integers[i], integers[i + 1]];
        i := i + 2;
      } else {
        LastTurn(tags, seen, integers[i]);
        seen := seen + [integers[i]];
        i := i + 1;
      }
    }
    assert seen == integers;
  }

  function Flatten(fields: seq<(u128, u128)>): seq<u128> {
    if fields == [] then [] else [fields[0].0, fields[0].1] + Flatten(fields[1..])
  }

  function ValuesOf(fields: seq<(u128, u128)>, tag: u128): seq<u128> {
    if fields == [] then []
    else (if fields[0].0 == tag then [fields[0].1] else []) + ValuesOf(fields[1..], tag)
  }

  lemma {:induction false} FlattenKeepsFields(fields: seq<(u128, u128)>, tag: u128)
    ensures TagValues(Flatten(fields), tag) == ValuesOf(fields, tag)
  {
    if fields != [] {
      assert Flatten(fields)[2..] == Flatten(fields[1..]);
      FlattenKeepsFields(fields[1..], tag);
    }
  }

  /** Encoded fields are decoded and grouped back under their tags, in order. */
  lemma FieldsRoundTrip(fields: seq<(u128, u128)>, tag: u128)
    ensures ReadAll(EncodeAll(Flatten(fields)), 0).Integers?
    ensures TagValues(ReadAll(EncodeAll(Flatten(fields)), 0).integers, tag) == ValuesOf(fields, tag)
  {
    PayloadRoundTrip(Flatten(fields));
    FlattenKeepsFields(fields, tag);
  }
}
