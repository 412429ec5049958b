/** The byte order of transaction ids: the trace call wants the display form reversed. */
module TxidHex {
  import opened Options
  import opened Numerals

  type byte = b: nat | b < 256

  /** `hex::decode` accepts pairs of hexadecimal digits, in either case. */
  predicate HexText(s: string) {
    |s| % 2 == 0 && Digits(s, 16)
  }

  function Bytes(s: string): seq<byte>
    requires HexText(s)
  {
    seq(|s| / 2, k requires 0 <= k < |s| / 2 => PairValue(s[2 * k], s[2 * k + 1]))
  }

  function PairValue(high: char, low: char): byte
    requires Digit(high, 16).Some? && Digit(low, 16).Some?
  {
    Digit(high, 16).value * 16 + Digit(low, 16).value
  }

  /** `hex::encode`: lower case. */
  function Text(bytes: seq<byte>): string {
    seq(2 * |bytes|, i requires 0 <= i < 2 * |bytes| => Glyph(if i % 2 == 0 then bytes[i / 2] / 16 else bytes[i / 2] % 16))
  }

  function Reverse<T>(xs: seq<T>): seq<T> {
    seq(|xs|, i requires 0 <= i < |xs| => xs[|xs| - 1 - i])
  }

  function LowerDigit(c: char): char {
    if 'A' <= c <= 'F' then c - 'A' + 'a' else c
  }

  function LowerHex(s: string): string {
    seq(|s|, i requires 0 <= i < |s| => LowerDigit(s[i]))
  }

  /** `to_little_endian_hex` */
  function LittleEndianHex(s: string): string {
    if HexText(s) then Text(Reverse(Bytes(s))) else s
  }

  lemma PairText(high: char, low: char)
    requires Digit(high, 16).Some? && Digit(low, 16).Some?
    ensures Glyph(PairValue(high, low) / 16) == LowerDigit(high) && Glyph(PairValue(high, low) % 16) == LowerDigit(low)
  {
  }

  lemma GlyphsReadBack(b: byte)
    ensures Digit(Glyph(b / 16), 16) == Some(b / 16) && Digit(Glyph(b % 16), 16) == Some(b % 16)
    ensures PairValue(Glyph(b / 16), Glyph(b % 16)) == b
  {
    GlyphIsDigit(b / 16, 16);
    GlyphIsDigit(b % 16, 16);
  }

  lemma TextPair(bytes: seq<byte>, k: nat)
    requires k < |bytes|
    ensures Text(bytes)[2 * k] == Glyph(bytes[k] / 16) && Text(bytes)[2 * k + 1] == Glyph(bytes[k] % 16)
  {
    assert 2 * k / 2 == k && (2 * k + 1) / 2 == k;
  }

  lemma TextReadsBack(bytes: seq<byte>)
    ensures HexText(Text(bytes)) && Bytes(Text(bytes)) == bytes
  {
    var s := Text(bytes);
    forall i | 0 <= i < |s| ensures Digit(s[i], 16).Some? {
      GlyphsReadBack(bytes[i / 2]);
    }
    forall k | 0 <= k < |bytes| ensures Bytes(s)[k] == bytes[k] {
      TextPair(bytes, k);
      GlyphsReadBack(bytes[k]);
    }
  }

  lemma PairOfBytes(s: string, bytes: seq<byte>, k: nat, m: nat)
    requires HexText(s) && k < |bytes| && m < |s| / 2 && bytes[k] == Bytes(s)[m]
    ensures Text(bytes)[2 * k] == LowerDigit(s[2 * m]) && Text(bytes)[2 * k + 1] == LowerDigit(s[2 * m + 1])
  {
    TextPair(bytes, k);
    PairText(s[2 * m], s[2 * m + 1]);
  }

  /** The pairs of digits come out in reverse order, in lower case. */
  lemma PairsAreReversed(s: string, k: nat)
    requires HexText(s) && k < |s| / 2
    ensures var m := |s| / 2 - 1 - k;
      && |LittleEndianHex(s)| == |s|
      && LittleEndianHex(s)[2 * k] == LowerDigit(s[2 * m]) && LittleEndianHex(s)[2 * k + 1] == LowerDigit(s[2 * m + 1])
  {
    PairOfBytes(s, Reverse(Bytes(s)), k, |s| / 2 - 1 - k);
  }

  lemma BytesAsText(s: string)
    requires HexText(s)
    ensures Text(Bytes(s)) == LowerHex(s)
  {
    forall i | 0 <= i < |s| ensures Text(Bytes(s))[i] == LowerHex(s)[i] {
      var k := i / 2;
      PairOfBytes(s, Bytes(s), k, k);
      assert i == 2 * k || i == 2 * k + 1;
    }
  }

  lemma ReverseTwice<T>(xs: seq<T>)
    ensures Reverse(Reverse(xs)) == xs
  {
  }

  lemma TextReversed(bytes: seq<byte>)
    ensures LittleEndianHex(Text(bytes)) == Text(Reverse(bytes))
  {
    TextReadsBack(bytes);
  }

  /** Reversing twice restores the text up to the case of its digits. */
  lemma LittleEndianTwice(s: string)
    ensures LittleEndianHex(LittleEndianHex(s)) == if HexText(s) then LowerHex(s) else s
  {
    if HexText(s) {
      TextReversed(Reverse(Bytes(s)));
      ReverseTwice(Bytes(s));
      BytesAsText(s);
    }
  }
}
