/**
 Numerals as the trace decoders meet them: strings in base 10 or 16, and the
 two-word {hi, lo} form. Parsing follows Rust's `from_str_radix` on u128: an
 optional leading '+', at least one digit, rejection above u128::MAX.
 */
module Numerals {
  import opened Options

  const U64_MAX: nat := 0xFFFF_FFFF_FFFF_FFFF
  const U128_MAX: nat := 0xFFFF_FFFF_FFFF_FFFF_FFFF_FFFF_FFFF_FFFF

  type u64 = n: nat | n <= U64_MAX
  type u128 = n: nat | n <= U128_MAX
  type Radix = r: nat | r == 10 || r == 16 witness 10

  /** The value of one digit, or None for a character that is no digit in this radix. */
  function Digit(c: char, radix: Radix): Option<nat> {
    if '0' <= c <= '9' then Some(c as nat - '0' as nat)
    else if radix == 16 && 'a' <= c <= 'f' then Some(c as nat - 'a' as nat + 10)
    else if radix == 16 && 'A' <= c <= 'F' then Some(c as nat - 'A' as nat + 10)
    else None
  }

  predicate Digits(s: string, radix: Radix) {
    forall i | 0 <= i < |s| :: Digit(s[i], radix).Some?
  }

  /** Positional value of a digit string, most significant digit first. */
  function Value(s: string, radix: Radix): nat
    requires Digits(s, radix)
  {
    if s == "" then 0
    else Value(s[..|s| - 1], radix) * radix + Digit(s[|s| - 1], radix).value
  }

  function Glyph(d: nat): char
    requires d < 16
  {
    if d < 10 then (d + '0' as nat) as char else (d - 10 + 'a' as nat) as char
  }

  /** The shortest numeral of n: what `to_string` and `{:x}` produce. */
  function Print(n: nat, radix: Radix): string
    decreases n
  {
    if n < radix then [Glyph(n)] else Print(n / radix, radix) + [Glyph(n % radix)]
  }

  function Decimal(n: nat): string {
    Print(n, 10)
  }

  function StripPlus(s: string): string {
    if |s| > 1 && s[0] == '+' then s[1..] else s
  }

  /** `u128::from_str_radix`, with every error merged into None. */
  function ParseU128(s: string, radix: Radix): Option<u128> {
    var body := StripPlus(s);
    if body == "" || !Digits(body, radix) || Value(body, radix) > U128_MAX then None
    else Some(Value(body, radix))
  }

  function StripHexPrefix(s: string): string {
    if "0x" <= s then s[2..] else s
  }

  function HexToU128(s: string): Option<u128> {
    ParseU128(StripHexPrefix(s), 16)
  }

  /** `hex_to_dec_u128_str` */
  function HexToDecimal(s: string): Option<string> {
    match HexToU128(s)
    case Some(v) => Some(Decimal(v))
    case None => None
  }

  /** The JSON shapes the normaliser tells apart. */
  datatype Json =
    | Words(hi: Option<u64>, lo: Option<u64>)  // an object with both keys
    | Text(text: string)
    | Number(number: Option<u64>)              // None: negative, fractional or too wide
    | Unsupported

  predicate HexLetter(c: char) {
    'a' <= c <= 'f' || 'A' <= c <= 'F'
  }

  /** `value_u128_from_json` */
  function Normalise(v: Json): Option<u128> {
    match v
    case Words(Some(hi), Some(lo)) => Some(hi * 0x1_0000_0000_0000_0000 + lo)
    case Words(_, _) => None
    case Text(s) =>
      if "0x" <= s || exists i | 0 <= i < |s| :: HexLetter(s[i]) then HexToU128(s)
      else ParseU128(s, 10)
    case Number(Some(n)) => Some(n)
    case Number(None) => None
    case Unsupported => None
  }

  // Printing and reading back

  lemma GlyphIsDigit(d: nat, radix: Radix)
    requires d < radix
    ensures Digit(Glyph(d), radix) == Some(d)
  {
  }

  lemma {:induction false} PrintReadsBack(n: nat, radix: Radix)
    ensures Print(n, radix) != "" && Digits(Print(n, radix), radix)
    ensures Value(Print(n, radix), radix) == n
    decreases n
  {
    GlyphIsDigit(n % radix, radix);
    if n < radix {
      assert Print(n, radix)[..0] == "";
    } else {
      PrintReadsBack(n / radix, radix);
      var front := Print(n / radix, radix);
      assert Print(n, radix)[..|front|] == front;
      if radix == 10 { assert n == n / 10 * 10 + n % 10; } else { assert n == n / 16 * 16 + n % 16; }
    }
  }

  /** Two ids have the same printed form exactly when they are the same number. */
  lemma PrintInjective(m: nat, n: nat, radix: Radix)
    ensures Print(m, radix) == Print(n, radix) <==> m == n
  {
    PrintReadsBack(m, radix);
    PrintReadsBack(n, radix);
  }

  lemma DecimalHasNoHexLetter(s: string)
    requires Digits(s, 10)
    ensures forall i | 0 <= i < |s| :: !HexLetter(s[i])
    ensures !("0x" <= s)
  {
    forall i | 0 <= i < |s|
      ensures !HexLetter(s[i]) && s[i] != 'x'
    {
      assert Digit(s[i], 10).Some?;
    }
    assert |s| > 1 ==> s[1] != 'x';
  }

  /** A string of decimal digits is accepted exactly when its value fits, whatever its length. */
  lemma DecimalTextAccepted(s: string)
    requires s != "" && Digits(s, 10)
    ensures Normalise(Text(s)) == if Value(s, 10) <= U128_MAX then Some(Value(s, 10)) else None
  {
    DecimalHasNoHexLetter(s);
    assert Digit(s[0], 10).Some?;
    assert StripPlus(s) == s;
  }

  /** The same for hexadecimal digits behind "0x". */
  lemma HexTextAccepted(s: string)
    requires s != "" && Digits(s, 16)
    ensures Normalise(Text("0x" + s)) == if Value(s, 16) <= U128_MAX then Some(Value(s, 16)) else None
  {
    assert ("0x" + s)[2..] == s;
    assert "0x" <= "0x" + s;
    assert Digit(s[0], 16).Some?;
    assert StripPlus(s) == s;
  }

  lemma WordsNormalise(v: u128)
    ensures Normalise(Words(Some(v / 0x1_0000_0000_0000_0000), Some(v % 0x1_0000_0000_0000_0000))) == Some(v)
  {
  }

  lemma HexNormalises(v: u128)
    ensures Normalise(Text("0x" + Print(v, 16))) == Some(v)
  {
    PrintReadsBack(v, 16);
    HexTextAccepted(Print(v, 16));
  }

  lemma DecimalNormalises(v: u128)
    ensures Normalise(Text(Decimal(v))) == Some(v)
  {
    PrintReadsBack(v, 10);
    DecimalTextAccepted(Decimal(v));
  }

  /** Every JSON spelling of a u128 normalises to it. */
  lemma SpellingsNormalise(v: u128)
    ensures Normalise(Words(Some(v / 0x1_0000_0000_0000_0000), Some(v % 0x1_0000_0000_0000_0000))) == Some(v)
    ensures Normalise(Text("0x" + Print(v, 16))) == Some(v)
    ensures Normalise(Text(Decimal(v))) == Some(v)
    ensures v <= U64_MAX ==> Normalise(Number(Some(v))) == Some(v)
  {
    WordsNormalise(v);
    HexNormalises(v);
    DecimalNormalises(v);
  }

  /** A hexadecimal id turned into decimal text normalises to the number the hexadecimal text meant. */
  lemma HexToDecimalKeepsValue(s: string)
    ensures HexToDecimal(s).Some? <==> HexToU128(s).Some?
    ensures HexToU128(s).Some? ==> Normalise(Text(HexToDecimal(s).value)) == HexToU128(s)
  {
    if HexToU128(s).Some? {
      DecimalNormalises(HexToU128(s).value);
    }
  }
}
