/** Rune amounts as decimal text with a fixed number of fraction digits. */
module RuneAmount {
  import opened Options
  import opened Arithmetic
  import opened Numerals

  /** Panics: 10^divisibility, or the combined amount, leaves u128. */
  datatype Parsed = Amount(value: u128) | Malformed | Panics

  function Pow10(n: nat): (p: nat)
    ensures p > 0
  {
    if n == 0 then 1 else 10 * Pow10(n - 1)
  }

  function Zeros(n: nat): string {
    if n == 0 then "" else "0" + Zeros(n - 1)
  }

  function PadLeft(s: string, width: nat): string {
    if |s| >= width then s else Zeros(width - |s|) + s
  }

  function PadRight(s: string, width: nat): string {
    if |s| >= width then s else s + Zeros(width - |s|)
  }

  function TrimRight(s: string, c: char): string {
    if s != "" && s[|s| - 1] == c then TrimRight(s[..|s| - 1], c) else s
  }

  /** The pieces between the dots: always at least one. */
  function Split(s: string): (parts: seq<string>)
    ensures parts != []
  {
    if s == "" then [""]
    else if s[0] == '.' then [""] + Split(s[1..])
    else
      var rest := Split(s[1..]);
      [[s[0]] + rest[0]] + rest[1..]
  }

  function Spell(whole: nat, fraction: nat, width: nat): string {
    if fraction == 0 then Decimal(whole)
    else TrimRight(TrimRight(Decimal(whole) + "." + PadLeft(Decimal(fraction), width), '0'), '.')
  }

  /** `format_rune_amount`; None where the power of ten overflows. */
  function Format(amount: u128, divisibility: nat): Option<string> {
    if divisibility == 0 then Some(Decimal(amount))
    else
      var divisor := Pow10(divisibility);
      if divisor > U128_MAX then None else Some(Spell(amount / divisor, amount % divisor, divisibility))
  }

  /** The digits behind the dot, padded to the divisibility; an absent fraction is zero. */
  function ParseFraction(parts: seq<string>, divisibility: nat): Option<u128> {
    if |parts| < 2 then Some(0)
    else if |parts[1]| > divisibility then None
    else ParseU128(PadRight(parts[1], divisibility), 10)
  }

  /** `parse_rune_amount` */
  function Parse(s: string, divisibility: nat): Parsed {
    if divisibility == 0 then
      (match ParseU128(s, 10)
       case Some(v) => Amount(v)
       case None => Malformed)
    else
      var parts := Split(s);
      if |parts| > 2 then Malformed
      else
        match (ParseU128(parts[0], 10), ParseFraction(parts, divisibility))
        case (Some(whole), Some(fraction)) => Combine(whole, fraction, Pow10(divisibility))
        case _ => Malformed
  }

  function Combine(whole: nat, fraction: nat, divisor: nat): Parsed {
    if divisor > U128_MAX || whole * divisor + fraction > U128_MAX then Panics
    else Amount(whole * divisor + fraction)
  }

  // Text

  lemma {:induction false} ZerosMeaning(n: nat)
    ensures |Zeros(n)| == n && forall i | 0 <= i < n :: Zeros(n)[i] == '0'
  {
    if n > 0 { ZerosMeaning(n - 1); }
  }

  lemma {:induction false} TrimOnlyZeros(s: string, zeros: string)
    requires forall i | 0 <= i < |zeros| :: zeros[i] == '0'
    ensures TrimRight(s + zeros, '0') == TrimRight(s, '0')
  {
    if zeros == "" {
      assert s + zeros == s;
    } else {
      var n := |zeros| - 1;
      assert (s + zeros)[..|s| + n] == s + zeros[..n];
      TrimOnlyZeros(s, zeros[..n]);
    }
  }

  /** What is trimmed off is zeros. */
  lemma {:induction false} TrimMeaning(t: string)
    ensures var n := |TrimRight(t, '0')|;
      && n <= |t| && TrimRight(t, '0') == t[..n]
      && (forall i | n <= i < |t| :: t[i] == '0')
      && (n > 0 ==> t[n - 1] != '0')
  {
    if t != "" && t[|t| - 1] == '0' {
      TrimMeaning(t[..|t| - 1]);
    }
  }

  lemma OnlyZeros(s: string)
    requires forall i | 0 <= i < |s| :: s[i] == '0'
    ensures s == Zeros(|s|)
  {
    ZerosMeaning(|s|);
  }

  /** Padding the zeros on again restores the text. */
  lemma TrimThenPad(t: string)
    ensures PadRight(TrimRight(t, '0'), |t|) == t
  {
    TrimMeaning(t);
    var n := |TrimRight(t, '0')|;
    OnlyZeros(t[n..]);
    assert t == t[..n] + t[n..];
  }

  lemma {:induction false} TrimBehind(front: string, t: string)
    requires TrimRight(t, '0') != ""
    ensures TrimRight(front + t, '0') == front + TrimRight(t, '0')
  {
    if t[|t| - 1] == '0' {
      var n := |t| - 1;
      assert (front + t)[..|front| + n] == front + t[..n];
      TrimBehind(front, t[..n]);
    }
  }

  lemma {:induction false} SplitUndotted(s: string)
    requires '.' !in s
    ensures Split(s) == [s]
  {
    if s != "" {
      SplitUndotted(s[1..]);
      assert [s[0]] + s[1..] == s;
    }
  }

  lemma {:induction false} SplitAtDot(front: string, back: string)
    requires '.' !in front
    ensures Split(front + "." + back) == [front] + Split(back)
  {
    if front == "" {
      assert front + "." + back == "." + back;
      assert ("." + back)[1..] == back;
    } else {
      SplitAtDot(front[1..], back);
      assert (front + "." + back)[1..] == front[1..] + "." + back;
      assert [front[0]] + front[1..] == front;
    }
  }

  // Values

  lemma DigitsHaveNoDot(s: string)
    requires Digits(s, 10)
    ensures '.' !in s && StripPlus(s) == s
  {
    forall i | 0 <= i < |s| ensures s[i] != '.' && s[i] != '+' {
      assert Digit(s[i], 10).Some?;
    }
  }

  lemma ParseDigits(s: string)
    requires s != "" && Digits(s, 10) && Value(s, 10) <= U128_MAX
    ensures ParseU128(s, 10) == Some(Value(s, 10))
  {
    DigitsHaveNoDot(s);
  }

  /** Leading zeros change nothing. */
  lemma {:induction false} ValueBehindZeros(zeros: string, s: string)
    requires Digits(s, 10) && forall i | 0 <= i < |zeros| :: zeros[i] == '0'
    ensures Digits(zeros + s, 10) && Value(zeros + s, 10) == Value(s, 10)
    decreases |zeros| + |s|
  {
    if s != "" {
      var n := |s| - 1;
      assert (zeros + s)[..|zeros| + n] == zeros + s[..n];
      ValueBehindZeros(zeros, s[..n]);
    } else if zeros != "" {
      var n := |zeros| - 1;
      assert (zeros + s)[..n] == zeros[..n] + s;
      ValueBehindZeros(zeros[..n], s);
    }
  }

  lemma {:induction false} ValueBound(s: string)
    requires Digits(s, 10)
    ensures Value(s, 10) < Pow10(|s|)
  {
    if s != "" { ValueBound(s[..|s| - 1]); }
  }

  lemma LastDigit(x: nat, c: char, y: nat, d: char)
    requires Digit(c, 10).Some? && Digit(d, 10).Some?
    requires x * 10 + Digit(c, 10).value == y * 10 + Digit(d, 10).value
    ensures x == y && c == d
  {
    assert Digit(c, 10).value < 10 && Digit(d, 10).value < 10;
  }

  /** Numerals of one width and value are one numeral. */
  lemma {:induction false} FixedWidth(s: string, t: string)
    requires Digits(s, 10) && Digits(t, 10) && |s| == |t| && Value(s, 10) == Value(t, 10)
    ensures s == t
  {
    if s != "" {
      var n := |s| - 1;
      LastDigit(Value(s[..n], 10), s[n], Value(t[..n], 10), t[n]);
      FixedWidth(s[..n], t[..n]);
      assert s == s[..n] + [s[n]] && t == t[..n] + [t[n]];
    }
  }

  lemma {:induction false} PrintWidth(n: nat, width: nat)
    requires width > 0 && n < Pow10(width)
    ensures 1 <= |Decimal(n)| <= width
    decreases width
  {
    if n >= 10 {
      PrintWidth(n / 10, width - 1);
    }
  }

  /** A fraction below the divisor, padded, is a numeral of the full width with its value. */
  lemma PaddedFraction(fraction: nat, width: nat)
    requires width > 0 && fraction < Pow10(width)
    ensures var t := PadLeft(Decimal(fraction), width);
      |t| == width && Digits(t, 10) && Value(t, 10) == fraction
  {
    var s := Decimal(fraction);
    PrintWidth(fraction, width);
    PrintReadsBack(fraction, 10);
    ZerosMeaning(width - |s|);
    ValueBehindZeros(Zeros(width - |s|), s);
  }

  lemma {:induction false} ZeroValue(s: string)
    requires Digits(s, 10)
    ensures Value(s, 10) == 0 <==> TrimRight(s, '0') == ""
  {
    if s != "" { ZeroValue(s[..|s| - 1]); }
  }

  /** The canonical text: whole digits, then a dot and the fraction digits without trailing zeros, if any are left. */
  function Canonical(whole: nat, fraction: string): string {
    var g := TrimRight(fraction, '0');
    Decimal(whole) + (if g == "" then "" else "." + g)
  }

  lemma PadRestores(t: string)
    requires t != "" && Digits(t, 10)
    ensures PadLeft(Decimal(Value(t, 10)), |t|) == t
  {
    ValueBound(t);
    PaddedFraction(Value(t, 10), |t|);
    FixedWidth(PadLeft(Decimal(Value(t, 10)), |t|), t);
  }

  /** The dot goes only with the whole fraction. */
  lemma TrimDotted(front: string, t: string)
    requires Digits(t, 10) && TrimRight(t, '0') != ""
    ensures TrimRight(TrimRight(front + "." + t, '0'), '.') == front + ("." + TrimRight(t, '0'))
  {
    TrimBehind(front + ".", t);
    TrimMeaning(t);
    var g := TrimRight(t, '0');
    assert Digit(t[|g| - 1], 10).Some?;
    assert front + "." + g == front + ("." + g);
  }

  lemma SpellIsCanonical(whole: nat, t: string)
    requires t != "" && Digits(t, 10)
    ensures Spell(whole, Value(t, 10), |t|) == Canonical(whole, t)
  {
    ZeroValue(t);
    if Value(t, 10) > 0 {
      PadRestores(t);
      TrimDotted(Decimal(whole), t);
    } else {
      assert Decimal(whole) + "" == Decimal(whole);
    }
  }

  /** A printed amount is the canonical text of its whole part and its full-width fraction. */
  lemma FormatIsCanonical(amount: u128, whole: nat, t: string)
    requires t != "" && Digits(t, 10) && Pow10(|t|) <= U128_MAX
    requires amount == whole * Pow10(|t|) + Value(t, 10)
    ensures Format(amount, |t|) == Some(Canonical(whole, t))
  {
    ValueBound(t);
    Division(amount, Pow10(|t|), whole, Value(t, 10));
    SpellIsCanonical(whole, t);
  }

  lemma SplitCanonical(whole: nat, t: string)
    requires Digits(t, 10)
    ensures var g := TrimRight(t, '0');
      Split(Canonical(whole, t)) == if g == "" then [Decimal(whole)] else [Decimal(whole), g]
  {
    var w, g := Decimal(whole), TrimRight(t, '0');
    PrintReadsBack(whole, 10);
    DigitsHaveNoDot(w);
    TrimMeaning(t);
    if g == "" {
      assert w + "" == w;
      SplitUndotted(w);
    } else {
      DigitsHaveNoDot(g);
      SplitUndotted(g);
      SplitAtDot(w, g);
      assert w + ("." + g) == w + "." + g;
    }
  }

  lemma CanonicalFraction(t: string)
    requires t != "" && Digits(t, 10) && Value(t, 10) <= U128_MAX
    ensures var g := TrimRight(t, '0');
      ParseFraction(if g == "" then ["0"] else ["0", g], |t|) == Some(Value(t, 10))
  {
    TrimMeaning(t);
    TrimThenPad(t);
    ZeroValue(t);
    ParseDigits(t);
  }

  /** Reading the canonical text back. */
  lemma ParseCanonical(whole: nat, t: string)
    requires t != "" && Digits(t, 10) && whole <= U128_MAX && Value(t, 10) <= U128_MAX
    ensures Parse(Canonical(whole, t), |t|) == Combine(whole, Value(t, 10), Pow10(|t|))
  {
    PrintReadsBack(whole, 10);
    ParseDigits(Decimal(whole));
    SplitCanonical(whole, t);
    CanonicalFraction(t);
  }

  lemma ReadsBackParts(amount: u128, whole: nat, fraction: nat, divisibility: nat)
    requires divisibility > 0 && fraction < Pow10(divisibility) <= U128_MAX
    requires amount == whole * Pow10(divisibility) + fraction
    ensures Format(amount, divisibility).Some?
    ensures Parse(Format(amount, divisibility).value, divisibility) == Amount(amount)
  {
    var t := PadLeft(Decimal(fraction), divisibility);
    PaddedFraction(fraction, divisibility);
    WholeFits(whole, Pow10(divisibility));
    FormatIsCanonical(amount, whole, t);
    ParseCanonical(whole, t);
  }

  lemma Divide(x: nat, d: nat) returns (q: nat, r: nat)
    requires d > 0
    ensures x == q * d + r && r < d
  {
    q, r := x / d, x % d;
  }

  /** Every u128 amount is printed and read back at every divisibility whose power of ten fits: 0 to 38. */
  lemma PrintedAmountReadsBack(amount: u128, divisibility: nat)
    ensures Format(amount, divisibility).Some? <==> divisibility <= 38
    ensures divisibility <= 38 ==> Parse(Format(amount, divisibility).value, divisibility) == Amount(amount)
  {
    DivisorFits(divisibility);
    if divisibility == 0 {
      PrintReadsBack(amount, 10);
      ParseDigits(Decimal(amount));
    } else if divisibility <= 38 {
      var whole, fraction := Divide(amount, Pow10(divisibility));
      ReadsBackParts(amount, whole, fraction, divisibility);
    }
  }

  lemma WholeFits(whole: nat, d: nat)
    requires d > 0
    ensures whole <= whole * d
  {
  }

  lemma {:induction false} DivisorFits(divisibility: nat)
    ensures Pow10(divisibility) <= U128_MAX <==> divisibility <= 38
  {
    Pow10At38();
    if divisibility <= 38 { Pow10Grows(divisibility, 38); } else { Pow10Grows(39, divisibility); }
  }

  lemma {:induction false} Pow10Grows(m: nat, n: nat)
    requires m <= n
    ensures Pow10(m) <= Pow10(n)
    decreases n - m
  {
    if m < n { Pow10Grows(m + 1, n); }
  }

  lemma Pow10At38()
    ensures Pow10(38) <= U128_MAX < Pow10(39)
  {
    assert Pow10(10) == 10_000_000_000;
    assert Pow10(20) == 100_000_000_000_000_000_000;
    assert Pow10(30) == 1_000_000_000_000_000_000_000_000_000_000;
  }

  /** A fraction with a sign: the parser skips a leading '+', which then stands for a zero digit. */
  function PlusAsZero(s: string): string {
    if s != "" && s[0] == '+' then "0" + s[1..] else s
  }

  lemma PadMeaning(f: string, width: nat)
    requires |f| <= width
    ensures PadRight(f, width) == f + Zeros(width - |f|) && |PadRight(f, width)| == width
  {
    ZerosMeaning(width - |f|);
    if |f| == width { assert f + "" == f; }
  }

  lemma PlusValue(p: string)
    requires ParseU128(p, 10).Some?
    ensures var t := PlusAsZero(p);
      |t| == |p| && Digits(t, 10) && Some(Value(t, 10)) == ParseU128(p, 10)
  {
    if p[0] == '+' {
      ValueBehindZeros("0", p[1..]);
    }
  }

  lemma PaddedTrim(f: string, width: nat)
    requires 0 < |f| <= width || f == ""
    requires |f| <= width
    ensures TrimRight(PlusAsZero(PadRight(f, width)), '0') == TrimRight(PlusAsZero(f), '0')
  {
    var zeros := Zeros(width - |f|);
    PadMeaning(f, width);
    ZerosMeaning(width - |f|);
    TrimOnlyZeros(PlusAsZero(f), zeros);
    assert PlusAsZero(f + zeros) == PlusAsZero(f) + zeros;
  }

  /** The whole part and full-width fraction digits that a parsed text stands for. */
  function FractionDigits(parts: seq<string>, divisibility: nat): string {
    if |parts| == 2 then PlusAsZero(PadRight(parts[1], divisibility)) else Zeros(divisibility)
  }

  lemma FractionDigitsMeaning(parts: seq<string>, divisibility: nat)
    requires 1 <= |parts| <= 2 && divisibility > 0 && ParseFraction(parts, divisibility).Some?
    ensures var t := FractionDigits(parts, divisibility);
      && |t| == divisibility && Digits(t, 10) && Some(Value(t, 10)) == ParseFraction(parts, divisibility)
      && TrimRight(t, '0') == TrimRight(if |parts| == 2 then PlusAsZero(parts[1]) else "", '0')
  {
    if |parts| == 2 {
      PadMeaning(parts[1], divisibility);
      PlusValue(PadRight(parts[1], divisibility));
      PaddedTrim(parts[1], divisibility);
    } else {
      var t := Zeros(divisibility);
      ZerosMeaning(divisibility);
      ValueBehindZeros(t, "");
      assert t + "" == t && "" + t == t;
      TrimOnlyZeros("", t);
    }
  }

  /** Printing a parsed amount gives the canonical form of the text: no sign, no leading zeros, no trailing zeros in the fraction. */
  lemma ParsedAmountPrintsCanonically(s: string, divisibility: nat)
    requires Parse(s, divisibility).Amount?
    ensures var parts := if divisibility == 0 then [s] else Split(s);
      && Digits(StripPlus(parts[0]), 10)
      && Format(Parse(s, divisibility).value, divisibility)
         == Some(Canonical(Value(StripPlus(parts[0]), 10), if |parts| == 2 then PlusAsZero(parts[1]) else ""))
  {
    if divisibility > 0 {
      var parts := Split(s);
      FractionDigitsMeaning(parts, divisibility);
      FormatIsCanonical(Parse(s, divisibility).value, ParseU128(parts[0], 10).value, FractionDigits(parts, divisibility));
    } else {
      assert Decimal(Parse(s, 0).value) + "" == Decimal(Parse(s, 0).value);
    }
  }
}
