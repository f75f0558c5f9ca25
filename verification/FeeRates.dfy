/** On-chain fee rates as fixed-point sat/vB with three decimals (fee_rate.go). */
module FeeRates {
  import opened Wrappers
  import opened Integers

  const VBYTES_PER_KVBYTE := 1000

  // ------------------------------------------------------------------ decimal digits

  predicate IsDigit(c: char) {
    '0' <= c <= '9'
  }

  predicate AllDigits(s: string) {
    forall i | 0 <= i < |s| :: IsDigit(s[i])
  }

  function DigitValue(c: char): nat
    requires IsDigit(c)
  {
    c as int - '0' as int
  }

  /** The number a digit string denotes, unbounded. */
  function Value(s: string): nat
    requires AllDigits(s)
  {
    if s == "" then 0 else 10 * Value(s[..|s| - 1]) + DigitValue(s[|s| - 1])
  }

  function DigitChar(d: nat): (c: char)
    requires d < 10
    ensures IsDigit(c) && DigitValue(c) == d
  {
    '0' + d as char
  }

  /** `strconv.FormatUint` in base ten. */
  function Digits(n: nat): (s: string)
    ensures s != "" && AllDigits(s)
  {
    if n < 10 then [DigitChar(n)] else Digits(n / 10) + [DigitChar(n % 10)]
  }

  lemma {:induction false} ValueOfDigits(n: nat)
    ensures Value(Digits(n)) == n
    decreases n
  {
    if n < 10 {
      assert [DigitChar(n)][..0] == "";
    } else {
      ValueOfDigits(n / 10);
      AppendDigit(Digits(n / 10), n % 10);
    }
  }

  lemma AppendDigit(s: string, d: nat)
    requires AllDigits(s) && d < 10
    ensures AllDigits(s + [DigitChar(d)]) && Value(s + [DigitChar(d)]) == 10 * Value(s) + d
  {
    assert (s + [DigitChar(d)])[..|s|] == s;
  }

  lemma {:induction false} PrefixValue(s: string, k: nat)
    requires AllDigits(s) && k <= |s|
    ensures Value(s[..k]) <= Value(s)
    decreases |s|
  {
    if k == |s| {
      assert s[..k] == s;
    } else {
      assert s[..|s| - 1][..k] == s[..k];
      PrefixValue(s[..|s| - 1], k);
    }
  }

  /** `strconv.ParseUint` on a digit string: it stops as soon as the number
      cannot fit. */
  method ParseUint(s: string) returns (r: Option<uint64>)
    requires AllDigits(s)
    ensures r == if Value(s) <= MAX_UINT64 then Some(Value(s)) else None
  {
    var n: uint64 := 0;
    var cutoff := MAX_UINT64 / 10 + 1;
    for i := 0 to |s|
      invariant n == Value(s[..i])
    {
      assert s[..i + 1][..i] == s[..i];
      PrefixValue(s, i + 1);
      if n >= cutoff {
        return None;
      }
      var sum := 10 * n + DigitValue(s[i]);
      if sum > MAX_UINT64 {
        return None;
      }
      n := sum;
    }
    assert s[..|s|] == s;
    r := Some(n);
  }

  // ------------------------------------------------------------------------ parsing

  /** `unicode.IsSpace`. */
  predicate IsSpace(c: char) {
    || '\U{9}' <= c <= '\U{D}' || c == ' ' || c == '\U{85}' || c == '\U{A0}' || c == '\U{1680}'
    || '\U{2000}' <= c <= '\U{200A}' || c == '\U{2028}' || c == '\U{2029}' || c == '\U{202F}'
    || c == '\U{205F}' || c == '\U{3000}'
  }

  /** `strings.TrimSpace`. */
  function Trim(s: string): string {
    if s == "" then ""
    else if IsSpace(s[0]) then Trim(s[1..])
    else if IsSpace(s[|s| - 1]) then Trim(s[..|s| - 1])
    else s
  }

  /** The position of the first '.', or the length. */
  function Dot(s: string): (i: nat)
    ensures i <= |s| && (i < |s| ==> s[i] == '.') && forall j | 0 <= j < i :: s[j] != '.'
  {
    if s == "" || s[0] == '.' then 0 else 1 + Dot(s[1..])
  }

  /** Fraction digits to three places. */
  function Pad(fraction: string): (p: string)
    requires |fraction| <= 3
    ensures |p| == 3
    decreases 3 - |fraction|
  {
    if |fraction| == 3 then fraction else Pad(fraction + "0")
  }

  /** The exact rate in sat/kvB that a trimmed decimal denotes, however large. */
  function Decimal(s: string): Option<nat> {
    var whole := s[..Dot(s)];
    var fraction := if Dot(s) < |s| then s[Dot(s) + 1..] else "";
    if s == "" || !AllDigits(whole) || !AllDigits(fraction) || |fraction| > 3 then None
    else
      PadDigits(fraction);
      Some(Value(whole) * VBYTES_PER_KVBYTE + Value(Pad(fraction)))
  }

  lemma {:induction false} PadDigits(fraction: string)
    requires AllDigits(fraction) && |fraction| <= 3
    ensures AllDigits(Pad(fraction))
    decreases 3 - |fraction|
  {
    if |fraction| < 3 {
      PadDigits(fraction + "0");
    }
  }

  lemma {:induction false} PadKeepsPrefix(fraction: string)
    requires |fraction| <= 3
    ensures Pad(fraction)[..|fraction|] == fraction
    ensures forall i | |fraction| <= i < 3 :: Pad(fraction)[i] == '0'
    decreases 3 - |fraction|
  {
    if |fraction| < 3 {
      PadKeepsPrefix(fraction + "0");
      assert Pad(fraction)[..|fraction| + 1] == fraction + "0";
    }
  }

  predicate Fits(n: Option<nat>) {
    n.Some? && n.value <= MAX_UINT64
  }

  function Bounded(n: Option<nat>): Option<uint64> {
    if Fits(n) then Some(n.value) else None
  }

  method ParsePart(s: string) returns (r: Option<uint64>)
    ensures r == if AllDigits(s) && Value(s) <= MAX_UINT64 then Some(Value(s)) else None
  {
    if s == "" {
      return Some(0);
    }
    for i := 0 to |s|
      invariant forall j | 0 <= j < i :: IsDigit(s[j])
    {
      if !IsDigit(s[i]) {
        return None;
      }
    }
    r := ParseUint(s);
  }

  method FromSatPerVByte(whole: uint64) returns (r: Option<uint64>)
    ensures r == Bounded(Some(whole * VBYTES_PER_KVBYTE))
  {
    if whole > MAX_UINT64 / VBYTES_PER_KVBYTE {
      return None;
    }
    r := Some(whole * VBYTES_PER_KVBYTE);
  }

  /** `ParseFeeRateSatPerVByte`: it accepts a decimal exactly when its exact
      sat/kvB amount fits 64 bits. */
  method ParseFeeRate(text: string) returns (r: Option<uint64>)
    ensures r == Bounded(Decimal(Trim(text)))
  {
    hide Value, Trim, Pad, Dot;
    var value := Trim(text);
    if value == "" {
      return None;
    }
    if value[0] == '-' {
      assert Dot(value) == 0 ==> value[0] == '.' by { DotAt(value); }
      assert Dot(value) > 0 ==> value[..Dot(value)][0] == '-';
      return None;
    }
    var whole, fraction, found := value[..Dot(value)], "", Dot(value) < |value|;
    if found {
      fraction := value[Dot(value) + 1..];
    }
    if whole == "" {
      whole := "0";
      ZeroValues();
    }
    var wholeSats := ParsePart(whole);
    if wholeSats.None? {
      return None;
    }
    if !found {
      ZeroValues();
      r := FromSatPerVByte(wholeSats.value);
      return;
    }
    if |fraction| > 3 {
      return None;
    }
    var padded := PadThree(fraction);
    PadDigitsOnly(fraction);
    var fractionSats := ParsePart(padded);
    if fractionSats.None? {
      ThreeDigits(padded);
      return None;
    }
    if wholeSats.value > MAX_UINT64 / VBYTES_PER_KVBYTE {
      return None;
    }
    var satPerKVByte := wholeSats.value * VBYTES_PER_KVBYTE;
    if fractionSats.value > MAX_UINT64 - satPerKVByte {
      return None;
    }
    r := Some(satPerKVByte + fractionSats.value);
  }

  lemma DotAt(s: string)
    requires s != ""
    ensures Dot(s) == 0 ==> s[0] == '.'
  {
  }

  lemma ZeroValues()
    ensures AllDigits("0") && Value("0") == 0 && Value("") == 0
    ensures AllDigits(Pad("")) && Value(Pad("")) == 0
  {
    PadKeepsPrefix("");
    assert Pad("") == "000";
    assert "000"[..2] == "00" && "00"[..1] == "0" && "0"[..0] == "";
  }

  lemma PadDigitsOnly(fraction: string)
    requires |fraction| <= 3
    ensures AllDigits(Pad(fraction)) <==> AllDigits(fraction)
  {
    PadKeepsPrefix(fraction);
    if AllDigits(fraction) {
      PadDigits(fraction);
    } else {
      var i :| 0 <= i < |fraction| && !IsDigit(fraction[i]);
      assert Pad(fraction)[..|fraction|][i] == fraction[i];
    }
  }

  lemma ThreeDigits(s: string)
    requires |s| == 3
    ensures AllDigits(s) ==> Value(s) < VBYTES_PER_KVBYTE
  {
    if AllDigits(s) {
      var two, one := s[..2], s[..1];
      assert two[..1] == one && one[..0] == "";
      assert Value(one) == DigitValue(s[0]);
      assert Value(two) == 10 * Value(one) + DigitValue(two[1]);
    }
  }

  method PadThree(s: string) returns (p: string)
    requires |s| <= 3
    ensures p == Pad(s)
  {
    p := s;
    while |p| < 3
      invariant |p| <= 3 && Pad(p) == Pad(s)
    {
      p := p + "0";
    }
  }

  // ---------------------------------------------------- exactly which texts are rates

  function Pow10(k: nat): nat {
    if k == 0 then 1 else 10 * Pow10(k - 1)
  }

  /** Trimming takes white space off both ends and nothing else. */
  lemma {:induction false} TrimExactly(s: string) returns (before: string, after: string)
    ensures s == before + Trim(s) + after
    ensures forall i | 0 <= i < |before| :: IsSpace(before[i])
    ensures forall i | 0 <= i < |after| :: IsSpace(after[i])
    ensures Trim(s) != "" ==> !IsSpace(Trim(s)[0]) && !IsSpace(Trim(s)[|Trim(s)| - 1])
    decreases |s|
  {
    hide IsSpace, Trim;
    before, after := "", "";
    TrimOnce(s);
    if s == "" {
    } else if IsSpace(s[0]) {
      before, after := TrimExactly(s[1..]);
      InFront(s[0], before, Trim(s), after);
      assert s == [s[0]] + s[1..];
      before := [s[0]] + before;
    } else if IsSpace(s[|s| - 1]) {
      before, after := TrimExactly(s[..|s| - 1]);
      Behind(before, Trim(s), after, s[|s| - 1]);
      assert s == s[..|s| - 1] + [s[|s| - 1]];
      after := after + [s[|s| - 1]];
    }
  }

  lemma TrimOnce(s: string)
    ensures s == "" ==> Trim(s) == ""
    ensures s != "" && IsSpace(s[0]) ==> Trim(s) == Trim(s[1..])
    ensures s != "" && !IsSpace(s[0]) && IsSpace(s[|s| - 1]) ==> Trim(s) == Trim(s[..|s| - 1])
    ensures s != "" && !IsSpace(s[0]) && !IsSpace(s[|s| - 1]) ==> Trim(s) == s
  {
    hide IsSpace;
  }

  lemma InFront(c: char, before: string, s: string, after: string)
    ensures [c] + (before + s + after) == ([c] + before) + s + after
  {
  }

  lemma Behind(before: string, s: string, after: string, c: char)
    ensures (before + s + after) + [c] == before + s + (after + [c])
  {
  }

  /** Digits weigh more the further in front they stand. */
  lemma {:induction false} ValueFromFront(c: char, s: string)
    requires IsDigit(c) && AllDigits(s)
    ensures AllDigits([c] + s) && Value([c] + s) == DigitValue(c) * Pow10(|s|) + Value(s)
    decreases |s|
  {
    if s == "" {
      assert [c] + s == [c] && [c][..0] == "";
    } else {
      var init := s[..|s| - 1];
      ValueFromFront(c, init);
      assert ([c] + s)[..|s|] == [c] + init;
      Tenfold(DigitValue(c), Pow10(|init|));
    }
  }

  lemma Tenfold(a: nat, b: nat)
    ensures a * (10 * b) == 10 * (a * b)
  {
  }

  lemma {:induction false} PaddedValue(fraction: string)
    requires AllDigits(fraction) && |fraction| <= 3
    ensures AllDigits(Pad(fraction)) && Value(Pad(fraction)) == Value(fraction) * Pow10(3 - |fraction|)
    decreases 3 - |fraction|
  {
    PadDigits(fraction);
    if |fraction| < 3 {
      AppendDigit(fraction, 0);
      assert fraction + "0" == fraction + [DigitChar(0)];
      PaddedValue(fraction + "0");
      Tenfold(Value(fraction), Pow10(2 - |fraction|));
    }
  }

  /** The text is a number of whole units, or one with a point and up to three
      further digits behind it. Either part may be empty, but not the text. */
  ghost predicate Written(s: string, n: nat) {
    s != "" && exists whole, fraction | AllDigits(whole) && AllDigits(fraction) && |fraction| <= 3 ::
      && (s == whole + "." + fraction || (s == whole && fraction == ""))
      && n == 1000 * Value(whole) + Value(fraction) * Pow10(3 - |fraction|)
  }

  lemma DecimalExactly(s: string, n: nat)
    ensures Decimal(s) == Some(n) <==> Written(s, n)
  {
    hide Value, Pad, Dot, Pow10, AllDigits;
    if Decimal(s) == Some(n) {
      var whole, fraction := s[..Dot(s)], if Dot(s) < |s| then s[Dot(s) + 1..] else "";
      PaddedValue(fraction);
      assert s == if Dot(s) < |s| then whole + "." + fraction else whole;
    }
    if Written(s, n) {
      var whole, fraction :| AllDigits(whole) && AllDigits(fraction) && |fraction| <= 3
        && (s == whole + "." + fraction || (s == whole && fraction == ""))
        && n == 1000 * Value(whole) + Value(fraction) * Pow10(3 - |fraction|);
      PaddedValue(fraction);
      SplitAtDot(s, whole, fraction);
    }
  }

  lemma SplitAtDot(s: string, whole: string, fraction: string)
    requires AllDigits(whole) && (s == whole + "." + fraction || (s == whole && fraction == ""))
    ensures s[..Dot(s)] == whole && (if Dot(s) < |s| then s[Dot(s) + 1..] else "") == fraction
  {
    hide Dot;
    assert forall i | 0 <= i < |whole| :: whole[i] != '.';
    DotBetween(whole, fraction);
  }

  // ----------------------------------------------------------------------- printing

  /** `%03d` of a fraction. */
  function Three(n: nat): (s: string)
    requires n < VBYTES_PER_KVBYTE
    ensures |s| == 3 && AllDigits(s)
  {
    [DigitChar(n / 100), DigitChar(n / 10 % 10), DigitChar(n % 10)]
  }

  lemma ThreeValue(n: nat)
    requires n < VBYTES_PER_KVBYTE
    ensures Value(Three(n)) == n
  {
    var a, b, c := n / 100, n / 10 % 10, n % 10;
    hide Value;
    AppendDigit("", a);
    AppendDigit([DigitChar(a)], b);
    AppendDigit([DigitChar(a), DigitChar(b)], c);
    EmptyValue();
    assert "" + [DigitChar(a)] == [DigitChar(a)];
    assert [DigitChar(a)] + [DigitChar(b)] == [DigitChar(a), DigitChar(b)];
    assert [DigitChar(a), DigitChar(b)] + [DigitChar(c)] == Three(n);
  }

  lemma EmptyValue()
    ensures Value("") == 0
  {
  }

  /** `strings.TrimRight` of zeros. */
  function TrimZeros(s: string): (t: string)
    ensures |t| <= |s| && t == s[..|t|] && forall i | |t| <= i < |s| :: s[i] == '0'
  {
    if s != "" && s[|s| - 1] == '0' then TrimZeros(s[..|s| - 1]) else s
  }

  /** `formatFeeRateSatPerVByte`. */
  function Format(rate: uint64): string {
    var whole, fraction := rate / VBYTES_PER_KVBYTE, rate % VBYTES_PER_KVBYTE;
    if fraction == 0 then Digits(whole) else Digits(whole) + "." + TrimZeros(Three(fraction))
  }

  lemma PadTrimmed(s: string)
    requires |s| == 3
    ensures Pad(TrimZeros(s)) == s
  {
    hide Pad, TrimZeros;
    var t := TrimZeros(s);
    PadKeepsPrefix(t);
    assert forall i | 0 <= i < |t| :: Pad(t)[i] == t[i] == s[i];
  }

  lemma {:induction false} DotBetween(a: string, b: string)
    requires forall i | 0 <= i < |a| :: a[i] != '.'
    ensures Dot(a) == |a| && Dot(a + "." + b) == |a|
    decreases |a|
  {
    if a != "" {
      DotBetween(a[1..], b);
      assert (a + "." + b)[1..] == a[1..] + "." + b;
    }
  }

  lemma TrimStays(s: string)
    requires s != "" && !IsSpace(s[0]) && !IsSpace(s[|s| - 1])
    ensures Trim(s) == s
  {
  }

  /** The printed form of every rate, the largest and those with trailing zeros
      included, parses back to the same rate. */
  lemma ParsePrinted(rate: uint64)
    ensures Bounded(Decimal(Trim(Format(rate)))) == Some(rate)
  {
    hide Value, Pad, TrimZeros, Digits, Trim, Dot;
    var whole, fraction := rate / VBYTES_PER_KVBYTE, rate % VBYTES_PER_KVBYTE;
    var head, tail := Digits(whole), TrimZeros(Three(fraction));
    var s := Format(rate);
    ValueOfDigits(whole);
    DotBetween(head, tail);
    PrintedEnds(rate);
    TrimStays(s);
    ZeroValues();
    ThreeValue(fraction);
    PadTrimmed(Three(fraction));
    if fraction == 0 {
      assert s[..|head|] == head;
    } else {
      assert s[..|head|] == head && s[|head| + 1..] == tail;
    }
  }

  lemma PrintedEnds(rate: uint64)
    ensures Format(rate) != "" && !IsSpace(Format(rate)[0]) && !IsSpace(Format(rate)[|Format(rate)| - 1])
  {
    hide Digits, TrimZeros;
    var s := Format(rate);
    var head := Digits(rate / VBYTES_PER_KVBYTE);
    assert s[0] == head[0] && IsDigit(head[0]);
    var last := s[|s| - 1];
    assert last == '.' || IsDigit(last);
  }

  // ---------------------------------------------------------------------- rounding

  /** `ceilDiv`, written so that it cannot overflow. */
  function CeilDiv(n: uint64, d: uint64): (r: uint64)
    requires d > 0
    ensures r * d >= n && (r == 0 || (r - 1) * d < n)
  {
    if n == 0 then 0 else
    Rounding(n - 1, d);
    1 + (n - 1) / d
  }

  lemma Rounding(n: uint64, d: uint64)
    requires d > 0
    ensures n / d <= n && n / d * d <= n < (n / d + 1) * d
    ensures (1 + n / d - 1) * d == n / d * d
  {
    assert n == n / d * d + n % d;
  }

  lemma {:induction false} NoLeadingZero(n: nat)
    requires n > 0
    ensures Digits(n)[0] != '0'
  {
    if n >= 10 {
      NoLeadingZero(n / 10);
    }
  }

  lemma {:induction false} NoTrailingZero(s: string)
    ensures TrimZeros(s) != "" ==> TrimZeros(s)[|TrimZeros(s)| - 1] != '0'
  {
    if s != "" && s[|s| - 1] == '0' {
      NoTrailingZero(s[..|s| - 1]);
    }
  }

  lemma FractionStays(n: nat)
    requires 0 < n < VBYTES_PER_KVBYTE
    ensures TrimZeros(Three(n)) != ""
  {
    hide TrimZeros;
    var digits := Three(n);
    assert digits[0] != '0' || digits[1] != '0' || digits[2] != '0';
  }

  /** The printed form says the rate as a decimal does, with no zero or point left
      at the end of a fraction and no zero in front of another digit. */
  lemma PrintsDecimal(rate: uint64)
    ensures var s := Format(rate);
            && Written(s, rate)
            && ('.' in s ==> s[|s| - 1] != '0' && s[|s| - 1] != '.')
            && (rate >= VBYTES_PER_KVBYTE ==> s[0] != '0')
            && (rate < VBYTES_PER_KVBYTE ==> s == "0" || s[..2] == "0.")
  {
    hide Value, Pad, TrimZeros, Digits, Dot, Written, Trim, Decimal;
    var whole, fraction := rate / VBYTES_PER_KVBYTE, rate % VBYTES_PER_KVBYTE;
    var s := Format(rate);
    ParsePrinted(rate);
    PrintedEnds(rate);
    TrimStays(s);
    DecimalExactly(s, rate);
    if rate >= VBYTES_PER_KVBYTE {
      NoLeadingZero(whole);
    } else {
      ZeroDigit();
    }
    NoTrailingZero(Three(fraction));
    if fraction != 0 {
      FractionStays(fraction);
    }
  }

  lemma ZeroDigit()
    ensures Digits(0) == "0"
  {
  }
}
