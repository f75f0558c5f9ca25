/** Bech32m strings (BIP 173, section "Bech32"; BIP 350) as the address and
    asset reference code uses them. The checksum polynomial is a parameter. */
module Bech32 {
  import opened Wrappers
  import opened Bytes

  type bit = x: int | 0 <= x < 2

  type five = x: int | 0 <= x < 32

  // --------------------------------------------------------------- regrouping bits

  function Power2(width: nat): (p: nat)
    ensures p >= 1
  {
    if width == 0 then 1 else 2 * Power2(width - 1)
  }

  function Binary(n: nat, width: nat): (b: seq<bit>)
    ensures |b| == width
  {
    if width == 0 then [] else Binary(n / 2, width - 1) + [n % 2]
  }

  function FromBinary(b: seq<bit>): (n: nat) {
    if b == [] then 0 else 2 * FromBinary(b[..|b| - 1]) + b[|b| - 1]
  }

  lemma {:induction false} FromBinaryBound(b: seq<bit>)
    ensures FromBinary(b) < Power2(|b|)
  {
    if b != [] {
      FromBinaryBound(b[..|b| - 1]);
    }
  }

  lemma {:induction false} BinaryInverse(n: nat, width: nat)
    requires n < Power2(width)
    ensures FromBinary(Binary(n, width)) == n
  {
    if width > 0 {
      BinaryInverse(n / 2, width - 1);
      assert Binary(n, width)[..width - 1] == Binary(n / 2, width - 1);
    }
  }

  lemma {:induction false} FromBinaryInverse(b: seq<bit>)
    ensures Binary(FromBinary(b), |b|) == b
  {
    if b != [] {
      FromBinaryInverse(b[..|b| - 1]);
      assert FromBinary(b) / 2 == FromBinary(b[..|b| - 1]);
    }
  }

  function Bits(values: seq<nat>, width: nat): (b: seq<bit>)
    ensures |b| == |values| * width
  {
    if values == [] then [] else Bits(values[..|values| - 1], width) + Binary(values[|values| - 1], width)
  }

  /** `n` groups of `width` bits. */
  function Group(bits: seq<bit>, width: nat, n: nat): (values: seq<nat>)
    requires |bits| == n * width
    ensures |values| == n
    ensures forall i | 0 <= i < |values| :: values[i] < Power2(width)
    decreases n
  {
    if n == 0 then [] else
    OneGroupLess(n, width);
    FromBinaryBound(bits[(n - 1) * width..]);
    Group(bits[..(n - 1) * width], width, n - 1) + [FromBinary(bits[(n - 1) * width..])]
  }

  lemma OneGroupLess(n: nat, width: nat)
    requires n > 0
    ensures n * width == (n - 1) * width + width
  {
  }

  lemma {:induction false} GroupBits(values: seq<nat>, width: nat)
    requires forall i | 0 <= i < |values| :: values[i] < Power2(width)
    ensures Group(Bits(values, width), width, |values|) == values
    decreases |values|
  {
    if values != [] {
      var init, last := values[..|values| - 1], values[|values| - 1];
      GroupBits(init, width);
      BinaryInverse(last, width);
      OneMoreGroup(values, width);
    }
  }

  lemma OneMoreGroup(values: seq<nat>, width: nat)
    requires values != [] && FromBinary(Binary(values[|values| - 1], width)) == values[|values| - 1]
    requires Group(Bits(values[..|values| - 1], width), width, |values| - 1) == values[..|values| - 1]
    ensures Group(Bits(values, width), width, |values|) == values
  {
    hide Group, Binary, FromBinary;
    var init, last := values[..|values| - 1], values[|values| - 1];
    OneGroupLess(|values|, width);
    GroupAppend(Bits(init, width), Binary(last, width), width, |values|);
    assert values == init + [last];
  }

  lemma GroupAppend(bits: seq<bit>, more: seq<bit>, width: nat, n: nat)
    requires n > 0 && |bits| == (n - 1) * width && |more| == width && |bits + more| == n * width
    ensures Group(bits + more, width, n) == Group(bits, width, n - 1) + [FromBinary(more)]
  {
    assert (bits + more)[..(n - 1) * width] == bits && (bits + more)[(n - 1) * width..] == more;
  }

  lemma BitsAppend(values: seq<nat>, v: nat, width: nat)
    ensures Bits(values + [v], width) == Bits(values, width) + Binary(v, width)
  {
    assert (values + [v])[..|values|] == values;
  }

  lemma {:induction false} BitsGroup(bits: seq<bit>, width: nat, n: nat)
    requires |bits| == n * width
    ensures Bits(Group(bits, width, n), width) == bits
    decreases n
  {
    if n > 0 {
      OneGroupLess(n, width);
      var init, last := bits[..(n - 1) * width], bits[(n - 1) * width..];
      BitsGroup(init, width, n - 1);
      FromBinaryInverse(last);
      OneMoreInBits(bits, init, last, width, n);
    }
  }

  lemma OneMoreInBits(bits: seq<bit>, init: seq<bit>, last: seq<bit>, width: nat, n: nat)
    requires n > 0 && |bits| == n * width && |init| == (n - 1) * width && |last| == width && bits == init + last
    requires Bits(Group(init, width, n - 1), width) == init && Binary(FromBinary(last), width) == last
    ensures Bits(Group(bits, width, n), width) == bits
  {
    hide Group, Bits, Binary, FromBinary;
    GroupAppend(init, last, width, n);
    BitsAppend(Group(init, width, n - 1), FromBinary(last), width);
  }

  function Zeros(n: nat): (z: seq<bit>)
    ensures |z| == n && forall i | 0 <= i < n :: z[i] == 0
  {
    seq(n, i => 0)
  }

  function Padding(bits: nat): (p: nat)
    ensures p < 5 && (bits + p) % 5 == 0
  {
    if bits % 5 == 0 then 0 else 5 - bits % 5
  }

  /** Eight bits to five, padded with zeros. */
  function Squeeze(b: seq<byte>): seq<five> {
    var bits := Bits(b, 8);
    var padded := bits + Zeros(Padding(|bits|));
    FiveBits();
    AsFives(Group(padded, 5, |padded| / 5))
  }

  /** The bits beyond the last full byte. */
  predicate ZerosFrom(bits: seq<bit>, i: nat) {
    forall j | i <= j < |bits| :: bits[j] == 0
  }

  /** Five bits to eight; an incomplete group must be short and all zeros. */
  function Expand(data: seq<five>): Option<seq<byte>> {
    var bits := Bits(data, 5);
    var rest := |bits| % 8;
    if rest > 4 || !ZerosFrom(bits, |bits| - rest) then None
    else
      FiveBits();
      Some(AsBytes(Group(bits[..|bits| - rest], 8, |bits| / 8)))
  }

  lemma FiveBits()
    ensures Power2(5) == 32 && Power2(8) == 256
  {
    assert Power2(3) == 8 && Power2(4) == 16 && Power2(6) == 2 * Power2(5) && Power2(7) == 2 * Power2(6);
  }

  function AsFives(s: seq<nat>): (r: seq<five>)
    requires forall i | 0 <= i < |s| :: s[i] < 32
    ensures r == s
  {
    s
  }

  function AsBytes(s: seq<nat>): (r: seq<byte>)
    requires forall i | 0 <= i < |s| :: s[i] < 256
    ensures r == s
  {
    s
  }

  lemma PaddingFacts(n: nat)
    ensures var all := 8 * n + Padding(8 * n); all % 8 == Padding(8 * n) && all / 8 == n && all == 5 * (all / 5)
  {
  }

  lemma RestIsPadding(n: nat)
    requires 5 * n % 8 <= 4
    ensures Padding(5 * n - 5 * n % 8) == 5 * n % 8
  {
    var rest := 5 * n % 8;
    if rest == 0 {
      Remainder(5 * n, n, 0);
    } else {
      Remainder(5 * n - rest, n - 1, 5 - rest);
    }
  }

  lemma Remainder(x: int, q: int, r: nat)
    requires x == 5 * q + r && r < 5
    ensures x % 5 == r
  {
  }

  /** Regrouping loses nothing. */
  lemma ExpandSqueeze(b: seq<byte>)
    ensures Expand(Squeeze(b)) == Some(b)
  {
    hide Bits, Group, Power2, Padding;
    FiveBits();
    var bits := Bits(b, 8);
    var padded := bits + Zeros(Padding(|bits|));
    PaddingFacts(|b|);
    BitsGroup(padded, 5, |padded| / 5);
    assert Bits(Squeeze(b), 5) == padded;
    assert padded[..|bits|] == bits;
    assert forall i | 0 <= i < |b| :: b[i] < Power2(8);
    GroupBits(b, 8);
  }

  // ---------------------------------------------------- regrouping as a number

  function InBase(digits: seq<nat>, base: nat): nat {
    if digits == [] then 0 else base * InBase(digits[..|digits| - 1], base) + digits[|digits| - 1]
  }

  lemma {:induction false} BinaryConcat(a: seq<bit>, b: seq<bit>)
    ensures FromBinary(a + b) == FromBinary(a) * Power2(|b|) + FromBinary(b)
    decreases |b|
  {
    if b == [] {
      assert a + b == a;
    } else {
      var init, last := b[..|b| - 1], b[|b| - 1];
      BinaryConcat(a, init);
      assert (a + b)[..|a + b| - 1] == a + init;
      assert FromBinary(a) * Power2(|b|) == 2 * (FromBinary(a) * Power2(|init|)) by { Doubled(FromBinary(a), Power2(|init|)); }
    }
  }

  lemma Doubled(a: nat, b: nat)
    ensures a * (2 * b) == 2 * (a * b)
  {
  }

  /** Digits written out in bits, most significant first, are the same number. */
  lemma {:induction false} BitsAreNumber(values: seq<nat>, width: nat)
    requires forall i | 0 <= i < |values| :: values[i] < Power2(width)
    ensures FromBinary(Bits(values, width)) == InBase(values, Power2(width))
    decreases |values|
  {
    if values != [] {
      var init, last := values[..|values| - 1], values[|values| - 1];
      BitsAreNumber(init, width);
      BinaryConcat(Bits(init, width), Binary(last, width));
      BinaryInverse(last, width);
      Swapped(InBase(init, Power2(width)), Power2(width));
    }
  }

  lemma Swapped(a: nat, b: nat)
    ensures a * b == b * a
  {
  }

  lemma {:induction false} ZerosAreNothing(n: nat)
    ensures FromBinary(Zeros(n)) == 0
    decreases n
  {
    if n > 0 {
      ZerosAreNothing(n - 1);
      assert Zeros(n)[..n - 1] == Zeros(n - 1);
    }
  }

  lemma {:induction false} BytesInBase(b: seq<byte>)
    ensures InBase(b, 256) == FromBigEndian(b)
    decreases |b|
  {
    if b != [] {
      BytesInBase(b[..|b| - 1]);
    }
  }

  lemma SqueezedBits(b: seq<byte>)
    ensures Bits(Squeeze(b), 5) == Bits(b, 8) + Zeros(Padding(8 * |b|))
  {
    hide Bits, Group, Power2, Padding, Zeros;
    FiveBits();
    var padded := Bits(b, 8) + Zeros(Padding(8 * |b|));
    WholePadding(|b|, Padding(8 * |b|));
    WholeGroups(padded, 8 * |b| + Padding(8 * |b|));
  }

  lemma WholePadding(n: nat, padding: nat)
    requires padding == Padding(8 * n)
    ensures 8 * n + padding == 5 * ((8 * n + padding) / 5)
  {
  }

  lemma WholeGroups(bits: seq<bit>, n: nat)
    requires |bits| == n && n == 5 * (n / 5)
    ensures Bits(Group(bits, 5, |bits| / 5), 5) == bits
  {
    hide Bits, Group;
    BitsGroup(bits, 5, n / 5);
  }

  lemma ShiftedNumber(digits: seq<five>, b: seq<byte>, padding: nat)
    requires Bits(digits, 5) == Bits(b, 8) + Zeros(padding)
    ensures InBase(digits, 32) == InBase(b, 256) * Power2(padding)
  {
    hide Bits, InBase, Zeros, Binary, FromBinary;
    FiveBits();
    BitsAreNumber(digits, 5);
    BitsAreNumber(b, 8);
    BinaryConcat(Bits(b, 8), Zeros(padding));
    ZerosAreNothing(padding);
  }

  /** Read in base 32, the regrouped bytes are the number the bytes are, shifted
      by the padding bits. */
  lemma SqueezeIsNumber(b: seq<byte>)
    ensures InBase(Squeeze(b), 32) == FromBigEndian(b) * Power2(Padding(8 * |b|))
  {
    hide Bits, Squeeze, Power2, Padding, InBase, FromBigEndian, Zeros;
    SqueezedBits(b);
    ShiftedNumber(Squeeze(b), b, Padding(8 * |b|));
    BytesInBase(b);
  }

  /** And what expands is the one padded form of its bytes. */
  lemma SqueezeExpand(data: seq<five>)
    requires Expand(data).Some?
    ensures Squeeze(Expand(data).value) == data
  {
    hide Bits, Group, Power2, Padding;
    FiveBits();
    var bits := Bits(data, 5);
    var rest := |bits| % 8;
    var kept := bits[..|bits| - rest];
    BitsGroup(kept, 8, |bits| / 8);
    assert Bits(Expand(data).value, 8) == kept;
    assert kept + Zeros(rest) == bits;
    RestIsPadding(|data|);
    assert forall i | 0 <= i < |data| :: data[i] < Power2(5);
    GroupBits(data, 5);
  }

  // ------------------------------------------------------------------- the envelope

  const CHARSET := "qpzry9x8gf2tvdw0s3jn54khce6mua7l"

  function ValueOf(c: char): (r: Option<five>) {
    match c
    case 'q' => Some(0)
    case 'p' => Some(1)
    case 'z' => Some(2)
    case 'r' => Some(3)
    case 'y' => Some(4)
    case '9' => Some(5)
    case 'x' => Some(6)
    case '8' => Some(7)
    case 'g' => Some(8)
    case 'f' => Some(9)
    case '2' => Some(10)
    case 't' => Some(11)
    case 'v' => Some(12)
    case 'd' => Some(13)
    case 'w' => Some(14)
    case '0' => Some(15)
    case 's' => Some(16)
    case '3' => Some(17)
    case 'j' => Some(18)
    case 'n' => Some(19)
    case '5' => Some(20)
    case '4' => Some(21)
    case 'k' => Some(22)
    case 'h' => Some(23)
    case 'c' => Some(24)
    case 'e' => Some(25)
    case '6' => Some(26)
    case 'm' => Some(27)
    case 'u' => Some(28)
    case 'a' => Some(29)
    case '7' => Some(30)
    case 'l' => Some(31)
    case _ => None
  }

  lemma CharsetInverse(v: five)
    ensures ValueOf(CHARSET[v]) == Some(v) && CHARSET[v] != '1' && '!' <= CHARSET[v] <= '~'
  {
    if v < 16 {
      CharsetLow(v);
    } else {
      CharsetHigh(v);
    }
  }

  lemma CharsetLow(v: five)
    requires v < 16
    ensures ValueOf(CHARSET[v]) == Some(v) && CHARSET[v] != '1' && '!' <= CHARSET[v] <= '~'
  {
  }

  lemma CharsetHigh(v: five)
    requires v >= 16
    ensures ValueOf(CHARSET[v]) == Some(v) && CHARSET[v] != '1' && '!' <= CHARSET[v] <= '~'
  {
  }

  lemma CharsetOnto(c: char)
    requires ValueOf(c).Some?
    ensures CHARSET[ValueOf(c).value] == c
  {
  }

  function Chars(data: seq<five>): (s: string)
    ensures |s| == |data|
    ensures forall i | 0 <= i < |s| :: s[i] == CHARSET[data[i]]
  {
    seq(|data|, i requires 0 <= i < |data| => CHARSET[data[i]])
  }

  function Values(s: string): (r: Option<seq<five>>)
    ensures r.Some? ==> |r.value| == |s|
  {
    if s == [] then Some([]) else
    match (Values(s[..|s| - 1]), ValueOf(s[|s| - 1]))
    case (Some(values), Some(v)) => Some(values + [v])
    case _ => None
  }

  lemma {:induction false} ValuesOfChars(data: seq<five>)
    ensures Values(Chars(data)) == Some(data)
    decreases |data|
  {
    if data != [] {
      var last := |data| - 1;
      ValuesOfChars(data[..last]);
      assert Chars(data)[..last] == Chars(data[..last]);
      assert Chars(data)[last] == CHARSET[data[last]];
      hide ValueOf, Chars;
      CharsetInverse(data[last]);
      assert data == data[..last] + [data[last]];
    }
  }

  lemma {:induction false} CharsOfValues(s: string)
    requires Values(s).Some?
    ensures Chars(Values(s).value) == s
    decreases |s|
  {
    if s != [] {
      var last := |s| - 1;
      CharsOfValues(s[..last]);
      CharsetOnto(s[last]);
      assert Chars(Values(s).value)[..last] == Chars(Values(s[..last]).value);
    }
  }

  predicate Printable(s: string) {
    forall i | 0 <= i < |s| :: '!' <= s[i] <= '~'
  }

  lemma CharsAreClean(data: seq<five>)
    ensures Printable(Chars(data)) && forall i | 0 <= i < |data| :: Chars(data)[i] != '1'
  {
    forall i | 0 <= i < |data|
      ensures Chars(data)[i] != '1' && '!' <= Chars(data)[i] <= '~'
    {
      CharsetInverse(data[i]);
    }
  }

  /** The position of the last '1', or -1. */
  function LastOne(s: string): (i: int)
    ensures -1 <= i < |s|
    ensures i >= 0 ==> s[i] == '1'
    ensures forall j | i < j < |s| :: s[j] != '1'
  {
    if s == [] then -1 else
    if s[|s| - 1] == '1' then |s| - 1 else LastOne(s[..|s| - 1])
  }

  const CHECKSUM_SIZE := 6

  /** The checksum characters of the two versions. */
  datatype Checksums = Checksums(bech32: (string, seq<five>) -> seq<five>, bech32m: (string, seq<five>) -> seq<five>) {
    /** The versions differ in the constant the polynomial ends on. */
    ghost predicate Valid() {
      forall hrp, data ::
        |bech32m(hrp, data)| == CHECKSUM_SIZE && bech32m(hrp, data) != bech32(hrp, data)
    }
  }

  datatype Decoded = Decoded(hrp: string, data: seq<five>, isM: bool)

  function EncodeM(sums: Checksums, hrp: string, data: seq<five>): string {
    hrp + "1" + Chars(data + sums.bech32m(hrp, data))
  }

  const MIN_LENGTH := 8

  /** A lower-case string of either version. */
  function Decode(sums: Checksums, s: string): Option<Decoded> {
    var one := LastOne(s);
    if |s| < MIN_LENGTH || !Printable(s) || one < 1 || one + 1 + CHECKSUM_SIZE > |s| then None else
    match Values(s[one + 1..])
    case None => None
    case Some(values) =>
      var hrp, data := s[..one], values[..|values| - CHECKSUM_SIZE];
      var sum := values[|values| - CHECKSUM_SIZE..];
      if sum == sums.bech32(hrp, data) then Some(Decoded(hrp, data, false))
      else if sum == sums.bech32m(hrp, data) then Some(Decoded(hrp, data, true))
      else None
  }

  /** The separator of an encoded string is its last '1'. */
  lemma LastSeparator(sums: Checksums, hrp: string, data: seq<five>)
    ensures var s := EncodeM(sums, hrp, data);
            LastOne(s) == |hrp| && s[..|hrp|] == hrp && s[|hrp| + 1..] == Chars(data + sums.bech32m(hrp, data))
  {
    hide LastOne, Chars, Printable;
    var s, chars := EncodeM(sums, hrp, data), Chars(data + sums.bech32m(hrp, data));
    CharsAreClean(data + sums.bech32m(hrp, data));
    assert s[|hrp|] == '1' && s[|hrp| + 1..] == chars && s[..|hrp|] == hrp;
    assert forall i | |hrp| < i < |s| :: s[i] == chars[i - |hrp| - 1];
  }

  lemma DecodeEncode(sums: Checksums, hrp: string, data: seq<five>)
    requires sums.Valid() && hrp != [] && Printable(hrp)
    ensures Decode(sums, EncodeM(sums, hrp, data)) == Some(Decoded(hrp, data, true))
  {
    hide ValueOf, Values, LastOne, Chars;
    var sum := sums.bech32m(hrp, data);
    var s := EncodeM(sums, hrp, data);
    var chars := Chars(data + sum);
    ValuesOfChars(data + sum);
    CharsAreClean(data + sum);
    LastSeparator(sums, hrp, data);
    assert (data + sum)[..|data|] == data && (data + sum)[|data|..] == sum;
  }

  /** A bech32m string is the only encoding of what it decodes to. */
  lemma EncodeDecode(sums: Checksums, s: string)
    requires Decode(sums, s).Some? && Decode(sums, s).value.isM
    ensures EncodeM(sums, Decode(sums, s).value.hrp, Decode(sums, s).value.data) == s
  {
    hide Values, LastOne, Chars, Printable;
    var one := LastOne(s);
    var values := Values(s[one + 1..]).value;
    CharsOfValues(s[one + 1..]);
    assert values[..|values| - CHECKSUM_SIZE] + values[|values| - CHECKSUM_SIZE..] == values;
    assert s == s[..one] + [s[one]] + s[one + 1..];
  }
}
