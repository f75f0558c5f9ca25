/** Taproot Asset address strings (decode_addr.go): BigSize integers and TLV
    records of BOLT 1, "Type-Length-Value Format", in a bech32m envelope. */
module TapAddress {
  import opened Wrappers
  import opened Bytes
  import opened Integers
  import opened AssetRefs
  import Bech32

  const TLV_VERSION := 0
  const TLV_ASSET_VERSION := 2
  const TLV_ASSET_ID := 4
  const TLV_GROUP_KEY := 5
  const TLV_SCRIPT_KEY := 6
  const TLV_INTERNAL_KEY := 8
  const TLV_SIBLING := 9
  const TLV_AMOUNT := 10
  const TLV_COURIER := 12

  type PubKey = k: seq<byte> | |k| == 33 witness seq(33, i => 0)

  /** The fields an address string carries. */
  datatype Address = Address(
    encoded: string,
    addressVersion: byte,
    assetVersion: byte,
    assetRef: string,
    amount: uint64,
    scriptKey: PubKey,
    internalKey: PubKey,
    sibling: seq<byte>,
    courier: seq<byte>)

  // ----------------------------------------------------------------------- BigSize

  function WriteBigSize(n: uint64): seq<byte> {
    if n < 0xfd then [n]
    else if n <= 0xffff then [0xfd] + BigEndian(n, 2)
    else if n <= 0xffff_ffff then [0xfe] + BigEndian(n, 4)
    else [0xff] + BigEndian(n, 8)
  }

  /** The width that follows a discriminant byte. */
  function Width(discriminant: byte): nat {
    if discriminant < 0xfd then 0 else if discriminant == 0xfd then 2 else if discriminant == 0xfe then 4 else 8
  }

  /** The value and the unread rest. The shortest form is not required. */
  function ReadBigSize(b: seq<byte>): (r: Option<(uint64, seq<byte>)>)
    ensures r.Some? ==> |r.value.1| < |b|
  {
    if |b| == 0 || |b| < 1 + Width(b[0]) then None else
    var width := Width(b[0]);
    if width == 0 then Some((b[0], b[1..])) else
    FromBigEndianBound(b[1..1 + width]);
    Pow256Values();
    Some((FromBigEndian(b[1..1 + width]), b[1 + width..]))
  }

  /** `readBigSize` inverts `writeBigSize` on every uint64. */
  lemma ReadWriteBigSize(n: uint64, rest: seq<byte>)
    ensures ReadBigSize(WriteBigSize(n) + rest) == Some((n, rest))
  {
    Pow256Values();
    var w := WriteBigSize(n);
    var b := w + rest;
    var width := Width(b[0]);
    assert |w| == 1 + width;
    if width > 0 {
      BigEndianInverse(n, width);
      assert b[1..1 + width] == BigEndian(n, width);
    }
    assert b[|w|..] == rest;
  }

  function Two(a: nat, b: nat): nat {
    0x100 * a + b
  }

  function Four(a: nat, b: nat, c: nat, d: nat): nat {
    0x1_0000 * Two(a, b) + Two(c, d)
  }

  /** The forms of an integer: one byte, or a discriminant and two, four or eight
      bytes with the most significant first. */
  predicate IsBigSize(x: seq<byte>, n: nat) {
    || (|x| == 1 && x[0] < 0xfd && n == x[0])
    || (|x| == 3 && x[0] == 0xfd && n == Two(x[1], x[2]))
    || (|x| == 5 && x[0] == 0xfe && n == Four(x[1], x[2], x[3], x[4]))
    || (|x| == 9 && x[0] == 0xff &&
        n == 0x1_0000_0000 * Four(x[1], x[2], x[3], x[4]) + Four(x[5], x[6], x[7], x[8]))
  }

  lemma FewBytes(b: seq<byte>)
    ensures |b| == 2 ==> FromBigEndian(b) == Two(b[0], b[1])
    ensures |b| == 4 ==> FromBigEndian(b) == Four(b[0], b[1], b[2], b[3])
    ensures |b| == 8 ==> FromBigEndian(b) == 0x1_0000_0000 * FromBigEndian(b[..4]) + FromBigEndian(b[4..])
  {
    if |b| == 2 {
      TwoBytes(b);
    } else if |b| == 4 {
      TwoBytes(b[..2]);
      TwoMore(b);
    } else if |b| == 8 {
      TwoMore(b);
      TwoMore(b[..6]);
      TwoBytes(b[4..6]);
      TwoMore(b[4..]);
      assert b[..6][..4] == b[..4] && b[4..][..2] == b[4..6];
    }
  }

  lemma TwoBytes(b: seq<byte>)
    requires |b| == 2
    ensures FromBigEndian(b) == Two(b[0], b[1])
  {
    assert b[..1][..0] == [] && FromBigEndian(b[..1]) == b[0];
  }

  lemma TwoMore(b: seq<byte>)
    requires |b| >= 2
    ensures var n := |b| - 2; FromBigEndian(b) == 0x1_0000 * FromBigEndian(b[..n]) + Two(b[n], b[n + 1])
  {
    assert b[..|b| - 1][..|b| - 2] == b[..|b| - 2];
  }

  lemma BigSizeOfParts(x: seq<byte>)
    ensures |x| == 3 ==> forall n: nat :: x[0] == 0xfd && n == FromBigEndian(x[1..]) <==> IsBigSize(x, n)
    ensures |x| == 5 ==> forall n: nat :: x[0] == 0xfe && n == FromBigEndian(x[1..]) <==> IsBigSize(x, n)
    ensures |x| == 9 ==> forall n: nat :: x[0] == 0xff && n == FromBigEndian(x[1..]) <==> IsBigSize(x, n)
  {
    hide FromBigEndian;
    if |x| == 3 || |x| == 5 {
      FewBytes(x[1..]);
    } else if |x| == 9 {
      FewBytes(x[1..]);
      FewBytes(x[1..][..4]);
      FewBytes(x[1..][4..]);
    }
  }

  /** What is read is any of these forms, and what is written is the shortest. */
  lemma BigSizeExactly(b: seq<byte>, n: uint64, rest: seq<byte>)
    ensures ReadBigSize(b) == Some((n, rest)) <==> exists x :: IsBigSize(x, n) && b == x + rest
    ensures IsBigSize(WriteBigSize(n), n)
    ensures forall x | IsBigSize(x, n) :: |WriteBigSize(n)| <= |x|
  {
    hide FromBigEndian, IsBigSize;
    if |b| > 0 && |b| >= 1 + Width(b[0]) {
      var x := b[..1 + Width(b[0])];
      BigSizeOfParts(x);
      SizeOfForm(x);
      assert b == x + b[|x|..];
      assert |x| > 1 ==> x[1..] == b[1..|x|];
    }
    forall x | IsBigSize(x, n)
      ensures b == x + rest ==> ReadBigSize(b) == Some((n, rest))
      ensures |WriteBigSize(n)| <= |x|
    {
      BigSizeOfParts(x);
      SizeOfForm(x);
      if b == x + rest {
        assert b[|x|..] == rest && b[0] == x[0];
        assert |x| > 1 ==> b[1..|x|] == x[1..];
      }
    }
    WrittenForm(n);
  }

  lemma SizeOfForm(x: seq<byte>)
    ensures |x| == 1 && x[0] < 0xfd ==> IsBigSize(x, x[0])
    ensures forall n | IsBigSize(x, n) :: x != [] && |x| == 1 + Width(x[0]) && (|x| == 1 ==> n == x[0])
    ensures forall n | IsBigSize(x, n) :: (|x| <= 3 ==> n <= 0xffff) && (|x| <= 5 ==> n <= 0xffff_ffff)
  {
  }

  lemma WrittenForm(n: uint64)
    ensures IsBigSize(WriteBigSize(n), n)
  {
    hide FromBigEndian, BigEndian, IsBigSize;
    Pow256Values();
    BigSizeOfParts(WriteBigSize(n));
    SizeOfForm(WriteBigSize(n));
    BigEndianInverse(n, if n <= 0xffff then 2 else if n <= 0xffff_ffff then 4 else 8);
    assert n >= 0xfd ==> WriteBigSize(n)[1..] == BigEndian(n, |WriteBigSize(n)| - 1);
  }

  // ---------------------------------------------------------------------- encoding

  function Record(kind: uint64, value: seq<byte>): seq<byte> {
    WriteBigSize(kind) + WriteBigSize(|value| % UINT64) + value
  }

  function ZeroBytes(n: nat): (z: seq<byte>)
    ensures |z| == n
  {
    seq(n, i => 0)
  }

  function ZeroId(): seq<byte> {
    ZeroBytes(ID_SIZE)
  }

  function CourierRecords(a: Address): seq<byte> {
    if a.courier == [] then [] else Record(TLV_COURIER, a.courier)
  }

  function AmountRecords(a: Address): seq<byte> {
    (if a.amount == 0 then [] else Record(TLV_AMOUNT, WriteBigSize(a.amount))) + CourierRecords(a)
  }

  function SiblingRecords(a: Address): seq<byte> {
    (if a.sibling == [] then [] else Record(TLV_SIBLING, a.sibling)) + AmountRecords(a)
  }

  function KeyRecords(a: Address): seq<byte> {
    Record(TLV_SCRIPT_KEY, a.scriptKey) + (Record(TLV_INTERNAL_KEY, a.internalKey) + SiblingRecords(a))
  }

  function AssetRecords(l: Library, a: Address): seq<byte> {
    Record(TLV_ASSET_ID, if AssetId(l, a.assetRef).Some? then AssetId(l, a.assetRef).value else ZeroId()) +
    ((if GroupKey(l, a.assetRef).Some? then Record(TLV_GROUP_KEY, GroupKey(l, a.assetRef).value) else []) +
     KeyRecords(a))
  }

  /** The records in ascending type order. */
  function Payload(l: Library, a: Address): seq<byte> {
    Record(TLV_VERSION, [(a.addressVersion + 255) % 256]) +
    (Record(TLV_ASSET_VERSION, [a.assetVersion]) + AssetRecords(l, a))
  }

  datatype Network = Mainnet | Testnet | Testnet4 | Regtest | Signet | Simnet | Other(name: string)

  function HrpFor(network: Network): Option<string> {
    match network
    case Mainnet => Some("tapbc")
    case Testnet => Some("taptb")
    case Testnet4 => Some("taptb")
    case Regtest => Some("taprt")
    case Signet => Some("taptb")
    case Simnet => Some("tapsb")
    case Other(_) => None
  }

  predicate KnownHrp(hrp: string) {
    hrp == "tapbc" || hrp == "taptb" || hrp == "taprt" || hrp == "tapsb"
  }

  function Encoded(l: Library, a: Address, network: Network): Option<string> {
    match HrpFor(network)
    case None => None
    case Some(hrp) => Some(Bech32.EncodeM(l.sums, hrp, Bech32.Squeeze(Payload(l, a))))
  }

  /** The buffer the encoder appends records to. */
  class Buffer {
    var bytes: seq<byte>

    constructor ()
      ensures bytes == []
    {
      bytes := [];
    }

    method WriteTlv(kind: uint64, value: seq<byte>)
      modifies this
      ensures bytes == old(bytes) + Record(kind, value)
    {
      hide WriteBigSize;
      bytes := bytes + WriteBigSize(kind);
      bytes := bytes + WriteBigSize(|value| % UINT64);
      bytes := bytes + value;
    }
  }

  /** The text of an address starts with the prefix of its network. */
  method EncodeAddress(l: Library, a: Address, network: Network) returns (r: Option<string>)
    ensures r == Encoded(l, a, network)
    ensures r.None? <==> network.Other?
    ensures network.Mainnet? ==> "tapbc1" <= r.value
    ensures network.Testnet? || network.Testnet4? || network.Signet? ==> "taptb1" <= r.value
    ensures network.Regtest? ==> "taprt1" <= r.value
    ensures network.Simnet? ==> "tapsb1" <= r.value
  {
    hide Record, Bech32.Squeeze, Bech32.Chars;
    var hrp := HrpFor(network);
    if hrp.None? {
      return None;
    }
    var buf := new Buffer();
    WriteAsset(l, a, buf);
    ghost var head := buf.bytes;
    WriteKeys(a, buf);
    assert buf.bytes == Payload(l, a);
    r := Some(Bech32.EncodeM(l.sums, hrp.value, Bech32.Squeeze(buf.bytes)));
    assert hrp.value + "1" <= r.value;
  }

  /** The records up to the group key. */
  method WriteAsset(l: Library, a: Address, buf: Buffer)
    requires buf.bytes == []
    modifies buf
    ensures buf.bytes + KeyRecords(a) == Payload(l, a)
  {
    hide Record, KeyRecords, AssetId, GroupKey;
    buf.WriteTlv(TLV_VERSION, [(a.addressVersion + 255) % 256]);
    buf.WriteTlv(TLV_ASSET_VERSION, [a.assetVersion]);
    var assetId := AssetId(l, a.assetRef);
    if assetId.Some? {
      buf.WriteTlv(TLV_ASSET_ID, assetId.value);
    } else {
      buf.WriteTlv(TLV_ASSET_ID, ZeroId());
    }
    var groupKey := GroupKey(l, a.assetRef);
    if groupKey.Some? {
      buf.WriteTlv(TLV_GROUP_KEY, groupKey.value);
    }
  }

  /** The records from the script key on. */
  method WriteKeys(a: Address, buf: Buffer)
    modifies buf
    ensures buf.bytes == old(buf.bytes) + KeyRecords(a)
  {
    hide Record;
    buf.WriteTlv(TLV_SCRIPT_KEY, a.scriptKey);
    buf.WriteTlv(TLV_INTERNAL_KEY, a.internalKey);
    if |a.sibling| > 0 {
      buf.WriteTlv(TLV_SIBLING, a.sibling);
    }
    if a.amount > 0 {
      buf.WriteTlv(TLV_AMOUNT, WriteBigSize(a.amount));
    }
    if a.courier != [] {
      buf.WriteTlv(TLV_COURIER, a.courier);
    }
  }

  // ---------------------------------------------------------------------- decoding

  /** The result under construction and the decoder's flags. */
  datatype Fields = Fields(
    addressVersion: byte, assetVersion: byte,
    assetId: Option<seq<byte>>, groupKey: Option<seq<byte>>,
    scriptKey: PubKey, internalKey: PubKey,
    sibling: seq<byte>, amount: uint64, courier: seq<byte>)

  function NoFields(): Fields {
    Fields(0, 0, None, None, ZeroBytes(KEY_SIZE), ZeroBytes(KEY_SIZE), [], 0, [])
  }

  predicate KeyOk(l: Library, value: seq<byte>) {
    |value| == KEY_SIZE && l.pubKey(value)
  }

  /** One record; an unknown type is skipped. */
  function Apply(l: Library, f: Fields, kind: nat, value: seq<byte>): Option<Fields> {
    if kind == TLV_VERSION then
      if |value| != 1 || value[0] > 2 then None else Some(f.(addressVersion := value[0] + 1))
    else if kind == TLV_ASSET_VERSION then
      if |value| != 1 || value[0] > 1 then None else Some(f.(assetVersion := value[0]))
    else if kind == TLV_ASSET_ID then
      if |value| != ID_SIZE then None else Some(f.(assetId := Some(value)))
    else if kind == TLV_GROUP_KEY then
      if !KeyOk(l, value) then None else Some(f.(groupKey := Some(value)))
    else if kind == TLV_SCRIPT_KEY then
      if !KeyOk(l, value) then None else Some(f.(scriptKey := value))
    else if kind == TLV_INTERNAL_KEY then
      if !KeyOk(l, value) then None else Some(f.(internalKey := value))
    else if kind == TLV_SIBLING then Some(f.(sibling := value))
    else if kind == TLV_AMOUNT then
      if ReadBigSize(value).None? then None else Some(f.(amount := ReadBigSize(value).value.0))
    else if kind == TLV_COURIER then Some(f.(courier := value))
    else Some(f)
  }

  /** One record off the front: type, value and rest. */
  function NextRecord(b: seq<byte>, previous: Option<nat>): (r: Option<(nat, seq<byte>, seq<byte>)>)
    ensures r.Some? ==> |r.value.2| < |b|
  {
    match ReadBigSize(b)
    case None => None
    case Some((kind, b')) =>
      if previous.Some? && kind <= previous.value then None else
      match ReadBigSize(b')
      case None => None
      case Some((length, b'')) =>
        if length > |b''| then None else Some((kind, b''[..length], b''[length..]))
  }

  /** All records of `b`, in strictly ascending type order. */
  function DecodeFields(l: Library, b: seq<byte>, previous: Option<nat>, f: Fields): Option<Fields>
    decreases |b|
  {
    if b == [] then Some(f) else
    match NextRecord(b, previous)
    case None => None
    case Some((kind, value, rest)) =>
      match Apply(l, f, kind, value)
      case None => None
      case Some(f') => DecodeFields(l, rest, Some(kind), f')
  }

  /** Which identifier names the asset. */
  function ResolveRef(l: Library, f: Fields): string {
    if f.groupKey.Some? && f.assetId.Some? && f.assetId.value != ZeroId() then
      EncodeRef(l, AssetIdKind, f.assetId.value)
    else if f.groupKey.Some? then EncodeRef(l, GroupKeyKind, f.groupKey.value)
    else if f.assetId.Some? then EncodeRef(l, AssetIdKind, f.assetId.value)
    else ""
  }

  function AddressOf(l: Library, encoded: string, f: Fields): Address {
    Address(encoded, f.addressVersion, f.assetVersion, ResolveRef(l, f), f.amount, f.scriptKey, f.internalKey,
            f.sibling, f.courier)
  }

  function Decoded(l: Library, s: string): Option<Address> {
    var normalized := l.lower(l.trim(s));
    var one := Bech32.LastOne(normalized);
    if one <= 0 || !KnownHrp(normalized[..one]) then None else
    match Bech32.Decode(l.sums, normalized)
    case None => None
    case Some(decoded) =>
      match Bech32.Expand(decoded.data)
      case None => None
      case Some(payload) =>
        match DecodeFields(l, payload, None, NoFields())
        case None => None
        case Some(f) => Some(AddressOf(l, normalized, f))
  }

  /** The reader the decoder consumes. */
  class PayloadReader {
    var rest: seq<byte>

    constructor (b: seq<byte>)
      ensures rest == b
    {
      rest := b;
    }

    method BigSize() returns (r: Option<uint64>)
      modifies this
      ensures match ReadBigSize(old(rest))
              case None => r.None?
              case Some((n, after)) => r == Some(n) && rest == after
    {
      if rest == [] {
        return None;
      }
      var discriminant := rest[0];
      var width := Width(discriminant);
      if |rest| < 1 + width {
        return None;
      }
      if width == 0 {
        r := Some(discriminant);
      } else {
        FromBigEndianBound(rest[1..1 + width]);
        Pow256Values();
        r := Some(FromBigEndian(rest[1..1 + width]));
      }
      rest := rest[1 + width..];
    }

    /** Type, length and value, with the order and length checks. */
    method Next(previous: Option<nat>) returns (r: Option<(nat, seq<byte>)>)
      modifies this
      ensures match NextRecord(old(rest), previous)
              case None => r.None?
              case Some((kind, value, after)) => r == Some((kind, value)) && rest == after
    {
      hide ReadBigSize;
      var kind := BigSize();
      if kind.None? || (previous.Some? && kind.value <= previous.value) {
        return None;
      }
      var length := BigSize();
      if length.None? || length.value > |rest| {
        return None;
      }
      var value := rest[..length.value];
      rest := rest[length.value..];
      r := Some((kind.value, value));
    }
  }

  method DecodeRecords(l: Library, payload: seq<byte>) returns (r: Option<Fields>)
    ensures r == DecodeFields(l, payload, None, NoFields())
  {
    hide NextRecord, Apply;
    var reader := new PayloadReader(payload);
    var fields := NoFields();
    var previous: Option<nat> := None;
    while reader.rest != []
      invariant DecodeFields(l, payload, None, NoFields()) == DecodeFields(l, reader.rest, previous, fields)
      decreases |reader.rest|
    {
      var record := reader.Next(previous);
      if record.None? {
        return None;
      }
      var applied := Apply(l, fields, record.value.0, record.value.1);
      if applied.None? {
        return None;
      }
      fields, previous := applied.value, Some(record.value.0);
    }
    r := Some(fields);
  }

  method DecodeAddress(l: Library, s: string) returns (r: Option<Address>)
    ensures r == Decoded(l, s)
  {
    hide Bech32.Decode, Bech32.Expand, DecodeFields;
    var normalized := l.lower(l.trim(s));
    var one := Bech32.LastOne(normalized);
    if one <= 0 || !KnownHrp(normalized[..one]) {
      return None;
    }
    var decoded := Bech32.Decode(l.sums, normalized);
    if decoded.None? {
      return None;
    }
    var payload := Bech32.Expand(decoded.value.data);
    if payload.None? {
      return None;
    }
    var fields := DecodeRecords(l, payload.value);
    if fields.None? {
      return None;
    }
    r := Some(AddressOf(l, normalized, fields.value));
  }

  // -------------------------------------------------------------------- round trip

  predicate Follows(kind: nat, previous: Option<nat>) {
    previous.Some? ==> previous.value < kind
  }

  lemma NextRecordBack(kind: uint64, value: seq<byte>, rest: seq<byte>, previous: Option<nat>)
    requires |value| < UINT64 && Follows(kind, previous)
    ensures NextRecord(Record(kind, value) + rest, previous) == Some((kind, value, rest))
  {
    hide WriteBigSize, ReadBigSize, NextRecord;
    var after := value + rest;
    var length := WriteBigSize(|value|);
    ReadWriteBigSize(kind, length + after);
    ReadWriteBigSize(|value|, after);
    var b := Record(kind, value) + rest;
    assert b == WriteBigSize(kind) + (length + after);
    NextRecordIs(b, previous, kind, |value|, length + after, after);
    assert after[..|value|] == value && after[|value|..] == rest;
  }

  lemma NextRecordIs(b: seq<byte>, previous: Option<nat>, kind: uint64, length: uint64,
                     b': seq<byte>, b'': seq<byte>)
    requires ReadBigSize(b) == Some((kind, b')) && ReadBigSize(b') == Some((length, b''))
    requires Follows(kind, previous) && length <= |b''|
    ensures NextRecord(b, previous) == Some((kind, b''[..length], b''[length..]))
  {
    hide ReadBigSize;
  }

  /** One written record is read back, and the rest is untouched. */
  lemma OneRecord(l: Library, kind: uint64, value: seq<byte>, rest: seq<byte>, previous: Option<nat>, f: Fields)
    requires |value| < UINT64 && Follows(kind, previous)
    ensures DecodeFields(l, Record(kind, value) + rest, previous, f) ==
            match Apply(l, f, kind, value)
            case None => None
            case Some(f') => DecodeFields(l, rest, Some(kind), f')
  {
    NextRecordBack(kind, value, rest, previous);
    assert Record(kind, value) + rest != [] by { ReadWriteBigSize(kind, []); }
    hide Record, NextRecord, Apply, Follows;
  }

  /** Values a length field can describe. */
  predicate Fits(a: Address) {
    |a.sibling| < UINT64 && |a.courier| < UINT64
  }

  lemma CourierBack(l: Library, a: Address, previous: Option<nat>, f: Fields)
    requires Fits(a) && Follows(TLV_COURIER, previous) && f.courier == []
    ensures DecodeFields(l, CourierRecords(a), previous, f) == Some(f.(courier := a.courier))
  {
    hide Record, NextRecord;
    if a.courier != [] {
      OneRecord(l, TLV_COURIER, a.courier, [], previous, f);
      assert Record(TLV_COURIER, a.courier) + [] == CourierRecords(a);
    }
  }

  lemma AmountBack(l: Library, a: Address, previous: Option<nat>, f: Fields)
    requires Fits(a) && Follows(TLV_AMOUNT, previous) && f.courier == [] && f.amount == 0
    ensures DecodeFields(l, AmountRecords(a), previous, f) == Some(f.(amount := a.amount, courier := a.courier))
  {
    hide Record, NextRecord, DecodeFields, CourierRecords, WriteBigSize, ReadBigSize;
    if a.amount != 0 {
      var value := WriteBigSize(a.amount);
      assert |value| < UINT64 by { BigSizeLength(a.amount); }
      OneRecord(l, TLV_AMOUNT, value, CourierRecords(a), previous, f);
      ReadWriteBigSize(a.amount, []);
      assert value + [] == value;
      CourierBack(l, a, Some(TLV_AMOUNT), f.(amount := a.amount));
    } else {
      assert [] + CourierRecords(a) == CourierRecords(a);
      CourierBack(l, a, previous, f);
    }
  }

  lemma BigSizeLength(n: uint64)
    ensures 0 < |WriteBigSize(n)| <= 9
  {
  }

  lemma SiblingBack(l: Library, a: Address, previous: Option<nat>, f: Fields)
    requires Fits(a) && Follows(TLV_SIBLING, previous) && f.courier == [] && f.amount == 0 && f.sibling == []
    ensures DecodeFields(l, SiblingRecords(a), previous, f) ==
            Some(f.(sibling := a.sibling, amount := a.amount, courier := a.courier))
  {
    hide Record, NextRecord, DecodeFields, AmountRecords, WriteBigSize, ReadBigSize;
    if a.sibling != [] {
      OneRecord(l, TLV_SIBLING, a.sibling, AmountRecords(a), previous, f);
      AmountBack(l, a, Some(TLV_SIBLING), f.(sibling := a.sibling));
    } else {
      assert [] + AmountRecords(a) == AmountRecords(a);
      AmountBack(l, a, previous, f);
    }
  }

  lemma KeysBack(l: Library, a: Address, previous: Option<nat>, f: Fields)
    requires Fits(a) && Follows(TLV_SCRIPT_KEY, previous) && f.courier == [] && f.amount == 0 && f.sibling == []
    ensures DecodeFields(l, KeyRecords(a), previous, f) ==
            if l.pubKey(a.scriptKey) && l.pubKey(a.internalKey) then
              Some(f.(scriptKey := a.scriptKey, internalKey := a.internalKey, sibling := a.sibling,
                      amount := a.amount, courier := a.courier))
            else None
  {
    hide Record, NextRecord, DecodeFields, SiblingRecords, WriteBigSize, ReadBigSize;
    OneRecord(l, TLV_SCRIPT_KEY, a.scriptKey, Record(TLV_INTERNAL_KEY, a.internalKey) + SiblingRecords(a), previous, f);
    var f' := f.(scriptKey := a.scriptKey);
    OneRecord(l, TLV_INTERNAL_KEY, a.internalKey, SiblingRecords(a), Some(TLV_SCRIPT_KEY), f');
    SiblingBack(l, a, Some(TLV_INTERNAL_KEY), f'.(internalKey := a.internalKey));
  }

  /** The identifier fields the asset records set. */
  function WithAsset(l: Library, a: Address, f: Fields): Fields {
    f.(assetId := Some(if AssetId(l, a.assetRef).Some? then AssetId(l, a.assetRef).value else ZeroId()),
       groupKey := if GroupKey(l, a.assetRef).Some? then GroupKey(l, a.assetRef) else f.groupKey)
  }

  lemma RefSizes(l: Library, s: string)
    ensures AssetId(l, s).Some? ==> |AssetId(l, s).value| == ID_SIZE
    ensures GroupKey(l, s).Some? ==> KeyOk(l, GroupKey(l, s).value)
  {
  }

  lemma AssetBack(l: Library, a: Address, previous: Option<nat>, f: Fields)
    requires Follows(TLV_ASSET_ID, previous)
    ensures exists p: nat :: p < TLV_SCRIPT_KEY &&
              DecodeFields(l, AssetRecords(l, a), previous, f) ==
              DecodeFields(l, KeyRecords(a), Some(p), WithAsset(l, a, f))
  {
    hide Record, NextRecord, DecodeFields, KeyRecords, AssetId, GroupKey, ReadBigSize;
    RefSizes(l, a.assetRef);
    var id := if AssetId(l, a.assetRef).Some? then AssetId(l, a.assetRef).value else ZeroId();
    var f' := f.(assetId := Some(id));
    if GroupKey(l, a.assetRef).Some? {
      var key := GroupKey(l, a.assetRef).value;
      OneRecord(l, TLV_ASSET_ID, id, Record(TLV_GROUP_KEY, key) + KeyRecords(a), previous, f);
      OneRecord(l, TLV_GROUP_KEY, key, KeyRecords(a), Some(TLV_ASSET_ID), f');
      assert TLV_GROUP_KEY < TLV_SCRIPT_KEY;
    } else {
      assert [] + KeyRecords(a) == KeyRecords(a);
      OneRecord(l, TLV_ASSET_ID, id, KeyRecords(a), previous, f);
      assert TLV_ASSET_ID < TLV_SCRIPT_KEY;
    }
  }

  predicate VersionsOk(a: Address) {
    1 <= a.addressVersion <= 3 && a.assetVersion <= 1
  }

  predicate KeysOk(l: Library, a: Address) {
    l.pubKey(a.scriptKey) && l.pubKey(a.internalKey)
  }

  /** Every record of the payload is read back. */
  lemma PayloadBack(l: Library, a: Address)
    requires Fits(a)
    ensures DecodeFields(l, Payload(l, a), None, NoFields()) ==
            if VersionsOk(a) && KeysOk(l, a) then
              Some(WithAsset(l, a, NoFields()).(
                addressVersion := a.addressVersion, assetVersion := a.assetVersion,
                scriptKey := a.scriptKey, internalKey := a.internalKey, sibling := a.sibling,
                amount := a.amount, courier := a.courier))
            else None
  {
    hide Record, NextRecord, DecodeFields, KeyRecords, AssetRecords, AssetId, GroupKey, ReadBigSize;
    var version: byte := (a.addressVersion + 255) % 256;
    OneRecord(l, TLV_VERSION, [version], Record(TLV_ASSET_VERSION, [a.assetVersion]) + AssetRecords(l, a),
              None, NoFields());
    if 1 <= a.addressVersion <= 3 {
      var f := NoFields().(addressVersion := a.addressVersion);
      OneRecord(l, TLV_ASSET_VERSION, [a.assetVersion], AssetRecords(l, a), Some(TLV_VERSION), f);
      if a.assetVersion <= 1 {
        var f' := f.(assetVersion := a.assetVersion);
        AssetBack(l, a, Some(TLV_ASSET_VERSION), f');
        var p: nat :| p < TLV_SCRIPT_KEY &&
          DecodeFields(l, AssetRecords(l, a), Some(TLV_ASSET_VERSION), f') ==
          DecodeFields(l, KeyRecords(a), Some(p), WithAsset(l, a, f'));
        KeysBack(l, a, Some(p), WithAsset(l, a, f'));
      }
    }
  }

  lemma EncodedText(l: Library, hrp: string, data: seq<Bech32.five>)
    requires l.Valid() && KnownHrp(hrp)
    ensures var s := Bech32.EncodeM(l.sums, hrp, data);
            l.lower(l.trim(s)) == s && Bech32.LastOne(s) == |hrp| && s[..|hrp|] == hrp
  {
    EncodedIsPlain(l, hrp, data);
    hide Bech32.LastOne, Bech32.EncodeM, Bech32.Chars;
    Bech32.LastSeparator(l.sums, hrp, data);
  }

  /** What the decoder returns for an encoded address. */
  function Recovered(l: Library, a: Address, s: string): Option<Address> {
    if VersionsOk(a) && KeysOk(l, a)
    then Some(a.(encoded := s, assetRef := ResolveRef(l, WithAsset(l, a, NoFields()))))
    else None
  }

  lemma DecodedPayload(l: Library, a: Address, network: Network)
    requires l.Valid() && Fits(a) && Encoded(l, a, network).Some?
    ensures Decoded(l, Encoded(l, a, network).value) == Recovered(l, a, Encoded(l, a, network).value)
  {
    hide Payload, DecodeFields, Bech32.Squeeze, Bech32.Expand, Bech32.EncodeM, Bech32.Decode, Bech32.LastOne;
    hide AssetId, GroupKey, EncodeRef, Plain;
    var hrp := HrpFor(network).value;
    var data := Bech32.Squeeze(Payload(l, a));
    EncodedText(l, hrp, data);
    Bech32.DecodeEncode(l.sums, hrp, data);
    Bech32.ExpandSqueeze(Payload(l, a));
    PayloadBack(l, a);
  }

  /** The reference an address carries comes back in canonical form; a malformed
      one comes back as the all-zero asset ID. */
  lemma RefBack(l: Library, a: Address)
    requires l.Valid()
    ensures ResolveRef(l, WithAsset(l, a, NoFields())) ==
            if ParseRef(l, a.assetRef).Some? then ParseRef(l, a.assetRef).value
            else EncodeRef(l, AssetIdKind, ZeroId())
  {
    hide DecodeRef, EncodeRef, PayloadOk, ZeroBytes;
    if DecodeRef(l, a.assetRef).Some? {
      RefIsCanonical(l, a.assetRef);
    }
  }

  lemma RefIsCanonical(l: Library, s: string)
    requires l.Valid() && DecodeRef(l, s).Some?
    ensures DecodeRef(l, s).value.canonical == EncodeRef(l, DecodeRef(l, s).value.kind, DecodeRef(l, s).value.payload)
    ensures PayloadOk(l, DecodeRef(l, s).value.kind, DecodeRef(l, s).value.payload)
  {
    hide Bech32.Decode, Bech32.Squeeze, Bech32.Expand, Bech32.EncodeM, Plain;
    var r := DecodeRef(l, s).value;
    var decoded := Bech32.Decode(l.sums, l.lower(s)).value;
    var b := Bech32.Expand(decoded.data).value;
    assert b == [FORMAT_VERSION, KindByte(r.kind)] + r.payload;
    EncodedIsPlain(l, HRP, Bech32.Squeeze(b));
  }

  /** For every address whose reference parses, decoding its encoding recovers
      every field, with the reference in canonical form. */
  lemma DecodeRecoversAddress(l: Library, a: Address, network: Network)
    requires l.Valid() && Fits(a) && VersionsOk(a) && KeysOk(l, a)
    requires ParseRef(l, a.assetRef).Some? && Encoded(l, a, network).Some?
    ensures var s := Encoded(l, a, network).value;
            Decoded(l, s) == Some(a.(encoded := s, assetRef := ParseRef(l, a.assetRef).value))
  {
    hide Decoded, Encoded, DecodeRef, ResolveRef, WithAsset;
    DecodedPayload(l, a, network);
    RefBack(l, a);
  }

  /** The encoder checks none of this: the address comes back as it was exactly
      when its versions are known, its keys are points and its reference is
      already canonical. */
  lemma RoundTripExactly(l: Library, a: Address, network: Network)
    requires l.Valid() && Fits(a) && Encoded(l, a, network).Some?
    ensures var s := Encoded(l, a, network).value;
            Decoded(l, s) == Some(a.(encoded := s)) <==>
            VersionsOk(a) && KeysOk(l, a) && ParseRef(l, a.assetRef) == Some(a.assetRef)
  {
    hide Decoded, Encoded, DecodeRef, ResolveRef, WithAsset;
    DecodedPayload(l, a, network);
    RefBack(l, a);
    DecodeEncodeRef(l, AssetIdKind, ZeroId());
  }
}
