/** Asset references (asset_ref.go) and the grouping key of custom-anchor
    requests (custom_anchor_types.go). */
module AssetRefs {
  import opened Wrappers
  import opened Bytes
  import Bech32

  /** The string and curve libraries. `pubKey` judges 33-byte encodings. */
  datatype Library = Library(
    lower: string -> string,
    trim: string -> string,
    pubKey: seq<byte> -> bool,
    sums: Bech32.Checksums)
  {
    ghost predicate Valid() {
      && sums.Valid()
      && (forall s :: Plain(s) ==> lower(s) == s && trim(s) == s)
    }
  }

  /** Lower-case letters and digits only. */
  predicate Plain(s: string) {
    forall i | 0 <= i < |s| :: 'a' <= s[i] <= 'z' || '0' <= s[i] <= '9'
  }

  datatype Kind = AssetIdKind | GroupKeyKind

  const HRP := "tapr"
  const FORMAT_VERSION: byte := 0
  const MAX_BECH32 := 90
  const ID_SIZE := 32
  const KEY_SIZE := 33

  function KindByte(kind: Kind): byte {
    match kind
    case AssetIdKind => 0
    case GroupKeyKind => 1
  }

  /** `encodeAssetRef`. */
  function EncodeRef(l: Library, kind: Kind, payload: seq<byte>): string {
    Bech32.EncodeM(l.sums, HRP, Bech32.Squeeze([FORMAT_VERSION, KindByte(kind)] + payload))
  }

  datatype Ref = Ref(kind: Kind, payload: seq<byte>, canonical: string)

  predicate PayloadOk(l: Library, kind: Kind, payload: seq<byte>) {
    match kind
    case AssetIdKind => |payload| == ID_SIZE
    case GroupKeyKind => |payload| == KEY_SIZE && l.pubKey(payload)
  }

  function KindOf(b: byte): Option<Kind> {
    if b == 0 then Some(AssetIdKind) else if b == 1 then Some(GroupKeyKind) else None
  }

  /** `decodeAssetRefString`. */
  function DecodeRef(l: Library, s: string): Option<Ref> {
    if s == "" then None else
    var normalized := l.lower(s);
    if |normalized| > MAX_BECH32 then None else
    match Bech32.Decode(l.sums, normalized)
    case None => None
    case Some(decoded) =>
      if !decoded.isM || decoded.hrp != HRP then None else
      match Bech32.Expand(decoded.data)
      case None => None
      case Some(b) =>
        if |b| < 2 || b[0] != FORMAT_VERSION || KindOf(b[1]).None? then None
        else if !PayloadOk(l, KindOf(b[1]).value, b[2..]) then None
        else Some(Ref(KindOf(b[1]).value, b[2..], l.lower(Bech32.EncodeM(l.sums, HRP, Bech32.Squeeze(b)))))
  }

  function ParseRef(l: Library, s: string): Option<string> {
    match DecodeRef(l, s)
    case None => None
    case Some(r) => Some(r.canonical)
  }

  function AssetId(l: Library, s: string): Option<seq<byte>> {
    match DecodeRef(l, s)
    case Some(Ref(AssetIdKind, payload, _)) => Some(payload)
    case _ => None
  }

  function GroupKey(l: Library, s: string): (r: Option<seq<byte>>)
    ensures r.Some? ==> |r.value| == KEY_SIZE
  {
    match DecodeRef(l, s)
    case Some(Ref(GroupKeyKind, payload, _)) => Some(payload)
    case _ => None
  }

  function XOnly(key: seq<byte>): seq<byte>
    requires |key| == KEY_SIZE
  {
    key[1..]
  }

  /** `AssetRef.Equivalent`. */
  predicate Equivalent(l: Library, a: string, b: string) {
    if a == b then true
    else if AssetId(l, a).Some? && AssetId(l, b).Some? then AssetId(l, a) == AssetId(l, b)
    else if GroupKey(l, a).Some? && GroupKey(l, b).Some? then
      XOnly(GroupKey(l, a).value) == XOnly(GroupKey(l, b).value)
    else false
  }

  /** Bytes as a Go string. */
  function Raw(b: seq<byte>): (s: string)
    ensures |s| == |b| && forall i | 0 <= i < |b| :: s[i] as int == b[i]
  {
    seq(|b|, i requires 0 <= i < |b| => b[i] as char)
  }

  /** `customAnchorAssetKey`. */
  function AssetKey(l: Library, ref: string): string {
    if AssetId(l, ref).Some? then "asset:" + Raw(AssetId(l, ref).value)
    else if GroupKey(l, ref).Some? then "group:" + Raw(XOnly(GroupKey(l, ref).value))
    else "invalid:" + ref
  }

  // -------------------------------------------------------------------- properties

  lemma RawInjective(a: seq<byte>, b: seq<byte>)
    requires Raw(a) == Raw(b)
    ensures a == b
  {
    assert |a| == |b|;
    assert forall i | 0 <= i < |a| :: a[i] == Raw(a)[i] as int == Raw(b)[i] as int == b[i];
  }

  lemma TailsEqual(prefix: string, a: string, b: string)
    requires prefix + a == prefix + b
    ensures a == b
  {
    assert (prefix + a)[|prefix|..] == a && (prefix + b)[|prefix|..] == b;
  }

  /** The grouping key is `Equivalent`, on all strings. */
  lemma KeyIsEquivalence(l: Library, a: string, b: string)
    ensures AssetKey(l, a) == AssetKey(l, b) <==> Equivalent(l, a, b)
  {
    hide DecodeRef, Raw, XOnly;
    var x, y := AssetKey(l, a), AssetKey(l, b);
    if x == y {
      assert x[0] == y[0];
      if AssetId(l, a).Some? {
        TailsEqual("asset:", Raw(AssetId(l, a).value), Raw(AssetId(l, b).value));
        RawInjective(AssetId(l, a).value, AssetId(l, b).value);
      } else if GroupKey(l, a).Some? {
        TailsEqual("group:", Raw(XOnly(GroupKey(l, a).value)), Raw(XOnly(GroupKey(l, b).value)));
        RawInjective(XOnly(GroupKey(l, a).value), XOnly(GroupKey(l, b).value));
      } else {
        TailsEqual("invalid:", a, b);
      }
    }
  }

  /** So it is an equivalence relation, on malformed references too. */
  lemma EquivalentIsEquivalence(l: Library, a: string, b: string, c: string)
    ensures Equivalent(l, a, a)
    ensures Equivalent(l, a, b) == Equivalent(l, b, a)
    ensures Equivalent(l, a, b) && Equivalent(l, b, c) ==> Equivalent(l, a, c)
  {
    hide AssetKey, Equivalent;
    KeyIsEquivalence(l, a, a);
    KeyIsEquivalence(l, a, b);
    KeyIsEquivalence(l, b, a);
    KeyIsEquivalence(l, b, c);
    KeyIsEquivalence(l, a, c);
  }

  lemma EncodedIsPlain(l: Library, hrp: string, data: seq<Bech32.five>)
    requires l.Valid() && Plain(hrp)
    ensures Plain(Bech32.EncodeM(l.sums, hrp, data))
    ensures var s := Bech32.EncodeM(l.sums, hrp, data); l.lower(s) == s && l.trim(s) == s
  {
    var sum := l.sums.bech32m(hrp, data);
    var s := Bech32.EncodeM(l.sums, hrp, data);
    forall i | 0 <= i < |s|
      ensures 'a' <= s[i] <= 'z' || '0' <= s[i] <= '9'
    {
      if i > |hrp| {
        assert s[i] == Bech32.CHARSET[(data + sum)[i - |hrp| - 1]];
        CharsetIsPlain((data + sum)[i - |hrp| - 1]);
      }
    }
  }

  lemma CharsetIsPlain(v: Bech32.five)
    ensures 'a' <= Bech32.CHARSET[v] <= 'z' || '0' <= Bech32.CHARSET[v] <= '9'
  {
  }

  /** A reference has exactly one canonical form: its own lower-case spelling. */
  lemma CanonicalIsLower(l: Library, s: string)
    requires l.Valid() && DecodeRef(l, s).Some?
    ensures DecodeRef(l, s).value.canonical == l.lower(s)
  {
    hide Bech32.Decode, Bech32.Squeeze, Bech32.Expand, Bech32.EncodeM, Plain;
    var normalized := l.lower(s);
    var decoded := Bech32.Decode(l.sums, normalized).value;
    Bech32.SqueezeExpand(decoded.data);
    Bech32.EncodeDecode(l.sums, normalized);
    EncodedIsPlain(l, HRP, decoded.data);
  }

  /** Encoding an identifier and decoding it gives the identifier back. */
  lemma DecodeEncodeRef(l: Library, kind: Kind, payload: seq<byte>)
    requires l.Valid() && PayloadOk(l, kind, payload)
    ensures DecodeRef(l, EncodeRef(l, kind, payload)) == Some(Ref(kind, payload, EncodeRef(l, kind, payload)))
  {
    hide Bech32.Decode, Bech32.Squeeze, Bech32.Expand, Plain, Bech32.Chars;
    var b := [FORMAT_VERSION, KindByte(kind)] + payload;
    var data := Bech32.Squeeze(b);
    var s := EncodeRef(l, kind, payload);
    EncodedIsPlain(l, HRP, data);
    SqueezeLength(b);
    Bech32.ExpandSqueeze(b);
    Bech32.DecodeEncode(l.sums, HRP, data);
    assert b[2..] == payload;
  }

  lemma SqueezeLength(b: seq<byte>)
    ensures |Bech32.Squeeze(b)| == (8 * |b| + 4) / 5
  {
    hide Bech32.Bits, Bech32.Group;
  }

  /** Parsing is idempotent and stays within the equivalence class. */
  lemma ParseIsEquivalent(l: Library, s: string)
    requires l.Valid() && ParseRef(l, s).Some?
    ensures ParseRef(l, ParseRef(l, s).value) == ParseRef(l, s)
    ensures Equivalent(l, s, ParseRef(l, s).value)
  {
    CanonicalIsLower(l, s);
    var r := DecodeRef(l, s).value;
    LowerTwice(l, s);
    assert DecodeRef(l, r.canonical) == Some(r);
  }

  lemma LowerTwice(l: Library, s: string)
    requires l.Valid() && DecodeRef(l, s).Some?
    ensures l.lower(l.lower(s)) == l.lower(s) && l.lower(s) != ""
  {
    hide Bech32.Squeeze, Bech32.Expand, Bech32.EncodeM, Plain;
    var normalized := l.lower(s);
    var decoded := Bech32.Decode(l.sums, normalized).value;
    Bech32.EncodeDecode(l.sums, normalized);
    EncodedIsPlain(l, HRP, decoded.data);
  }

  /** Two group references name the same asset exactly when their keys agree
      up to parity. */
  lemma GroupRefsIgnoreParity(l: Library, k: seq<byte>, k': seq<byte>)
    requires l.Valid() && PayloadOk(l, GroupKeyKind, k) && PayloadOk(l, GroupKeyKind, k')
    ensures Equivalent(l, EncodeRef(l, GroupKeyKind, k), EncodeRef(l, GroupKeyKind, k')) <==> k[1..] == k'[1..]
  {
    hide DecodeRef, EncodeRef;
    DecodeEncodeRef(l, GroupKeyKind, k);
    DecodeEncodeRef(l, GroupKeyKind, k');
  }

  /** A string is a reference exactly when, in lower case, it is the bech32m form
      under "tapr" of a zero byte, the kind (0 for an asset ID, 1 for a group key)
      and an identifier of that kind; that form is its canonical one. */
  lemma DecodesRefExactly(l: Library, s: string, r: Ref)
    requires l.Valid()
    ensures DecodeRef(l, s) == Some(r) <==>
            && PayloadOk(l, r.kind, r.payload) && r.canonical == l.lower(s)
            && l.lower(s) == Bech32.EncodeM(l.sums, "tapr",
                                            Bech32.Squeeze([0, if r.kind == GroupKeyKind then 1 else 0] + r.payload))
  {
    hide Bech32.Decode, Bech32.Squeeze, Bech32.Expand, Bech32.Chars, Plain;
    var form := EncodeRef(l, r.kind, r.payload);
    EncodedIsPlain(l, HRP, Bech32.Squeeze([FORMAT_VERSION, KindByte(r.kind)] + r.payload));
    if DecodeRef(l, s) == Some(r) {
      CanonicalIsLower(l, s);
      RefIsEncoded(l, s);
    }
    if PayloadOk(l, r.kind, r.payload) && l.lower(s) == form {
      DecodeEncodeRef(l, r.kind, r.payload);
      EmptyStaysEmpty(l);
    }
  }

  lemma RefIsEncoded(l: Library, s: string)
    requires l.Valid() && DecodeRef(l, s).Some?
    ensures var r := DecodeRef(l, s).value;
            PayloadOk(l, r.kind, r.payload) && l.lower(s) == EncodeRef(l, r.kind, r.payload)
  {
    hide Bech32.Decode, Bech32.Squeeze, Bech32.Expand, Bech32.EncodeM, Plain;
    var normalized := l.lower(s);
    var decoded := Bech32.Decode(l.sums, normalized).value;
    var b := Bech32.Expand(decoded.data).value;
    Bech32.SqueezeExpand(decoded.data);
    Bech32.EncodeDecode(l.sums, normalized);
    assert b == b[..2] + b[2..];
    assert b[..2] == [b[0], b[1]];
  }

  lemma EmptyStaysEmpty(l: Library)
    requires l.Valid()
    ensures l.lower("") == ""
  {
    assert Plain("");
  }
}
