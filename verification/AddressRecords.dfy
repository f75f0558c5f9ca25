/** The record stream inside an address, said without an encoder or a decoder:
    what is written, and exactly what is read (decode_addr.go; BOLT 1,
    "Type-Length-Value Format"). */
module AddressRecords {
  import opened Wrappers
  import opened Bytes
  import opened Integers
  import opened AssetRefs
  import opened TapAddress

  datatype Rec = Rec(kind: nat, value: seq<byte>)

  /** Type, length and value, in any of the forms of the two integers. */
  ghost predicate IsRecord(b: seq<byte>, r: Rec) {
    exists kind, length :: IsBigSize(kind, r.kind) && IsBigSize(length, |r.value|) && b == kind + length + r.value
  }

  ghost predicate IsStream(b: seq<byte>, rs: seq<Rec>) {
    if rs == [] then b == []
    else exists cut: nat :: cut <= |b| && IsRecord(b[..cut], rs[0]) && IsStream(b[cut..], rs[1..])
  }

  predicate Ascending(rs: seq<Rec>) {
    forall i, j | 0 <= i < j < |rs| :: rs[i].kind < rs[j].kind
  }

  // --------------------------------------------------------------------- written

  function Optional(present: bool, r: Rec): seq<Rec> {
    if present then [r] else []
  }

  /** The records from the script key on. */
  function KeyRecs(a: Address): seq<Rec> {
    [Rec(6, a.scriptKey)] + ([Rec(8, a.internalKey)] +
    (Optional(a.sibling != [], Rec(9, a.sibling)) +
    (Optional(a.amount != 0, Rec(10, WriteBigSize(a.amount))) +
    Optional(a.courier != [], Rec(12, a.courier)))))
  }

  function GroupRecs(l: Library, a: Address): seq<Rec> {
    match GroupKey(l, a.assetRef)
    case None => []
    case Some(key) => [Rec(5, key)]
  }

  /** The records of an address, by type number. */
  function RecordsOf(l: Library, a: Address): seq<Rec> {
    [Rec(0, [(a.addressVersion + 255) % 256])] + ([Rec(2, [a.assetVersion])] +
    ([Rec(4, if AssetId(l, a.assetRef).Some? then AssetId(l, a.assetRef).value else seq(32, i => 0))] +
    (GroupRecs(l, a) + KeyRecs(a))))
  }

  lemma RecordIsRecord(kind: uint64, value: seq<byte>)
    requires |value| < UINT64
    ensures IsRecord(Record(kind, value), Rec(kind, value))
  {
    hide IsBigSize, WriteBigSize;
    WrittenForm(kind);
    WrittenForm(|value|);
  }

  lemma {:induction false} StreamConcat(a: seq<byte>, rs: seq<Rec>, b: seq<byte>, more: seq<Rec>)
    requires IsStream(a, rs) && IsStream(b, more)
    ensures IsStream(a + b, rs + more)
    decreases |rs|
  {
    hide IsRecord;
    if rs == [] {
      assert a + b == b && rs + more == more;
    } else {
      var cut: nat :| cut <= |a| && IsRecord(a[..cut], rs[0]) && IsStream(a[cut..], rs[1..]);
      StreamConcat(a[cut..], rs[1..], b, more);
      assert (a + b)[..cut] == a[..cut] && (a + b)[cut..] == a[cut..] + b;
      assert (rs + more)[0] == rs[0] && (rs + more)[1..] == rs[1..] + more;
    }
  }

  lemma OneIsStream(kind: uint64, value: seq<byte>)
    requires |value| < UINT64
    ensures IsStream(Record(kind, value), [Rec(kind, value)])
  {
    hide Record, IsRecord;
    RecordIsRecord(kind, value);
    var b := Record(kind, value);
    assert b[..|b|] == b && b[|b|..] == [];
    assert [Rec(kind, value)][1..] == [];
  }

  /** Appending a record to a stream. */
  lemma OneMore(b: seq<byte>, rs: seq<Rec>, kind: uint64, value: seq<byte>, rest: seq<byte>, more: seq<Rec>)
    requires |value| < UINT64 && IsStream(rest, more)
    ensures IsStream(Record(kind, value) + rest, [Rec(kind, value)] + more)
  {
    hide Record, IsStream;
    OneIsStream(kind, value);
    StreamConcat(Record(kind, value), [Rec(kind, value)], rest, more);
  }

  lemma MaybeOneMore(present: bool, kind: uint64, value: seq<byte>, rest: seq<byte>, more: seq<Rec>)
    requires |value| < UINT64 && IsStream(rest, more)
    ensures IsStream((if present then Record(kind, value) else []) + rest, Optional(present, Rec(kind, value)) + more)
  {
    hide Record, IsStream;
    if present {
      OneMore([], [], kind, value, rest, more);
    } else {
      assert [] + rest == rest && [] + more == more;
    }
  }

  lemma OptionalIsStream(present: bool, kind: uint64, value: seq<byte>)
    requires |value| < UINT64
    ensures IsStream(if present then Record(kind, value) else [], Optional(present, Rec(kind, value)))
  {
    hide Record;
    if present {
      OneIsStream(kind, value);
    }
  }

  lemma KeysWritten(a: Address)
    requires Fits(a)
    ensures IsStream(KeyRecords(a), KeyRecs(a))
  {
    hide Record, IsStream, WriteBigSize, Optional;
    AmountSize(a.amount);
    OptionalIsStream(a.courier != [], 12, a.courier);
    var courier := Optional(a.courier != [], Rec(12, a.courier));
    MaybeOneMore(a.amount != 0, 10, WriteBigSize(a.amount), CourierRecords(a), courier);
    var more := Optional(a.amount != 0, Rec(10, WriteBigSize(a.amount))) + courier;
    MaybeOneMore(a.sibling != [], 9, a.sibling, AmountRecords(a), more);
    var all := Optional(a.sibling != [], Rec(9, a.sibling)) + more;
    OneMore([], [], 8, a.internalKey, SiblingRecords(a), all);
    OneMore([], [], 6, a.scriptKey, Record(8, a.internalKey) + SiblingRecords(a), [Rec(8, a.internalKey)] + all);
  }

  lemma AmountSize(n: uint64)
    ensures |WriteBigSize(n)| <= 9
  {
  }

  /** The payload of an address is the stream of its records. */
  lemma PayloadWritten(l: Library, a: Address)
    requires Fits(a)
    ensures IsStream(Payload(l, a), RecordsOf(l, a)) && Ascending(RecordsOf(l, a))
  {
    hide Record, IsStream, WriteBigSize, KeyRecords, AssetId, GroupKey;
    KeysWritten(a);
    IdSize(l, a.assetRef);
    var id := if AssetId(l, a.assetRef).Some? then AssetId(l, a.assetRef).value else seq(32, i => 0);
    assert id == if AssetId(l, a.assetRef).Some? then AssetId(l, a.assetRef).value else ZeroId();
    var group := if GroupKey(l, a.assetRef).Some? then Record(5, GroupKey(l, a.assetRef).value) else [];
    assert IsStream(group + KeyRecords(a), GroupRecs(l, a) + KeyRecs(a)) by {
      if GroupKey(l, a.assetRef).Some? {
        OneMore([], [], 5, GroupKey(l, a.assetRef).value, KeyRecords(a), KeyRecs(a));
      } else {
        assert [] + KeyRecords(a) == KeyRecords(a) && [] + KeyRecs(a) == KeyRecs(a);
      }
    }
    var rest, more := group + KeyRecords(a), GroupRecs(l, a) + KeyRecs(a);
    OneMore([], [], 4, id, rest, more);
    OneMore([], [], 2, [a.assetVersion], Record(4, id) + rest, [Rec(4, id)] + more);
    OneMore([], [], 0, [(a.addressVersion + 255) % 256], Record(2, [a.assetVersion]) + (Record(4, id) + rest),
            [Rec(2, [a.assetVersion])] + ([Rec(4, id)] + more));
    InTypeOrder(l, a);
  }

  lemma IdSize(l: Library, ref: string)
    ensures AssetId(l, ref).Some? ==> |AssetId(l, ref).value| == 32
  {
  }

  lemma Before(r: Rec, rs: seq<Rec>)
    requires Ascending(rs) && (rs != [] ==> r.kind < rs[0].kind)
    ensures Ascending([r] + rs)
  {
  }

  lemma MaybeBefore(present: bool, r: Rec, rs: seq<Rec>)
    requires Ascending(rs) && (rs != [] ==> r.kind < rs[0].kind)
    ensures Ascending(Optional(present, r) + rs)
    ensures Optional(present, r) + rs != [] ==> (Optional(present, r) + rs)[0].kind >= r.kind
  {
    Before(r, rs);
    assert [] + rs == rs;
  }

  lemma KeysInOrder(a: Address)
    ensures Ascending(KeyRecs(a)) && KeyRecs(a)[0].kind == 6
  {
    hide WriteBigSize, Ascending;
    assert Ascending([]) by { NoRecords(); }
    var c := Optional(a.courier != [], Rec(12, a.courier));
    MaybeBefore(a.courier != [], Rec(12, a.courier), []);
    assert c + [] == c;
    var m := Optional(a.amount != 0, Rec(10, WriteBigSize(a.amount))) + c;
    MaybeBefore(a.amount != 0, Rec(10, WriteBigSize(a.amount)), c);
    var s := Optional(a.sibling != [], Rec(9, a.sibling)) + m;
    MaybeBefore(a.sibling != [], Rec(9, a.sibling), m);
    Before(Rec(8, a.internalKey), s);
    Before(Rec(6, a.scriptKey), [Rec(8, a.internalKey)] + s);
  }

  lemma InTypeOrder(l: Library, a: Address)
    ensures Ascending(RecordsOf(l, a))
  {
    hide AssetId, GroupKey, Ascending, KeyRecs;
    KeysInOrder(a);
    var k := KeyRecs(a);
    var g := GroupRecs(l, a) + k;
    if GroupKey(l, a.assetRef).Some? {
      Before(Rec(5, GroupKey(l, a.assetRef).value), k);
    } else {
      assert [] + k == k;
    }
    var id := Rec(4, if AssetId(l, a.assetRef).Some? then AssetId(l, a.assetRef).value else seq(32, i => 0));
    Before(id, g);
    Before(Rec(2, [a.assetVersion]), [id] + g);
    Before(Rec(0, [(a.addressVersion + 255) % 256]), [Rec(2, [a.assetVersion])] + ([id] + g));
  }

  lemma NoRecords()
    ensures Ascending([])
  {
  }

  // ------------------------------------------------------------------------ read

  /** The value of the first record of a type. */
  function ValueOf(rs: seq<Rec>, kind: nat): Option<seq<byte>> {
    if rs == [] then None else if rs[0].kind == kind then Some(rs[0].value) else ValueOf(rs[1..], kind)
  }

  predicate IsKey(l: Library, v: seq<byte>) {
    |v| == 33 && l.pubKey(v)
  }

  /** What the fields are when decoding started from `f0`: records of the known
      types must be well formed, all others are passed over. */
  ghost predicate Reads(l: Library, rs: seq<Rec>, f0: Fields, f: Fields) {
    && (match ValueOf(rs, 0)
        case None => f.addressVersion == f0.addressVersion
        case Some(v) => |v| == 1 && v[0] <= 2 && f.addressVersion == v[0] + 1)
    && (match ValueOf(rs, 2)
        case None => f.assetVersion == f0.assetVersion
        case Some(v) => |v| == 1 && v[0] <= 1 && f.assetVersion == v[0])
    && (match ValueOf(rs, 4)
        case None => f.assetId == f0.assetId
        case Some(v) => |v| == 32 && f.assetId == Some(v))
    && (match ValueOf(rs, 5)
        case None => f.groupKey == f0.groupKey
        case Some(v) => IsKey(l, v) && f.groupKey == Some(v))
    && (match ValueOf(rs, 6)
        case None => f.scriptKey == f0.scriptKey
        case Some(v) => IsKey(l, v) && f.scriptKey == v)
    && (match ValueOf(rs, 8)
        case None => f.internalKey == f0.internalKey
        case Some(v) => IsKey(l, v) && f.internalKey == v)
    && (match ValueOf(rs, 9)
        case None => f.sibling == f0.sibling
        case Some(v) => f.sibling == v)
    && (match ValueOf(rs, 10)
        case None => f.amount == f0.amount
        case Some(v) => IsAmount(v, f.amount))
    && (match ValueOf(rs, 12)
        case None => f.courier == f0.courier
        case Some(v) => f.courier == v)
  }

  /** An integer at the front; the decoder does not look behind it. */
  ghost predicate IsAmount(v: seq<byte>, n: uint64) {
    exists x, rest :: IsBigSize(x, n) && v == x + rest
  }

  function Folded(l: Library, rs: seq<Rec>, f: Fields): Option<Fields> {
    if rs == [] then Some(f) else
    match Apply(l, f, rs[0].kind, rs[0].value)
    case None => None
    case Some(f') => Folded(l, rs[1..], f')
  }

  lemma AmountExactly(v: seq<byte>, n: uint64)
    ensures IsAmount(v, n) <==> ReadBigSize(v).Some? && ReadBigSize(v).value.0 == n
  {
    hide ReadBigSize, IsBigSize, WriteBigSize;
    if ReadBigSize(v).Some? {
      BigSizeExactly(v, ReadBigSize(v).value.0, ReadBigSize(v).value.1);
    }
    forall x, rest | IsBigSize(x, n) && v == x + rest
      ensures ReadBigSize(v) == Some((n, rest))
    {
      BigSizeExactly(v, n, rest);
    }
  }

  lemma {:induction false} NotLater(rs: seq<Rec>, kind: nat)
    requires forall i | 0 <= i < |rs| :: kind < rs[i].kind
    ensures ValueOf(rs, kind) == None
    decreases |rs|
  {
    if rs != [] {
      NotLater(rs[1..], kind);
    }
  }

  lemma {:induction false} FoldedExactly(l: Library, rs: seq<Rec>, f0: Fields, f: Fields)
    requires Ascending(rs)
    ensures Folded(l, rs, f0) == Some(f) <==> Reads(l, rs, f0, f)
    decreases |rs|
  {
    if rs == [] {
      NothingRead(l, f0, f);
    } else {
      var r, rest := rs[0], rs[1..];
      NotLater(rest, r.kind);
      OneRead(l, rs, f0, f);
      if Apply(l, f0, r.kind, r.value).Some? {
        FoldedExactly(l, rest, Apply(l, f0, r.kind, r.value).value, f);
      }
    }
  }

  lemma NothingRead(l: Library, f0: Fields, f: Fields)
    ensures Reads(l, [], f0, f) <==> f == f0
  {
  }

  lemma OneRead(l: Library, rs: seq<Rec>, f0: Fields, f: Fields)
    requires rs != [] && ValueOf(rs[1..], rs[0].kind) == None
    ensures Reads(l, rs, f0, f) <==>
            match Apply(l, f0, rs[0].kind, rs[0].value)
            case None => false
            case Some(f1) => Reads(l, rs[1..], f1, f)
  {
    hide ReadBigSize, IsAmount;
    AmountExactly(rs[0].value, f.amount);
  }

  // ---------------------------------------------------------------- the whole stream

  predicate Follow(previous: Option<nat>, rs: seq<Rec>) {
    previous.Some? && rs != [] ==> previous.value < rs[0].kind
  }

  lemma FormBound(x: seq<byte>, n: nat)
    requires IsBigSize(x, n)
    ensures n < UINT64
  {
  }

  /** One record is taken off exactly where the bytes start with one, of a type
      above the one before. */
  lemma NextExactly(b: seq<byte>, previous: Option<nat>, cut: nat, r: Rec)
    requires cut <= |b|
    ensures NextRecord(b, previous) == Some((r.kind, r.value, b[cut..])) <==>
            IsRecord(b[..cut], r) && (previous.Some? ==> previous.value < r.kind)
  {
    hide IsBigSize, ReadBigSize;
    if IsRecord(b[..cut], r) && (previous.Some? ==> previous.value < r.kind) {
      var kind, length :|
        IsBigSize(kind, r.kind) && IsBigSize(length, |r.value|) && b[..cut] == kind + length + r.value;
      TakesRecord(b, previous, cut, r, kind, length);
    }
    if NextRecord(b, previous) == Some((r.kind, r.value, b[cut..])) {
      RecordTaken(b, previous, cut, r);
    }
  }

  lemma TakesRecord(b: seq<byte>, previous: Option<nat>, cut: nat, r: Rec, kind: seq<byte>, length: seq<byte>)
    requires cut <= |b| && IsBigSize(kind, r.kind) && IsBigSize(length, |r.value|)
    requires b[..cut] == kind + length + r.value && (previous.Some? ==> previous.value < r.kind)
    ensures NextRecord(b, previous) == Some((r.kind, r.value, b[cut..]))
  {
    hide IsBigSize, ReadBigSize, NextRecord;
    FormBound(kind, r.kind);
    FormBound(length, |r.value|);
    var after := r.value + b[cut..];
    assert b == b[..cut] + b[cut..];
    assert b == kind + (length + after);
    BigSizeExactly(b, r.kind, length + after);
    BigSizeExactly(length + after, |r.value|, after);
    NextRecordIs(b, previous, r.kind, |r.value|, length + after, after);
    assert after[..|r.value|] == r.value && after[|r.value|..] == b[cut..];
  }

  lemma RecordTaken(b: seq<byte>, previous: Option<nat>, cut: nat, r: Rec)
    requires cut <= |b| && NextRecord(b, previous) == Some((r.kind, r.value, b[cut..]))
    ensures IsRecord(b[..cut], r) && (previous.Some? ==> previous.value < r.kind)
  {
    hide IsBigSize, ReadBigSize, WriteBigSize;
    var (k, b') := ReadBigSize(b).value;
    var (n, b'') := ReadBigSize(b').value;
    BigSizeExactly(b, k, b');
    BigSizeExactly(b', n, b'');
    var kind :| IsBigSize(kind, k) && b == kind + b';
    var length :| IsBigSize(length, n) && b' == length + b'';
    Together(b, kind, length, b'', n, cut, r.value);
  }

  lemma Together(b: seq<byte>, kind: seq<byte>, length: seq<byte>, after: seq<byte>, n: nat, cut: nat, value: seq<byte>)
    requires b == kind + (length + after) && n <= |after| && cut <= |b|
    requires value == after[..n] && b[cut..] == after[n..]
    ensures b[..cut] == kind + length + value
  {
    assert |b| - cut == |after| - n;
    assert (kind + length + value) + after[n..] == b;
  }

  /** A record and what follows it are disjoint parts of the bytes. */
  lemma {:induction false} StreamExactly(l: Library, b: seq<byte>, previous: Option<nat>, f0: Fields, f: Fields)
    ensures DecodeFields(l, b, previous, f0) == Some(f) <==>
            exists rs :: IsStream(b, rs) && Ascending(rs) && Follow(previous, rs) && Folded(l, rs, f0) == Some(f)
    decreases |b|
  {
    hide NextRecord, Apply, IsRecord, Ascending;
    if DecodeFields(l, b, previous, f0) == Some(f) {
      var rs := DecodedStream(l, b, previous, f0, f);
    }
    forall rs | IsStream(b, rs) && Ascending(rs) && Follow(previous, rs) && Folded(l, rs, f0) == Some(f)
      ensures DecodeFields(l, b, previous, f0) == Some(f)
    {
      StreamDecodes(l, b, rs, previous, f0, f);
    }
  }

  lemma {:induction false} DecodedStream(l: Library, b: seq<byte>, previous: Option<nat>, f0: Fields, f: Fields)
    returns (rs: seq<Rec>)
    requires DecodeFields(l, b, previous, f0) == Some(f)
    ensures IsStream(b, rs) && Ascending(rs) && Follow(previous, rs) && Folded(l, rs, f0) == Some(f)
    decreases |b|
  {
    hide NextRecord, Apply, IsRecord, Ascending;
    if b == [] {
      rs := [];
      NoRecords();
    } else {
      var (kind, value, rest) := NextRecord(b, previous).value;
      var cut := CutOf(b, previous);
      NextExactly(b, previous, cut, Rec(kind, value));
      var tail := DecodedStream(l, rest, Some(kind), Apply(l, f0, kind, value).value, f);
      rs := [Rec(kind, value)] + tail;
      assert rs[0] == Rec(kind, value) && rs[1..] == tail;
      Before(Rec(kind, value), tail);
    }
  }

  lemma CutOf(b: seq<byte>, previous: Option<nat>) returns (cut: nat)
    requires NextRecord(b, previous).Some?
    ensures cut <= |b| && NextRecord(b, previous).value.2 == b[cut..]
  {
    hide IsBigSize, WriteBigSize, ReadBigSize;
    var (k, b') := ReadBigSize(b).value;
    var (n, b'') := ReadBigSize(b').value;
    BigSizeExactly(b, k, b');
    BigSizeExactly(b', n, b'');
    var kind :| IsBigSize(kind, k) && b == kind + b';
    var length :| IsBigSize(length, n) && b' == length + b'';
    cut := |kind| + |length| + n;
    assert b == (kind + length + b''[..n]) + b''[n..];
  }

  lemma {:induction false} StreamDecodes(l: Library, b: seq<byte>, rs: seq<Rec>, previous: Option<nat>,
                                         f0: Fields, f: Fields)
    requires IsStream(b, rs) && Ascending(rs) && Follow(previous, rs) && Folded(l, rs, f0) == Some(f)
    ensures DecodeFields(l, b, previous, f0) == Some(f)
    decreases |rs|
  {
    hide NextRecord, Apply, IsRecord;
    if rs != [] {
      var cut: nat :| cut <= |b| && IsRecord(b[..cut], rs[0]) && IsStream(b[cut..], rs[1..]);
      NextExactly(b, previous, cut, rs[0]);
      RecordNotEmpty(b[..cut], rs[0]);
      StreamDecodes(l, b[cut..], rs[1..], Some(rs[0].kind), Apply(l, f0, rs[0].kind, rs[0].value).value, f);
    }
  }

  lemma RecordNotEmpty(b: seq<byte>, r: Rec)
    requires IsRecord(b, r)
    ensures b != []
  {
  }

  /** The decoder accepts exactly the streams of records in strictly ascending
      type order whose known records are well formed, and sets every field from
      the record of its type. */
  lemma DecodesExactly(l: Library, payload: seq<byte>, f: Fields)
    ensures DecodeFields(l, payload, None, NoFields()) == Some(f) <==>
            exists rs :: IsStream(payload, rs) && Ascending(rs) && Reads(l, rs, NoFields(), f)
  {
    hide DecodeFields, IsStream, Ascending, Reads, Folded;
    StreamExactly(l, payload, None, NoFields(), f);
    forall rs | Ascending(rs)
      ensures Folded(l, rs, NoFields()) == Some(f) <==> Reads(l, rs, NoFields(), f)
    {
      FoldedExactly(l, rs, NoFields(), f);
    }
  }

  /** The asset ID names the asset, unless it is all zeros and there is a group key,
      which then does. */
  lemma NamesTheAsset(l: Library, f: Fields)
    ensures var zeros: seq<byte> := seq(32, i => 0);
            match (f.assetId, f.groupKey)
            case (None, None) => ResolveRef(l, f) == ""
            case (Some(id), None) => ResolveRef(l, f) == EncodeRef(l, AssetIdKind, id)
            case (None, Some(key)) => ResolveRef(l, f) == EncodeRef(l, GroupKeyKind, key)
            case (Some(id), Some(key)) =>
              ResolveRef(l, f) == EncodeRef(l, if id == zeros then GroupKeyKind else AssetIdKind,
                                            if id == zeros then key else id)
  {
    hide EncodeRef;
    assert ZeroId() == seq(32, i => 0);
  }
}
