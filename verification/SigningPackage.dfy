/** The sealed transfer package as a state machine: sealing, applying
    signatures and witnesses on clones, finalising (custom_anchor_package.go,
    custom_anchor_signing.go). */
module SigningPackage {
  import opened Wrappers
  import opened Bytes
  import opened AnchorPsbt
  import opened SigningPlans
  import opened SigningRequests
  import PackageMappings
  import AssetRefs

  type Library = AssetRefs.Library

  const SCHEMA_VERSION := 1

  /** A package as a value. An absent packet is an empty PSBT field. */
  datatype Package = Package(
    schemaVersion: nat,
    planId: nat,
    details: Details,
    committed: Option<Packet>,
    anchor: Option<Packet>,
    plans: seq<SigningPlan>,
    backend: seq<nat>,
    committedDigest: Digest,
    unsignedTxDigest: Digest,
    packageDigest: Digest)

  /** The libraries, the native checks of single mapping entries against the
      committed anchor, and the structural rules that involve neither signing nor
      mappings (funding, lock inventory). None reads the current PSBT. */
  datatype Rules = Rules(
    bitcoin: Bitcoin,
    library: Library,
    checks: Packet -> PackageMappings.Checks,
    structure: CommittedContent -> bool)

  // --------------------------------------------------------------- digests, validity

  function Content(s: Package, committed: Packet): CommittedContent {
    CommittedContent(s.schemaVersion, s.planId, s.details, committed, s.plans, s.backend)
  }

  /** `committedDigest`: signatures are stripped, the current PSBT is left out. */
  function CommittedDigest(s: Package): Digest
    requires s.committed.Some?
  {
    OfCommitted(Content(s, Canonical(s.committed.value, true)))
  }

  /** `currentPackageDigest`. */
  function CurrentDigest(s: Package): Digest
    requires s.committed.Some? && s.anchor.Some?
  {
    OfPackage(Content(s, s.committed.value), s.committedDigest, s.unsignedTxDigest, Canonical(s.anchor.value, false))
  }

  /** `validateStructure` on summaries and virtual packets. */
  ghost predicate DetailsOk(e: Rules, details: Details, committed: Packet) {
    PackageMappings.MappingsHold(e.library, e.checks(committed), details.mappings,
                                 |committed.tx.ins|, |committed.tx.outs|)
  }

  ghost predicate StructureOk(e: Rules, s: Package) {
    && s.planId != 0 && s.anchor.Some? && s.committed.Some?
    && WellFormed(s.anchor.value) && WellFormed(s.committed.value)
    && s.details.mappings.active != []
    && e.structure(Content(s, s.committed.value))
    && DetailsOk(e, s.details, s.committed.value)
    && PlansOk(e.bitcoin.curve, s.plans, s.backend, InputCount(s.committed.value))
  }

  /** `Validate`. */
  ghost predicate Valid(e: Rules, s: Package) {
    && s.schemaVersion == SCHEMA_VERSION
    && StructureOk(e, s)
    && s.unsignedTxDigest == OfUnsignedTx(s.committed.value.tx)
    && s.committed.value.tx == s.anchor.value.tx
    && KeepsMetadata(s.committed.value, s.anchor.value)
    && s.committedDigest == CommittedDigest(s)
    && s.packageDigest == CurrentDigest(s)
  }

  // ------------------------------------------------------------------------- sealing

  /** The package `Seal` builds before it computes the two package digests. */
  function Base(s: Package): Package
    requires s.anchor.Some?
  {
    var anchor := Canonical(s.anchor.value, false);
    var committed := if s.committed.None? then anchor else Canonical(s.committed.value, false);
    s.(schemaVersion := SCHEMA_VERSION, anchor := Some(anchor), committed := Some(committed),
       plans := SortPlans(s.plans), backend := SortIndices(s.backend),
       unsignedTxDigest := OfUnsignedTx(committed.tx))
  }

  /** The package `Seal` builds before it validates. */
  function Sealed(s: Package): Package
    requires s.anchor.Some?
  {
    var digested := Base(s).(committedDigest := CommittedDigest(Base(s)));
    digested.(packageDigest := CurrentDigest(digested))
  }

  ghost function Seal(e: Rules, s: Package): Option<Package> {
    if s.anchor.Some? && WellFormed(s.anchor.value) && Valid(e, Sealed(s)) then Some(Sealed(s)) else None
  }

  // ------------------------------------------------------------------ applying a step

  /** `SigningRequests`: derived from the committed PSBT alone. */
  ghost function RequestsOf(e: Rules, s: Package): Option<Requests> {
    if !Valid(e, s) || !e.bitcoin.prevOutsKnown(s.committed.value) then None else
    match AllRequests(e.bitcoin, s.committed.value, s.committedDigest, SortPlans(s.plans))
    case None => None
    case Some(all) => Some(Grouped(all))
  }

  function FindRequest(requests: seq<Request>, id: Digest): (r: Option<Request>)
    ensures r.Some? ==> r.value in requests && r.value.id == id
    ensures r.None? ==> forall q | q in requests :: q.id != id
  {
    if requests == [] then None
    else if requests[0].id == id then Some(requests[0])
    else FindRequest(requests[1..], id)
  }

  /** A key-path request, or else a MuSig2 request, with this ID. */
  function FindKeyRequest(requests: Requests, id: Digest): Option<Request> {
    var single := FindRequest(requests.keyPath, id);
    if single.Some? then single else FindRequest(requests.muSig2, id)
  }

  ghost function KeyRequest(e: Rules, s: Package, id: Digest): (r: Option<Request>)
    ensures r.Some? ==> s.committed.Some? && s.anchor.Some?
  {
    if RequestsOf(e, s).None? then None else FindKeyRequest(RequestsOf(e, s).value, id)
  }

  ghost function ScriptRequest(e: Rules, s: Package, id: Digest): (r: Option<Request>)
    ensures r.Some? ==> s.committed.Some? && s.anchor.Some?
  {
    if RequestsOf(e, s).None? then None else FindRequest(RequestsOf(e, s).value.scriptPath, id)
  }

  function WithInput(p: Packet, i: nat, input: PInput): Packet
    requires i < |p.inputs|
  {
    p.(inputs := p.inputs[i := input])
  }

  /** The clone with a new current PSBT and a refreshed digest. */
  function WithAnchor(s: Package, packet: Packet): Package
    requires s.committed.Some?
  {
    var next := s.(anchor := Some(Normalise(packet)));
    next.(packageDigest := CurrentDigest(next))
  }

  /** The clone with a key signature stored on input `i`. */
  ghost function StoreKey(e: Rules, s: Package, i: nat, signature: seq<byte>): Option<Package>
    requires s.committed.Some? && s.anchor.Some?
  {
    var packet := s.anchor.value;
    if i >= |packet.inputs| || packet.inputs[i].IsFinal() then None else
    if packet.inputs[i].keySpendSig != [] && packet.inputs[i].keySpendSig != signature then None else
    var next := WithAnchor(s, WithInput(packet, i, packet.inputs[i].(keySpendSig := signature)));
    if Valid(e, next) then Some(next) else None
  }

  ghost function ApplyKey(e: Rules, s: Package, id: Digest, signature: seq<byte>): Option<Package> {
    var request := KeyRequest(e, s, id);
    if request.None? || !KeySignatureOk(e.bitcoin, signature, request.value.context) then None
    else StoreKey(e, s, request.value.inputIndex, signature)
  }

  /** The witness stack `ApplyScriptPathWitness` assembles. */
  function Stack(elements: seq<seq<byte>>, c: Context): seq<seq<byte>>
    requires c.ScriptContext?
  {
    elements + [c.leafScript, c.controlBlock]
  }

  /** The clone with a verified witness stored on input `i`. */
  ghost function StoreWitness(e: Rules, s: Package, i: nat, stack: seq<seq<byte>>): Option<Package>
    requires s.committed.Some? && s.anchor.Some?
  {
    var packet := s.anchor.value;
    if i >= |packet.inputs| || packet.inputs[i].keySpendSig != [] then None else
    if !e.bitcoin.prevOutsKnown(packet) || !e.bitcoin.executes(packet, i, stack) then None else
    var final := e.bitcoin.encodeWitness(stack);
    if packet.inputs[i].finalWitness != [] && packet.inputs[i].finalWitness != final then None else
    var next := WithAnchor(s, WithInput(packet, i, packet.inputs[i].(finalWitness := final)));
    if Valid(e, next) then Some(next) else None
  }

  ghost function ApplyScript(e: Rules, s: Package, id: Digest, elements: seq<seq<byte>>): Option<Package> {
    var request := ScriptRequest(e, s, id);
    if request.None? || !request.value.context.ScriptContext? then None
    else StoreWitness(e, s, request.value.inputIndex, Stack(elements, request.value.context))
  }

  /** Every input of the final transaction follows its plan and executes. */
  ghost predicate FinalOk(e: Rules, s: Package, packet: Packet, witnesses: seq<seq<seq<byte>>>)
    requires s.committed.Some?
  {
    && RequestsOf(e, s).Some?
    && (forall k | 0 <= k < |s.plans| :: s.plans[k].inputIndex < |witnesses| &&
          FollowsPlan(e.bitcoin, s.committed.value, s.committedDigest, s.plans[k], witnesses[s.plans[k].inputIndex]))
    && (forall k | 0 <= k < |witnesses| :: e.bitcoin.executes(packet, k, witnesses[k]))
  }

  ghost function WithFinal(e: Rules, s: Package, final: Packet): Option<Package> {
    if !Valid(e, s) then None else
    match Sanitize(s.committed.value, final)
    case None => None
    case Some(packet) =>
      match e.bitcoin.extract(packet)
      case None => None
      case Some(witnesses) =>
        if !FinalOk(e, s, packet, witnesses) then None else
        var next := WithAnchor(s, packet);
        if Valid(e, next) then Some(next) else None
  }

  // --------------------------------------------- exactly when an application succeeds

  lemma NormaliseInputs(p: Packet)
    ensures |Normalise(p).inputs| == |p.inputs|
    ensures forall i | 0 <= i < |p.inputs| :: Normalise(p).inputs[i] == p.inputs[i].Normal()
    ensures HasFinal(Normalise(p)) == HasFinal(p)
  {
    forall i | 0 <= i < |p.inputs|
      ensures Normalise(p).inputs[i].IsFinal() == p.inputs[i].IsFinal()
    {
    }
    if HasFinal(p) {
      var i :| 0 <= i < |p.inputs| && p.inputs[i].IsFinal();
      assert Normalise(p).inputs[i].IsFinal();
    }
  }

  /** Input by input, what `Validate` asks of a replaced current PSBT. */
  ghost predicate InputsKeep(committed: Packet, packet: Packet) {
    |committed.inputs| == |packet.inputs| &&
    forall i | 0 <= i < |packet.inputs| ::
      if HasFinal(packet) then OnlyFinals(committed.inputs[i], packet.inputs[i])
      else OnlySignatures(committed.inputs[i], packet.inputs[i])
  }

  predicate SameFrame(a: Packet, b: Packet) {
    a.tx == b.tx && a.outputs == b.outputs && a.globals == b.globals && |a.inputs| == |b.inputs|
  }

  lemma KeepsNormalised(committed: Packet, packet: Packet)
    requires SameFrame(committed, packet)
    ensures KeepsMetadata(committed, Normalise(packet)) <==> InputsKeep(committed, packet)
  {
    NormaliseInputs(packet);
    KeepsMetadataExactly(committed, Normalise(packet));
    hide KeepsMetadata;
    var next := Normalise(packet);
    forall i | 0 <= i < |packet.inputs|
      ensures HasFinal(packet) ==>
                (OnlyFinals(committed.inputs[i], packet.inputs[i]) <==>
                 OnlyFinals(committed.inputs[i], next.inputs[i]))
      ensures !HasFinal(packet) ==> next.inputs[i] == packet.inputs[i]
    {
    }
  }

  lemma ValidInputs(e: Rules, s: Package)
    requires Valid(e, s)
    ensures s.committed.Some? && s.anchor.Some?
    ensures SameFrame(s.committed.value, s.anchor.value) && InputsKeep(s.committed.value, s.anchor.value)
  {
    hide Canonical, Normalise, PlansOk, DetailsOk;
    KeepsMetadataExactly(s.committed.value, s.anchor.value);
    hide KeepsMetadata;
  }

  /** A valid package stays valid under a new current PSBT exactly when that
      PSBT keeps the committed metadata. */
  lemma NextValidExactly(e: Rules, s: Package, packet: Packet)
    requires Valid(e, s) && SameFrame(packet, s.anchor.value)
    ensures Valid(e, WithAnchor(s, packet)) <==> InputsKeep(s.committed.value, packet)
  {
    hide Canonical, Normalise, PlansOk, DetailsOk, KeepsMetadata, InputsKeep;
    var next := WithAnchor(s, packet);
    ValidInputs(e, s);
    NormaliseKeepsFrame(packet);
    KeepsNormalised(s.committed.value, packet);
    assert CommittedDigest(next) == CommittedDigest(s);
    assert Content(next, s.committed.value) == Content(s, s.committed.value);
  }

  lemma NormaliseKeepsFrame(p: Packet)
    ensures SameFrame(Normalise(p), p)
  {
  }
}
