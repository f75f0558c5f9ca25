/** Digest-bound signing requests and the check of final witnesses against the
    sealed plans (custom_anchor_signing.go, custom_anchor_package.go).

    Digests are symbolic: a digest is the value that was hashed, under its
    domain. `DigestInputInjective` and `RequestPayloadInjective` are the facts
    about the hashed bytes that make this the only way two can be equal. */
module SigningRequests {
  import opened Wrappers
  import opened Bytes
  import opened Collections
  import opened AnchorPsbt
  import opened SigningPlans
  import PackageMappings

  type Mappings = PackageMappings.Mappings

  datatype Mode = KeyPath | MuSig2 | ScriptPath

  /** The parts of a package that do not concern signing: virtual packets with
      their summaries, and the rest (funding, locks, publication). */
  datatype Details = Details(mappings: Mappings, rest: seq<byte>)

  /** Everything the committed digest binds. */
  datatype CommittedContent = CommittedContent(
    schemaVersion: nat, planId: nat, details: Details, committed: Packet,
    plans: seq<SigningPlan>, backend: seq<nat>)

  datatype Digest =
    | NoDigest
    | OfUnsignedTx(tx: Tx)
    | OfCommitted(content: CommittedContent)
    | OfPackage(content: CommittedContent, committedDigest: Digest, unsignedTxDigest: Digest, anchor: Packet)
    | OfRequest(package: Digest, mode: Mode, inputIndex: nat)

  /** The bytes `customAnchorDigest` hashes determine domain and payload, as no
      domain contains a zero byte. */
  lemma DigestInputInjective(domain: seq<byte>, payload: seq<byte>, domain': seq<byte>, payload': seq<byte>)
    requires 0 !in domain && 0 !in domain'
    requires domain + [0] + payload == domain' + [0] + payload'
    ensures domain == domain' && payload == payload'
  {
    var all, all' := domain + [0] + payload, domain' + [0] + payload';
    assert all[|domain|] == 0 && all'[|domain'|] == 0;
    assert forall i | 0 <= i < |domain| :: all[i] == domain[i];
    assert forall i | 0 <= i < |domain'| :: all'[i] == domain'[i];
    assert |domain| == |domain'|;
    assert all[..|domain|] == domain && all'[..|domain'|] == domain';
    assert all[|domain| + 1..] == payload && all'[|domain'| + 1..] == payload';
  }

  /** The payload of a request ID: the package digest, the mode byte and the
      input index on four bytes. */
  function RequestPayload(digest: seq<byte>, mode: byte, inputIndex: nat): seq<byte> {
    digest + [mode] + BigEndian(inputIndex, 4)
  }

  lemma RequestPayloadInjective(d: seq<byte>, m: byte, i: nat, d': seq<byte>, m': byte, i': nat)
    requires |d| == |d'| == 32 && i < 0x1_0000_0000 && i' < 0x1_0000_0000
    requires RequestPayload(d, m, i) == RequestPayload(d', m', i')
    ensures d == d' && m == m' && i == i'
  {
    var p, p' := RequestPayload(d, m, i), RequestPayload(d', m', i');
    assert p[..32] == d && p'[..32] == d' && p[32] == m && p'[32] == m';
    assert p[33..] == BigEndian(i, 4) && p'[33..] == BigEndian(i', 4);
    Pow256Values();
    BigEndianInverse(i, 4);
    BigEndianInverse(i', 4);
  }

  lemma RequestPayloadBytes(d: seq<byte>, m: byte, i: nat, k: nat)
    requires k < 4
    ensures var p := RequestPayload(d, m, i);
            |p| == |d| + 5 && p[..|d| + 1] == d + [m] && p[|d| + 1 + k] == i / Pow256(3 - k) % 256
  {
    hide BigEndian;
    BigEndianAt(i, 4, k);
    assert RequestPayload(d, m, i)[|d| + 1 + k] == BigEndian(i, 4)[k];
  }

  // -------------------------------------------------------------- deriving requests

  datatype Context =
    | KeyContext(internalKey: Key, sighashType: nat, sighash: nat, prevOutScript: seq<byte>)
    | ScriptContext(sighashType: nat, sighash: nat, leafScript: seq<byte>, controlBlock: seq<byte>,
                    requiredSigners: seq<Key>)

  datatype Request = Request(id: Digest, mode: Mode, inputIndex: nat, context: Context)

  datatype Requests = Requests(keyPath: seq<Request>, muSig2: seq<Request>, scriptPath: seq<Request>)

  /** The Bitcoin library: sighashes, signatures and script execution. */
  datatype Bitcoin = Bitcoin(
    curve: Curve,
    prevOutsKnown: Packet -> bool,
    // internal key, sighash type, sighash and previous script of a key spend
    keySpend: (Packet, nat) -> Option<(Key, nat, nat, seq<byte>)>,
    aggregates: (Key, seq<Key>) -> bool,
    // sighash type, sighash, leaf script and control block of the one matching leaf
    leafSpend: (Packet, nat, nat) -> Option<(nat, nat, seq<byte>, seq<byte>)>,
    outputKey: seq<byte> -> Option<Key>,
    schnorr: (seq<byte>, nat, Key) -> bool,
    tapscriptOk: seq<byte> -> bool,
    // the script engine accepts this witness stack for the input
    executes: (Packet, nat, seq<seq<byte>>) -> bool,
    encodeWitness: seq<seq<byte>> -> seq<byte>,
    // the witness stacks of a fully finalised packet
    extract: Packet -> Option<seq<seq<seq<byte>>>>)
  {
    /** A serialised witness stack starts with its count, so it is not empty. */
    ghost predicate Valid() {
      && (forall w :: encodeWitness(w) != [])
      && (forall p :: extract(p).Some? ==> |extract(p).value| == |p.inputs|)
    }
  }

  datatype Derived = Failed | Skipped | Derived(request: Request)

  /** What one plan contributes; a caller-signed input gets no request. */
  function RequestOf(b: Bitcoin, packet: Packet, digest: Digest, p: SigningPlan): Derived {
    if p.keyPath.Some? then
      match b.keySpend(packet, p.inputIndex)
      case None => Failed
      case Some((internal, sighashType, sighash, script)) =>
        if internal != p.keyPath.value then Failed
        else Derived(Request(OfRequest(digest, KeyPath, p.inputIndex), KeyPath, p.inputIndex,
                             KeyContext(internal, sighashType, sighash, script)))
    else if p.muSig2.Some? then
      match b.keySpend(packet, p.inputIndex)
      case None => Failed
      case Some((internal, sighashType, sighash, script)) =>
        if !b.aggregates(internal, p.muSig2.value.participants) then Failed
        else Derived(Request(OfRequest(digest, MuSig2, p.inputIndex), MuSig2, p.inputIndex,
                             KeyContext(internal, sighashType, sighash, script)))
    else if p.scriptPath.Some? then
      match b.leafSpend(packet, p.inputIndex, p.scriptPath.value.leafHash)
      case None => Failed
      case Some((sighashType, sighash, leafScript, controlBlock)) =>
        if !b.tapscriptOk(leafScript) then Failed
        else Derived(Request(OfRequest(digest, ScriptPath, p.inputIndex), ScriptPath, p.inputIndex,
                             ScriptContext(sighashType, sighash, leafScript, controlBlock,
                                           p.scriptPath.value.requiredSigners)))
    else Skipped
  }

  /** The requests of all plans in order, or nothing if one cannot be derived. */
  function AllRequests(b: Bitcoin, packet: Packet, digest: Digest, plans: seq<SigningPlan>): Option<seq<Request>> {
    if plans == [] then Some([]) else
    var last := |plans| - 1;
    match AllRequests(b, packet, digest, plans[..last])
    case None => None
    case Some(before) =>
      match RequestOf(b, packet, digest, plans[last])
      case Failed => None
      case Skipped => Some(before)
      case Derived(r) => Some(before + [r])
  }

  function OfMode(requests: seq<Request>, mode: Mode): seq<Request> {
    if requests == [] then [] else
    var last := |requests| - 1;
    OfMode(requests[..last], mode) + (if requests[last].mode == mode then [requests[last]] else [])
  }

  function Grouped(requests: seq<Request>): Requests {
    Requests(OfMode(requests, KeyPath), OfMode(requests, MuSig2), OfMode(requests, ScriptPath))
  }

  /** The input count as the 32-bit number the source compares with. */
  function InputCount(p: Packet): nat {
    |p.tx.ins| % 0x1_0000_0000
  }

  /** `customAnchorSigningRequests`: the plans are taken in input order. */
  method DeriveRequests(b: Bitcoin, packet: Packet, plans: seq<SigningPlan>, backend: seq<nat>, digest: Digest)
    returns (r: Option<Requests>)
    ensures r.Some? <==>
            && PlansOk(b.curve, plans, backend, InputCount(packet)) && b.prevOutsKnown(packet)
            && AllRequests(b, packet, digest, SortPlans(plans)).Some?
    ensures r.Some? ==> r.value == Grouped(AllRequests(b, packet, digest, SortPlans(plans)).value)
  {
    hide PlansOk, SortPlans, AllRequests, OfMode;
    var plansOk := CheckPlans(b.curve, plans, backend, InputCount(packet));
    if !plansOk || !b.prevOutsKnown(packet) {
      return None;
    }
    r := CollectRequests(b, packet, SortPlans(plans), digest);
  }

  /** The loop over the sorted plans. */
  method CollectRequests(b: Bitcoin, packet: Packet, plans: seq<SigningPlan>, digest: Digest)
    returns (r: Option<Requests>)
    ensures r.Some? <==> AllRequests(b, packet, digest, plans).Some?
    ensures r.Some? ==> r.value == Grouped(AllRequests(b, packet, digest, plans).value)
  {
    hide RequestOf;
    var requests := Requests([], [], []);
    for i := 0 to |plans|
      invariant AllRequests(b, packet, digest, plans[..i]).Some?
      invariant requests == Grouped(AllRequests(b, packet, digest, plans[..i]).value)
    {
      assert plans[..i + 1][..i] == plans[..i] && plans[..i + 1][i] == plans[i];
      ghost var before := AllRequests(b, packet, digest, plans[..i]).value;
      match RequestOf(b, packet, digest, plans[i])
      case Failed =>
        FailedPrefix(b, packet, digest, plans, i + 1);
        return None;
      case Skipped =>
      case Derived(request) =>
        assert (before + [request])[..|before|] == before;
        match request.mode
        case KeyPath => requests := requests.(keyPath := requests.keyPath + [request]);
        case MuSig2 => requests := requests.(muSig2 := requests.muSig2 + [request]);
        case ScriptPath => requests := requests.(scriptPath := requests.scriptPath + [request]);
    }
    assert plans[..|plans|] == plans;
    r := Some(requests);
  }

  method CheckPlans(c: Curve, plans: seq<SigningPlan>, backend: seq<nat>, inputCount: nat) returns (ok: bool)
    requires inputCount < 0x1_0000_0000
    ensures ok <==> PlansOk(c, plans, backend, inputCount)
  {
    ok := ValidatePlans(c, plans, backend, inputCount);
  }

  lemma {:induction false} FailedPrefix(b: Bitcoin, packet: Packet, digest: Digest, plans: seq<SigningPlan>, k: nat)
    requires k <= |plans| && AllRequests(b, packet, digest, plans[..k]).None?
    ensures AllRequests(b, packet, digest, plans).None?
    decreases |plans|
  {
    if k == |plans| {
      assert plans[..k] == plans;
    } else {
      assert plans[..|plans| - 1][..k] == plans[..k];
      FailedPrefix(b, packet, digest, plans[..|plans| - 1], k);
    }
  }

  // ------------------------------------------------------- each plan, one request

  function InputsOf(requests: seq<Request>): (s: seq<nat>)
    ensures |s| == |requests|
  {
    seq(|requests|, i requires 0 <= i < |requests| => requests[i].inputIndex)
  }

  function Requested(plans: seq<SigningPlan>): seq<nat> {
    if plans == [] then [] else
    var last := |plans| - 1;
    Requested(plans[..last]) + (if plans[last].callerSigned then [] else [plans[last].inputIndex])
  }

  lemma {:induction false} RequestsFollowPlans(b: Bitcoin, packet: Packet, digest: Digest, plans: seq<SigningPlan>)
    requires forall i | 0 <= i < |plans| :: Variants(plans[i]) == 1
    requires AllRequests(b, packet, digest, plans).Some?
    ensures InputsOf(AllRequests(b, packet, digest, plans).value) == Requested(plans)
    decreases |plans|
  {
    if plans != [] {
      var last := |plans| - 1;
      var before := AllRequests(b, packet, digest, plans[..last]).value;
      RequestsFollowPlans(b, packet, digest, plans[..last]);
      match RequestOf(b, packet, digest, plans[last])
      case Failed =>
      case Skipped =>
      case Derived(r) =>
        assert InputsOf(before + [r]) == InputsOf(before) + [r.inputIndex];
    }
  }

  lemma {:induction false} RequestedAreIndices(plans: seq<SigningPlan>)
    ensures forall k | k in Requested(plans) :: k in Indices(plans)
    decreases |plans|
  {
    if plans != [] {
      var last := |plans| - 1;
      RequestedAreIndices(plans[..last]);
      assert Indices(plans) == Indices(plans[..last]) + [plans[last].inputIndex];
    }
  }

  lemma {:induction false} RequestedDistinct(plans: seq<SigningPlan>)
    requires Distinct(Indices(plans))
    ensures Distinct(Requested(plans))
    decreases |plans|
  {
    if plans != [] {
      var last := |plans| - 1;
      var init := plans[..last];
      assert Indices(plans) == Indices(init) + [plans[last].inputIndex];
      DistinctAppend(Indices(init), plans[last].inputIndex);
      RequestedDistinct(init);
      RequestedAreIndices(init);
      DistinctAppend(Requested(init), plans[last].inputIndex);
      hide Distinct;
      assert Requested(init) + [] == Requested(init);
    }
  }

  lemma {:induction false} RequestedExactly(plans: seq<SigningPlan>, i: nat)
    requires Distinct(Indices(plans)) && i < |plans|
    ensures plans[i].inputIndex in Requested(plans) <==> !plans[i].callerSigned
    decreases |plans|
  {
    var last := |plans| - 1;
    var init := plans[..last];
    assert Indices(plans) == Indices(init) + [plans[last].inputIndex];
    DistinctAppend(Indices(init), plans[last].inputIndex);
    RequestedAreIndices(init);
    assert i < last ==> init[i] == plans[i] && Indices(init)[i] == plans[i].inputIndex;
    if i < last {
      RequestedExactly(init, i);
    }
  }

  /** Exact coverage: every plan that is not caller-signed yields exactly one
      request, caller-signed and backend-managed inputs yield none. The sorting
      of the plans makes no difference. */
  lemma OneRequestPerPlan(b: Bitcoin, packet: Packet, digest: Digest, plans: seq<SigningPlan>, backend: seq<nat>)
    requires PlansOk(b.curve, plans, backend, InputCount(packet))
    requires AllRequests(b, packet, digest, SortPlans(plans)).Some?
    ensures var inputs := InputsOf(AllRequests(b, packet, digest, SortPlans(plans)).value);
            && Distinct(inputs)
            && (forall i | 0 <= i < |plans| :: plans[i].inputIndex in inputs <==> !plans[i].callerSigned)
            && (forall k | k in backend :: k !in inputs)
  {
    hide PlansOk, AllRequests, SortPlans, Distinct;
    SortedPlansOk(b.curve, plans, backend, InputCount(packet));
    OneRequestEach(b, packet, digest, SortPlans(plans), backend);
    SortPlansMembers(plans);
    var sorted, inputs := SortPlans(plans), InputsOf(AllRequests(b, packet, digest, SortPlans(plans)).value);
    forall i | 0 <= i < |plans|
      ensures plans[i].inputIndex in inputs <==> !plans[i].callerSigned
    {
      assert plans[i] in sorted;
      var j :| 0 <= j < |sorted| && sorted[j] == plans[i];
    }
  }

  lemma OneRequestEach(b: Bitcoin, packet: Packet, digest: Digest, plans: seq<SigningPlan>, backend: seq<nat>)
    requires PlansOk(b.curve, plans, backend, InputCount(packet))
    requires AllRequests(b, packet, digest, plans).Some?
    ensures var inputs := InputsOf(AllRequests(b, packet, digest, plans).value);
            && Distinct(inputs)
            && (forall i | 0 <= i < |plans| :: plans[i].inputIndex in inputs <==> !plans[i].callerSigned)
            && (forall k | k in backend :: k !in inputs)
  {
    assert forall i | 0 <= i < |plans| :: PlanOk(b.curve, plans[i]);
    RequestsFollowPlans(b, packet, digest, plans);
    DistinctConcat(Indices(plans), backend);
    RequestedDistinct(plans);
    RequestedAreIndices(plans);
    forall i | 0 <= i < |plans|
      ensures plans[i].inputIndex in Requested(plans) <==> !plans[i].callerSigned
    {
      RequestedExactly(plans, i);
    }
    forall k | k in backend
      ensures k !in Requested(plans)
    {
      assert k in SetOf(backend);
      assert k in Requested(plans) ==> k in SetOf(Indices(plans));
    }
  }

  /** A request ID names its package, its mode and its input. */
  lemma {:induction false} RequestIds(b: Bitcoin, packet: Packet, digest: Digest, plans: seq<SigningPlan>, i: nat)
    requires AllRequests(b, packet, digest, plans).Some?
    requires i < |AllRequests(b, packet, digest, plans).value|
    ensures var r := AllRequests(b, packet, digest, plans).value[i];
            && r.id == OfRequest(digest, r.mode, r.inputIndex)
            && r.context.ScriptContext? == (r.mode == ScriptPath)
            && r.inputIndex in Indices(plans)
    decreases |plans|
  {
    if plans != [] {
      var last := |plans| - 1;
      var before := AllRequests(b, packet, digest, plans[..last]).value;
      assert plans[last].inputIndex == Indices(plans)[last];
      if i < |before| {
        RequestIds(b, packet, digest, plans[..last], i);
        var k :| 0 <= k < last && Indices(plans[..last])[k] == before[i].inputIndex;
        assert Indices(plans)[k] == before[i].inputIndex;
      }
    }
  }

  // ----------------------------------------------------------------- key signatures

  const SIGNATURE_SIZE := 64

  /** `parseCustomAnchorTaprootSignature`: 64 bytes under the default sighash
      type (0), else 65 with the type as the last byte. */
  predicate SignatureShape(signature: seq<byte>, sighashType: nat) {
    && sighashType <= 0xff
    && if sighashType == 0 then |signature| == SIGNATURE_SIZE
       else |signature| == SIGNATURE_SIZE + 1 && signature[SIGNATURE_SIZE] == sighashType
  }

  predicate SignatureOk(b: Bitcoin, signature: seq<byte>, sighashType: nat, sighash: nat, key: Key) {
    SignatureShape(signature, sighashType) && b.schnorr(signature[..SIGNATURE_SIZE], sighash, key)
  }

  /** `verifyTaprootKeyPathSignature`. */
  predicate KeySignatureOk(b: Bitcoin, signature: seq<byte>, c: Context) {
    c.KeyContext? && b.outputKey(c.prevOutScript).Some? &&
    SignatureOk(b, signature, c.sighashType, c.sighash, b.outputKey(c.prevOutScript).value)
  }

  // -------------------------------------------------------- script-path authorisation

  predicate SignatureSized(element: seq<byte>) {
    |element| == SIGNATURE_SIZE || |element| == SIGNATURE_SIZE + 1
  }

  predicate SignerAccepts(b: Bitcoin, element: seq<byte>, c: Context, signer: Key)
    requires c.ScriptContext?
  {
    SignatureOk(b, element, c.sighashType, c.sighash, signer)
  }

  /** Signer `s` is the first declared signer the element verifies for. */
  predicate FirstMatch(b: Bitcoin, element: seq<byte>, c: Context, s: nat)
    requires c.ScriptContext?
  {
    && s < |c.requiredSigners| && SignerAccepts(b, element, c, c.requiredSigners[s])
    && (forall i | 0 <= i < s :: !SignerAccepts(b, element, c, c.requiredSigners[i]))
  }

  /** The element verifies for some declared signer. */
  ghost predicate Claimed(b: Bitcoin, element: seq<byte>, c: Context)
    requires c.ScriptContext?
  {
    exists s: nat :: FirstMatch(b, element, c, s)
  }

  /** Some element is matched to signer `s`. */
  ghost predicate Covered(b: Bitcoin, elements: seq<seq<byte>>, c: Context, s: nat)
    requires c.ScriptContext?
  {
    exists w: nat :: w < |elements| && SignatureSized(elements[w]) && FirstMatch(b, elements[w], c, s)
  }

  /** What the greedy scan accepts. */
  ghost predicate Authorised(b: Bitcoin, elements: seq<seq<byte>>, c: Context)
    requires c.ScriptContext?
  {
    && (forall w | 0 <= w < |elements| && SignatureSized(elements[w]) :: Claimed(b, elements[w], c))
    && (forall s: nat | s < |c.requiredSigners| :: Covered(b, elements, c, s))
  }

  /** `verifyRequiredScriptPathSignatures`. */
  method VerifyRequiredSignatures(b: Bitcoin, elements: seq<seq<byte>>, c: Context) returns (ok: bool)
    requires c.ScriptContext?
    ensures ok <==> Authorised(b, elements, c)
  {
    hide FirstMatch, SignerAccepts;
    var matched: set<nat> := {};
    for w := 0 to |elements|
      invariant forall v | 0 <= v < w && SignatureSized(elements[v]) :: Claimed(b, elements[v], c)
      invariant forall s: nat | s in matched :: Covered(b, elements, c, s)
      invariant forall v, s: nat | 0 <= v < w && SignatureSized(elements[v]) && FirstMatch(b, elements[v], c, s) ::
                  s in matched
    {
      if SignatureSized(elements[w]) {
        var found := MatchSigner(b, elements[w], c);
        if found.None? {
          return false;
        }
        assert Covered(b, elements, c, found.value);
        matched := matched + {found.value};
      }
    }
    for s := 0 to |c.requiredSigners|
      invariant forall k: nat | k < s :: k in matched
    {
      if s !in matched {
        assert !Covered(b, elements, c, s);
        return false;
      }
    }
    ok := true;
  }

  method MatchSigner(b: Bitcoin, element: seq<byte>, c: Context) returns (r: Option<nat>)
    requires c.ScriptContext?
    ensures r.None? ==> forall s: nat :: !FirstMatch(b, element, c, s)
    ensures r.Some? ==> FirstMatch(b, element, c, r.value)
    ensures r.Some? ==> forall s: nat | FirstMatch(b, element, c, s) :: s == r.value
  {
    for s := 0 to |c.requiredSigners|
      invariant forall i | 0 <= i < s :: !SignerAccepts(b, element, c, c.requiredSigners[i])
    {
      if SignerAccepts(b, element, c, c.requiredSigners[s]) {
        return Some(s);
      }
    }
    r := None;
  }

  /** The positions that authorise the first `n` signers. */
  lemma {:induction false} Positions(b: Bitcoin, elements: seq<seq<byte>>, c: Context, n: nat)
    returns (position: seq<nat>)
    requires c.ScriptContext? && Authorised(b, elements, c) && n <= |c.requiredSigners|
    ensures |position| == n
    ensures forall s | 0 <= s < n :: position[s] < |elements| && FirstMatch(b, elements[position[s]], c, s)
    decreases n
  {
    if n == 0 {
      position := [];
    } else {
      position := Positions(b, elements, c, n - 1);
      assert Covered(b, elements, c, n - 1);
      var w: nat :| w < |elements| && SignatureSized(elements[w]) && FirstMatch(b, elements[w], c, n - 1);
      position := position + [w];
    }
  }

  /** If the scan accepts, distinct required signers are authorised by distinct
      witness positions, and every signature-sized element verifies for a
      declared signer. */
  lemma AuthorisedInjectively(b: Bitcoin, elements: seq<seq<byte>>, c: Context) returns (position: seq<nat>)
    requires c.ScriptContext? && Authorised(b, elements, c)
    ensures |position| == |c.requiredSigners| && Distinct(position)
    ensures forall s | 0 <= s < |position| ::
              position[s] < |elements| && SignerAccepts(b, elements[position[s]], c, c.requiredSigners[s])
    ensures forall w | 0 <= w < |elements| && SignatureSized(elements[w]) ::
              exists s :: 0 <= s < |c.requiredSigners| && SignerAccepts(b, elements[w], c, c.requiredSigners[s])
  {
    position := Positions(b, elements, c, |c.requiredSigners|);
    forall s, s' | 0 <= s < s' < |position|
      ensures position[s] != position[s']
    {
      assert FirstMatch(b, elements[position[s]], c, s) && FirstMatch(b, elements[position[s']], c, s');
    }
    forall w | 0 <= w < |elements| && SignatureSized(elements[w])
      ensures exists s :: 0 <= s < |c.requiredSigners| && SignerAccepts(b, elements[w], c, c.requiredSigners[s])
    {
      assert Claimed(b, elements[w], c);
      var s: nat :| FirstMatch(b, elements[w], c, s);
      assert SignerAccepts(b, elements[w], c, c.requiredSigners[s]);
    }
  }

  /** The element verifies for at most one declared signer. */
  ghost predicate Unambiguous(b: Bitcoin, element: seq<byte>, c: Context)
    requires c.ScriptContext?
  {
    forall s, s' | 0 <= s < s' < |c.requiredSigners| ::
      !(SignerAccepts(b, element, c, c.requiredSigners[s]) && SignerAccepts(b, element, c, c.requiredSigners[s']))
  }

  ghost predicate SignedBy(b: Bitcoin, elements: seq<seq<byte>>, c: Context, signer: Key)
    requires c.ScriptContext?
  {
    exists w :: 0 <= w < |elements| && SignerAccepts(b, elements[w], c, signer)
  }

  ghost predicate SignsFor(b: Bitcoin, element: seq<byte>, c: Context)
    requires c.ScriptContext?
  {
    exists s :: 0 <= s < |c.requiredSigners| && SignerAccepts(b, element, c, c.requiredSigners[s])
  }

  /** Where no element verifies for two declared signers the scan is complete:
      it accepts exactly when every signer signed and nothing else did. */
  lemma AuthorisedExactly(b: Bitcoin, elements: seq<seq<byte>>, c: Context)
    requires c.ScriptContext?
    requires forall w | 0 <= w < |elements| :: Unambiguous(b, elements[w], c)
    ensures Authorised(b, elements, c) <==>
            && (forall w | 0 <= w < |elements| && SignatureSized(elements[w]) :: SignsFor(b, elements[w], c))
            && (forall s | 0 <= s < |c.requiredSigners| :: SignedBy(b, elements, c, c.requiredSigners[s]))
  {
    forall w, s: nat | 0 <= w < |elements| && s < |c.requiredSigners|
      ensures SignerAccepts(b, elements[w], c, c.requiredSigners[s]) <==> FirstMatch(b, elements[w], c, s)
      ensures FirstMatch(b, elements[w], c, s) ==> SignatureSized(elements[w])
    {
      assert Unambiguous(b, elements[w], c);
    }
    forall w | 0 <= w < |elements|
      ensures SignsFor(b, elements[w], c) <==> Claimed(b, elements[w], c)
    {
    }
    forall s: nat | s < |c.requiredSigners|
      ensures SignedBy(b, elements, c, c.requiredSigners[s]) <==> Covered(b, elements, c, s)
    {
    }
  }

  // ------------------------------------------------------ final witnesses and plans

  const ANNEX_TAG := 0x50

  predicate HasAnnex(w: seq<seq<byte>>) {
    |w| >= 2 && w[|w| - 1] != [] && w[|w| - 1][0] == ANNEX_TAG
  }

  /** The witness uses the sealed path of its request. */
  ghost predicate Satisfies(b: Bitcoin, r: Request, w: seq<seq<byte>>) {
    if r.mode == ScriptPath then
      && r.context.ScriptContext? && |w| >= 2
      && w[|w| - 2] == r.context.leafScript && w[|w| - 1] == r.context.controlBlock
      && b.tapscriptOk(r.context.leafScript) && Authorised(b, w[..|w| - 2], r.context)
    else |w| == 1 && KeySignatureOk(b, w[0], r.context)
  }

  method CheckSatisfies(b: Bitcoin, r: Request, w: seq<seq<byte>>) returns (ok: bool)
    ensures ok <==> Satisfies(b, r, w)
  {
    if r.mode != ScriptPath {
      return |w| == 1 && KeySignatureOk(b, w[0], r.context);
    }
    if !r.context.ScriptContext? || |w| < 2 ||
       w[|w| - 2] != r.context.leafScript || w[|w| - 1] != r.context.controlBlock ||
       !b.tapscriptOk(r.context.leafScript) {
      return false;
    }
    ok := VerifyRequiredSignatures(b, w[..|w| - 2], r.context);
  }

  /** What a final witness must be for the plan of its input. */
  ghost predicate FollowsPlan(b: Bitcoin, packet: Packet, digest: Digest, p: SigningPlan, w: seq<seq<byte>>) {
    !HasAnnex(w) &&
    match RequestOf(b, packet, digest, p)
    case Failed => false
    case Skipped => w != []
    case Derived(r) => Satisfies(b, r, w)
  }

  method IndexByInput(requests: seq<Request>) returns (m: map<nat, Request>)
    ensures forall k | k in m :: m[k] in requests && m[k].inputIndex == k
    ensures forall r | r in requests :: r.inputIndex in m
  {
    m := map[];
    for i := 0 to |requests|
      invariant forall k | k in m :: m[k] in requests && m[k].inputIndex == k
      invariant forall j | 0 <= j < i :: requests[j].inputIndex in m
    {
      m := m[requests[i].inputIndex := requests[i]];
    }
  }

  lemma {:induction false} OfModeMembers(requests: seq<Request>, mode: Mode)
    ensures forall r :: r in OfMode(requests, mode) <==> r in requests && r.mode == mode
    decreases |requests|
  {
    if requests != [] {
      OfModeMembers(requests[..|requests| - 1], mode);
      assert requests == requests[..|requests| - 1] + [requests[|requests| - 1]];
    }
  }

  /** The derived requests are exactly what the plans contribute. */
  lemma {:induction false} RequestsOfPlans(b: Bitcoin, packet: Packet, digest: Digest, plans: seq<SigningPlan>)
    requires AllRequests(b, packet, digest, plans).Some?
    ensures forall i | 0 <= i < |plans| :: !RequestOf(b, packet, digest, plans[i]).Failed?
    ensures forall r :: r in AllRequests(b, packet, digest, plans).value <==>
                        exists i :: 0 <= i < |plans| && RequestOf(b, packet, digest, plans[i]) == Derived(r)
    decreases |plans|
  {
    hide RequestOf;
    if plans != [] {
      var last := |plans| - 1;
      var init := plans[..last];
      RequestsOfPlans(b, packet, digest, init);
      var before := AllRequests(b, packet, digest, init).value;
      assert forall i | 0 <= i < last :: init[i] == plans[i];
      forall r
        ensures r in AllRequests(b, packet, digest, plans).value <==>
                exists i :: 0 <= i < |plans| && RequestOf(b, packet, digest, plans[i]) == Derived(r)
      {
        if exists i :: 0 <= i < |plans| && RequestOf(b, packet, digest, plans[i]) == Derived(r) {
          var i :| 0 <= i < |plans| && RequestOf(b, packet, digest, plans[i]) == Derived(r);
          assert i < last ==> RequestOf(b, packet, digest, init[i]) == Derived(r);
        }
      }
    }
  }

  /** Every input has exactly one plan, or is managed by the backend. */
  lemma PlanOfInput(plans: seq<SigningPlan>, backend: seq<nat>, inputCount: nat, k: nat) returns (i: nat)
    requires Partition(plans, backend, inputCount) && k < inputCount && k !in backend
    ensures i < |plans| && plans[i].inputIndex == k
  {
    assert k in SetOf(Indices(plans) + backend);
    var j :| 0 <= j < |Indices(plans) + backend| && (Indices(plans) + backend)[j] == k;
    i := j;
  }

  lemma PlansDiffer(plans: seq<SigningPlan>, backend: seq<nat>, inputCount: nat)
    requires Partition(plans, backend, inputCount)
    ensures forall i, j | 0 <= i < j < |plans| :: plans[i].inputIndex != plans[j].inputIndex
    ensures forall i | 0 <= i < |plans| :: plans[i].inputIndex < inputCount && plans[i].inputIndex !in backend
  {
    var all := Indices(plans) + backend;
    assert forall i | 0 <= i < |plans| :: all[i] == plans[i].inputIndex && all[i] in SetOf(all);
    assert forall j | 0 <= j < |backend| :: all[|plans| + j] == backend[j];
  }

  /** `verifyFinalAnchorSigningPlans`. The source's last case, an input without
      a sealed plan, cannot occur: the plans partition the inputs. */
  method VerifyFinalPlans(b: Bitcoin, packet: Packet, plans: seq<SigningPlan>, backend: seq<nat>, digest: Digest,
                          witnesses: seq<seq<seq<byte>>>) returns (ok: bool)
    requires |witnesses| == |packet.tx.ins| < 0x1_0000_0000
    ensures ok <==>
            && PlansOk(b.curve, plans, backend, InputCount(packet)) && b.prevOutsKnown(packet)
            && AllRequests(b, packet, digest, SortPlans(plans)).Some?
            && (forall i | 0 <= i < |plans| :: plans[i].inputIndex < |witnesses| &&
                  FollowsPlan(b, packet, digest, plans[i], witnesses[plans[i].inputIndex]))
  {
    hide FollowsPlan, AllRequests, OfMode, PlanOk, Partition, SortPlans;
    var requests := DeriveRequests(b, packet, plans, backend, digest);
    if requests.None? {
      return false;
    }
    ghost var sorted := SortPlans(plans);
    ghost var all := AllRequests(b, packet, digest, sorted).value;
    SortedPlansOk(b.curve, plans, backend, InputCount(packet));
    SortPlansMembers(plans);
    PlansDiffer(sorted, backend, InputCount(packet));
    var lookup := LookupRequests(requests.value, all);
    for idx := 0 to |witnesses|
      invariant forall k | 0 <= k < idx :: InputFollows(b, packet, digest, sorted, k, witnesses[k])
    {
      if idx !in backend {
        ghost var i := PlanOfInput(sorted, backend, InputCount(packet), idx);
        var follows := CheckFinalInput(b, packet, digest, sorted, i, lookup, idx, witnesses[idx]);
        if !follows {
          assert sorted[i] in plans;
          return false;
        }
      }
      assert InputFollows(b, packet, digest, sorted, idx, witnesses[idx]);
    }
    forall i | 0 <= i < |plans|
      ensures plans[i].inputIndex < |witnesses| &&
              FollowsPlan(b, packet, digest, plans[i], witnesses[plans[i].inputIndex])
    {
      assert plans[i] in sorted;
      var j :| 0 <= j < |sorted| && sorted[j] == plans[i];
      assert InputFollows(b, packet, digest, sorted, plans[i].inputIndex, witnesses[plans[i].inputIndex]);
    }
    ok := true;
  }

  ghost predicate InputFollows(b: Bitcoin, packet: Packet, digest: Digest, plans: seq<SigningPlan>, k: nat,
                               w: seq<seq<byte>>) {
    forall i | 0 <= i < |plans| && plans[i].inputIndex == k :: FollowsPlan(b, packet, digest, plans[i], w)
  }

  /** One input of the final transaction; `i` is its plan. */
  method CheckFinalInput(b: Bitcoin, packet: Packet, ghost digest: Digest, ghost plans: seq<SigningPlan>, ghost i: nat,
                         lookup: map<nat, Request>, idx: nat, w: seq<seq<byte>>) returns (ok: bool)
    requires i < |plans| && plans[i].inputIndex == idx && AllRequests(b, packet, digest, plans).Some?
    requires forall j, k | 0 <= j < k < |plans| :: plans[j].inputIndex != plans[k].inputIndex
    requires forall k | k in lookup ::
               lookup[k] in AllRequests(b, packet, digest, plans).value && lookup[k].inputIndex == k
    requires forall r | r in AllRequests(b, packet, digest, plans).value :: r.inputIndex in lookup
    ensures ok <==> FollowsPlan(b, packet, digest, plans[i], w)
  {
    hide RequestOf, Satisfies, AllRequests;
    RequestOfInput(b, packet, digest, plans, i);
    if HasAnnex(w) {
      return false;
    }
    if idx in lookup {
      ok := CheckSatisfies(b, lookup[idx], w);
    } else {
      assert RequestOf(b, packet, digest, plans[i]).Skipped?;
      ok := w != [];
    }
  }

  /** The request an input's plan contributed is the only one for that input. */
  lemma RequestOfInput(b: Bitcoin, packet: Packet, digest: Digest, plans: seq<SigningPlan>, i: nat)
    requires i < |plans| && AllRequests(b, packet, digest, plans).Some?
    requires forall j, k | 0 <= j < k < |plans| :: plans[j].inputIndex != plans[k].inputIndex
    ensures var all := AllRequests(b, packet, digest, plans).value;
            match RequestOf(b, packet, digest, plans[i])
            case Failed => false
            case Skipped => forall r | r in all :: r.inputIndex != plans[i].inputIndex
            case Derived(r) => r in all && r.inputIndex == plans[i].inputIndex &&
                               forall r' | r' in all && r'.inputIndex == r.inputIndex :: r' == r
  {
    hide AllRequests;
    RequestsOfPlans(b, packet, digest, plans);
    var all := AllRequests(b, packet, digest, plans).value;
    forall r | r in all && r.inputIndex == plans[i].inputIndex
      ensures RequestOf(b, packet, digest, plans[i]) == Derived(r)
    {
      var j :| 0 <= j < |plans| && RequestOf(b, packet, digest, plans[j]) == Derived(r);
      assert plans[j].inputIndex == r.inputIndex;
    }
  }

  /** The three maps the source builds over the request groups, as one. */
  method LookupRequests(requests: Requests, ghost all: seq<Request>) returns (m: map<nat, Request>)
    requires requests == Grouped(all)
    ensures forall k | k in m :: m[k] in all && m[k].inputIndex == k
    ensures forall r | r in all :: r.inputIndex in m
  {
    hide OfMode;
    OfModeMembers(all, KeyPath);
    OfModeMembers(all, MuSig2);
    OfModeMembers(all, ScriptPath);
    var keyPath := IndexByInput(requests.keyPath);
    var muSig2 := IndexByInput(requests.muSig2);
    var scriptPath := IndexByInput(requests.scriptPath);
    m := scriptPath + muSig2 + keyPath;
    forall r | r in all
      ensures r.inputIndex in m
    {
      match r.mode
      case KeyPath => assert r in requests.keyPath;
      case MuSig2 => assert r in requests.muSig2;
      case ScriptPath => assert r in requests.scriptPath;
    }
  }
}
