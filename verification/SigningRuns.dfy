/** What applying signatures and witnesses to a sealed package can and cannot
    do: the exact conditions of each step, and what every run of steps keeps
    (custom_anchor_signing.go, custom_anchor_package.go). */
module SigningRuns {
  import opened Wrappers
  import opened Bytes
  import opened AnchorPsbt
  import opened SigningPlans
  import opened SigningRequests
  import opened SigningPackage
  import PackageMappings

  // ------------------------------------------------------------ members of the request set

  predicate InGroups(requests: Requests, r: Request) {
    r in requests.keyPath || r in requests.muSig2 || r in requests.scriptPath
  }

  /** The request set of a package groups what its sorted plans contribute. */
  lemma DerivedRequests(e: Rules, s: Package)
    requires RequestsOf(e, s).Some?
    ensures Valid(e, s) && s.committed.Some? && s.anchor.Some? && WellFormed(s.anchor.value)
    ensures PlansOk(e.bitcoin.curve, s.plans, s.backend, InputCount(s.committed.value))
    ensures var all := AllRequests(e.bitcoin, s.committed.value, s.committedDigest, SortPlans(s.plans));
            all.Some? && RequestsOf(e, s) == Some(Grouped(all.value))
  {
    hide KeepsMetadata, Canonical, PlansOk, DetailsOk, AllRequests, Grouped, SortPlans, InputCount;
  }

  /** Every request of a package carries its committed digest, its own mode and
      an input the current PSBT has. */
  lemma RequestFacts(e: Rules, s: Package, r: Request)
    requires RequestsOf(e, s).Some? && InGroups(RequestsOf(e, s).value, r)
    ensures r.id == OfRequest(s.committedDigest, r.mode, r.inputIndex)
    ensures r.context.ScriptContext? == (r.mode == ScriptPath)
    ensures r in RequestsOf(e, s).value.scriptPath <==> r.mode == ScriptPath
    ensures r.inputIndex < |s.anchor.value.inputs|
  {
    hide PlanOk, AllRequests, OfMode, RequestOf, Partition, InputCount, RequestsOf, Valid, InputsKeep, SortPlans;
    DerivedRequests(e, s);
    var b, packet, digest := e.bitcoin, s.committed.value, s.committedDigest;
    var all := AllRequests(b, packet, digest, SortPlans(s.plans)).value;
    SortedPlansOk(b.curve, s.plans, s.backend, InputCount(packet));
    PlansDiffer(SortPlans(s.plans), s.backend, InputCount(packet));
    InputCountFits(packet);
    ValidInputs(e, s);
    GroupMembers(all, r);
    var i :| 0 <= i < |all| && all[i] == r;
    RequestIds(b, packet, digest, SortPlans(s.plans), i);
  }

  lemma InputCountFits(p: Packet)
    ensures InputCount(p) <= |p.tx.ins|
  {
  }

  lemma GroupMembers(all: seq<Request>, r: Request)
    ensures InGroups(Grouped(all), r) <==> r in all
    ensures r in Grouped(all).scriptPath <==> r in all && r.mode == ScriptPath
  {
    OfModeMembers(all, KeyPath);
    OfModeMembers(all, MuSig2);
    OfModeMembers(all, ScriptPath);
  }

  /** No two requests of one package share an ID. */
  lemma RequestsDiffer(e: Rules, s: Package, q: Request, r: Request)
    requires RequestsOf(e, s).Some? && InGroups(RequestsOf(e, s).value, q) && InGroups(RequestsOf(e, s).value, r)
    ensures q.id == r.id ==> q == r
    ensures q.inputIndex == r.inputIndex ==> q == r
  {
    hide PlanOk, AllRequests, OfMode, RequestOf, Partition, InputCount, RequestsOf, Valid, SortPlans;
    RequestFacts(e, s, q);
    RequestFacts(e, s, r);
    DerivedRequests(e, s);
    var b, packet, digest := e.bitcoin, s.committed.value, s.committedDigest;
    var sorted, all := SortPlans(s.plans), AllRequests(b, packet, digest, SortPlans(s.plans)).value;
    SortedPlansOk(b.curve, s.plans, s.backend, InputCount(packet));
    PlansDiffer(sorted, s.backend, InputCount(packet));
    GroupMembers(all, q);
    GroupMembers(all, r);
    RequestsOfPlans(b, packet, digest, sorted);
    var i :| 0 <= i < |sorted| && RequestOf(b, packet, digest, sorted[i]) == Derived(q);
    RequestOfInput(b, packet, digest, sorted, i);
  }

  /** Two packages share a request ID only if they committed to the same
      content, signatures aside; the request is then for the same input in the
      same way. */
  lemma RequestIdNamesContent(e: Rules, s: Package, t: Package, q: Request, r: Request)
    requires RequestsOf(e, s).Some? && InGroups(RequestsOf(e, s).value, q)
    requires RequestsOf(e, t).Some? && InGroups(RequestsOf(e, t).value, r)
    requires q.id == r.id
    ensures Content(s, Canonical(s.committed.value, true)) == Content(t, Canonical(t.committed.value, true))
    ensures q.mode == r.mode && q.inputIndex == r.inputIndex
  {
    RequestFacts(e, s, q);
    RequestFacts(e, t, r);
    hide Canonical, KeepsMetadata, PlansOk, DetailsOk, AllRequests, Grouped;
    assert CommittedDigest(s) == CommittedDigest(t);
  }

  // ------------------------------------------------------ exactly when a step succeeds

  lemma KeyRequestFacts(e: Rules, s: Package, id: Digest)
    requires KeyRequest(e, s, id).Some?
    ensures KeyRequest(e, s, id).value.inputIndex < |s.anchor.value.inputs|
  {
    hide RequestsOf;
    RequestFacts(e, s, KeyRequest(e, s, id).value);
  }

  lemma ScriptRequestFacts(e: Rules, s: Package, id: Digest)
    requires ScriptRequest(e, s, id).Some?
    ensures ScriptRequest(e, s, id).value.inputIndex < |s.anchor.value.inputs|
    ensures ScriptRequest(e, s, id).value.context.ScriptContext?
  {
    hide RequestsOf;
    RequestFacts(e, s, ScriptRequest(e, s, id).value);
  }

  /** The current PSBT still holds exactly the signatures the committed one had. */
  predicate SameSignatures(committed: PInput, current: PInput) {
    && committed.partialSigs == current.partialSigs
    && committed.scriptSpendSigs == current.scriptSpendSigs
    && committed.keySpendSig == current.keySpendSig
  }

  /** Storing a key signature keeps the metadata exactly when nothing is final
      yet, or the committed packet already had that signature. */
  lemma KeyKeepsExactly(committed: Packet, current: Packet, i: nat, signature: seq<byte>)
    requires SameFrame(committed, current) && InputsKeep(committed, current) && i < |current.inputs|
    requires !current.inputs[i].IsFinal()
    ensures InputsKeep(committed, WithInput(current, i, current.inputs[i].(keySpendSig := signature))) <==>
            !HasFinal(current) || committed.inputs[i].keySpendSig == signature
  {
    var next := WithInput(current, i, current.inputs[i].(keySpendSig := signature));
    assert forall j | 0 <= j < |current.inputs| :: next.inputs[j].IsFinal() == current.inputs[j].IsFinal();
    assert HasFinal(next) == HasFinal(current);
    assert forall j | 0 <= j < |current.inputs| && j != i :: next.inputs[j] == current.inputs[j];
    var was, now := committed.inputs[i], next.inputs[i];
    if HasFinal(current) {
      assert OnlyFinals(was, current.inputs[i]);
      assert OnlyFinals(was, now) <==> was.keySpendSig == signature;
    } else {
      assert OnlySignatures(was, current.inputs[i]);
      assert OnlySignatures(was, now);
    }
  }

  /** Storing a final witness keeps the metadata exactly when something is final
      already, or every other input still has only its committed signatures. */
  lemma ScriptKeepsExactly(committed: Packet, current: Packet, i: nat, final: seq<byte>)
    requires SameFrame(committed, current) && InputsKeep(committed, current) && i < |current.inputs|
    requires final != []
    ensures InputsKeep(committed, WithInput(current, i, current.inputs[i].(finalWitness := final))) <==>
            || HasFinal(current)
            || forall j | 0 <= j < |current.inputs| && j != i ::
                 SameSignatures(committed.inputs[j], current.inputs[j])
  {
    var next := WithInput(current, i, current.inputs[i].(finalWitness := final));
    assert next.inputs[i].IsFinal();
    assert forall j | 0 <= j < |current.inputs| && j != i :: next.inputs[j] == current.inputs[j];
    assert HasFinal(current) ==> OnlyFinals(committed.inputs[i], current.inputs[i]);
    assert !HasFinal(current) ==> OnlySignatures(committed.inputs[i], current.inputs[i]);
    assert OnlyFinals(committed.inputs[i], next.inputs[i]);
    forall j | 0 <= j < |current.inputs| && j != i
      ensures !HasFinal(current) ==>
                (OnlyFinals(committed.inputs[j], next.inputs[j]) <==>
                 SameSignatures(committed.inputs[j], current.inputs[j]))
    {
      if !HasFinal(current) {
        assert !current.inputs[j].IsFinal();
        assert OnlySignatures(committed.inputs[j], current.inputs[j]);
      }
    }
  }

  /** What the current PSBT must be for a key signature to be stored. */
  ghost predicate KeyFits(committed: Packet, current: Packet, i: nat, signature: seq<byte>)
    requires |committed.inputs| == |current.inputs|
  {
    && i < |current.inputs| && !current.inputs[i].IsFinal()
    && (current.inputs[i].keySpendSig == [] || current.inputs[i].keySpendSig == signature)
    && (!HasFinal(current) || committed.inputs[i].keySpendSig == signature)
  }

  lemma StoreKeyExactly(e: Rules, s: Package, i: nat, signature: seq<byte>)
    requires Valid(e, s) && i < |s.anchor.value.inputs|
    ensures |s.committed.value.inputs| == |s.anchor.value.inputs|
    ensures StoreKey(e, s, i, signature).Some? <==> KeyFits(s.committed.value, s.anchor.value, i, signature)
  {
    hide Valid, InputsKeep, HasFinal, WithAnchor;
    ValidInputs(e, s);
    var input := s.anchor.value.inputs[i];
    NextValidExactly(e, s, WithInput(s.anchor.value, i, input.(keySpendSig := signature)));
    if !input.IsFinal() {
      KeyKeepsExactly(s.committed.value, s.anchor.value, i, signature);
    }
  }

  /** `ApplyKeyPathSignature` succeeds exactly when the request is known, the
      signature verifies, the input is open, it has no other signature, and
      either nothing is final yet or the committed packet had that signature. */
  lemma ApplyKeyExactly(e: Rules, s: Package, id: Digest, signature: seq<byte>)
    requires Valid(e, s)
    ensures |s.committed.value.inputs| == |s.anchor.value.inputs|
    ensures ApplyKey(e, s, id, signature).Some? <==>
            && KeyRequest(e, s, id).Some?
            && KeySignatureOk(e.bitcoin, signature, KeyRequest(e, s, id).value.context)
            && KeyFits(s.committed.value, s.anchor.value, KeyRequest(e, s, id).value.inputIndex, signature)
  {
    hide KeySignatureOk, Valid, InputsKeep, HasFinal, StoreKey, KeyFits, KeyRequest;
    ValidInputs(e, s);
    if KeyRequest(e, s, id).Some? {
      KeyRequestFacts(e, s, id);
      StoreKeyExactly(e, s, KeyRequest(e, s, id).value.inputIndex, signature);
    }
  }

  /** What the current PSBT must be for a final witness to be stored. */
  ghost predicate WitnessFits(committed: Packet, current: Packet, i: nat, final: seq<byte>)
    requires |committed.inputs| == |current.inputs|
  {
    && i < |current.inputs| && current.inputs[i].keySpendSig == []
    && (current.inputs[i].finalWitness == [] || current.inputs[i].finalWitness == final)
    && (HasFinal(current) || forall j | 0 <= j < |current.inputs| && j != i ::
          SameSignatures(committed.inputs[j], current.inputs[j]))
  }

  lemma StoreWitnessExactly(e: Rules, s: Package, i: nat, stack: seq<seq<byte>>)
    requires Valid(e, s) && i < |s.anchor.value.inputs| && e.bitcoin.encodeWitness(stack) != []
    ensures |s.committed.value.inputs| == |s.anchor.value.inputs|
    ensures StoreWitness(e, s, i, stack).Some? <==>
            && e.bitcoin.prevOutsKnown(s.anchor.value)
            && e.bitcoin.executes(s.anchor.value, i, stack)
            && WitnessFits(s.committed.value, s.anchor.value, i, e.bitcoin.encodeWitness(stack))
  {
    hide Valid, InputsKeep, HasFinal, WithAnchor, SameSignatures;
    ValidInputs(e, s);
    var final := e.bitcoin.encodeWitness(stack);
    NextValidExactly(e, s, WithInput(s.anchor.value, i, s.anchor.value.inputs[i].(finalWitness := final)));
    ScriptKeepsExactly(s.committed.value, s.anchor.value, i, final);
  }

  /** `ApplyScriptPathWitness` succeeds exactly when the request is known, the
      witness executes, the input has no key signature and no other witness, and
      either something is final already or no other input was signed. */
  lemma ApplyScriptExactly(e: Rules, s: Package, id: Digest, elements: seq<seq<byte>>)
    requires Valid(e, s) && e.bitcoin.Valid()
    ensures |s.committed.value.inputs| == |s.anchor.value.inputs|
    ensures ScriptRequest(e, s, id).Some? ==> ScriptRequest(e, s, id).value.context.ScriptContext?
    ensures ApplyScript(e, s, id, elements).Some? <==>
            && ScriptRequest(e, s, id).Some?
            && var r := ScriptRequest(e, s, id).value;
               var stack := Stack(elements, r.context);
               && e.bitcoin.prevOutsKnown(s.anchor.value)
               && e.bitcoin.executes(s.anchor.value, r.inputIndex, stack)
               && WitnessFits(s.committed.value, s.anchor.value, r.inputIndex, e.bitcoin.encodeWitness(stack))
  {
    hide Valid, InputsKeep, StoreWitness, WitnessFits, Stack, ScriptRequest;
    ValidInputs(e, s);
    if ScriptRequest(e, s, id).Some? {
      ScriptRequestFacts(e, s, id);
      var r := ScriptRequest(e, s, id).value;
      StoreWitnessExactly(e, s, r.inputIndex, Stack(elements, r.context));
    }
  }

  /** `WithFinalAnchorPSBT` replaces the current PSBT: once the final packet
      follows the plans, the metadata check behind it cannot fail. */
  lemma WithFinalExactly(e: Rules, s: Package, final: Packet)
    requires Valid(e, s)
    ensures WithFinal(e, s, final).Some? <==>
            && Sanitize(s.committed.value, final).Some?
            && var packet := Sanitize(s.committed.value, final).value;
               && e.bitcoin.extract(packet).Some?
               && FinalOk(e, s, packet, e.bitcoin.extract(packet).value)
    ensures WithFinal(e, s, final).Some? ==>
              WithFinal(e, s, final).value.anchor == Some(Normalise(Sanitize(s.committed.value, final).value))
  {
    hide Valid, FinalOk;
    ValidInputs(e, s);
    if Sanitize(s.committed.value, final).Some? {
      var packet := Sanitize(s.committed.value, final).value;
      assert forall i | 0 <= i < |packet.inputs| ::
          OnlyFinals(s.committed.value.inputs[i], packet.inputs[i])
          && OnlySignatures(s.committed.value.inputs[i], packet.inputs[i]);
      NextValidExactly(e, s, packet);
    }
  }

  // ------------------------------------------------------ what a successful step changes

  /** Only the current PSBT and its digest differ, and of the PSBT at most input
      `i`, apart from what storing a final input drops. */
  ghost predicate OnlyInput(s: Package, t: Package, i: nat) {
    && s.anchor.Some? && t.anchor.Some? && t == s.(anchor := t.anchor, packageDigest := t.packageDigest)
    && var was, now := s.anchor.value, t.anchor.value;
       && SameFrame(was, now) && i < |now.inputs|
       && forall j | 0 <= j < |now.inputs| && j != i :: now.inputs[j] == was.inputs[j].Normal()
  }

  lemma ReplacedInput(s: Package, i: nat, input: PInput)
    requires s.committed.Some? && s.anchor.Some? && i < |s.anchor.value.inputs|
    ensures var t := WithAnchor(s, WithInput(s.anchor.value, i, input));
            OnlyInput(s, t, i) && t.anchor.value.inputs[i] == input.Normal()
  {
    hide CurrentDigest;
    var packet := WithInput(s.anchor.value, i, input);
    NormaliseInputs(packet);
    assert forall j | 0 <= j < |packet.inputs| && j != i :: packet.inputs[j] == s.anchor.value.inputs[j];
  }

  /** A key signature changes one field of one input, which stays open. */
  lemma ApplyKeyEffect(e: Rules, s: Package, id: Digest, signature: seq<byte>)
    requires ApplyKey(e, s, id, signature).Some?
    ensures var t, i := ApplyKey(e, s, id, signature).value, KeyRequest(e, s, id).value.inputIndex;
            && OnlyInput(s, t, i) && i < |s.anchor.value.inputs|
            && t.anchor.value.inputs[i] == s.anchor.value.inputs[i].(keySpendSig := signature)
            && !t.anchor.value.inputs[i].IsFinal()
  {
    hide Valid, KeyRequest, WithAnchor, KeySignatureOk, OnlyInput;
    var i := KeyRequest(e, s, id).value.inputIndex;
    ReplacedInput(s, i, s.anchor.value.inputs[i].(keySpendSig := signature));
  }

  /** A final witness is stored on one input, which keeps only what is always
      serialised. */
  lemma ApplyScriptEffect(e: Rules, s: Package, id: Digest, elements: seq<seq<byte>>)
    requires e.bitcoin.Valid() && ApplyScript(e, s, id, elements).Some?
    ensures var t, r := ApplyScript(e, s, id, elements).value, ScriptRequest(e, s, id).value;
            && r.context.ScriptContext? && OnlyInput(s, t, r.inputIndex) && r.inputIndex < |s.anchor.value.inputs|
            && var was, final := s.anchor.value.inputs[r.inputIndex],
                                 e.bitcoin.encodeWitness(elements + [r.context.leafScript, r.context.controlBlock]);
               t.anchor.value.inputs[r.inputIndex] == PInput(was.kept, [], [], [], [], was.finalScriptSig, final)
  {
    hide Valid, ScriptRequest, WithAnchor, OnlyInput;
    var r := ScriptRequest(e, s, id).value;
    var final := e.bitcoin.encodeWitness(Stack(elements, r.context));
    assert final != [] by { assert e.bitcoin.Valid(); }
    ReplacedInput(s, r.inputIndex, s.anchor.value.inputs[r.inputIndex].(finalWitness := final));
  }

  /** A final PSBT contributes its final fields; everything else comes from the
      committed packet. */
  lemma WithFinalEffect(e: Rules, s: Package, final: Packet)
    requires WithFinal(e, s, final).Some?
    ensures var t := WithFinal(e, s, final).value;
            && s.committed.Some? && t == s.(anchor := t.anchor, packageDigest := t.packageDigest)
            && t.anchor.Some? && SameFrame(s.committed.value, t.anchor.value)
            && |final.inputs| == |t.anchor.value.inputs|
            && forall i | 0 <= i < |final.inputs| ::
                 t.anchor.value.inputs[i] ==
                 s.committed.value.inputs[i].(finalScriptSig := final.inputs[i].finalScriptSig,
                                              finalWitness := final.inputs[i].finalWitness).Normal()
  {
    hide Valid, FinalOk, CurrentDigest, InputsKeep;
    ValidInputs(e, s);
    NormaliseInputs(Sanitize(s.committed.value, final).value);
  }

  /** Two committed packets agree but for signatures and final fields. */
  predicate SameButSignatures(a: Packet, b: Packet) {
    && a.tx == b.tx && a.outputs == b.outputs && a.globals == b.globals && |a.inputs| == |b.inputs|
    && forall i | 0 <= i < |a.inputs| ::
         a.inputs[i].kept == b.inputs[i].kept && a.inputs[i].nonFinal == b.inputs[i].nonFinal
  }

  /** The committed digest names exactly the committed content: whatever is signed
      or finalised in either packet makes no difference, anything else does. */
  lemma CommittedDigestExactly(s: Package, t: Package)
    requires s.committed.Some? && t.committed.Some?
    ensures CommittedDigest(s) == CommittedDigest(t) <==>
            && s.schemaVersion == t.schemaVersion && s.planId == t.planId && s.details == t.details
            && s.plans == t.plans && s.backend == t.backend
            && SameButSignatures(s.committed.value, t.committed.value)
  {
    var a, b := s.committed.value, t.committed.value;
    StrippedInputs(a);
    StrippedInputs(b);
    hide Canonical;
    if |a.inputs| == |b.inputs| {
      assert Canonical(a, true).inputs == Canonical(b, true).inputs <==>
             forall i | 0 <= i < |a.inputs| :: a.inputs[i].Stripped() == b.inputs[i].Stripped();
    }
  }

  lemma StrippedInputs(p: Packet)
    ensures Canonical(p, true).(inputs := p.inputs) == p && |Canonical(p, true).inputs| == |p.inputs|
    ensures forall i | 0 <= i < |p.inputs| :: Canonical(p, true).inputs[i] == p.inputs[i].Stripped()
  {
  }

  /** A package digest names the whole package: committed content, both other
      digests and, as stored, the current PSBT. */
  lemma PackageDigestNamesPackage(e: Rules, s: Package, t: Package)
    requires Valid(e, s) && Valid(e, t) && s.packageDigest == t.packageDigest
    ensures s.anchor.Some? && t.anchor.Some? && Normalise(s.anchor.value) == Normalise(t.anchor.value)
    ensures t == s.(anchor := t.anchor)
  {
    hide Normalise, KeepsMetadata, PlansOk, DetailsOk, CommittedDigest;
  }

  // ------------------------------------------------------------------ runs of steps

  datatype Step =
    | Sign(id: Digest, signature: seq<byte>)
    | Satisfy(id: Digest, elements: seq<seq<byte>>)
    | Finalise(packet: Packet)

  ghost function Next(e: Rules, s: Package, step: Step): Option<Package> {
    match step
    case Sign(id, signature) => ApplyKey(e, s, id, signature)
    case Satisfy(id, elements) => ApplyScript(e, s, id, elements)
    case Finalise(packet) => WithFinal(e, s, packet)
  }

  ghost function Run(e: Rules, s: Package, steps: seq<Step>): Option<Package> {
    if steps == [] then Some(s) else
    var last := |steps| - 1;
    match Run(e, s, steps[..last])
    case None => None
    case Some(t) => Next(e, t, steps[last])
  }

  /** Same committed package: only the current PSBT and its digest differ. */
  ghost predicate SameCommitment(e: Rules, s: Package, t: Package)
    requires s.anchor.Some?
  {
    && t == s.(anchor := t.anchor, packageDigest := t.packageDigest)
    && Valid(e, t)
    && t.anchor.value.tx == s.anchor.value.tx
    && RequestsOf(e, t) == RequestsOf(e, s)
  }

  lemma WithAnchorCommitment(e: Rules, s: Package, packet: Packet)
    requires Valid(e, s) && Valid(e, WithAnchor(s, packet))
    ensures SameCommitment(e, s, WithAnchor(s, packet))
  {
    hide Canonical, Normalise, KeepsMetadata, PlansOk, DetailsOk, AllRequests, Grouped;
  }

  lemma StepKeepsCommitment(e: Rules, s: Package, step: Step)
    requires Valid(e, s) && Next(e, s, step).Some?
    ensures SameCommitment(e, s, Next(e, s, step).value)
  {
    hide RequestsOf, Valid, WithAnchor, SameCommitment, FinalOk, KeySignatureOk, KeyRequest, ScriptRequest;
    hide InputsKeep, Sanitize, Stack;
    ValidInputs(e, s);
    forall packet | Valid(e, s) && Valid(e, WithAnchor(s, packet))
      ensures SameCommitment(e, s, WithAnchor(s, packet))
    {
      WithAnchorCommitment(e, s, packet);
    }
  }

  /** Over every run of successful steps: the package stays valid; the committed
      digest, the unsigned transaction and its digest, the plans and the whole
      request set with its IDs never change. */
  lemma {:induction false} RunKeepsCommitment(e: Rules, s: Package, steps: seq<Step>)
    requires Valid(e, s) && Run(e, s, steps).Some?
    ensures SameCommitment(e, s, Run(e, s, steps).value)
    decreases |steps|
  {
    hide Valid, Next, RequestsOf;
    if steps != [] {
      var last := |steps| - 1;
      RunKeepsCommitment(e, s, steps[..last]);
      StepKeepsCommitment(e, Run(e, s, steps[..last]).value, steps[last]);
    }
  }

  /** An input moves on without losing what was applied to it. */
  predicate Settled(was: PInput, now: PInput) {
    && now.finalScriptSig == was.finalScriptSig
    && (was.finalWitness != [] ==> now.finalWitness == was.finalWitness)
    && (was.keySpendSig != [] && !was.IsFinal() ==> now.keySpendSig == was.keySpendSig && !now.IsFinal())
  }

  predicate AllSettled(was: Packet, now: Packet) {
    && |was.inputs| == |now.inputs|
    && forall i | 0 <= i < |was.inputs| :: Settled(was.inputs[i], now.inputs[i])
  }

  /** The step's own effect is in the packet. */
  ghost predicate Applied(e: Rules, s: Package, step: Step, packet: Packet) {
    match step
    case Sign(id, signature) =>
      && KeyRequest(e, s, id).Some?
      && var i := KeyRequest(e, s, id).value.inputIndex;
         && i < |packet.inputs| && signature != []
         && packet.inputs[i].keySpendSig == signature && !packet.inputs[i].IsFinal()
    case Satisfy(id, elements) =>
      && ScriptRequest(e, s, id).Some? && ScriptRequest(e, s, id).value.context.ScriptContext?
      && var r := ScriptRequest(e, s, id).value;
         && r.inputIndex < |packet.inputs| && packet.inputs[r.inputIndex].finalWitness != []
         && packet.inputs[r.inputIndex].finalWitness == e.bitcoin.encodeWitness(Stack(elements, r.context))
    case Finalise(_) => false
  }

  lemma ReplaceSettles(packet: Packet, i: nat, input: PInput)
    requires i < |packet.inputs| && Settled(packet.inputs[i], input)
    ensures AllSettled(packet, Normalise(WithInput(packet, i, input)))
    ensures Normalise(WithInput(packet, i, input)).inputs[i] == input.Normal()
  {
    var next := Normalise(WithInput(packet, i, input));
    NormaliseInputs(WithInput(packet, i, input));
    assert forall j | 0 <= j < |packet.inputs| && j != i :: next.inputs[j] == packet.inputs[j].Normal();
  }

  lemma SignApplies(e: Rules, s: Package, id: Digest, signature: seq<byte>)
    requires Valid(e, s) && ApplyKey(e, s, id, signature).Some?
    ensures var t := ApplyKey(e, s, id, signature).value;
            t.anchor.Some? && AllSettled(s.anchor.value, t.anchor.value) &&
            Applied(e, s, Sign(id, signature), t.anchor.value)
  {
    hide Valid, AllSettled, Normalise, CurrentDigest, KeyRequest, InputsKeep;
    ValidInputs(e, s);
    var i := KeyRequest(e, s, id).value.inputIndex;
    var input := s.anchor.value.inputs[i];
    ReplaceSettles(s.anchor.value, i, input.(keySpendSig := signature));
    NormaliseKeepsFrame(WithInput(s.anchor.value, i, input.(keySpendSig := signature)));
  }

  lemma StoreWitnessSettles(e: Rules, s: Package, i: nat, stack: seq<seq<byte>>)
    requires s.committed.Some? && s.anchor.Some? && StoreWitness(e, s, i, stack).Some?
    ensures var t := StoreWitness(e, s, i, stack).value;
            && t.anchor.Some? && AllSettled(s.anchor.value, t.anchor.value)
            && i < |t.anchor.value.inputs|
            && t.anchor.value.inputs[i].finalWitness == e.bitcoin.encodeWitness(stack)
  {
    hide Valid, AllSettled, Normalise, CurrentDigest;
    var input := s.anchor.value.inputs[i].(finalWitness := e.bitcoin.encodeWitness(stack));
    ReplaceSettles(s.anchor.value, i, input);
    NormaliseKeepsFrame(WithInput(s.anchor.value, i, input));
  }

  lemma SatisfyApplies(e: Rules, s: Package, id: Digest, elements: seq<seq<byte>>)
    requires Valid(e, s) && e.bitcoin.Valid() && ApplyScript(e, s, id, elements).Some?
    ensures var t := ApplyScript(e, s, id, elements).value;
            t.anchor.Some? && AllSettled(s.anchor.value, t.anchor.value) &&
            Applied(e, s, Satisfy(id, elements), t.anchor.value)
  {
    hide Valid, AllSettled, StoreWitness, Stack, ScriptRequest, InputsKeep;
    ValidInputs(e, s);
    var r := ScriptRequest(e, s, id).value;
    var stack := Stack(elements, r.context);
    assert e.bitcoin.encodeWitness(stack) != [] by { assert e.bitcoin.Valid(); }
    StoreWitnessSettles(e, s, r.inputIndex, stack);
  }

  /** Nothing applied in a run of Apply steps is ever replaced: at its end every
      signature and every witness the run applied is still there. */
  lemma {:induction false} NothingIsReplaced(e: Rules, s: Package, steps: seq<Step>, k: nat)
    requires Valid(e, s) && e.bitcoin.Valid() && Run(e, s, steps).Some?
    requires forall i | 0 <= i < |steps| :: !steps[i].Finalise?
    requires k < |steps|
    ensures Run(e, s, steps).value.anchor.Some?
    ensures Applied(e, s, steps[k], Run(e, s, steps).value.anchor.value)
    decreases |steps|
  {
    hide Valid, RequestsOf, ApplyKey, ApplyScript, WithFinal, FindRequest, FindKeyRequest, AllSettled, Stack;
    var last := |steps| - 1;
    var step, t := steps[last], Run(e, s, steps[..last]).value;
    RunKeepsCommitment(e, s, steps[..last]);
    if step.Sign? {
      SignApplies(e, t, step.id, step.signature);
    } else {
      SatisfyApplies(e, t, step.id, step.elements);
    }
    if k < last {
      NothingIsReplaced(e, s, steps[..last], k);
      AppliedSettles(e, s, steps[k], t.anchor.value, Run(e, s, steps).value.anchor.value);
    }
  }

  lemma AppliedSettles(e: Rules, s: Package, step: Step, was: Packet, now: Packet)
    requires Applied(e, s, step, was) && AllSettled(was, now)
    ensures Applied(e, s, step, now)
  {
    hide KeyRequest, ScriptRequest;
  }

  /** The committed packet as a wallet hands it over: nothing signed yet. */
  predicate Unsigned(p: Packet) {
    forall i | 0 <= i < |p.inputs| :: p.inputs[i] == p.inputs[i].Stripped()
  }

  /** No valid package over an unsigned committed packet holds a final witness
      and, on another input, a key signature. */
  lemma NeverMixed(e: Rules, s: Package, i: nat)
    requires Valid(e, s) && Unsigned(s.committed.value)
    requires HasFinal(s.anchor.value)
    requires i < |s.anchor.value.inputs| && !s.anchor.value.inputs[i].IsFinal()
    ensures s.anchor.value.inputs[i].keySpendSig == []
  {
    hide Valid, HasFinal;
    ValidInputs(e, s);
    assert OnlyFinals(s.committed.value.inputs[i], s.anchor.value.inputs[i]);
  }

  /** So no run of Apply steps mixes key-path and script-path signing: a package
      that needs both can only be completed through `WithFinalAnchorPSBT`. */
  lemma ApplyNeverMixes(e: Rules, s: Package, steps: seq<Step>)
    requires Valid(e, s) && e.bitcoin.Valid() && Unsigned(s.committed.value) && Run(e, s, steps).Some?
    requires forall i | 0 <= i < |steps| :: !steps[i].Finalise?
    ensures (forall k | 0 <= k < |steps| :: steps[k].Sign?) || (forall k | 0 <= k < |steps| :: steps[k].Satisfy?)
  {
    hide Valid, RequestsOf, Next, Unsigned, FindRequest, FindKeyRequest;
    var t := Run(e, s, steps).value;
    RunKeepsCommitment(e, s, steps);
    forall k, m | 0 <= k < |steps| && 0 <= m < |steps| && steps[k].Sign?
      ensures steps[m].Sign?
    {
      NothingIsReplaced(e, s, steps, k);
      NothingIsReplaced(e, s, steps, m);
      if !steps[m].Sign? {
        var i := KeyRequest(e, s, steps[k].id).value.inputIndex;
        assert t.anchor.value.inputs[ScriptRequest(e, s, steps[m].id).value.inputIndex].IsFinal();
        NeverMixed(e, t, i);
      }
    }
  }

  // ---------------------------------------------------------- mappings of a package

  /** The entry lies on a virtual input or output that exists. */
  predicate OnSlot(s: PackageMappings.Summary, active: seq<nat>, passive: seq<nat>) {
    || PackageMappings.InRange(s.Position(), PackageMappings.ACTIVE, active)
    || PackageMappings.InRange(s.Position(), PackageMappings.PASSIVE, passive)
  }

  /** Every virtual index a package mentions is in range. */
  predicate IndicesInRange(m: Mappings) {
    && (forall i | 0 <= i < |m.inputs| ::
          OnSlot(m.inputs[i], PackageMappings.InputCounts(m.active), PackageMappings.InputCounts(m.passive)))
    && (forall i | 0 <= i < |m.outputs| ::
          OnSlot(m.outputs[i], PackageMappings.OutputCounts(m.active), PackageMappings.OutputCounts(m.passive)))
    && (forall i | 0 <= i < |m.updates| ::
          OnSlot(m.updates[i], PackageMappings.OutputCounts(m.active), PackageMappings.OutputCounts(m.passive)))
  }

  /** Input summaries biject with virtual inputs; output summaries and proof
      updates both biject with virtual outputs. */
  ghost predicate MappingsBiject(m: Mappings) {
    && PackageMappings.Bijection(m.inputs, PackageMappings.InputSlots(m.active, m.passive))
    && PackageMappings.Bijection(m.outputs, PackageMappings.OutputSlots(m.active, m.passive))
    && PackageMappings.Bijection(m.updates, PackageMappings.OutputSlots(m.active, m.passive))
  }

  lemma ValidMappings(e: Rules, s: Package)
    requires Valid(e, s)
    ensures MappingsBiject(s.details.mappings) && IndicesInRange(s.details.mappings)
  {
    hide KeepsMetadata, PlansOk, Canonical, PackageMappings.Bijection, PackageMappings.AllEntriesOk;
    hide PackageMappings.AllInputsOk, PackageMappings.AllOutputsOk;
    var m, c := s.details.mappings, s.committed.value;
    PackageMappings.VirtualIndicesInRange(e.library, e.checks(c), m.active, m.passive, |c.tx.ins|, |c.tx.outs|,
                                          m.inputs, m.outputs, m.updates);
  }

  /** In a valid package, and after every run of steps on it, the summaries and
      updates are in one-to-one correspondence with the virtual inputs and
      outputs, and every index is in range. */
  lemma MappingsOverRuns(e: Rules, s: Package, steps: seq<Step>)
    requires Valid(e, s) && Run(e, s, steps).Some?
    ensures Run(e, s, steps).value.details == s.details
    ensures MappingsBiject(s.details.mappings) && IndicesInRange(s.details.mappings)
  {
    RunKeepsCommitment(e, s, steps);
    hide Valid, Run, RequestsOf, MappingsBiject, IndicesInRange;
    ValidMappings(e, s);
  }
}
