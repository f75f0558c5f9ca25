/** The package object itself: every operation works on a clone, so the
    receiver is never changed (custom_anchor_package.go,
    custom_anchor_signing.go). */
module TransferPackage {
  import opened Wrappers
  import opened Bytes
  import opened AnchorPsbt
  import opened SigningPlans
  import opened SigningRequests
  import opened SigningPackage
  import opened SigningRuns
  import PackageMappings

  class CustomAnchorTransferPackage {
    var schemaVersion: nat
    var planId: nat
    var details: Details
    var committedAnchor: Option<Packet>
    var anchor: Option<Packet>
    var signingPlans: seq<SigningPlan>
    var backendManaged: seq<nat>
    var committedDigest: Digest
    var unsignedTxDigest: Digest
    var packageDigest: Digest

    function View(): Package
      reads this
    {
      Package(schemaVersion, planId, details, committedAnchor, anchor, signingPlans, backendManaged,
              committedDigest, unsignedTxDigest, packageDigest)
    }

    constructor (view: Package)
      ensures View() == view
    {
      schemaVersion, planId, details := view.schemaVersion, view.planId, view.details;
      committedAnchor, anchor := view.committed, view.anchor;
      signingPlans, backendManaged := view.plans, view.backend;
      committedDigest, unsignedTxDigest, packageDigest :=
        view.committedDigest, view.unsignedTxDigest, view.packageDigest;
    }

    method Clone() returns (clone: CustomAnchorTransferPackage)
      ensures fresh(clone) && clone.View() == View()
    {
      clone := new CustomAnchorTransferPackage(View());
    }

    method RefreshDigest()
      requires anchor.Some? && committedAnchor.Some?
      modifies this`packageDigest
      ensures packageDigest == CurrentDigest(old(View()))
    {
      packageDigest := CurrentDigest(View());
    }

    /** Stores a packet the way `serializeAnchorPSBT` does. */
    method StoreAnchor(packet: Packet)
      requires anchor.Some? && committedAnchor.Some?
      modifies this`anchor, this`packageDigest
      ensures View() == WithAnchor(old(View()), packet)
    {
      anchor := Some(Normalise(packet));
      RefreshDigest();
    }

    method Validate(e: Rules) returns (ok: bool)
      ensures ok <==> Valid(e, View())
    {
      hide Canonical, KeepsMetadata, PlansOk, DetailsOk;
      if schemaVersion != SCHEMA_VERSION || planId == 0 || anchor.None? || committedAnchor.None? ||
         details.mappings.active == [] {
        return false;
      }
      var committed, current := committedAnchor.value, anchor.value;
      if !WellFormed(committed) || !WellFormed(current) || !e.structure(Content(View(), committed)) {
        return false;
      }
      var detailsOk := CheckDetails(e, details, committed);
      if !detailsOk {
        return false;
      }
      var plansOk := CheckPlans(e.bitcoin.curve, signingPlans, backendManaged, InputCount(committed));
      if !plansOk || unsignedTxDigest != OfUnsignedTx(committed.tx) {
        return false;
      }
      var sameTx := CompareUnsigned(committed.tx, current.tx);
      if !sameTx || !KeepsMetadata(committed, current) || committedDigest != CommittedDigest(View()) {
        return false;
      }
      ok := packageDigest == CurrentDigest(View());
    }

    method Seal(e: Rules) returns (r: Option<CustomAnchorTransferPackage>)
      ensures r.Some? <==> SigningPackage.Seal(e, View()).Some?
      ensures r.Some? ==> fresh(r.value) && r.value.View() == SigningPackage.Seal(e, View()).value
    {
      hide Valid, Sealed, WellFormed;
      if anchor.None? || !WellFormed(anchor.value) {
        return None;
      }
      var sealed := Clone();
      sealed.Canonicalise();
      var ok := sealed.Validate(e);
      r := if ok then Some(sealed) else None;
    }

    /** The rewriting half of `Seal`, on the clone. */
    method Canonicalise()
      requires anchor.Some?
      modifies this
      ensures View() == Sealed(old(View()))
    {
      hide CommittedDigest, CurrentDigest;
      CanonicaliseFields();
      committedDigest := CommittedDigest(View());
      RefreshDigest();
    }

    method CanonicaliseFields()
      requires anchor.Some?
      modifies this
      ensures View() == Base(old(View()))
    {
      hide Canonical, SortPlans, SortIndices;
      schemaVersion := SCHEMA_VERSION;
      anchor := Some(Canonical(anchor.value, false));
      committedAnchor := if committedAnchor.None? then anchor else Some(Canonical(committedAnchor.value, false));
      signingPlans := SortPlans(signingPlans);
      backendManaged := SortIndices(backendManaged);
      unsignedTxDigest := OfUnsignedTx(committedAnchor.value.tx);
    }

    method SigningRequests(e: Rules) returns (r: Option<Requests>)
      ensures r == RequestsOf(e, View())
    {
      hide Valid, AllRequests, Grouped, PlansOk, DetailsOk;
      var ok := Validate(e);
      if !ok {
        return None;
      }
      ValidInputs(e, View());
      PlansOfValid(e, View());
      r := DeriveRequests(e.bitcoin, committedAnchor.value, signingPlans, backendManaged, committedDigest);
    }

    method ApplyKeyPathSignature(e: Rules, id: Digest, signature: seq<byte>)
      returns (r: Option<CustomAnchorTransferPackage>)
      ensures r.Some? <==> ApplyKey(e, View(), id, signature).Some?
      ensures r.Some? ==> fresh(r.value) && r.value.View() == ApplyKey(e, View(), id, signature).value
    {
      hide Valid, RequestsOf, KeySignatureOk, WithAnchor, FindKeyRequest;
      var requests := SigningRequests(e);
      if requests.None? {
        return None;
      }
      RequestsNeedValid(e, View());
      var request := FindKey(requests.value, id);
      if request.None? || !KeySignatureOk(e.bitcoin, signature, request.value.context) {
        return None;
      }
      var i := request.value.inputIndex;
      KeyRequestFacts(e, View(), id);
      var clone := Clone();
      var packet := clone.anchor.value;
      var input := packet.inputs[i];
      if input.IsFinal() || (input.keySpendSig != [] && input.keySpendSig != signature) {
        return None;
      }
      clone.StoreAnchor(WithInput(packet, i, input.(keySpendSig := signature)));
      var ok := clone.Validate(e);
      r := if ok then Some(clone) else None;
    }

    method ApplyScriptPathWitness(e: Rules, id: Digest, elements: seq<seq<byte>>)
      returns (r: Option<CustomAnchorTransferPackage>)
      ensures r.Some? <==> ApplyScript(e, View(), id, elements).Some?
      ensures r.Some? ==> fresh(r.value) && r.value.View() == ApplyScript(e, View(), id, elements).value
    {
      hide Valid, RequestsOf, WithAnchor;
      var requests := SigningRequests(e);
      if requests.None? {
        return None;
      }
      RequestsNeedValid(e, View());
      var request := Find(requests.value.scriptPath, id);
      if request.None? {
        return None;
      }
      ScriptRequestFacts(e, View(), id);
      var i := request.value.inputIndex;
      var clone := Clone();
      var packet := clone.anchor.value;
      var input := packet.inputs[i];
      if input.keySpendSig != [] {
        return None;
      }
      var stack := elements + [request.value.context.leafScript];
      stack := stack + [request.value.context.controlBlock];
      assert stack == Stack(elements, request.value.context);
      if !e.bitcoin.prevOutsKnown(packet) || !e.bitcoin.executes(packet, i, stack) {
        return None;
      }
      var final := e.bitcoin.encodeWitness(stack);
      if input.finalWitness != [] && input.finalWitness != final {
        return None;
      }
      clone.StoreAnchor(WithInput(packet, i, input.(finalWitness := final)));
      var ok := clone.Validate(e);
      r := if ok then Some(clone) else None;
    }

    method WithFinalAnchorPSBT(e: Rules, final: Packet) returns (r: Option<CustomAnchorTransferPackage>)
      requires e.bitcoin.Valid() && |final.tx.ins| < 0x1_0000_0000 && WellFormed(final)
      ensures r.Some? <==> WithFinal(e, View(), final).Some?
      ensures r.Some? ==> fresh(r.value) && r.value.View() == WithFinal(e, View(), final).value
    {
      hide Valid, RequestsOf, WithAnchor, WithFinals;
      var valid := Validate(e);
      if !valid {
        return None;
      }
      ValidInputs(e, View());
      var committed := committedAnchor.value;
      var sameTx := CompareUnsigned(committed.tx, final.tx);
      if !sameTx || |committed.inputs| != |final.inputs| {
        return None;
      }
      var packet := WithFinals(committed, final);
      var witnesses := e.bitcoin.extract(packet);
      if witnesses.None? {
        return None;
      }
      assert |witnesses.value| == |final.tx.ins| by { WithFinalsKeeps(committed, final); }
      var finalOk := CheckFinal(e, packet, witnesses.value);
      if !finalOk {
        return None;
      }
      var clone := Clone();
      clone.StoreAnchor(packet);
      var ok := clone.Validate(e);
      r := if ok then Some(clone) else None;
    }

    /** The plans, then the consensus rules for every input. */
    method CheckFinal(e: Rules, packet: Packet, witnesses: seq<seq<seq<byte>>>) returns (ok: bool)
      requires Valid(e, View()) && committedAnchor.Some?
      requires |witnesses| == |committedAnchor.value.tx.ins| < 0x1_0000_0000
      ensures ok <==> FinalOk(e, View(), packet, witnesses)
    {
      hide Valid, FollowsPlan, PlansOk, DetailsOk, AllRequests, Grouped;
      PlansOfValid(e, View());
      var plansOk := VerifyFinalPlans(e.bitcoin, committedAnchor.value, signingPlans, backendManaged,
                                      committedDigest, witnesses);
      if !plansOk {
        return false;
      }
      ok := ExecuteAll(e.bitcoin, packet, witnesses);
    }
  }

  /** `verifyFinalAnchorWitnesses`. */
  method ExecuteAll(b: Bitcoin, packet: Packet, witnesses: seq<seq<seq<byte>>>) returns (ok: bool)
    ensures ok <==> forall k | 0 <= k < |witnesses| :: b.executes(packet, k, witnesses[k])
  {
    for k := 0 to |witnesses|
      invariant forall j | 0 <= j < k :: b.executes(packet, j, witnesses[j])
    {
      if !b.executes(packet, k, witnesses[k]) {
        return false;
      }
    }
    ok := true;
  }

  method CheckDetails(e: Rules, details: Details, committed: Packet) returns (ok: bool)
    ensures ok <==> DetailsOk(e, details, committed)
  {
    hide PackageMappings.MappingsOk;
    var m := details.mappings;
    ok := PackageMappings.ValidateMappings(e.library, e.checks(committed), m.active, m.passive,
                                           |committed.tx.ins|, |committed.tx.outs|, m.inputs, m.outputs, m.updates);
  }

  lemma WithFinalsKeeps(committed: Packet, final: Packet)
    requires |committed.inputs| == |final.inputs|
    ensures |WithFinals(committed, final).inputs| == |final.inputs|
  {
  }

  lemma PlansOfValid(e: Rules, s: Package)
    requires Valid(e, s)
    ensures s.committed.Some?
    ensures PlansOk(e.bitcoin.curve, s.plans, s.backend, InputCount(s.committed.value))
  {
    hide Canonical, KeepsMetadata, PlansOk, DetailsOk;
  }

  lemma RequestsNeedValid(e: Rules, s: Package)
    requires RequestsOf(e, s).Some?
    ensures Valid(e, s) && s.committed.Some? && s.anchor.Some?
  {
    hide Canonical, KeepsMetadata, PlansOk, DetailsOk, AllRequests, Grouped;
  }

  method FindKey(requests: Requests, id: Digest) returns (r: Option<Request>)
    ensures r == FindKeyRequest(requests, id)
  {
    r := Find(requests.keyPath, id);
    if r.None? {
      r := Find(requests.muSig2, id);
    }
  }

  /** The first request with this ID. */
  method Find(requests: seq<Request>, id: Digest) returns (r: Option<Request>)
    ensures r == FindRequest(requests, id)
  {
    var i := 0;
    while i < |requests|
      invariant i <= |requests| && FindRequest(requests, id) == FindRequest(requests[i..], id)
    {
      assert requests[i..][1..] == requests[i + 1..];
      if requests[i].id == id {
        return Some(requests[i]);
      }
      i := i + 1;
    }
    r := None;
  }
}
