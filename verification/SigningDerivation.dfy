/** Signing requests and final witnesses in the terms of plans and the Bitcoin
    library: exactly what each plan asks for, and what answers it
    (custom_anchor_signing.go). */
module SigningDerivation {
  import opened Wrappers
  import opened Bytes
  import opened AnchorPsbt
  import opened SigningPlans
  import opened SigningRequests
  import opened SigningPackage
  import opened SigningRuns

  // -------------------------------------------------------- what a plan asks for

  /** The request the plan asks for in this packet: signed in the plan's own way,
      with what the library gives for the plan's input. */
  ghost predicate Asked(b: Bitcoin, packet: Packet, digest: Digest, p: SigningPlan, r: Request) {
    var i := p.inputIndex;
    || (p.keyPath.Some? && exists sighashType, sighash, script ::
          && b.keySpend(packet, i) == Some((p.keyPath.value, sighashType, sighash, script))
          && r == Request(OfRequest(digest, KeyPath, i), KeyPath, i,
                          KeyContext(p.keyPath.value, sighashType, sighash, script)))
    || (p.muSig2.Some? && exists internal, sighashType, sighash, script ::
          && b.keySpend(packet, i) == Some((internal, sighashType, sighash, script))
          && b.aggregates(internal, p.muSig2.value.participants)
          && r == Request(OfRequest(digest, MuSig2, i), MuSig2, i, KeyContext(internal, sighashType, sighash, script)))
    || (p.scriptPath.Some? && exists sighashType, sighash, leaf, control ::
          && b.leafSpend(packet, i, p.scriptPath.value.leafHash) == Some((sighashType, sighash, leaf, control))
          && b.tapscriptOk(leaf)
          && r == Request(OfRequest(digest, ScriptPath, i), ScriptPath, i,
                          ScriptContext(sighashType, sighash, leaf, control, p.scriptPath.value.requiredSigners)))
  }

  lemma AskedExactly(b: Bitcoin, packet: Packet, digest: Digest, p: SigningPlan)
    requires Variants(p) == 1
    ensures forall r :: RequestOf(b, packet, digest, p) == Derived(r) <==> Asked(b, packet, digest, p, r)
    ensures RequestOf(b, packet, digest, p).Skipped? <==> p.callerSigned
  {
  }

  /** In its own group, and the only request for its input. */
  ghost predicate Sole(q: Requests, r: Request) {
    && (r in q.keyPath <==> r.mode == KeyPath) && (r in q.muSig2 <==> r.mode == MuSig2)
    && (r in q.scriptPath <==> r.mode == ScriptPath)
    && forall r' | InGroups(q, r') && r'.inputIndex == r.inputIndex :: r' == r
  }

  /** Each plan gets what it asks for, in the group of its kind and nowhere else;
      a caller-signed input gets nothing. */
  lemma PlanIsAsked(e: Rules, s: Package, p: SigningPlan)
    requires RequestsOf(e, s).Some? && p in s.plans
    ensures !p.callerSigned ==> exists r ::
              Asked(e.bitcoin, s.committed.value, s.committedDigest, p, r) && Sole(RequestsOf(e, s).value, r)
    ensures p.callerSigned ==> forall r | InGroups(RequestsOf(e, s).value, r) :: r.inputIndex != p.inputIndex
  {
    hide AllRequests, OfMode, RequestOf, Partition, InputCount, RequestsOf, Valid, SortPlans, Asked;
    DerivedRequests(e, s);
    var b, packet, digest := e.bitcoin, s.committed.value, s.committedDigest;
    var sorted := SortPlans(s.plans);
    var all := AllRequests(b, packet, digest, sorted).value;
    SortedPlansOk(b.curve, s.plans, s.backend, InputCount(packet));
    PlansDiffer(sorted, s.backend, InputCount(packet));
    SortPlansMembers(s.plans);
    var i :| 0 <= i < |sorted| && sorted[i] == p;
    RequestOfInput(b, packet, digest, sorted, i);
    AskedExactly(b, packet, digest, p);
    Groups(all);
    if !p.callerSigned {
      assert RequestOf(b, packet, digest, p).Derived?;
      var r := RequestOf(b, packet, digest, p).request;
      assert Asked(b, packet, digest, p, r) && Sole(RequestsOf(e, s).value, r);
    }
  }

  lemma Groups(all: seq<Request>)
    ensures forall r :: r in Grouped(all).keyPath <==> r in all && r.mode == KeyPath
    ensures forall r :: r in Grouped(all).muSig2 <==> r in all && r.mode == MuSig2
    ensures forall r :: r in Grouped(all).scriptPath <==> r in all && r.mode == ScriptPath
  {
    hide OfMode;
    OfModeMembers(all, KeyPath);
    OfModeMembers(all, MuSig2);
    OfModeMembers(all, ScriptPath);
  }

  /** A valid package has its requests exactly when the previous outputs are known
      and the library has what every plan asks for. */
  lemma RequestsExactly(e: Rules, s: Package)
    requires Valid(e, s)
    ensures s.committed.Some?
    ensures RequestsOf(e, s).Some? <==>
            && e.bitcoin.prevOutsKnown(s.committed.value)
            && forall p | p in s.plans && !p.callerSigned ::
                 exists r :: Asked(e.bitcoin, s.committed.value, s.committedDigest, p, r)
  {
    hide AllRequests, RequestOf, Partition, InputCount, KeepsMetadata, Canonical, DetailsOk, SortPlans, Asked;
    var b, packet, digest := e.bitcoin, s.committed.value, s.committedDigest;
    var sorted := SortPlans(s.plans);
    SortPlansMembers(s.plans);
    AllDerived(b, packet, digest, sorted);
    forall p | p in s.plans
      ensures !RequestOf(b, packet, digest, p).Failed? <==>
              p.callerSigned || exists r :: Asked(b, packet, digest, p, r)
    {
      assert PlanOk(b.curve, p);
      AskedExactly(b, packet, digest, p);
    }
    hide PlanOk;
  }

  lemma {:induction false} AllDerived(b: Bitcoin, packet: Packet, digest: Digest, plans: seq<SigningPlan>)
    ensures AllRequests(b, packet, digest, plans).Some? <==>
            forall p | p in plans :: !RequestOf(b, packet, digest, p).Failed?
    decreases |plans|
  {
    hide RequestOf;
    if plans != [] {
      AllDerived(b, packet, digest, plans[..|plans| - 1]);
      assert plans == plans[..|plans| - 1] + [plans[|plans| - 1]];
    }
  }

  predicate InInputOrder(requests: seq<Request>) {
    forall i, j | 0 <= i < j < |requests| :: requests[i].inputIndex < requests[j].inputIndex
  }

  lemma {:induction false} DerivedInOrder(b: Bitcoin, packet: Packet, digest: Digest, plans: seq<SigningPlan>)
    requires AllRequests(b, packet, digest, plans).Some?
    requires forall i, j | 0 <= i < j < |plans| :: plans[i].inputIndex < plans[j].inputIndex
    ensures InInputOrder(AllRequests(b, packet, digest, plans).value)
    ensures forall r | r in AllRequests(b, packet, digest, plans).value ::
              exists i :: 0 <= i < |plans| && r.inputIndex == plans[i].inputIndex
    decreases |plans|
  {
    hide RequestOf;
    if plans != [] {
      var last := |plans| - 1;
      var init := plans[..last];
      DerivedInOrder(b, packet, digest, init);
      var before := AllRequests(b, packet, digest, init).value;
      DerivedInput(b, packet, digest, plans[last]);
      forall r | r in before
        ensures r.inputIndex < plans[last].inputIndex
        ensures exists i :: 0 <= i < |plans| && r.inputIndex == plans[i].inputIndex
      {
        var i :| 0 <= i < |init| && r.inputIndex == init[i].inputIndex;
        assert init[i] == plans[i];
      }
      assert forall i | 0 <= i < |before| :: before[i] in before;
    }
  }

  lemma DerivedInput(b: Bitcoin, packet: Packet, digest: Digest, p: SigningPlan)
    ensures RequestOf(b, packet, digest, p).Derived? ==>
              RequestOf(b, packet, digest, p).request.inputIndex == p.inputIndex
  {
  }

  lemma {:induction false} GroupInOrder(requests: seq<Request>, mode: Mode)
    requires InInputOrder(requests)
    ensures InInputOrder(OfMode(requests, mode))
    decreases |requests|
  {
    if requests != [] {
      var init := requests[..|requests| - 1];
      GroupInOrder(init, mode);
      OfModeMembers(init, mode);
      forall r | r in OfMode(init, mode)
        ensures r.inputIndex < requests[|requests| - 1].inputIndex
      {
        var i :| 0 <= i < |init| && init[i] == r;
      }
    }
  }

  /** Every group lists its requests in the order of their inputs. */
  lemma RequestsInOrder(e: Rules, s: Package)
    requires RequestsOf(e, s).Some?
    ensures var q := RequestsOf(e, s).value;
            InInputOrder(q.keyPath) && InInputOrder(q.muSig2) && InInputOrder(q.scriptPath)
  {
    hide AllRequests, OfMode, Partition, InputCount, RequestsOf, Valid, SortPlans, PlanOk, InInputOrder;
    DerivedRequests(e, s);
    var b, packet, digest, sorted := e.bitcoin, s.committed.value, s.committedDigest, SortPlans(s.plans);
    SortPlansSorts(s.plans);
    SortedPlansOk(b.curve, s.plans, s.backend, InputCount(packet));
    PlansDiffer(sorted, s.backend, InputCount(packet));
    DerivedInOrder(b, packet, digest, sorted);
    var all := AllRequests(b, packet, digest, sorted).value;
    GroupInOrder(all, KeyPath);
    GroupInOrder(all, MuSig2);
    GroupInOrder(all, ScriptPath);
  }

  // ------------------------------------------------------------- key signatures

  /** A 64-byte signature as a witness element: alone under the default sighash
      type, else with the type behind it. */
  function Serialised(signature: seq<byte>, sighashType: nat): seq<byte>
    requires sighashType <= 0xff
  {
    if sighashType == 0 then signature else signature + [sighashType]
  }

  ghost predicate IsSignature(b: Bitcoin, element: seq<byte>, sighashType: nat, sighash: nat, key: Key) {
    sighashType <= 0xff && exists signature ::
      |signature| == 64 && element == Serialised(signature, sighashType) && b.schnorr(signature, sighash, key)
  }

  lemma SignatureExactly(b: Bitcoin, element: seq<byte>, sighashType: nat, sighash: nat, key: Key)
    ensures SignatureOk(b, element, sighashType, sighash, key) <==> IsSignature(b, element, sighashType, sighash, key)
  {
    if SignatureOk(b, element, sighashType, sighash, key) {
      assert element == Serialised(element[..64], sighashType);
    }
    if sighashType <= 0xff {
      forall signature | |signature| == 64 && element == Serialised(signature, sighashType)
        ensures element[..64] == signature
      {
      }
    }
  }

  // ------------------------------------------------------------- final witnesses

  /** One signature by the output key, or the sealed leaf and control block behind
      elements that authorise it. */
  ghost predicate AnswersRequest(b: Bitcoin, r: Request, w: seq<seq<byte>>) {
    match r.context
    case KeyContext(_, sighashType, sighash, script) =>
      b.outputKey(script).Some? && |w| == 1 && IsSignature(b, w[0], sighashType, sighash, b.outputKey(script).value)
    case ScriptContext(_, _, leaf, control, _) =>
      exists elements :: w == elements + [leaf, control] && Authorised(b, elements, r.context)
  }

  /** The witness answers what the plan asks for, or is whatever the caller of a
      caller-signed plan provides. */
  ghost predicate Answers(b: Bitcoin, packet: Packet, digest: Digest, p: SigningPlan, w: seq<seq<byte>>) {
    if p.callerSigned then w != []
    else exists r :: Asked(b, packet, digest, p, r) && AnswersRequest(b, r, w)
  }

  lemma SatisfiesExactly(b: Bitcoin, packet: Packet, digest: Digest, p: SigningPlan, r: Request, w: seq<seq<byte>>)
    requires Asked(b, packet, digest, p, r)
    ensures Satisfies(b, r, w) <==> AnswersRequest(b, r, w)
  {
    hide Authorised, SignatureOk, IsSignature;
    match r.context
    case KeyContext(_, sighashType, sighash, script) =>
      if |w| == 1 && b.outputKey(script).Some? {
        SignatureExactly(b, w[0], sighashType, sighash, b.outputKey(script).value);
      }
    case ScriptContext(_, _, leaf, control, _) =>
      forall elements | w == elements + [leaf, control]
        ensures elements == w[..|w| - 2]
      {
      }
      if |w| >= 2 && w[|w| - 2] == leaf && w[|w| - 1] == control {
        assert w == w[..|w| - 2] + [leaf, control];
      }
  }

  /** A final witness is accepted for its plan exactly when it answers the plan and
      carries no annex. */
  lemma FollowsExactly(b: Bitcoin, packet: Packet, digest: Digest, p: SigningPlan, w: seq<seq<byte>>)
    requires Variants(p) == 1
    ensures FollowsPlan(b, packet, digest, p, w) <==>
            Answers(b, packet, digest, p, w) && !(|w| >= 2 && w[|w| - 1] != [] && w[|w| - 1][0] == 0x50)
  {
    hide RequestOf, Asked, Satisfies, AnswersRequest;
    AskedExactly(b, packet, digest, p);
    match RequestOf(b, packet, digest, p)
    case Failed =>
    case Skipped =>
    case Derived(r) => SatisfiesExactly(b, packet, digest, p, r, w);
  }

  /** The element is a signature by signer `s` and by none declared before. */
  ghost predicate SignedFirstBy(b: Bitcoin, element: seq<byte>, c: Context, s: nat)
    requires c.ScriptContext?
  {
    && s < |c.requiredSigners| && IsSignature(b, element, c.sighashType, c.sighash, c.requiredSigners[s])
    && forall i | 0 <= i < s :: !IsSignature(b, element, c.sighashType, c.sighash, c.requiredSigners[i])
  }

  lemma FirstExactly(b: Bitcoin, element: seq<byte>, c: Context, s: nat)
    requires c.ScriptContext?
    ensures FirstMatch(b, element, c, s) <==> SignedFirstBy(b, element, c, s)
  {
    hide SignatureOk, IsSignature;
    forall key
      ensures SignatureOk(b, element, c.sighashType, c.sighash, key) <==>
              IsSignature(b, element, c.sighashType, c.sighash, key)
    {
      SignatureExactly(b, element, c.sighashType, c.sighash, key);
    }
  }

  /** The scan accepts exactly when every element of 64 or 65 bytes is a signature
      by a declared signer and, each counted for the first it fits, they reach all
      declared signers. */
  lemma ScanExactly(b: Bitcoin, elements: seq<seq<byte>>, c: Context)
    requires c.ScriptContext?
    ensures Authorised(b, elements, c) <==>
            && (forall w | 0 <= w < |elements| && 64 <= |elements[w]| <= 65 ::
                  exists s: nat :: SignedFirstBy(b, elements[w], c, s))
            && (forall s | 0 <= s < |c.requiredSigners| :: Reached(b, elements, c, s))
  {
    hide FirstMatch, SignedFirstBy;
    forall w: nat, s: nat | w < |elements|
      ensures FirstMatch(b, elements[w], c, s) <==> SignedFirstBy(b, elements[w], c, s)
    {
      FirstExactly(b, elements[w], c, s);
    }
    forall w | 0 <= w < |elements|
      ensures Claimed(b, elements[w], c) <==> exists s: nat :: SignedFirstBy(b, elements[w], c, s)
    {
    }
    forall s: nat
      ensures Covered(b, elements, c, s) <==> Reached(b, elements, c, s)
    {
    }
  }

  ghost predicate Reached(b: Bitcoin, elements: seq<seq<byte>>, c: Context, s: nat)
    requires c.ScriptContext?
  {
    exists w: nat :: w < |elements| && 64 <= |elements[w]| <= 65 && SignedFirstBy(b, elements[w], c, s)
  }

  // ------------------------------------------------------ requests and final PSBTs

  /** An ID finds the one request that has it: for a key signature among key-path
      and MuSig2 requests, for a witness among script-path requests. */
  lemma LookupsExactly(e: Rules, s: Package, id: Digest, r: Request)
    ensures KeyRequest(e, s, id) == Some(r) <==>
            && RequestsOf(e, s).Some? && r.id == id
            && (r in RequestsOf(e, s).value.keyPath || r in RequestsOf(e, s).value.muSig2)
    ensures ScriptRequest(e, s, id) == Some(r) <==>
            RequestsOf(e, s).Some? && r.id == id && r in RequestsOf(e, s).value.scriptPath
  {
    hide RequestsOf;
    if RequestsOf(e, s).Some? && r.id == id && InGroups(RequestsOf(e, s).value, r) {
      forall q | InGroups(RequestsOf(e, s).value, q) && q.id == id
        ensures q == r
      {
        RequestsDiffer(e, s, q, r);
      }
    }
  }

  /** The committed packet with the final fields of another one. */
  predicate IsMerged(committed: Packet, final: Packet, packet: Packet) {
    && |committed.inputs| == |final.inputs| == |packet.inputs|
    && packet.tx == committed.tx && packet.outputs == committed.outputs && packet.globals == committed.globals
    && forall i | 0 <= i < |packet.inputs| ::
         packet.inputs[i] == committed.inputs[i].(finalScriptSig := final.inputs[i].finalScriptSig,
                                                  finalWitness := final.inputs[i].finalWitness)
  }

  lemma SanitizedExactly(committed: Packet, final: Packet, packet: Packet)
    ensures Sanitize(committed, final) == Some(packet) <==>
            committed.tx == final.tx && IsMerged(committed, final, packet)
  {
    if committed.tx == final.tx && IsMerged(committed, final, packet) {
      assert packet.inputs == WithFinals(committed, final).inputs;
    }
  }

  /** Without an annex, the witness of every plan's input answers the plan, and the
      witness of every input executes. */
  ghost predicate AllAnswered(e: Rules, s: Package, packet: Packet, witnesses: seq<seq<seq<byte>>>)
    requires s.committed.Some?
  {
    && (forall p | p in s.plans ::
          && p.inputIndex < |witnesses|
          && var w := witnesses[p.inputIndex];
             && Answers(e.bitcoin, s.committed.value, s.committedDigest, p, w)
             && !(|w| >= 2 && w[|w| - 1] != [] && w[|w| - 1][0] == 0x50))
    && (forall k | 0 <= k < |witnesses| :: e.bitcoin.executes(packet, k, witnesses[k]))
  }

  lemma FinalOkExactly(e: Rules, s: Package, packet: Packet, witnesses: seq<seq<seq<byte>>>)
    requires RequestsOf(e, s).Some?
    ensures FinalOk(e, s, packet, witnesses) <==> AllAnswered(e, s, packet, witnesses)
  {
    hide RequestsOf, FollowsPlan, Answers, AllRequests, Partition, Valid;
    RequestsNeedValidity(e, s);
    forall k | 0 <= k < |s.plans| && s.plans[k].inputIndex < |witnesses|
      ensures FollowsPlan(e.bitcoin, s.committed.value, s.committedDigest, s.plans[k], witnesses[s.plans[k].inputIndex])
              <==> var w := witnesses[s.plans[k].inputIndex];
                   && Answers(e.bitcoin, s.committed.value, s.committedDigest, s.plans[k], w)
                   && !(|w| >= 2 && w[|w| - 1] != [] && w[|w| - 1][0] == 0x50)
    {
      ValidPlan(e, s, k);
      FollowsExactly(e.bitcoin, s.committed.value, s.committedDigest, s.plans[k], witnesses[s.plans[k].inputIndex]);
    }
    assert forall k | 0 <= k < |s.plans| :: s.plans[k] in s.plans;
  }

  lemma ValidPlan(e: Rules, s: Package, k: nat)
    requires RequestsOf(e, s).Some? && k < |s.plans|
    ensures Variants(s.plans[k]) == 1
  {
    hide KeepsMetadata, DetailsOk, Partition, AllRequests, CommittedDigest, CurrentDigest;
  }

  /** A final PSBT is accepted exactly when the package has its requests, the
      transaction is the committed one, and in the committed packet with the final
      fields every input is witnessed, as its plan asks and as consensus demands. */
  lemma FinalisesExactly(e: Rules, s: Package, final: Packet)
    ensures WithFinal(e, s, final).Some? <==>
            && RequestsOf(e, s).Some? && s.committed.value.tx == final.tx
            && exists packet, witnesses ::
                 && IsMerged(s.committed.value, final, packet) && e.bitcoin.extract(packet) == Some(witnesses)
                 && AllAnswered(e, s, packet, witnesses)
  {
    hide Valid, RequestsOf, FinalOk, AllAnswered, Sanitize, IsMerged;
    RequestsNeedValidity(e, s);
    if Valid(e, s) {
      WithFinalExactly(e, s, final);
      FinalOkNeedsRequests(e, s);
      forall packet
        ensures Sanitize(s.committed.value, final) == Some(packet) <==>
                s.committed.value.tx == final.tx && IsMerged(s.committed.value, final, packet)
      {
        SanitizedExactly(s.committed.value, final, packet);
      }
      if RequestsOf(e, s).Some? {
        forall packet, witnesses
          ensures FinalOk(e, s, packet, witnesses) <==> AllAnswered(e, s, packet, witnesses)
        {
          FinalOkExactly(e, s, packet, witnesses);
        }
      }
    }
  }

  lemma RequestsNeedValidity(e: Rules, s: Package)
    ensures RequestsOf(e, s).Some? ==> Valid(e, s)
    ensures Valid(e, s) ==> s.committed.Some?
  {
    hide KeepsMetadata, DetailsOk, PlansOk, AllRequests, CommittedDigest, CurrentDigest;
  }

  lemma FinalOkNeedsRequests(e: Rules, s: Package)
    requires s.committed.Some?
    ensures forall packet, witnesses :: FinalOk(e, s, packet, witnesses) ==> RequestsOf(e, s).Some?
  {
    hide RequestsOf;
  }
}
