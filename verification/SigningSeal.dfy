/** Sealing: what is left for `Seal` to refuse in a package Commit builds, and
    that a sealed package, signed or not, seals to itself
    (custom_anchor_package.go, custom_anchor_lifecycle.go). */
module SigningSeal {
  import opened Wrappers
  import opened Bytes
  import opened AnchorPsbt
  import opened SigningPlans
  import opened SigningRequests
  import opened SigningPackage
  import opened SigningRuns
  import CommitShape

  // --------------------------------------------------- sealing what Commit builds

  /** The package Commit builds from the PSBT the backend returned: every input
      appended to the submitted transaction is reported as the backend's. */
  function Draft(planId: nat, details: Details, plans: seq<SigningPlan>, before: Tx, response: Packet): Package {
    Package(0, planId, details, None, Some(response), plans, Added(|before.ins|, |response.tx.ins|),
            NoDigest, NoDigest, NoDigest)
  }

  /** What Commit has checked by then: the response has an accepted shape, and
      the plans cover the submitted inputs, as the builder demands. */
  ghost predicate Committed(c: Curve, plans: seq<SigningPlan>, funding: CommitShape.Funding, assets: set<nat>,
                            keys: set<seq<byte>>, before: CommitShape.Anchor, after: CommitShape.Anchor, change: int,
                            response: Packet)
  {
    && before.Parsed() && after.Parsed() && CommitShape.ShapeOk(funding, assets, keys, before, after, change)
    && response.tx == after.tx && WellFormed(response) && |response.tx.ins| < 0x1_0000_0000
    && PlansOk(c, plans, [], |before.tx.ins|)
  }

  /** Commit keeps the coverage exact: in the package it builds, once sealed,
      plans and backend-managed indices classify every input once, so the plan
      check in `Seal` cannot fail. */
  lemma SealPlanCheckPasses(c: Curve, planId: nat, details: Details, plans: seq<SigningPlan>,
                            funding: CommitShape.Funding, assets: set<nat>, keys: set<seq<byte>>,
                            before: CommitShape.Anchor, after: CommitShape.Anchor, change: int, response: Packet)
    requires Committed(c, plans, funding, assets, keys, before, after, change, response)
    ensures var s := Sealed(Draft(planId, details, plans, before.tx, response));
            s.committed.Some? && PlansOk(c, s.plans, s.backend, InputCount(s.committed.value))
  {
    hide PlanOk, Partition, SortPlans, SortIndices, CommittedDigest, CurrentDigest;
    var added := Added(|before.tx.ins|, |after.tx.ins|);
    assert |before.tx.ins| <= |after.tx.ins|;
    CommitKeepsPartition(plans, |before.tx.ins|, |after.tx.ins|);
    SortKeepsPlansOk(c, plans, added, |after.tx.ins|);
  }

  /** What a package that has only a current PSBT becomes; the digests are as
      `Validate` recomputes them. */
  lemma SealedFields(s: Package)
    requires s.anchor.Some? && s.committed.None?
    ensures var t := Sealed(s);
            && t.schemaVersion == SCHEMA_VERSION && t.planId == s.planId && t.details == s.details
            && t.committed == t.anchor == Some(Normalise(s.anchor.value))
            && t.plans == SortPlans(s.plans) && t.backend == SortIndices(s.backend)
            && t.unsignedTxDigest == OfUnsignedTx(t.committed.value.tx)
            && t.committedDigest == CommittedDigest(t) && t.packageDigest == CurrentDigest(t)
  {
    hide Normalise, SortPlans, SortIndices;
  }

  lemma KeepsItself(p: Packet)
    ensures KeepsMetadata(p, p)
  {
    KeepsMetadataExactly(p, p);
  }

  /** Nor can any other check that signing rests on: the digests, the copied
      transaction and the kept metadata are as `Seal` has just made them. What
      Commit builds is sealed exactly when it has a plan ID and an active
      packet, its mappings hold and the funding rules accept it. */
  lemma CommitSealsExactly(e: Rules, planId: nat, details: Details, plans: seq<SigningPlan>,
                           funding: CommitShape.Funding, assets: set<nat>, keys: set<seq<byte>>,
                           before: CommitShape.Anchor, after: CommitShape.Anchor, change: int, response: Packet)
    requires Committed(e.bitcoin.curve, plans, funding, assets, keys, before, after, change, response)
    ensures var s := Draft(planId, details, plans, before.tx, response);
            && Sealed(s).committed == Some(Normalise(response))
            && (Seal(e, s).Some? <==>
                  && planId != 0 && details.mappings.active != []
                  && DetailsOk(e, details, Normalise(response))
                  && e.structure(Content(Sealed(s), Normalise(response))))
  {
    SealPlanCheckPasses(e.bitcoin.curve, planId, details, plans, funding, assets, keys, before, after, change, response);
    hide PlansOk, DetailsOk, KeepsMetadata, SortPlans, SortIndices, CommitShape.ShapeOk, Sealed;
    SealedFields(Draft(planId, details, plans, before.tx, response));
    NormaliseKeepsFrame(response);
    hide Normalise, CommittedDigest, CurrentDigest;
    KeepsItself(Normalise(response));
  }

  // ------------------------------------------------------------------- sealing twice

  lemma CanonicalTwice(p: Packet)
    ensures Normalise(Normalise(p)) == Normalise(p)
    ensures Canonical(Canonical(p, false), false) == Canonical(p, false)
  {
    assert Normalise(Normalise(p)).inputs == Normalise(p).inputs;
  }

  /** Nothing is left for `Seal` to change. */
  predicate Settles(s: Package) {
    && s.anchor.Some? && s.committed.Some?
    && Normalise(s.anchor.value) == s.anchor.value && Normalise(s.committed.value) == s.committed.value
    && PlansSorted(s.plans) && IndicesSorted(s.backend)
  }

  lemma SealSettles(e: Rules, s: Package)
    requires Seal(e, s).Some?
    ensures Valid(e, Seal(e, s).value) && Settles(Seal(e, s).value)
  {
    hide Valid, Normalise, SortPlans, SortIndices;
    CanonicalTwice(s.anchor.value);
    if s.committed.Some? {
      CanonicalTwice(s.committed.value);
    }
    SortPlansSorts(s.plans);
    SortIndicesSorts(s.backend);
  }

  lemma SettledSealsToItself(e: Rules, s: Package)
    requires Valid(e, s) && Settles(s)
    ensures Seal(e, s) == Some(s)
  {
    hide Normalise, SortPlans, SortIndices, KeepsMetadata, PlansOk, DetailsOk, MapInputs;
    SortedPlansStay(s.plans);
    SortedIndicesStay(s.backend);
    assert Canonical(s.anchor.value, false) == s.anchor.value;
    assert Canonical(s.committed.value, false) == s.committed.value;
    assert Sealed(s) == s;
  }

  lemma {:induction false} RunSettles(e: Rules, s: Package, steps: seq<Step>)
    requires Valid(e, s) && Settles(s) && Run(e, s, steps).Some?
    ensures Settles(Run(e, s, steps).value)
    decreases |steps|
  {
    if steps != [] {
      var last := |steps| - 1;
      var t := Run(e, s, steps[..last]).value;
      RunKeepsCommitment(e, s, steps[..last]);
      RunSettles(e, s, steps[..last]);
      hide Valid, RequestsOf, PlansSorted, IndicesSorted, FindRequest, FindKeyRequest, FinalOk, Run, SameCommitment;
      NextNormalises(e, t, steps[last]);
    }
  }

  lemma NextNormalises(e: Rules, s: Package, step: Step)
    requires Valid(e, s) && Next(e, s, step).Some?
    ensures var t := Next(e, s, step).value;
            && t == s.(anchor := t.anchor, packageDigest := t.packageDigest)
            && t.anchor.Some? && Normalise(t.anchor.value) == t.anchor.value
  {
    hide Valid, RequestsOf, Normalise, FindRequest, FindKeyRequest, FinalOk, KeySignatureOk, CurrentDigest, Stack;
    forall packet: Packet
      ensures Normalise(Normalise(packet)) == Normalise(packet)
    {
      CanonicalTwice(packet);
    }
  }

  /** A package sealed once seals to itself, whatever has been applied since. */
  lemma ResealIsIdentity(e: Rules, s: Package, steps: seq<Step>)
    requires Seal(e, s).Some? && Run(e, Seal(e, s).value, steps).Some?
    ensures Seal(e, Run(e, Seal(e, s).value, steps).value) == Run(e, Seal(e, s).value, steps)
  {
    hide Seal, Valid, Settles, Run;
    var sealed := Seal(e, s).value;
    SealSettles(e, s);
    RunKeepsCommitment(e, sealed, steps);
    RunSettles(e, sealed, steps);
    SettledSealsToItself(e, Run(e, sealed, steps).value);
  }

  /** Sealing leaves alone exactly the valid packages whose PSBTs are stored as they
      parse back and whose plans and backend-managed inputs are in ascending order:
      everything else that is sealed is changed, or refused. */
  lemma SealFixesExactly(e: Rules, s: Package)
    ensures Seal(e, s) == Some(s) <==>
            && Valid(e, s)
            && s.anchor.Some? && Normalise(s.anchor.value) == s.anchor.value
            && s.committed.Some? && Normalise(s.committed.value) == s.committed.value
            && (forall i, j | 0 <= i < j < |s.plans| :: s.plans[i].inputIndex <= s.plans[j].inputIndex)
            && (forall i, j | 0 <= i < j < |s.backend| :: s.backend[i] <= s.backend[j])
  {
    hide Valid, Seal, Normalise;
    if Seal(e, s) == Some(s) {
      SealSettles(e, s);
    }
    if Valid(e, s) && Settles(s) {
      SettledSealsToItself(e, s);
    }
  }
}
