/** Completing a package by Apply steps alone: when `WithFinalAnchorPSBT` takes
    what they produced (custom_anchor_signing.go, custom_anchor_lifecycle.go). */
module SigningCompletion {
  import opened Wrappers
  import opened Bytes
  import opened AnchorPsbt
  import opened SigningPlans
  import opened SigningRequests
  import opened SigningPackage
  import opened SigningRuns

  // -------------------------------------------------------- the Bitcoin library

  /** The same transaction over the same previous outputs. */
  predicate SameSpend(p: Packet, q: Packet) {
    && p.tx == q.tx && |p.inputs| == |q.inputs|
    && forall i | 0 <= i < |p.inputs| :: p.inputs[i].kept == q.inputs[i].kept
  }

  /** No input carries a script signature, as no native SegWit input does. */
  predicate NoScriptSigs(p: Packet) {
    forall i | 0 <= i < |p.inputs| :: p.inputs[i].finalScriptSig == []
  }

  /** Executing a witness looks at the transaction and its previous outputs, and
      a serialised witness stack can be read in only one way. */
  ghost predicate Faithful(b: Bitcoin) {
    && (forall p, q, i, w | SameSpend(p, q) && NoScriptSigs(p) && NoScriptSigs(q) ::
          b.executes(p, i, w) == b.executes(q, i, w))
    && (forall v, w | b.encodeWitness(v) == b.encodeWitness(w) :: v == w)
  }

  /** The packet is finalised with these witness stacks. */
  predicate Carries(b: Bitcoin, p: Packet, witnesses: seq<seq<seq<byte>>>) {
    && |witnesses| == |p.inputs|
    && forall i | 0 <= i < |p.inputs| :: p.inputs[i].finalWitness == b.encodeWitness(witnesses[i])
  }

  /** Extraction decodes these stacks from a packet finalised with them. */
  ghost predicate ReadsBack(b: Bitcoin, witnesses: seq<seq<seq<byte>>>) {
    forall p | Carries(b, p, witnesses) :: b.extract(p) == Some(witnesses)
  }

  // --------------------------------------------------- what a run leaves unchanged

  ghost predicate OnlySatisfies(steps: seq<Step>) {
    forall k | 0 <= k < |steps| :: steps[k].Satisfy?
  }

  /** A valid package never loses what its committed packet spends. */
  lemma ValidSpends(e: Rules, s: Package)
    requires Valid(e, s)
    ensures s.committed.Some? && s.anchor.Some? && SameSpend(s.committed.value, s.anchor.value)
  {
    hide Valid, HasFinal;
    ValidInputs(e, s);
    var committed, current := s.committed.value, s.anchor.value;
    forall i | 0 <= i < |current.inputs|
      ensures committed.inputs[i].kept == current.inputs[i].kept
    {
      assert OnlyFinals(committed.inputs[i], current.inputs[i]) || OnlySignatures(committed.inputs[i], current.inputs[i]);
    }
  }

  lemma {:induction false} PrefixRuns(e: Rules, s: Package, steps: seq<Step>, k: nat)
    requires Run(e, s, steps).Some? && k <= |steps|
    ensures Run(e, s, steps[..k]).Some?
    decreases |steps|
  {
    hide Next;
    if k == |steps| {
      assert steps[..k] == steps;
    } else {
      var last := |steps| - 1;
      assert steps[..last][..k] == steps[..k];
      PrefixRuns(e, s, steps[..last], k);
    }
  }

  lemma {:induction false} RunKeepsScriptSigs(e: Rules, s: Package, steps: seq<Step>)
    requires Valid(e, s) && e.bitcoin.Valid() && Run(e, s, steps).Some? && OnlySatisfies(steps)
    requires NoScriptSigs(s.anchor.value)
    ensures Run(e, s, steps).value.anchor.Some? && NoScriptSigs(Run(e, s, steps).value.anchor.value)
    decreases |steps|
  {
    hide Valid, RequestsOf, ApplyScript, FindRequest, Stack;
    ValidSpends(e, s);
    if steps != [] {
      var last := |steps| - 1;
      RunKeepsCommitment(e, s, steps[..last]);
      RunKeepsScriptSigs(e, s, steps[..last]);
      SatisfyApplies(e, Run(e, s, steps[..last]).value, steps[last].id, steps[last].elements);
    }
  }

  // ------------------------------------------------------------ what a run executed

  /** The request of the step executes with the stack the step assembled. */
  ghost predicate StepExecutes(e: Rules, s: Package, step: Step, packet: Packet)
    requires step.Satisfy?
  {
    && ScriptRequest(e, s, step.id).Some? && ScriptRequest(e, s, step.id).value.context.ScriptContext?
    && var r := ScriptRequest(e, s, step.id).value;
       e.bitcoin.executes(packet, r.inputIndex, Stack(step.elements, r.context))
  }

  lemma OneStepExecutes(e: Rules, s: Package, step: Step)
    requires Valid(e, s) && e.bitcoin.Valid() && step.Satisfy? && Next(e, s, step).Some?
    ensures s.anchor.Some? && StepExecutes(e, s, step, s.anchor.value)
  {
    hide Valid, ApplyScript, ScriptRequest, Stack, WitnessFits;
    ApplyScriptExactly(e, s, step.id, step.elements);
  }

  /** Whatever a run applied still executes at its end. */
  lemma RunExecutes(e: Rules, s: Package, steps: seq<Step>, k: nat)
    requires Valid(e, s) && e.bitcoin.Valid() && Faithful(e.bitcoin)
    requires Run(e, s, steps).Some? && OnlySatisfies(steps) && NoScriptSigs(s.anchor.value) && k < |steps|
    ensures Run(e, s, steps).value.anchor.Some?
    ensures StepExecutes(e, s, steps[k], Run(e, s, steps).value.anchor.value)
  {
    hide Valid, RequestsOf, Next, FindRequest, Stack, NoScriptSigs, SameSpend;
    var upTo := steps[..k + 1];
    assert upTo[..k] == steps[..k] && upTo[k] == steps[k];
    PrefixRuns(e, s, steps, k + 1);
    var before, after := Run(e, s, steps[..k]).value, Run(e, s, steps).value;
    RunKeepsCommitment(e, s, steps[..k]);
    RunKeepsCommitment(e, s, steps);
    OneStepExecutes(e, before, steps[k]);
    RunKeepsScriptSigs(e, s, steps[..k]);
    RunKeepsScriptSigs(e, s, steps);
    ValidSpends(e, before);
    ValidSpends(e, after);
    SpendsAlike(before.committed.value, before.anchor.value, after.anchor.value);
  }

  lemma SpendsAlike(p: Packet, q: Packet, r: Packet)
    requires SameSpend(p, q) && SameSpend(p, r)
    ensures SameSpend(q, r)
  {
  }

  // ------------------------------------------------------------- the final packet

  /** The packet `WithFinalAnchorPSBT` checks, from the package's own PSBT. */
  lemma SanitizedSpends(e: Rules, s: Package, witnesses: seq<seq<seq<byte>>>)
    requires Valid(e, s) && NoScriptSigs(s.anchor.value) && Carries(e.bitcoin, s.anchor.value, witnesses)
    ensures s.committed.Some? && s.anchor.Some?
    ensures Sanitize(s.committed.value, s.anchor.value).Some?
    ensures var packet := Sanitize(s.committed.value, s.anchor.value).value;
            && SameSpend(packet, s.anchor.value) && NoScriptSigs(packet) && Carries(e.bitcoin, packet, witnesses)
  {
    hide Valid, InputsKeep;
    ValidInputs(e, s);
    ValidSpends(e, s);
  }

  // -------------------------------------------------- what the plans ask on top

  /** What the final check asks of an applied stack beyond its execution: no
      annex, and every required signer among the unlocking elements. */
  ghost predicate StepAuthorised(e: Rules, s: Package, step: Step)
    requires step.Satisfy?
  {
    && ScriptRequest(e, s, step.id).Some? && ScriptRequest(e, s, step.id).value.context.ScriptContext?
    && var c := ScriptRequest(e, s, step.id).value.context;
       !HasAnnex(Stack(step.elements, c)) && Authorised(e.bitcoin, step.elements, c)
  }

  /** The plan of a request: the only one for its input. */
  lemma PlanOfRequest(e: Rules, s: Package, r: Request, p: SigningPlan)
    requires RequestsOf(e, s).Some? && InGroups(RequestsOf(e, s).value, r)
    requires p in s.plans && p.inputIndex == r.inputIndex
    ensures RequestOf(e.bitcoin, s.committed.value, s.committedDigest, p) == Derived(r)
  {
    hide PlanOk, AllRequests, OfMode, RequestOf, Partition, InputCount, RequestsOf, Valid, SortPlans;
    DerivedRequests(e, s);
    var b, packet, digest := e.bitcoin, s.committed.value, s.committedDigest;
    var sorted := SortPlans(s.plans);
    SortedPlansOk(b.curve, s.plans, s.backend, InputCount(packet));
    PlansDiffer(sorted, s.backend, InputCount(packet));
    SortPlansMembers(s.plans);
    GroupMembers(AllRequests(b, packet, digest, sorted).value, r);
    var i :| 0 <= i < |sorted| && sorted[i] == p;
    RequestOfInput(b, packet, digest, sorted, i);
  }

  /** Every request has a plan. */
  lemma RequestHasPlan(e: Rules, s: Package, r: Request) returns (p: SigningPlan)
    requires RequestsOf(e, s).Some? && InGroups(RequestsOf(e, s).value, r)
    ensures p in s.plans && p.inputIndex == r.inputIndex
  {
    hide PlansOk, AllRequests, OfMode, InputCount, RequestsOf, Valid, SortPlans;
    DerivedRequests(e, s);
    var b, packet, digest := e.bitcoin, s.committed.value, s.committedDigest;
    var sorted := SortPlans(s.plans);
    SortPlansMembers(s.plans);
    GroupMembers(AllRequests(b, packet, digest, sorted).value, r);
    RequestsOfPlans(b, packet, digest, sorted);
    var i :| 0 <= i < |sorted| && RequestOf(b, packet, digest, sorted[i]) == Derived(r);
    p := sorted[i];
  }

  /** For the stack a step assembled, following the plan comes to being
      authorised: leaf script and control block are the sealed ones anyway. */
  lemma FollowsWhenAuthorised(b: Bitcoin, packet: Packet, digest: Digest, p: SigningPlan, r: Request,
                              elements: seq<seq<byte>>)
    requires RequestOf(b, packet, digest, p) == Derived(r) && r.context.ScriptContext?
    ensures FollowsPlan(b, packet, digest, p, Stack(elements, r.context)) <==>
            !HasAnnex(Stack(elements, r.context)) && Authorised(b, elements, r.context)
  {
    hide Authorised;
    var w := Stack(elements, r.context);
    assert w[..|w| - 2] == elements;
  }

  // ------------------------------------------------------------ the joint statement

  /** The step is for this request and left this stack on its input. */
  ghost predicate StepLeft(e: Rules, s: Package, step: Step, witnesses: seq<seq<seq<byte>>>)
    requires step.Satisfy?
  {
    && ScriptRequest(e, s, step.id).Some? && ScriptRequest(e, s, step.id).value.context.ScriptContext?
    && var r := ScriptRequest(e, s, step.id).value;
       r.inputIndex < |witnesses| && witnesses[r.inputIndex] == Stack(step.elements, r.context)
  }

  /** Some step of the run is for input `i`. */
  ghost predicate Reaches(e: Rules, s: Package, steps: seq<Step>, i: nat) {
    exists k :: 0 <= k < |steps| && IsFor(e, s, steps[k], i)
  }

  ghost predicate IsFor(e: Rules, s: Package, step: Step, i: nat) {
    step.Satisfy? && ScriptRequest(e, s, step.id).Some? && ScriptRequest(e, s, step.id).value.inputIndex == i
  }

  lemma StepFollows(e: Rules, s: Package, step: Step, witnesses: seq<seq<seq<byte>>>, p: SigningPlan)
    requires step.Satisfy? && StepLeft(e, s, step, witnesses)
    requires p in s.plans && p.inputIndex == ScriptRequest(e, s, step.id).value.inputIndex
    ensures FollowsPlan(e.bitcoin, s.committed.value, s.committedDigest, p, witnesses[p.inputIndex]) <==>
            StepAuthorised(e, s, step)
  {
    hide RequestsOf, FollowsPlan, Authorised, HasAnnex, Stack;
    var r := ScriptRequest(e, s, step.id).value;
    PlanOfRequest(e, s, r, p);
    FollowsWhenAuthorised(e.bitcoin, s.committed.value, s.committedDigest, p, r, step.elements);
  }

  ghost predicate AllFollow(e: Rules, s: Package, witnesses: seq<seq<seq<byte>>>)
    requires s.committed.Some?
  {
    forall j | 0 <= j < |s.plans| :: s.plans[j].inputIndex < |witnesses| &&
      FollowsPlan(e.bitcoin, s.committed.value, s.committedDigest, s.plans[j], witnesses[s.plans[j].inputIndex])
  }

  ghost predicate AllAuthorised(e: Rules, s: Package, steps: seq<Step>)
    requires OnlySatisfies(steps)
  {
    forall k | 0 <= k < |steps| :: StepAuthorised(e, s, steps[k])
  }

  ghost predicate AllLeft(e: Rules, s: Package, steps: seq<Step>, witnesses: seq<seq<seq<byte>>>)
    requires OnlySatisfies(steps)
  {
    forall k | 0 <= k < |steps| :: StepLeft(e, s, steps[k], witnesses)
  }

  /** Where steps reach every input and left its witness, the plans are followed
      exactly when every step was authorised. */
  lemma PlansFollowed(e: Rules, s: Package, steps: seq<Step>, witnesses: seq<seq<seq<byte>>>)
    requires s.committed.Some? && OnlySatisfies(steps)
    requires AllLeft(e, s, steps, witnesses)
    requires forall i: nat | i < |witnesses| :: Reaches(e, s, steps, i)
    requires forall j | 0 <= j < |s.plans| :: s.plans[j].inputIndex < |witnesses|
    ensures AllFollow(e, s, witnesses) <==> AllAuthorised(e, s, steps)
  {
    hide RequestsOf, FollowsPlan, Authorised, HasAnnex, Stack, StepAuthorised, FindRequest;
    if AllFollow(e, s, witnesses) {
      forall k | 0 <= k < |steps|
        ensures StepAuthorised(e, s, steps[k])
      {
        var p := PlanOfStep(e, s, steps[k]);
        StepFollows(e, s, steps[k], witnesses, p);
      }
    }
    if AllAuthorised(e, s, steps) {
      forall j | 0 <= j < |s.plans|
        ensures FollowsPlan(e.bitcoin, s.committed.value, s.committedDigest, s.plans[j],
                            witnesses[s.plans[j].inputIndex])
      {
        assert Reaches(e, s, steps, s.plans[j].inputIndex);
        var k :| 0 <= k < |steps| && IsFor(e, s, steps[k], s.plans[j].inputIndex);
        assert StepAuthorised(e, s, steps[k]);
        StepFollows(e, s, steps[k], witnesses, s.plans[j]);
      }
    }
  }

  lemma PlanOfStep(e: Rules, s: Package, step: Step) returns (p: SigningPlan)
    requires step.Satisfy? && ScriptRequest(e, s, step.id).Some?
    ensures p in s.plans && p.inputIndex == ScriptRequest(e, s, step.id).value.inputIndex
  {
    hide RequestsOf;
    p := RequestHasPlan(e, s, ScriptRequest(e, s, step.id).value);
  }

  /** The stack the run left on an input it reaches. */
  ghost function LeftOn(e: Rules, s: Package, steps: seq<Step>, i: nat): seq<seq<byte>>
    requires Reaches(e, s, steps, i)
  {
    var k :| 0 <= k < |steps| && IsFor(e, s, steps[k], i);
    var c := ScriptRequest(e, s, steps[k].id).value.context;
    if c.ScriptContext? then Stack(steps[k].elements, c) else []
  }

  /** A run that reaches every input leaves a packet finalised with the stacks of
      its steps. */
  lemma RunCarries(e: Rules, s: Package, steps: seq<Step>) returns (witnesses: seq<seq<seq<byte>>>)
    requires Valid(e, s) && e.bitcoin.Valid() && Run(e, s, steps).Some? && OnlySatisfies(steps)
    requires forall i: nat | i < |s.anchor.value.inputs| :: Reaches(e, s, steps, i)
    ensures Run(e, s, steps).value.anchor.Some?
    ensures Carries(e.bitcoin, Run(e, s, steps).value.anchor.value, witnesses)
  {
    hide Valid, RequestsOf, Run, FindRequest, Stack, ScriptRequest, SameSpend;
    var t := Run(e, s, steps).value;
    RunKeepsCommitment(e, s, steps);
    ValidSpends(e, s);
    ValidSpends(e, t);
    SameInputCount(s, t);
    var n := |s.anchor.value.inputs|;
    witnesses := seq(n, i requires 0 <= i < n => LeftOn(e, s, steps, i));
    forall i: nat | i < n
      ensures t.anchor.value.inputs[i].finalWitness == e.bitcoin.encodeWitness(witnesses[i])
    {
      assert Reaches(e, s, steps, i);
      var k :| 0 <= k < |steps| && IsFor(e, s, steps[k], i) &&
               witnesses[i] == if ScriptRequest(e, s, steps[k].id).value.context.ScriptContext?
                               then Stack(steps[k].elements, ScriptRequest(e, s, steps[k].id).value.context) else [];
      NothingIsReplaced(e, s, steps, k);
    }
  }

  lemma SameInputCount(s: Package, t: Package)
    requires s.committed.Some? && s.anchor.Some? && t.committed == s.committed && t.anchor.Some?
    requires SameSpend(s.committed.value, s.anchor.value) && SameSpend(t.committed.value, t.anchor.value)
    ensures |t.anchor.value.inputs| == |s.anchor.value.inputs|
  {
  }

  /** Each step of the run left its own stack, not just one encoded alike. */
  lemma RunLeft(e: Rules, s: Package, steps: seq<Step>, witnesses: seq<seq<seq<byte>>>, k: nat)
    requires Valid(e, s) && e.bitcoin.Valid() && Faithful(e.bitcoin)
    requires Run(e, s, steps).Some? && OnlySatisfies(steps) && k < |steps|
    requires Run(e, s, steps).value.anchor.Some?
    requires Carries(e.bitcoin, Run(e, s, steps).value.anchor.value, witnesses)
    ensures StepLeft(e, s, steps[k], witnesses)
  {
    hide Valid, RequestsOf, Run, FindRequest, Stack, ScriptRequest, SameSpend, NoScriptSigs;
    NothingIsReplaced(e, s, steps, k);
  }

  /** The inputs execute in the sanitised packet: some step executed each. */
  lemma AllExecute(e: Rules, s: Package, steps: seq<Step>, packet: Packet, witnesses: seq<seq<seq<byte>>>)
    requires Valid(e, s) && e.bitcoin.Valid() && Faithful(e.bitcoin)
    requires Run(e, s, steps).Some? && OnlySatisfies(steps) && NoScriptSigs(s.anchor.value)
    requires AllLeft(e, s, steps, witnesses)
    requires forall i: nat | i < |witnesses| :: Reaches(e, s, steps, i)
    requires Run(e, s, steps).value.anchor.Some?
    requires SameSpend(packet, Run(e, s, steps).value.anchor.value) && NoScriptSigs(packet)
    ensures forall i | 0 <= i < |witnesses| :: e.bitcoin.executes(packet, i, witnesses[i])
  {
    hide Valid, RequestsOf, Run, FindRequest, Stack, ScriptRequest, SameSpend, NoScriptSigs;
    RunKeepsScriptSigs(e, s, steps);
    forall i: nat | i < |witnesses|
      ensures e.bitcoin.executes(packet, i, witnesses[i])
    {
      assert Reaches(e, s, steps, i);
      var k :| 0 <= k < |steps| && IsFor(e, s, steps[k], i);
      RunExecutes(e, s, steps, k);
      assert StepLeft(e, s, steps[k], witnesses);
    }
  }

  /** Every plan's input is one the PSBT has. */
  lemma PlansInRange(e: Rules, s: Package)
    requires Valid(e, s)
    ensures s.anchor.Some?
    ensures forall j | 0 <= j < |s.plans| :: s.plans[j].inputIndex < |s.anchor.value.inputs|
  {
    hide KeepsMetadata, Canonical, PlanOk, DetailsOk, Partition, InputCount;
    ValidSpends(e, s);
    PlansDiffer(s.plans, s.backend, InputCount(s.committed.value));
    InputCountFits(s.committed.value);
  }

  /** The final check, once everything executes, is the plans'. */
  lemma FinalIsPlans(e: Rules, s: Package, t: Package, packet: Packet, witnesses: seq<seq<seq<byte>>>)
    requires s.anchor.Some? && s.committed.Some? && SameCommitment(e, s, t) && RequestsOf(e, s).Some?
    requires forall i | 0 <= i < |witnesses| :: e.bitcoin.executes(packet, i, witnesses[i])
    ensures t.committed.Some?
    ensures FinalOk(e, t, packet, witnesses) <==> AllFollow(e, s, witnesses)
  {
    hide Valid, RequestsOf, FollowsPlan;
  }

  /** What is left of the final check for the package's own PSBT. */
  lemma FinalCheck(e: Rules, s: Package, steps: seq<Step>, packet: Packet, witnesses: seq<seq<seq<byte>>>)
    requires Valid(e, s) && e.bitcoin.Valid() && Faithful(e.bitcoin)
    requires Run(e, s, steps).Some? && steps != [] && OnlySatisfies(steps) && NoScriptSigs(s.anchor.value)
    requires forall i: nat | i < |s.anchor.value.inputs| :: Reaches(e, s, steps, i)
    requires Run(e, s, steps).value.anchor.Some? && |witnesses| == |s.anchor.value.inputs|
    requires Carries(e.bitcoin, Run(e, s, steps).value.anchor.value, witnesses)
    requires SameSpend(packet, Run(e, s, steps).value.anchor.value) && NoScriptSigs(packet)
    ensures Run(e, s, steps).value.committed.Some?
    ensures FinalOk(e, Run(e, s, steps).value, packet, witnesses) <==> AllAuthorised(e, s, steps)
  {
    var t := Run(e, s, steps).value;
    RunKeepsCommitment(e, s, steps);
    ValidSpends(e, s);
    PlansInRange(e, s);
    hide Valid, RequestsOf, Run, FinalOk, SameCommitment, SameSpend, NoScriptSigs, StepAuthorised, Carries, StepLeft;
    hide Faithful, Reaches, FollowsPlan;
    forall k | 0 <= k < |steps|
      ensures StepLeft(e, s, steps[k], witnesses)
    {
      RunLeft(e, s, steps, witnesses, k);
    }
    LeftIsRequested(e, s, steps[0], witnesses);
    AllExecute(e, s, steps, packet, witnesses);
    PlansFollowed(e, s, steps, witnesses);
    FinalIsPlans(e, s, t, packet, witnesses);
  }

  lemma LeftIsRequested(e: Rules, s: Package, step: Step, witnesses: seq<seq<seq<byte>>>)
    requires step.Satisfy? && StepLeft(e, s, step, witnesses)
    ensures RequestsOf(e, s).Some?
  {
    hide RequestsOf;
  }

  /** After a run of script-path steps that reaches every input,
      `WithFinalAnchorPSBT` takes the package's own PSBT exactly when every stack
      the run applied is authorised for its request. `ApplyScriptPathWitness`
      executes a stack without asking who signed it, so this is what completing
      a package adds. */
  lemma CompletesExactly(e: Rules, s: Package, steps: seq<Step>)
    requires Valid(e, s) && e.bitcoin.Valid() && Faithful(e.bitcoin)
    requires Run(e, s, steps).Some? && steps != [] && OnlySatisfies(steps) && NoScriptSigs(s.anchor.value)
    requires forall i: nat | i < |s.anchor.value.inputs| :: Reaches(e, s, steps, i)
    requires forall witnesses | Carries(e.bitcoin, Run(e, s, steps).value.anchor.value, witnesses) ::
               ReadsBack(e.bitcoin, witnesses)
    ensures var t := Run(e, s, steps).value;
            WithFinal(e, t, t.anchor.value).Some? <==> AllAuthorised(e, s, steps)
  {
    hide Valid, RequestsOf, Run, FinalOk, AllAuthorised, NoScriptSigs, Faithful, Reaches, Sanitize, SameSpend;
    var t := Run(e, s, steps).value;
    RunKeepsCommitment(e, s, steps);
    RunKeepsScriptSigs(e, s, steps);
    ValidSpends(e, s);
    ValidSpends(e, t);
    SameInputCount(s, t);
    var witnesses := RunCarries(e, s, steps);
    WithFinalExactly(e, t, t.anchor.value);
    SanitizedSpends(e, t, witnesses);
    var packet := Sanitize(t.committed.value, t.anchor.value).value;
    assert e.bitcoin.extract(packet) == Some(witnesses) by { assert ReadsBack(e.bitcoin, witnesses); }
    FinalCheck(e, s, steps, packet, witnesses);
  }
}
