/** The rules of a proof path in the terms of proofs, outpoints and host replies:
    exactly which step proofs, steps, paths and runs the recursive checks accept
    (custom_anchor_proof_path.go). */
module ProofPathRules {
  import opened Wrappers
  import opened Bytes
  import opened Collections
  import opened ProofPathCodec
  import opened NativeProofs
  import opened ProofPathAssembly
  import opened ProofPathVerify

  // ------------------------------------------------------------------ step proofs

  /** Signed witnesses without split commitments, spending these outpoints. */
  function Signed(os: seq<Outpoint>): (ws: seq<Witness>)
    ensures |ws| == |os| && forall i | 0 <= i < |os| :: ws[i] == Witness(Some(os[i]), true, None)
  {
    seq(|os|, i requires 0 <= i < |os| => Witness(Some(os[i]), true, None))
  }

  /** The transition authorises spending these outpoints: by its own witnesses,
      or, as a split leaf, by those of the root asset it embeds and proves. */
  ghost predicate Authorises(n: Native, t: Proof, os: seq<Outpoint>) {
    || (t.asset.witnesses == Signed(os) && !t.splitRootProof)
    || (t.splitRootProof && exists p, root ::
          t.asset.witnesses == [Witness(Some(p), false, Some(root))] && RootAuthorises(n, root, os))
  }

  ghost predicate RootAuthorises(n: Native, root: Asset, os: seq<Outpoint>) {
    root.witnesses == Signed(os) && root.version == 1 && root.lockTime == 0 && root.relativeLockTime == 0
    && n.validAsset(root)
  }

  lemma SignedOutpoints(ws: seq<Witness>)
    requires AllComplete(ws)
    ensures ws == Signed(Outpoints(ws))
  {
    forall i | 0 <= i < |ws|
      ensures ws[i] == Signed(Outpoints(ws))[i]
    {
      assert Complete(ws[i]);
    }
  }

  lemma SignedAreComplete(os: seq<Outpoint>)
    ensures AllComplete(Signed(os)) && Outpoints(Signed(os)) == os
  {
  }

  /** What the decoder calls split leaves and effective witnesses. */
  lemma AuthorisesExactly(n: Native, t: Proof, os: seq<Outpoint>)
    ensures Authorises(n, t, os) <==> SplitOk(n, t) && t.EffectiveWitnesses() == Signed(os)
  {
    if t.asset.IsSplit() {
      var w := t.asset.witnesses[0];
      assert t.asset.witnesses == [Witness(Some(w.prevOut.value), false, Some(w.splitRoot.value))];
      assert !t.asset.witnesses[0].signed;
      assert os != [] ==> Signed(os)[0].signed;
    }
  }

  /** A step proof is accepted exactly when it is a version-one transition of a
      valid, unlocked asset that authorises spending as many outpoints as
      wanted, its declared predecessor once among them, and whose anchor spends
      that predecessor once. */
  lemma StepProofExactly(n: Native, raw: seq<byte>, want: nat, t: Proof)
    ensures DecodeStepProof(n, raw, want) == Some(t) <==>
            && 0 < |raw| <= 4 * 1024 * 1024 && n.decodeProof(raw) == Some(t)
            && t.version == TRANSITION_V1 && t.asset.version == 1 && n.validAsset(t.asset) && !n.genesisAsset(t.asset)
            && n.activationOk(t) && t.asset.lockTime == 0 && t.asset.relativeLockTime == 0
            && t.additionalInputs == [] && !t.challenge
            && None !in t.anchorTx.inputs && multiset(t.anchorTx.inputs)[Some(t.prevOut)] == 1
            && exists os :: Authorises(n, t, os) && multiset(os)[t.prevOut] == 1 && (want == 0 || |os| == want)
  {
    var ws := t.EffectiveWitnesses();
    if SplitOk(n, t) && WitnessesOk(ws, t.prevOut, want) {
      SignedOutpoints(ws);
      AuthorisesExactly(n, t, Outpoints(ws));
    }
    forall os | Authorises(n, t, os)
      ensures SplitOk(n, t) && AllComplete(ws) && Outpoints(ws) == os && (multiset(os)[t.prevOut] == 1 ==> ws != [])
    {
      AuthorisesExactly(n, t, os);
      SignedAreComplete(os);
    }
    hide SplitOk, AllComplete;
  }

  // ----------------------------------------------------------------------- steps

  /** The outpoints a step must spend: its predecessor's and its co-inputs'. */
  function Spent(n: Native, previous: Proof, paths: seq<PathTree>): seq<Outpoint>
    requires forall j | 0 <= j < |paths| :: Tip(n, paths[j]).Some?
  {
    [Outpoint(previous.anchorTx.txid, previous.outputIndex)] +
    seq(|paths|, j requires 0 <= j < |paths| =>
      Outpoint(Tip(n, paths[j]).value.anchorTx.txid, Tip(n, paths[j]).value.outputIndex))
  }

  /** A step is accepted after `previous` exactly when its co-input paths are
      accepted and assemble to files, all tips and the step itself carry the
      asset parameters of `previous`, what it authorises is a rearrangement of
      the pairwise distinct tips, its anchor spends each tip once, and the native
      library takes it with those files. */
  lemma StepExactly(n: Native, previous: Proof, s: StepTree, t: Proof)
    requires Transition(n, s) == Some(t)
    ensures StepTreeHolds(n, previous, s) <==>
            && PathsHold(n, s.coPaths)
            && (forall j | 0 <= j < |s.coPaths| ::
                  Tip(n, s.coPaths[j]).Some? && HasId(Tip(n, s.coPaths[j]).value, previous.asset.identity))
            && HasIdentity(t, previous.asset.identity)
            && var spent := Spent(n, previous, s.coPaths);
               && Distinct(spent)
               && (exists os :: Authorises(n, t, os) && multiset(os) == multiset(spent))
               && (forall o | o in spent :: multiset(t.anchorTx.inputs)[Some(o)] == 1)
               && SyntheticInputs(n, s.coPaths).Some?
               && n.summarizes(t) && n.isolated(t)
               && n.verifies(previous.asset, spent[0], t, SyntheticInputs(n, s.coPaths).value)
  {
    hide Tip, SyntheticInputs, PathsHold, Transition, Authorises, Distinct, StepHolds, HasIdentity, Spent, Outs, HasId;
    TransitionAuthorises(n, s, t);
    if forall j | 0 <= j < |s.coPaths| :: Tip(n, s.coPaths[j]).Some? {
      SpentAreTips(n, previous, s.coPaths);
      if SyntheticInputs(n, s.coPaths).Some? {
        LocalExactly(n, previous, t, Tips(n, s.coPaths), SyntheticInputs(n, s.coPaths).value);
      }
    }
  }

  /** The local checks of a step, once its co-inputs are known. */
  lemma LocalExactly(n: Native, previous: Proof, t: Proof, coTips: seq<Proof>, files: seq<ProofFile>)
    requires AllComplete(t.EffectiveWitnesses()) && |Outpoints(t.EffectiveWitnesses())| == 1 + |coTips|
    requires forall os :: Authorises(n, t, os) <==> os == Outpoints(t.EffectiveWitnesses())
    ensures var spent := [previous.Out()] + Outs(coTips);
            StepHolds(n, previous, t, coTips, files) <==>
            && (forall j | 0 <= j < |coTips| :: HasId(coTips[j], previous.asset.identity))
            && HasIdentity(t, previous.asset.identity)
            && Distinct(spent)
            && (exists os :: Authorises(n, t, os) && multiset(os) == multiset(spent))
            && (forall o | o in spent :: multiset(t.anchorTx.inputs)[Some(o)] == 1)
            && n.summarizes(t) && n.isolated(t) && n.verifies(previous.asset, previous.Out(), t, files)
  {
    hide Authorises, Distinct, BindsInputs, SetOf;
    var spent := [previous.Out()] + Outs(coTips);
    BindsExactly(n, t, spent);
    OncePerTip(t, spent);
    hide SpendsEachOnce;
  }

  lemma OncePerTip(t: Proof, spent: seq<Outpoint>)
    ensures SpendsEachOnce(t, SetOf(spent)) <==> forall o | o in spent :: multiset(t.anchorTx.inputs)[Some(o)] == 1
  {
    assert forall o :: o in spent <==> o in SetOf(spent);
  }

  predicate HasId(p: Proof, id: Identity) {
    p.asset.identity == id
  }

  lemma SpentAreTips(n: Native, previous: Proof, paths: seq<PathTree>)
    requires forall j | 0 <= j < |paths| :: Tip(n, paths[j]).Some?
    ensures Spent(n, previous, paths) == [previous.Out()] + Outs(Tips(n, paths))
    ensures |Spent(n, previous, paths)| == 1 + |paths|
    ensures Spent(n, previous, paths)[0] == previous.Out()
    ensures forall j | 0 <= j < |paths| :: Tips(n, paths)[j] == Tip(n, paths[j]).value
  {
    hide Tip;
  }

  lemma TransitionAuthorises(n: Native, s: StepTree, t: Proof)
    requires Transition(n, s) == Some(t)
    ensures AllComplete(t.EffectiveWitnesses())
    ensures forall os :: Authorises(n, t, os) <==> os == Outpoints(t.EffectiveWitnesses())
    ensures |Outpoints(t.EffectiveWitnesses())| == 1 + |s.coPaths|
  {
    SignedOutpoints(t.EffectiveWitnesses());
    forall os
      ensures Authorises(n, t, os) <==> os == Outpoints(t.EffectiveWitnesses())
    {
      AuthorisesExactly(n, t, os);
      SignedAreComplete(os);
    }
  }

  /** Covering a duplicate-free list with as many outpoints is rearranging it. */
  lemma BindsExactly(n: Native, t: Proof, spent: seq<Outpoint>)
    requires AllComplete(t.EffectiveWitnesses()) && |Outpoints(t.EffectiveWitnesses())| == |spent|
    requires forall os :: Authorises(n, t, os) <==> os == Outpoints(t.EffectiveWitnesses())
    ensures Distinct(spent) ==>
              (BindsInputs(t, SetOf(spent)) <==> exists os :: Authorises(n, t, os) && multiset(os) == multiset(spent))
  {
    hide Authorises;
    var os := Outpoints(t.EffectiveWitnesses());
    assert Authorises(n, t, os);
    if Distinct(spent) {
      if BindsInputs(t, SetOf(spent)) {
        BoundAreTips(t, spent);
        Pigeonhole(os, spent);
      }
      if multiset(os) == multiset(spent) {
        SameElements(os, spent);
        SameSetBinds(t, spent);
      }
    }
  }

  lemma SameSetBinds(t: Proof, spent: seq<Outpoint>)
    requires AllComplete(t.EffectiveWitnesses())
    requires SetOf(Outpoints(t.EffectiveWitnesses())) == SetOf(spent)
    ensures BindsInputs(t, SetOf(spent))
  {
    var ws := t.EffectiveWitnesses();
    var os := Outpoints(ws);
    forall k | 0 <= k < |ws|
      ensures ws[k].prevOut.Some? && ws[k].prevOut.value in SetOf(spent)
    {
      assert Complete(ws[k]) && os[k] in SetOf(os);
    }
    forall o | o in SetOf(spent)
      ensures exists k :: 0 <= k < |ws| && ws[k].prevOut == Some(o)
    {
      assert o in SetOf(os);
      var k :| 0 <= k < |os| && os[k] == o;
      assert Complete(ws[k]);
    }
  }

  // ------------------------------------------------------- paths, from the last step

  /** The proof that `steps` end at when they follow `previous`. */
  function TipAfter(n: Native, previous: Proof, steps: seq<StepTree>): Option<Proof> {
    if steps == [] then Some(previous) else Transition(n, steps[|steps| - 1])
  }

  ghost predicate LastHolds(n: Native, previous: Proof, steps: seq<StepTree>)
    requires steps != []
  {
    var init, last := steps[..|steps| - 1], steps[|steps| - 1];
    && StepsHold(n, previous, init) && TipAfter(n, previous, init).Some? && Transition(n, last).Some?
    && StepTreeHolds(n, TipAfter(n, previous, init).value, last)
  }

  lemma {:induction false} StepsFromLast(n: Native, previous: Proof, k: nat, steps: seq<StepTree>)
    requires steps != []
    ensures StepsHold(n, previous, steps) <==> LastHolds(n, previous, steps)
    ensures StepsHold(n, previous, steps) ==>
              var init, last := steps[..|steps| - 1], steps[|steps| - 1];
              StepsTrace(n, previous, k, steps) ==
              StepsTrace(n, previous, k, init) +
              StepTrace(n, TipAfter(n, previous, init).value, k + |steps| - 1, last)
    decreases |steps|
  {
    hide StepTreeHolds, StepTrace, Transition;
    var init, last := steps[..|steps| - 1], steps[|steps| - 1];
    if |steps| == 1 {
      assert init == [] && steps[1..] == [];
      if StepsHold(n, previous, steps) {
        var calls := StepTrace(n, previous, k, last);
        assert [] + calls == calls && calls + [] == calls;
      }
    } else if Transition(n, steps[0]).Some? {
      var next, rest := Transition(n, steps[0]).value, steps[1..];
      assert rest[..|rest| - 1] == init[1..] && init[0] == steps[0];
      StepsFromLast(n, next, k + 1, rest);
      if StepsHold(n, previous, steps) {
        Concat(StepTrace(n, previous, k, steps[0]), StepsTrace(n, next, k + 1, init[1..]),
               StepTrace(n, TipAfter(n, next, init[1..]).value, k + |steps| - 1, last));
      }
    }
  }

  lemma Concat<T>(a: seq<T>, b: seq<T>, c: seq<T>)
    ensures a + (b + c) == (a + b) + c
  {
  }

  /** Without its last step. */
  function Shorter(t: PathTree): PathTree
    requires t.steps != []
  {
    PathTree(t.base, t.steps[..|t.steps| - 1])
  }

  /** A path is accepted exactly when the path without its last step is and the
      last step is accepted after that path's tip. The host is asked the same as
      for the shorter path, then about the co-inputs, then about the step: its
      number in its own path, its declared predecessor, its anchor, and every
      outpoint it spends. */
  lemma {:induction false} PathFromLast(n: Native, t: PathTree)
    ensures t.steps == [] ==> (TreeHolds(n, t) <==> DecodeBase(n, t.base).Some?)
    ensures t.steps == [] && TreeHolds(n, t) ==> Trace(n, t) == [ConfirmedBase(t.base)]
    ensures t.steps != [] ==>
              var s := t.steps[|t.steps| - 1];
              (TreeHolds(n, t) <==>
               && TreeHolds(n, Shorter(t)) && Tip(n, Shorter(t)).Some? && Transition(n, s).Some?
               && StepTreeHolds(n, Tip(n, Shorter(t)).value, s))
    ensures t.steps != [] && TreeHolds(n, t) ==>
              var s := t.steps[|t.steps| - 1];
              var p := Transition(n, s).value;
              && (forall j | 0 <= j < |s.coPaths| :: Tip(n, s.coPaths[j]).Some?)
              && Trace(n, t) ==
                 Trace(n, Shorter(t)) + PathsTrace(n, s.coPaths) +
                 [UnconfirmedAnchor((|t.steps| - 1) % 0x1_0000, p.prevOut, Outpoint(p.anchorTx.txid, p.outputIndex),
                                    p.anchorTx, Spent(n, Tip(n, Shorter(t)).value, s.coPaths))]
  {
    hide Transition, DecodeBase, StepsHold, StepHolds;
    if t.steps != [] && DecodeBase(n, t.base).Some? {
      var base, s := DecodeBase(n, t.base).value, t.steps[|t.steps| - 1];
      StepsFromLast(n, base, 0, t.steps);
      if TreeHolds(n, t) {
        SpentAreTips(n, Tip(n, Shorter(t)).value, s.coPaths);
        AppendCalls([ConfirmedBase(t.base)], StepsTrace(n, base, 0, Shorter(t).steps), PathsTrace(n, s.coPaths),
                    [Attestation(|t.steps| - 1, Tip(n, Shorter(t)).value, Transition(n, s).value, Tips(n, s.coPaths))]);
      }
    }
    if t.steps == [] {
      NoSteps(n, t);
    }
  }

  lemma NoSteps(n: Native, t: PathTree)
    requires t.steps == []
    ensures TreeHolds(n, t) <==> DecodeBase(n, t.base).Some?
    ensures TreeHolds(n, t) ==> Trace(n, t) == [ConfirmedBase(t.base)]
  {
    hide DecodeBase;
    if TreeHolds(n, t) {
      assert [ConfirmedBase(t.base)] + [] == [ConfirmedBase(t.base)];
    }
  }

  lemma AppendCalls(a: seq<Call>, b: seq<Call>, c: seq<Call>, d: seq<Call>)
    ensures a + (b + (c + d)) == (a + b) + c + d
  {
  }

  /** Co-input paths are asked about one after another. */
  lemma {:induction false} PathsFromLast(n: Native, paths: seq<PathTree>)
    requires paths != []
    ensures var init, last := paths[..|paths| - 1], paths[|paths| - 1];
            && (PathsHold(n, paths) <==> PathsHold(n, init) && TreeHolds(n, last))
            && (PathsHold(n, paths) ==> PathsTrace(n, paths) == PathsTrace(n, init) + Trace(n, last))
    decreases |paths|
  {
    hide TreeHolds, Trace;
    var init, last := paths[..|paths| - 1], paths[|paths| - 1];
    if |paths| == 1 {
      assert init == [] && paths[1..] == [];
      if TreeHolds(n, last) {
        assert Trace(n, last) + [] == Trace(n, last) && [] + Trace(n, last) == Trace(n, last);
      }
    } else {
      var rest := paths[1..];
      assert rest[..|rest| - 1] == init[1..] && init[0] == paths[0];
      PathsFromLast(n, rest);
      if PathsHold(n, paths) {
        Concat(Trace(n, paths[0]), PathsTrace(n, init[1..]), Trace(n, last));
      }
    }
  }

  // ------------------------------------------------------------------------- the host

  /** The host's reply to one call: a confirmed base must be reported complete and
      without passive assets, an anchor must be attested by the extension. */
  ghost predicate Agrees(o: Oracle, log: seq<Call>, call: Call) {
    if call.ConfirmedBase? then
      var r := o.confirm(log, call.file);
      r.Some? && r.value.complete && r.value.passiveAssets == 0
    else o.extended && o.attest(log, call)
  }

  /** The host agrees to each call, made in order on top of what it was asked
      before. */
  ghost predicate AllAgree(o: Oracle, log: seq<Call>, calls: seq<Call>) {
    forall k | 0 <= k < |calls| :: Agrees(o, log + calls[..k], calls[k])
  }

  lemma {:induction false} HostAgrees(o: Oracle, log: seq<Call>, calls: seq<Call>)
    ensures HostAccepts(o, log, calls) <==> AllAgree(o, log, calls)
    decreases |calls|
  {
    hide AllAgree;
    if calls == [] {
      NothingAsked(o, log);
    } else {
      HostAgrees(o, log + [calls[0]], calls[1..]);
      FirstAgrees(o, log, calls);
    }
  }

  lemma NothingAsked(o: Oracle, log: seq<Call>)
    ensures AllAgree(o, log, [])
  {
  }

  lemma FirstAgrees(o: Oracle, log: seq<Call>, calls: seq<Call>)
    requires calls != []
    ensures AllAgree(o, log, calls) <==> o.Accepts(log, calls[0]) && AllAgree(o, log + [calls[0]], calls[1..])
  {
    AgreesIs(o, log, calls[0]);
    hide Agrees;
    var next, rest := log + [calls[0]], calls[1..];
    assert log + calls[..0] == log;
    forall k | 0 <= k < |rest|
      ensures Agrees(o, next + rest[..k], rest[k]) <==> Agrees(o, log + calls[..k + 1], calls[k + 1])
    {
      assert next + rest[..k] == log + calls[..k + 1];
    }
    if Agrees(o, log, calls[0]) && AllAgree(o, next, rest) {
      forall k | 0 <= k < |calls|
        ensures Agrees(o, log + calls[..k], calls[k])
      {
        assert k > 0 ==> Agrees(o, next + rest[..k - 1], rest[k - 1]);
      }
    }
  }

  lemma AgreesIs(o: Oracle, log: seq<Call>, call: Call)
    ensures Agrees(o, log, call) <==> o.Accepts(log, call)
  {
  }

  /** Verification succeeds exactly when the path is valid, the host has the
      extension wherever there are steps, every step is accepted, the host agrees
      to every call, and the final proof can be summarised. */
  lemma VerifiesExactly(n: Native, o: Oracle, t: PathTree, log: seq<Call>)
    ensures Verifies(n, o, t, log) <==>
            && Validated(n, t) && (t.steps != [] ==> o.extended)
            && TreeHolds(n, t) && AllAgree(o, log, Trace(n, t))
            && Tip(n, t).Some? && n.summarizes(Tip(n, t).value)
    ensures Run(n, o, t, log).Some? ==> Run(n, o, t, log).value == log + Trace(n, t)
  {
    hide TreeHolds, Trace, Validated, AllAgree, HostAccepts, Tip;
    if TreeHolds(n, t) {
      HostAgrees(o, log, Trace(n, t));
    }
  }

  // ---------------------------------------------------------------------- content

  /** The path and every path merged into it, at any depth. */
  ghost function PathsOf(t: PathTree): seq<PathTree>
    decreases t, 1
  {
    [t] + PathsOfSteps(t.steps)
  }

  ghost function PathsOfSteps(steps: seq<StepTree>): seq<PathTree>
    decreases steps, 0
  {
    if steps == [] then [] else PathsOfPaths(steps[0].coPaths) + PathsOfSteps(steps[1..])
  }

  ghost function PathsOfPaths(paths: seq<PathTree>): seq<PathTree>
    decreases paths, 0
  {
    if paths == [] then [] else PathsOf(paths[0]) + PathsOfPaths(paths[1..])
  }

  /** What the content check asks of one path: the last proof of its base file is
      of a valid unlocked asset, of version one if steps follow, and every step
      proof is acceptable on its own. */
  ghost predicate OwnContentOk(n: Native, t: PathTree) {
    && (exists before, tip, version ::
          n.decodeFile(t.base) == Some(ProofFile(version, before + [tip])) && n.validAsset(tip.asset)
          && tip.asset.lockTime == 0 && tip.asset.relativeLockTime == 0 && (t.steps != [] ==> tip.asset.version == 1))
    && forall i | 0 <= i < |t.steps| :: Transition(n, t.steps[i]).Some?
  }

  ghost predicate AllContentOk(n: Native, paths: seq<PathTree>) {
    forall q | q in paths :: OwnContentOk(n, q)
  }

  lemma AllContentParts(n: Native, a: seq<PathTree>, b: seq<PathTree>)
    ensures AllContentOk(n, a + b) <==> AllContentOk(n, a) && AllContentOk(n, b)
  {
    hide OwnContentOk;
    forall q | q in a || q in b
      ensures q in a + b
    {
    }
  }

  ghost predicate StepsDecode(n: Native, steps: seq<StepTree>) {
    forall i | 0 <= i < |steps| :: Transition(n, steps[i]).Some?
  }

  lemma {:induction false} StepsContentExactly(n: Native, steps: seq<StepTree>)
    ensures StepsContentOk(n, steps) <==> StepsDecode(n, steps) && AllContentOk(n, PathsOfSteps(steps))
    decreases steps, 0
  {
    hide DecodeStepProof, AllContentOk, PathsContentOk;
    if steps == [] {
      NoContent(n);
    } else {
      PathsContentExactly(n, steps[0].coPaths);
      StepsContentExactly(n, steps[1..]);
      AllContentParts(n, PathsOfPaths(steps[0].coPaths), PathsOfSteps(steps[1..]));
      assert StepsDecode(n, steps) <==> Transition(n, steps[0]).Some? && StepsDecode(n, steps[1..]) by {
        assert forall i | 0 < i < |steps| :: steps[i] == steps[1..][i - 1];
        assert forall i | 0 <= i < |steps[1..]| :: steps[1..][i] == steps[i + 1];
      }
    }
  }

  lemma NoContent(n: Native)
    ensures AllContentOk(n, [])
  {
  }

  lemma {:induction false} PathsContentExactly(n: Native, paths: seq<PathTree>)
    ensures PathsContentOk(n, paths) <==> AllContentOk(n, PathsOfPaths(paths))
    decreases paths, 0
  {
    hide ContentOk, AllContentOk, PathsOf;
    if paths == [] {
      NoContent(n);
    } else {
      ContentExactly(n, paths[0]);
      PathsContentExactly(n, paths[1..]);
      AllContentParts(n, PathsOf(paths[0]), PathsOfPaths(paths[1..]));
    }
  }

  /** The content check accepts exactly the paths of which every path in the tree
      is acceptable on its own. */
  lemma {:induction false} ContentExactly(n: Native, t: PathTree)
    ensures ContentOk(n, t) <==> AllContentOk(n, PathsOf(t))
    decreases t, 1
  {
    hide StepsContentOk, PathsOfSteps;
    StepsContentExactly(n, t.steps);
    AllContentParts(n, [t], PathsOfSteps(t.steps));
    OwnContent(n, t);
  }

  lemma OwnContent(n: Native, t: PathTree)
    ensures AllContentOk(n, [t]) <==> OwnContentOk(n, t)
    ensures OwnContentOk(n, t) <==>
            && DecodeBase(n, t.base).Some?
            && var base := DecodeBase(n, t.base).value;
               && base.asset.lockTime == 0 && base.asset.relativeLockTime == 0
               && (t.steps != [] ==> base.asset.version == ASSET_V1) && StepsDecode(n, t.steps)
  {
    hide DecodeStepProof;
    assert t in [t];
    var f := n.decodeFile(t.base);
    if f.Some? && f.value.proofs != [] {
      var last := |f.value.proofs| - 1;
      assert f.value == ProofFile(f.value.version, f.value.proofs[..last] + [f.value.proofs[last]]);
    }
  }

  // ----------------------------------------------------------- limits of assembly

  /** What the library's limits ask of one path that has steps: a file version it
      knows, every assembled proof written within its size, and the file itself. */
  ghost predicate OwnFits(n: Native, chain: Chain, confirmations: Confirmations, t: PathTree) {
    t.steps != [] ==>
      && n.decodeFile(t.base).Some? && n.knownFileVersion(n.decodeFile(t.base).value.version)
      && n.encodeFile(FullFile(n, chain, confirmations, t).value).Some?
      && OwnProofsFit(n, chain, confirmations, t.steps)
  }

  ghost predicate OwnProofsFit(n: Native, chain: Chain, confirmations: Confirmations, steps: seq<StepTree>) {
    forall p | p in FullSteps(n, chain, confirmations, steps) ::
      exists raw :: n.encodeProof(p) == Some(raw) && |raw| <= chain.maxProofSize
  }

  ghost predicate AllFit(n: Native, chain: Chain, confirmations: Confirmations, paths: seq<PathTree>) {
    forall q | q in paths :: OwnFits(n, chain, confirmations, q)
  }

  lemma AllFitParts(n: Native, chain: Chain, confirmations: Confirmations, a: seq<PathTree>, b: seq<PathTree>)
    ensures AllFit(n, chain, confirmations, a + b) <==>
            AllFit(n, chain, confirmations, a) && AllFit(n, chain, confirmations, b)
  {
    hide OwnFits;
    forall q | q in a || q in b
      ensures q in a + b
    {
    }
  }

  lemma {:induction false} StepsFitExactly(n: Native, chain: Chain, confirmations: Confirmations, steps: seq<StepTree>)
    ensures StepsFit(n, chain, confirmations, steps) <==>
            OwnProofsFit(n, chain, confirmations, steps) && AllFit(n, chain, confirmations, PathsOfSteps(steps))
    decreases steps, 0
  {
    hide AllFit, InputsFit, FullStep, ProofFits;
    if steps == [] {
      AllFitNone(n, chain, confirmations);
    } else {
      var first, rest := FullStep(n, chain, confirmations, steps[0]), FullSteps(n, chain, confirmations, steps[1..]);
      InputsFitExactly(n, chain, confirmations, steps[0].coPaths);
      StepsFitExactly(n, chain, confirmations, steps[1..]);
      AllFitParts(n, chain, confirmations, PathsOfPaths(steps[0].coPaths), PathsOfSteps(steps[1..]));
      forall p
        ensures ProofFits(n, chain, p) <==> exists raw :: n.encodeProof(p) == Some(raw) && |raw| <= chain.maxProofSize
      {
        OneProofFits(n, chain, p);
      }
      forall p
        ensures p in first + rest <==> p in first || p in rest
      {
      }
    }
  }

  lemma OneProofFits(n: Native, chain: Chain, p: Proof)
    ensures ProofFits(n, chain, p) <==> exists raw :: n.encodeProof(p) == Some(raw) && |raw| <= chain.maxProofSize
  {
  }

  lemma AllFitNone(n: Native, chain: Chain, confirmations: Confirmations)
    ensures AllFit(n, chain, confirmations, [])
  {
  }

  lemma {:induction false} InputsFitExactly(n: Native, chain: Chain, confirmations: Confirmations, paths: seq<PathTree>)
    ensures InputsFit(n, chain, confirmations, paths) <==> AllFit(n, chain, confirmations, PathsOfPaths(paths))
    decreases paths, 0
  {
    hide FileFits, AllFit, PathsOf;
    if paths == [] {
      AllFitNone(n, chain, confirmations);
    } else {
      FitsExactly(n, chain, confirmations, paths[0]);
      InputsFitExactly(n, chain, confirmations, paths[1..]);
      AllFitParts(n, chain, confirmations, PathsOf(paths[0]), PathsOfPaths(paths[1..]));
    }
  }

  /** Assembly stays within the library's limits exactly where every path in the
      tree does on its own. */
  lemma {:induction false} FitsExactly(n: Native, chain: Chain, confirmations: Confirmations, t: PathTree)
    ensures FileFits(n, chain, confirmations, t) <==> AllFit(n, chain, confirmations, PathsOf(t))
    decreases t, 1
  {
    hide StepsFit, OwnProofsFit, PathsOfSteps;
    StepsFitExactly(n, chain, confirmations, t.steps);
    AllFitParts(n, chain, confirmations, [t], PathsOfSteps(t.steps));
    assert t in [t];
    NoPathsOfSteps();
    AllFitNone(n, chain, confirmations);
  }

  lemma NoPathsOfSteps()
    ensures PathsOfSteps([]) == []
  {
  }
}
