/** Verification and confirmation together: what a path's confirmed file embeds
    is what its verification was given (custom_anchor_proof_path.go,
    custom_anchor_proof_confirm.go). */
module ProofPathConfirmed {
  import opened Wrappers
  import opened ProofPathCodec
  import opened NativeProofs
  import opened ProofPathAssembly
  import opened ProofPathVerify

  // ------------------------------------------------------ a confirmed file, verified

  /** The file of this path: its base, then one proof for each step that the
      step's verification stands behind. */
  ghost predicate FileVerified(n: Native, chain: Chain, confirmations: Confirmations, t: PathTree, f: ProofFile)
    decreases t, 1
  {
    && n.decodeFile(t.base).Some? && DecodeBase(n, t.base).Some?
    && var base := n.decodeFile(t.base).value;
       && f.version == base.version && base.proofs <= f.proofs
       && StepsVerified(n, chain, confirmations, DecodeBase(n, t.base).value, t.steps, f.proofs[|base.proofs|..])
  }

  ghost predicate StepsVerified(n: Native, chain: Chain, confirmations: Confirmations, previous: Proof,
                                steps: seq<StepTree>, proofs: seq<Proof>)
    decreases steps, 0
  {
    if steps == [] then proofs == [] else
    && proofs != [] && Transition(n, steps[0]).Some?
    && StepVerified(n, chain, confirmations, previous, steps[0], proofs[0])
    && StepsVerified(n, chain, confirmations, Transition(n, steps[0]).value, steps[1..], proofs[1..])
  }

  /** The step's proof is its transition with the supplied block that contains its
      anchor, proved at the anchor's place, and embedded files. Without their
      block data these files are the ones the verifier assembled for the
      step, and the transition verified against its predecessor with them. The
      embedded files in turn are verified files of the co-input paths. */
  ghost predicate StepVerified(n: Native, chain: Chain, confirmations: Confirmations, previous: Proof,
                               s: StepTree, p: Proof)
    requires Transition(n, s).Some?
    decreases s, 0
  {
    && Included(chain, confirmations, p.anchorTx.txid, p.block)
    && p == Transition(n, s).value.(block := p.block, additionalInputs := p.additionalInputs)
    && SyntheticInputs(n, s.coPaths) == Some(EraseInputs(n, s.coPaths, p.additionalInputs))
    && n.verifies(previous.asset, previous.Out(), Transition(n, s).value,
                  EraseInputs(n, s.coPaths, p.additionalInputs))
    && InputsVerified(n, chain, confirmations, s.coPaths, p.additionalInputs)
  }

  ghost predicate InputsVerified(n: Native, chain: Chain, confirmations: Confirmations, paths: seq<PathTree>,
                                 files: seq<ProofFile>)
    decreases paths, 0
  {
    if paths == [] then files == [] else
    && files != [] && FileVerified(n, chain, confirmations, paths[0], files[0])
    && InputsVerified(n, chain, confirmations, paths[1..], files[1..])
  }

  // ------------------------------------------------------------------------ the join

  lemma {:induction false} StepsJoin(n: Native, chain: Chain, confirmations: Confirmations, previous: Proof,
                                     f: ProofFile, steps: seq<StepTree>, added: seq<Proof>)
    requires n.Valid() && StepsReady(n, steps) && StepsHold(n, previous, steps)
    requires ConfirmSteps(n, chain, confirmations, f, steps) == Ok(f.(proofs := f.proofs + added))
    ensures StepsVerified(n, chain, confirmations, previous, steps, added)
    decreases steps, 0
  {
    hide ConfirmStep, StepVerified, StepTreeHolds, Transition, AllValidated;
    if steps == [] {
      assert |f.proofs + added| == |f.proofs| + |added|;
    } else {
      ConfirmFirstStep(n, chain, confirmations, f, steps);
      hide ConfirmSteps;
      var p := ConfirmStep(n, chain, confirmations, steps[0]).value;
      var f' := f.(proofs := f.proofs + [p]);
      var more := ConfirmExtends(n, chain, confirmations, f', steps[1..]);
      AddedCons(f, p, more, added);
      assert added[1..] == more;
      StepJoin(n, chain, confirmations, previous, steps[0]);
      StepsJoin(n, chain, confirmations, Transition(n, steps[0]).value, f', steps[1..], more);
    }
  }

  lemma {:induction false} StepJoin(n: Native, chain: Chain, confirmations: Confirmations, previous: Proof, s: StepTree)
    requires n.Valid() && AllValidated(n, s.coPaths) && ConfirmStep(n, chain, confirmations, s).Ok?
    requires Transition(n, s).Some? && StepTreeHolds(n, previous, s)
    ensures StepVerified(n, chain, confirmations, previous, s, ConfirmStep(n, chain, confirmations, s).value)
    decreases s, 0
  {
    hide Tip, TreeHolds, ConfirmInputs, SyntheticInputs, Transition, Included;
    FindBlockExactly(chain, confirmations, Transition(n, s).value.anchorTx.txid);
    InputsAgree(n, chain, confirmations, s.coPaths);
    InputsJoin(n, chain, confirmations, s.coPaths);
  }

  lemma {:induction false} InputsJoin(n: Native, chain: Chain, confirmations: Confirmations, paths: seq<PathTree>)
    requires n.Valid() && AllValidated(n, paths) && ConfirmInputs(n, chain, confirmations, paths).Ok?
    requires PathsHold(n, paths)
    ensures InputsVerified(n, chain, confirmations, paths, ConfirmInputs(n, chain, confirmations, paths).value)
    decreases paths, 0
  {
    if paths != [] {
      assert Validated(n, paths[0]) && AllValidated(n, paths[1..]);
      FileJoin(n, chain, confirmations, paths[0]);
      InputsJoin(n, chain, confirmations, paths[1..]);
      var first := n.decodeFile(ConfirmFile(n, chain, confirmations, paths[0]).value).value;
      var rest := ConfirmInputs(n, chain, confirmations, paths[1..]).value;
      assert ([first] + rest)[0] == first && ([first] + rest)[1..] == rest;
      hide ConfirmFile, Validated, FileVerified;
    }
  }

  lemma {:induction false} FileJoin(n: Native, chain: Chain, confirmations: Confirmations, t: PathTree)
    requires n.Valid() && Validated(n, t) && TreeHolds(n, t) && ConfirmFile(n, chain, confirmations, t).Ok?
    ensures n.decodeFile(ConfirmFile(n, chain, confirmations, t).value).Some?
    ensures FileVerified(n, chain, confirmations, t, n.decodeFile(ConfirmFile(n, chain, confirmations, t).value).value)
    decreases t, 1
  {
    ValidatedParts(n, t);
    var base := n.decodeFile(t.base).value;
    if t.steps != [] {
      var added := ConfirmExtends(n, chain, confirmations, base, t.steps);
      StepsJoin(n, chain, confirmations, DecodeBase(n, t.base).value, base, t.steps, added);
      assert (base.proofs + added)[|base.proofs|..] == added;
    }
  }

  /** For a path that verified and was later confirmed, at every level of the
      confirmed file: the files embedded in a step's proof are, block data
      aside, the very files the step was verified with, and verified files
      themselves. */
  lemma VerifiedThenConfirmed(n: Native, o: Oracle, t: PathTree, log: seq<Call>,
                              chain: Chain, confirmations: Confirmations)
    requires n.Valid() && Verifies(n, o, t, log) && ConfirmFile(n, chain, confirmations, t).Ok?
    ensures n.decodeFile(ConfirmFile(n, chain, confirmations, t).value).Some?
    ensures FileVerified(n, chain, confirmations, t, n.decodeFile(ConfirmFile(n, chain, confirmations, t).value).value)
  {
    hide TreeHolds, ConfirmFile, FileVerified, Validated;
    FileJoin(n, chain, confirmations, t);
  }
}
