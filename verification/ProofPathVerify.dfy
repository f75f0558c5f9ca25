/** The recursive verifier of a proof path (custom_anchor_proof_path.go).

    The host that attests confirmed bases and unconfirmed anchors is an oracle
    whose replies may depend on everything it was asked before. Its log is what
    a run is judged by. */
module ProofPathVerify {
  import opened Wrappers
  import opened Bytes
  import opened Collections
  import opened ProofPathCodec
  import opened NativeProofs
  import opened ProofPathAssembly

  /** What the verifier asks its host. */
  datatype Call =
    | ConfirmedBase(file: seq<byte>)
    | UnconfirmedAnchor(stepIndex: nat, previous: Outpoint, anchor: Outpoint, anchorTx: Transaction,
                        allPrevious: seq<Outpoint>)

  datatype Inventory = Inventory(complete: bool, passiveAssets: nat)

  datatype Oracle = Oracle(
    confirm: (seq<Call>, seq<byte>) -> Option<Inventory>,
    attest: (seq<Call>, Call) -> bool,
    // the verifier implements the extension for unconfirmed anchors
    extended: bool)
  {
    /** The reply lets verification go on. */
    predicate Accepts(log: seq<Call>, call: Call) {
      match call
      case ConfirmedBase(file) => confirm(log, file) == Some(Inventory(true, 0))
      case UnconfirmedAnchor(_, _, _, _, _) => extended && attest(log, call)
    }
  }

  class Host {
    var log: seq<Call>
    const oracle: Oracle

    constructor (oracle: Oracle)
      ensures this.oracle == oracle && log == []
    {
      this.oracle := oracle;
      log := [];
    }

    method VerifyConfirmedProof(file: seq<byte>) returns (r: Option<Inventory>)
      modifies this`log
      ensures r == oracle.confirm(old(log), file)
      ensures log == old(log) + [ConfirmedBase(file)]
    {
      r := oracle.confirm(log, file);
      log := log + [ConfirmedBase(file)];
    }

    method VerifyUnconfirmedAnchor(call: Call) returns (ok: bool)
      requires call.UnconfirmedAnchor?
      modifies this`log
      ensures ok == oracle.attest(old(log), call)
      ensures log == old(log) + [call]
    {
      ok := oracle.attest(log, call);
      log := log + [call];
    }
  }

  // ------------------------------------------------------------- per-step checks

  /** `verifyAssetProofPathIdentity`: the transition, and the root asset of a
      split leaf, keep the asset parameters. */
  predicate SameIdentity(previous: Asset, t: Proof) {
    && t.asset.identity == previous.identity
    && (t.asset.IsSplit() ==> t.asset.witnesses[0].splitRoot.value.identity == previous.identity)
  }

  /** `verifyAssetProofPathStepInputBinding`: every witness spends an expected
      outpoint and every expected outpoint is spent. */
  method InputBinding(t: Proof, expected: set<Outpoint>) returns (ok: bool)
    ensures ok <==> BindsInputs(t, expected)
  {
    var witnesses := t.EffectiveWitnesses();
    var spent: set<Outpoint> := {};
    for i := 0 to |witnesses|
      invariant forall k | 0 <= k < i :: witnesses[k].prevOut.Some? && witnesses[k].prevOut.value in expected
      invariant spent == set k | 0 <= k < i :: witnesses[k].prevOut.value
    {
      if witnesses[i].prevOut.None? || witnesses[i].prevOut.value !in expected {
        return false;
      }
      spent := spent + {witnesses[i].prevOut.value};
    }
    SpentSizes(t, expected, spent);
    ok := |spent| == |expected|;
  }

  /** Witnesses within the expected set cover it exactly when they spend as many
      outpoints. */
  lemma SpentSizes(t: Proof, expected: set<Outpoint>, spent: set<Outpoint>)
    requires forall k | 0 <= k < |t.EffectiveWitnesses()| ::
               t.EffectiveWitnesses()[k].prevOut.Some? && t.EffectiveWitnesses()[k].prevOut.value in expected
    requires spent == set k | 0 <= k < |t.EffectiveWitnesses()| :: t.EffectiveWitnesses()[k].prevOut.value
    ensures |spent| == |expected| <==> BindsInputs(t, expected)
  {
    var ws := t.EffectiveWitnesses();
    SubsetSizes(spent, expected);
    if BindsInputs(t, expected) {
      forall o | o in expected
        ensures o in spent
      {
        var k :| 0 <= k < |ws| && ws[k].prevOut == Some(o);
      }
      assert spent == expected;
    }
    if |spent| == |expected| {
      forall o | o in expected
        ensures exists k :: 0 <= k < |ws| && ws[k].prevOut == Some(o)
      {
        var k :| 0 <= k < |ws| && ws[k].prevOut.value == o;
        assert ws[k].prevOut == Some(o);
      }
    }
  }

  ghost predicate BindsInputs(t: Proof, expected: set<Outpoint>) {
    var ws := t.EffectiveWitnesses();
    && (forall k | 0 <= k < |ws| :: ws[k].prevOut.Some? && ws[k].prevOut.value in expected)
    && (forall o | o in expected :: exists k :: 0 <= k < |ws| && ws[k].prevOut == Some(o))
  }

  /** `verifyAssetProofPathAnchorSpend`: the anchor transaction spends every
      expected outpoint exactly once. */
  method AnchorSpend(t: Proof, expected: set<Outpoint>) returns (ok: bool)
    ensures ok <==> SpendsEachOnce(t, expected)
  {
    var inputs := t.anchorTx.inputs;
    var spends: map<Outpoint, nat> := map o | o in expected :: 0;
    for i := 0 to |inputs|
      invariant spends.Keys == expected
      invariant forall o | o in expected :: spends[o] == multiset(inputs[..i])[Some(o)]
    {
      TakeOneMore(inputs, i);
      if inputs[i].Some? && inputs[i].value in expected {
        spends := spends[inputs[i].value := spends[inputs[i].value] + 1];
      }
    }
    assert inputs[..|inputs|] == inputs;
    ok := forall o | o in expected :: spends[o] == 1;
  }

  predicate SpendsEachOnce(t: Proof, expected: set<Outpoint>) {
    forall o | o in expected :: multiset(t.anchorTx.inputs)[Some(o)] == 1
  }

  function Outs(proofs: seq<Proof>): (o: seq<Outpoint>)
    ensures |o| == |proofs|
  {
    seq(|proofs|, i requires 0 <= i < |proofs| => proofs[i].Out())
  }

  function Attestation(k: nat, previous: Proof, t: Proof, coTips: seq<Proof>): Call {
    UnconfirmedAnchor(k % 0x1_0000, t.prevOut, t.Out(), t.anchorTx, [previous.Out()] + Outs(coTips))
  }

  // -------------------------------------------------- what a verified tree satisfies

  /** The proof a path ends at: its last step's transition, or its base. */
  function Tip(n: Native, t: PathTree): Option<Proof> {
    if t.steps == [] then DecodeBase(n, t.base) else Transition(n, t.steps[|t.steps| - 1])
  }

  function Tips(n: Native, paths: seq<PathTree>): seq<Proof>
    requires forall j | 0 <= j < |paths| :: Tip(n, paths[j]).Some?
  {
    seq(|paths|, j requires 0 <= j < |paths| => Tip(n, paths[j]).value)
  }

  /** The local checks of a step that merges paths with the given tips. */
  ghost predicate StepHolds(n: Native, previous: Proof, t: Proof, coTips: seq<Proof>, files: seq<ProofFile>) {
    var spent := [previous.Out()] + Outs(coTips);
    && Distinct(spent)
    && (forall j | 0 <= j < |coTips| :: coTips[j].asset.identity == previous.asset.identity)
    && BindsInputs(t, SetOf(spent))
    && SpendsEachOnce(t, SetOf(spent))
    && SameIdentity(previous.asset, t)
    && n.summarizes(t)
    && n.verifies(previous.asset, previous.Out(), t, files)
    && n.isolated(t)
  }

  /** Every local check of every path in the tree holds. */
  ghost predicate TreeHolds(n: Native, t: PathTree)
    decreases t, 1
  {
    DecodeBase(n, t.base).Some? && StepsHold(n, DecodeBase(n, t.base).value, t.steps)
  }

  ghost predicate StepsHold(n: Native, previous: Proof, steps: seq<StepTree>)
    decreases steps, 0
  {
    steps != [] ==>
      && Transition(n, steps[0]).Some?
      && StepTreeHolds(n, previous, steps[0])
      && StepsHold(n, Transition(n, steps[0]).value, steps[1..])
  }

  ghost predicate StepTreeHolds(n: Native, previous: Proof, s: StepTree)
    requires Transition(n, s).Some?
    decreases s, 0
  {
    && PathsHold(n, s.coPaths)
    && (forall j | 0 <= j < |s.coPaths| :: Tip(n, s.coPaths[j]).Some?)
    && SyntheticInputs(n, s.coPaths).Some?
    && StepHolds(n, previous, Transition(n, s).value, Tips(n, s.coPaths), SyntheticInputs(n, s.coPaths).value)
  }

  ghost predicate PathsHold(n: Native, paths: seq<PathTree>)
    decreases paths, 0
  {
    paths != [] ==> TreeHolds(n, paths[0]) && PathsHold(n, paths[1..])
  }

  // ----------------------------------------------------------------- the call order

  /** The calls a full verification makes: the base, then each step after the
      calls of the co-input paths it merges. */
  ghost function Trace(n: Native, t: PathTree): seq<Call>
    requires TreeHolds(n, t)
    decreases t, 1
  {
    [ConfirmedBase(t.base)] + StepsTrace(n, DecodeBase(n, t.base).value, 0, t.steps)
  }

  ghost function StepsTrace(n: Native, previous: Proof, k: nat, steps: seq<StepTree>): seq<Call>
    requires StepsHold(n, previous, steps)
    decreases steps, 0
  {
    if steps == [] then []
    else StepTrace(n, previous, k, steps[0]) + StepsTrace(n, Transition(n, steps[0]).value, k + 1, steps[1..])
  }

  ghost function StepTrace(n: Native, previous: Proof, k: nat, s: StepTree): seq<Call>
    requires Transition(n, s).Some? && StepTreeHolds(n, previous, s)
    decreases s, 0
  {
    PathsTrace(n, s.coPaths) + [Attestation(k, previous, Transition(n, s).value, Tips(n, s.coPaths))]
  }

  ghost function PathsTrace(n: Native, paths: seq<PathTree>): seq<Call>
    requires PathsHold(n, paths)
    decreases paths, 0
  {
    if paths == [] then [] else Trace(n, paths[0]) + PathsTrace(n, paths[1..])
  }

  /** The host's replies to `calls`, asked in order after `log`, are all good. */
  ghost predicate HostAccepts(o: Oracle, log: seq<Call>, calls: seq<Call>)
    decreases |calls|
  {
    calls == [] || (o.Accepts(log, calls[0]) && HostAccepts(o, log + [calls[0]], calls[1..]))
  }

  lemma {:induction false} HostAcceptsConcat(o: Oracle, log: seq<Call>, a: seq<Call>, b: seq<Call>)
    ensures HostAccepts(o, log, a + b) <==> HostAccepts(o, log, a) && HostAccepts(o, log + a, b)
    decreases |a|
  {
    if a == [] {
      assert a + b == b && log + a == log;
    } else {
      HostAcceptsConcat(o, log + [a[0]], a[1..], b);
      assert (a + b)[1..] == a[1..] + b;
      assert log + [a[0]] + a[1..] == log + a;
    }
  }

  // ------------------------------------------- what a run must return: outcome and log

  /** The log a run must leave, or nothing if it must fail. */
  ghost function Run(n: Native, o: Oracle, t: PathTree, log: seq<Call>): Option<seq<Call>> {
    if TreeHolds(n, t) && HostAccepts(o, log, Trace(n, t)) then Some(log + Trace(n, t)) else None
  }

  ghost function RunSteps(n: Native, o: Oracle, previous: Proof, k: nat, steps: seq<StepTree>, log: seq<Call>)
    : Option<seq<Call>>
  {
    if StepsHold(n, previous, steps) && HostAccepts(o, log, StepsTrace(n, previous, k, steps))
    then Some(log + StepsTrace(n, previous, k, steps)) else None
  }

  ghost function RunStep(n: Native, o: Oracle, previous: Proof, k: nat, s: StepTree, log: seq<Call>)
    : Option<seq<Call>>
  {
    if Transition(n, s).Some? && StepTreeHolds(n, previous, s) && HostAccepts(o, log, StepTrace(n, previous, k, s))
    then Some(log + StepTrace(n, previous, k, s)) else None
  }

  ghost function RunPaths(n: Native, o: Oracle, paths: seq<PathTree>, log: seq<Call>): Option<seq<Call>> {
    if PathsHold(n, paths) && HostAccepts(o, log, PathsTrace(n, paths))
    then Some(log + PathsTrace(n, paths)) else None
  }

  lemma {:induction false} RunFirstStep(n: Native, o: Oracle, previous: Proof, k: nat, steps: seq<StepTree>, log: seq<Call>)
    requires steps != []
    ensures RunSteps(n, o, previous, k, steps, log) ==
            match RunStep(n, o, previous, k, steps[0], log)
            case None => None
            case Some(after) => RunSteps(n, o, Transition(n, steps[0]).value, k + 1, steps[1..], after)
  {
    hide StepTreeHolds, StepTrace, Transition, HostAccepts;
    if StepsHold(n, previous, steps) {
      var first := StepTrace(n, previous, k, steps[0]);
      var rest := StepsTrace(n, Transition(n, steps[0]).value, k + 1, steps[1..]);
      HostAcceptsConcat(o, log, first, rest);
      assert log + (first + rest) == log + first + rest;
    }
  }

  lemma {:induction false} RunFirstPath(n: Native, o: Oracle, paths: seq<PathTree>, log: seq<Call>)
    requires paths != []
    ensures RunPaths(n, o, paths, log) ==
            match Run(n, o, paths[0], log)
            case None => None
            case Some(after) => RunPaths(n, o, paths[1..], after)
  {
    hide TreeHolds, Trace, HostAccepts;
    if PathsHold(n, paths) {
      var first, rest := Trace(n, paths[0]), PathsTrace(n, paths[1..]);
      HostAcceptsConcat(o, log, first, rest);
      assert log + (first + rest) == log + first + rest;
    }
  }

  lemma {:induction false} RunBase(n: Native, o: Oracle, t: PathTree, log: seq<Call>)
    ensures Run(n, o, t, log) ==
            if !o.Accepts(log, ConfirmedBase(t.base)) || DecodeBase(n, t.base).None? then None
            else RunSteps(n, o, DecodeBase(n, t.base).value, 0, t.steps, log + [ConfirmedBase(t.base)])
  {
    if TreeHolds(n, t) {
      var rest := StepsTrace(n, DecodeBase(n, t.base).value, 0, t.steps);
      HostAcceptsConcat(o, log, [ConfirmedBase(t.base)], rest);
      assert HostAccepts(o, log, [ConfirmedBase(t.base)]) <==> o.Accepts(log, ConfirmedBase(t.base));
      assert log + ([ConfirmedBase(t.base)] + rest) == log + [ConfirmedBase(t.base)] + rest;
    }
  }

  lemma {:induction false} RunNothing(n: Native, o: Oracle, previous: Proof, k: nat, log: seq<Call>)
    ensures RunSteps(n, o, previous, k, [], log) == Some(log)
    ensures RunPaths(n, o, [], log) == Some(log)
  {
    assert log + [] == log;
  }

  // ------------------------------------------------------------ resolving co-inputs

  /** The merge checks over the tips resolved so far: fresh outpoints of the
      spine's identity, each with a synthetic lineage. */
  ghost predicate Mergeable(n: Native, previous: Proof, spent: seq<Outpoint>, paths: seq<PathTree>) {
    && (forall j | 0 <= j < |paths| :: Tip(n, paths[j]).Some?)
    && SyntheticInputs(n, paths).Some?
    && Distinct(spent + Outs(Tips(n, paths)))
    && (forall j | 0 <= j < |paths| :: Tip(n, paths[j]).value.asset.identity == previous.asset.identity)
  }

  /** One more path is mergeable when its tip is new and of the right identity. */
  lemma {:induction false} MergeFirst(n: Native, previous: Proof, spent: seq<Outpoint>, paths: seq<PathTree>)
    requires paths != [] && Distinct(spent)
    ensures Mergeable(n, previous, spent, paths) <==>
            && Tip(n, paths[0]).Some? && Tip(n, paths[0]).value.Out() !in spent
            && Tip(n, paths[0]).value.asset.identity == previous.asset.identity
            && SyntheticFile(n, paths[0]).Some?
            && Mergeable(n, previous, spent + [Tip(n, paths[0]).value.Out()], paths[1..])
    ensures Mergeable(n, previous, spent, paths) ==>
            && Tips(n, paths) == [Tip(n, paths[0]).value] + Tips(n, paths[1..])
            && SyntheticInputs(n, paths).value ==
               [SyntheticFile(n, paths[0]).value] + SyntheticInputs(n, paths[1..]).value
  {
    hide Tip, SyntheticFile;
    forall j | 0 <= j < |paths|
      ensures j > 0 ==> paths[j] == paths[1..][j - 1]
    {
    }
    if forall j | 0 <= j < |paths| :: Tip(n, paths[j]).Some? {
      assert Tips(n, paths) == [Tip(n, paths[0]).value] + Tips(n, paths[1..]);
      var o := Tip(n, paths[0]).value.Out();
      assert Outs(Tips(n, paths)) == [o] + Outs(Tips(n, paths[1..]));
      assert spent + Outs(Tips(n, paths)) == (spent + [o]) + Outs(Tips(n, paths[1..]));
      if o in spent {
        var i :| 0 <= i < |spent| && spent[i] == o;
        assert (spent + Outs(Tips(n, paths)))[|spent|] == (spent + Outs(Tips(n, paths)))[i];
      }
    }
    if forall j | 0 <= j < |paths[1..]| :: Tip(n, paths[1..][j]).Some? {
      assert Tip(n, paths[0]).Some? ==> forall j | 0 <= j < |paths| :: Tip(n, paths[j]).Some?;
    }
  }

  datatype Merged = Merged(spent: seq<Outpoint>, files: seq<ProofFile>)

  /** What resolving `paths` must return on top of what is already resolved. */
  ghost function Resolve(n: Native, o: Oracle, previous: Proof, done: Merged, paths: seq<PathTree>, log: seq<Call>)
    : Option<(Merged, seq<Call>)>
  {
    if RunPaths(n, o, paths, log).Some? && Mergeable(n, previous, done.spent, paths)
    then Some((Merged(done.spent + Outs(Tips(n, paths)), done.files + SyntheticInputs(n, paths).value),
               RunPaths(n, o, paths, log).value))
    else None
  }

  ghost function ResolveOne(n: Native, o: Oracle, previous: Proof, done: Merged, path: PathTree, log: seq<Call>)
    : Option<(Merged, seq<Call>)>
  {
    if Run(n, o, path, log).None? || Tip(n, path).None? || SyntheticFile(n, path).None? then None else
    var tip := Tip(n, path).value;
    if tip.Out() in done.spent || tip.asset.identity != previous.asset.identity then None
    else Some((Merged(done.spent + [tip.Out()], done.files + [SyntheticFile(n, path).value]),
               Run(n, o, path, log).value))
  }

  lemma {:induction false} ResolveFirst(n: Native, o: Oracle, previous: Proof, done: Merged, paths: seq<PathTree>, log: seq<Call>)
    requires paths != [] && Distinct(done.spent)
    ensures Resolve(n, o, previous, done, paths, log) ==
            match ResolveOne(n, o, previous, done, paths[0], log)
            case None => None
            case Some((more, after)) => Resolve(n, o, previous, more, paths[1..], after)
  {
    hide Run, RunPaths, Mergeable, Tip, SyntheticFile, SyntheticInputs, Outs, Distinct;
    RunFirstPath(n, o, paths, log);
    MergeFirst(n, previous, done.spent, paths);
    if Mergeable(n, previous, done.spent, paths) {
      MergeableParts(n, previous, done.spent, paths);
      var tip := Tip(n, paths[0]).value;
      var rest := Tips(n, paths[1..]);
      OutsCons(tip, rest);
      Regroup(done.spent, tip.Out(), Outs(rest));
      Regroup(done.files, SyntheticFile(n, paths[0]).value, SyntheticInputs(n, paths[1..]).value);
    }
  }

  lemma {:induction false} MergeableParts(n: Native, previous: Proof, spent: seq<Outpoint>, paths: seq<PathTree>)
    requires paths != [] && Mergeable(n, previous, spent, paths)
    ensures forall j | 0 <= j < |paths[1..]| :: Tip(n, paths[1..][j]).Some?
    ensures forall j | 0 <= j < |paths| :: Tip(n, paths[j]).Some?
    ensures SyntheticInputs(n, paths).Some? && SyntheticInputs(n, paths[1..]).Some?
  {
    hide Tip, SyntheticFile;
    forall j | 0 <= j < |paths[1..]|
      ensures Tip(n, paths[1..][j]).Some?
    {
      assert paths[1..][j] == paths[j + 1];
    }
  }

  lemma {:induction false} OutsCons(p: Proof, rest: seq<Proof>)
    ensures Outs([p] + rest) == [p.Out()] + Outs(rest)
  {
  }

  lemma Regroup<T>(a: seq<T>, x: T, b: seq<T>)
    ensures a + ([x] + b) == (a + [x]) + b
  {
  }

  lemma {:induction false} ResolveNothing(n: Native, o: Oracle, previous: Proof, done: Merged, log: seq<Call>)
    requires Distinct(done.spent)
    ensures Resolve(n, o, previous, done, [], log) == Some((done, log))
  {
    RunNothing(n, o, previous, 0, log);
    assert done.spent + Outs(Tips(n, [])) == done.spent && done.files + [] == done.files;
  }

  // ------------------------------------------------------------ the source's loops

  /** `verifyChain`: it succeeds exactly when every local check of the tree
      holds and the host accepts the tree's calls in order. It then has made
      exactly those calls and returns the tip. */
  method VerifyChain(n: Native, host: Host, t: PathTree) returns (r: Option<Proof>)
    modifies host`log
    ensures match Run(n, host.oracle, t, old(host.log))
            case None => r == None
            case Some(log) => host.log == log && r.Some? && r == Tip(n, t)
    decreases t, 2
  {
    hide Run, RunSteps, Transition, DecodeBase;
    RunBase(n, host.oracle, t, host.log);
    var inventory := host.VerifyConfirmedProof(t.base);
    if inventory.None? || !inventory.value.complete || inventory.value.passiveAssets != 0 {
      return None;
    }
    var base := DecodeBase(n, t.base);
    if base.None? {
      return None;
    }
    r := VerifySteps(n, host, base.value, t.steps);
    assert RunSteps(n, host.oracle, base.value, 0, t.steps, old(host.log) + [ConfirmedBase(t.base)]).Some? ==>
           r == Tip(n, t);
  }

  /** The loop of `verifyChain` over the unconfirmed steps. */
  method VerifySteps(n: Native, host: Host, base: Proof, steps: seq<StepTree>) returns (r: Option<Proof>)
    modifies host`log
    ensures match RunSteps(n, host.oracle, base, 0, steps, old(host.log))
            case None => r == None
            case Some(log) =>
              host.log == log && r.Some? && r == if steps == [] then Some(base) else Transition(n, steps[|steps| - 1])
    decreases steps, 2
  {
    hide RunSteps, RunStep, Transition;
    ghost var log := host.log;
    var final := base;
    assert steps[0..] == steps;
    for i := 0 to |steps|
      invariant Some(final) == if i == 0 then Some(base) else Transition(n, steps[i - 1])
      invariant RunSteps(n, host.oracle, base, 0, steps, log) ==
                RunSteps(n, host.oracle, final, i, steps[i..], host.log)
    {
      assert steps[i..][0] == steps[i] && steps[i..][1..] == steps[i + 1..];
      RunFirstStep(n, host.oracle, final, i, steps[i..], host.log);
      var transition := VerifyStep(n, host, final, i, steps[i]);
      if transition.None? {
        return None;
      }
      final := transition.value;
    }
    RunNothing(n, host.oracle, final, |steps|, host.log);
    r := Some(final);
  }

  method VerifyStep(n: Native, host: Host, previous: Proof, k: nat, s: StepTree) returns (r: Option<Proof>)
    modifies host`log
    ensures match RunStep(n, host.oracle, previous, k, s, old(host.log))
            case None => r == None
            case Some(log) => host.log == log && r.Some? && r == Transition(n, s)
    decreases s, 1
  {
    hide RunStep, Resolve, StepProofOk;
    var decoded := CheckStepProof(n, s.proof, 1 + |s.coPaths|);
    StepOutcome(n, host.oracle, previous, k, s, host.log);
    if decoded.None? || !host.oracle.extended {
      return None;
    }
    var t := decoded.value;
    var merged := ResolveCoInputs(n, host, previous, s.coPaths);
    if merged.None? {
      return None;
    }
    var expected := SetOf(merged.value.spent);
    var bound := InputBinding(t, expected);
    if !bound {
      return None;
    }
    var spends := AnchorSpend(t, expected);
    if !spends || !SameIdentity(previous.asset, t) || !n.summarizes(t) {
      return None;
    }
    var attested := host.VerifyUnconfirmedAnchor(
      UnconfirmedAnchor(k % 0x1_0000, t.prevOut, t.Out(), t.anchorTx, merged.value.spent));
    if !attested {
      return None;
    }
    if !n.verifies(previous.asset, previous.Out(), t, merged.value.files) || !n.isolated(t) {
      return None;
    }
    r := Some(t);
  }

  /** The checks of a step that come after its co-inputs were merged. */
  ghost predicate SpendHolds(n: Native, previous: Proof, t: Proof, m: Merged) {
    && BindsInputs(t, SetOf(m.spent)) && SpendsEachOnce(t, SetOf(m.spent))
    && SameIdentity(previous.asset, t) && n.summarizes(t)
    && n.verifies(previous.asset, previous.Out(), t, m.files) && n.isolated(t)
  }

  /** Everything merged into a step, resolved from nothing but its predecessor. */
  ghost function MergedInto(n: Native, previous: Proof, paths: seq<PathTree>): Merged
    requires Mergeable(n, previous, [previous.Out()], paths)
  {
    Merged([previous.Out()] + Outs(Tips(n, paths)), SyntheticInputs(n, paths).value)
  }

  /** A step holds when its co-inputs hold and merge, and the rest does. */
  lemma {:induction false} HoldsByMerging(n: Native, previous: Proof, s: StepTree)
    requires Transition(n, s).Some?
    ensures StepTreeHolds(n, previous, s) <==>
            && PathsHold(n, s.coPaths) && Mergeable(n, previous, [previous.Out()], s.coPaths)
            && SpendHolds(n, previous, Transition(n, s).value, MergedInto(n, previous, s.coPaths))
  {
    hide Tip, SyntheticInputs, PathsHold, BindsInputs, SpendsEachOnce, SameIdentity, Distinct, Transition;
    if forall j | 0 <= j < |s.coPaths| :: Tip(n, s.coPaths[j]).Some? {
      assert forall j | 0 <= j < |s.coPaths| :: Tips(n, s.coPaths)[j] == Tip(n, s.coPaths[j]).value;
    }
  }

  lemma {:induction false} ResolvesByMerging(n: Native, o: Oracle, previous: Proof, paths: seq<PathTree>, log: seq<Call>)
    ensures Resolve(n, o, previous, Merged([previous.Out()], []), paths, log) ==
            if RunPaths(n, o, paths, log).Some? && Mergeable(n, previous, [previous.Out()], paths)
            then Some((MergedInto(n, previous, paths), RunPaths(n, o, paths, log).value)) else None
  {
    hide RunPaths, Tip, SyntheticInputs, Outs;
    if Mergeable(n, previous, [previous.Out()], paths) {
      assert [] + SyntheticInputs(n, paths).value == SyntheticInputs(n, paths).value;
    }
  }

  lemma OneMoreCall(o: Oracle, log: seq<Call>, calls: seq<Call>, call: Call)
    ensures HostAccepts(o, log, calls + [call]) <==> HostAccepts(o, log, calls) && o.Accepts(log + calls, call)
    ensures log + (calls + [call]) == log + calls + [call]
  {
    HostAcceptsConcat(o, log, calls, [call]);
    assert HostAccepts(o, log + calls, [call]) <==> o.Accepts(log + calls, call);
  }

  /** The outcome of a step, in the order the source finds it. */
  lemma {:induction false} StepOutcome(n: Native, o: Oracle, previous: Proof, k: nat, s: StepTree, log: seq<Call>)
    ensures RunStep(n, o, previous, k, s, log) ==
            if Transition(n, s).None? || !o.extended then None else
            var t := Transition(n, s).value;
            match Resolve(n, o, previous, Merged([previous.Out()], []), s.coPaths, log)
            case None => None
            case Some((m, after)) =>
              var call := UnconfirmedAnchor(k % 0x1_0000, t.prevOut, t.Out(), t.anchorTx, m.spent);
              if SpendHolds(n, previous, t, m) && o.attest(after, call) then Some(after + [call]) else None
  {
    hide Transition, Mergeable, SpendHolds, Resolve, PathsHold, HostAccepts, Outs;
    if Transition(n, s).Some? {
      HoldsByMerging(n, previous, s);
      ResolvesByMerging(n, o, previous, s.coPaths, log);
      hide StepTreeHolds;
      if PathsHold(n, s.coPaths) && Mergeable(n, previous, [previous.Out()], s.coPaths) {
        MergedTips(n, previous, s.coPaths);
        OneMoreCall(o, log, PathsTrace(n, s.coPaths),
                    Attestation(k, previous, Transition(n, s).value, Tips(n, s.coPaths)));
      }
    }
  }

  lemma MergedTips(n: Native, previous: Proof, paths: seq<PathTree>)
    requires Mergeable(n, previous, [previous.Out()], paths)
    ensures forall j | 0 <= j < |paths| :: Tip(n, paths[j]).Some?
    ensures MergedInto(n, previous, paths).spent == [previous.Out()] + Outs(Tips(n, paths))
  {
    hide Tip;
  }

  /** The loop over a step's co-input paths. */
  method ResolveCoInputs(n: Native, host: Host, previous: Proof, paths: seq<PathTree>) returns (r: Option<Merged>)
    modifies host`log
    ensures match Resolve(n, host.oracle, previous, Merged([previous.Out()], []), paths, old(host.log))
            case None => r == None
            case Some((m, log)) => r == Some(m) && host.log == log
    decreases paths, 0
  {
    hide Resolve, Run, Tip, SyntheticFile;
    var spent := [previous.Out()];
    var files: seq<ProofFile> := [];
    ghost var all := Resolve(n, host.oracle, previous, Merged(spent, files), paths, host.log);
    assert paths[0..] == paths;
    for j := 0 to |paths|
      invariant Distinct(spent)
      invariant all == Resolve(n, host.oracle, previous, Merged(spent, files), paths[j..], host.log)
    {
      assert paths[j..][0] == paths[j] && paths[j..][1..] == paths[j + 1..];
      ResolveFirst(n, host.oracle, previous, Merged(spent, files), paths[j..], host.log);
      var tip := VerifyChain(n, host, paths[j]);
      if tip.None? {
        return None;
      }
      if tip.value.Out() in spent {
        return None;
      }
      spent := spent + [tip.value.Out()];
      if tip.value.asset.identity != previous.asset.identity {
        return None;
      }
      var file := SyntheticFile(n, paths[j]);
      if file.None? {
        return None;
      }
      files := files + [file.value];
    }
    ResolveNothing(n, host.oracle, previous, Merged(spent, files), host.log);
    r := Some(Merged(spent, files));
  }

  // -------------------------------------------------- one identity in the whole tree

  /** The confirmed bases of the tree, in the order they are attested. */
  ghost function BasesOf(t: PathTree): seq<seq<byte>>
    decreases t, 1
  {
    [t.base] + BasesOfSteps(t.steps)
  }

  ghost function BasesOfSteps(steps: seq<StepTree>): seq<seq<byte>>
    decreases steps, 0
  {
    if steps == [] then [] else BasesOfPaths(steps[0].coPaths) + BasesOfSteps(steps[1..])
  }

  ghost function BasesOfPaths(paths: seq<PathTree>): seq<seq<byte>>
    decreases paths, 0
  {
    if paths == [] then [] else BasesOf(paths[0]) + BasesOfPaths(paths[1..])
  }

  ghost predicate BasesHave(n: Native, id: Identity, bases: seq<seq<byte>>) {
    forall b | b in bases :: DecodeBase(n, b).Some? && DecodeBase(n, b).value.asset.identity == id
  }

  /** The asset, and the root asset a split leaf embeds, have these parameters. */
  predicate HasIdentity(t: Proof, id: Identity) {
    var ws := t.asset.witnesses;
    && t.asset.identity == id
    && (|ws| == 1 && ws[0].prevOut.Some? && !ws[0].signed && ws[0].splitRoot.Some? ==>
          ws[0].splitRoot.value.identity == id)
  }

  ghost predicate StepsHave(n: Native, id: Identity, steps: seq<StepTree>) {
    forall s | s in steps :: Transition(n, s).Some? && HasIdentity(Transition(n, s).value, id)
  }

  /** The asset parameters of the tip are those of every base and every step in
      the tree, and of every root asset that a split leaf in it embeds. */
  lemma {:induction false} OneIdentity(n: Native, t: PathTree)
    requires TreeHolds(n, t)
    ensures Tip(n, t).Some?
    ensures var id := Tip(n, t).value.asset.identity;
            BasesHave(n, id, BasesOf(t)) && StepsHave(n, id, StepsOf(t))
    decreases t, 1
  {
    hide Transition, DecodeBase;
    var base := DecodeBase(n, t.base).value;
    var id := base.asset.identity;
    assert t.base in [t.base];
    StepsKeepIdentity(n, base, t.steps);
    assert BasesHave(n, id, [t.base] + BasesOfSteps(t.steps));
    TipIsLast(n, t);
    if t.steps != [] {
      assert StepsHave(n, id, StepsOf(t));
      LastStepIsIn(t.steps);
    }
  }

  lemma TipIsLast(n: Native, t: PathTree)
    ensures Tip(n, t) == if t.steps == [] then DecodeBase(n, t.base) else Transition(n, t.steps[|t.steps| - 1])
  {
  }

  lemma {:induction false} LastStepIsIn(steps: seq<StepTree>)
    requires steps != []
    ensures steps[|steps| - 1] in StepsWithin(steps)
    decreases |steps|
  {
    if |steps| == 1 {
      assert steps[0] in [steps[0]];
    } else {
      LastStepIsIn(steps[1..]);
    }
  }

  lemma {:induction false} StepsKeepIdentity(n: Native, previous: Proof, steps: seq<StepTree>)
    requires StepsHold(n, previous, steps)
    ensures BasesHave(n, previous.asset.identity, BasesOfSteps(steps))
    ensures StepsHave(n, previous.asset.identity, StepsWithin(steps))
    decreases steps, 0
  {
    hide Transition, DecodeBase, Tip;
    if steps != [] {
      StepKeepsIdentity(n, previous, steps[0]);
      StepsKeepIdentity(n, Transition(n, steps[0]).value, steps[1..]);
    }
  }

  lemma {:induction false} StepKeepsIdentity(n: Native, previous: Proof, s: StepTree)
    requires Transition(n, s).Some? && StepTreeHolds(n, previous, s)
    ensures Transition(n, s).value.asset.identity == previous.asset.identity
    ensures BasesHave(n, previous.asset.identity, BasesOfPaths(s.coPaths))
    ensures StepsHave(n, previous.asset.identity, StepsOfPaths(s.coPaths))
    decreases s, 0
  {
    hide Transition, DecodeBase, Tip;
    forall j | 0 <= j < |s.coPaths|
      ensures Tip(n, s.coPaths[j]).value.asset.identity == previous.asset.identity
    {
      assert Tips(n, s.coPaths)[j] == Tip(n, s.coPaths[j]).value;
    }
    PathsKeepIdentity(n, previous.asset.identity, s.coPaths);
  }

  lemma {:induction false} PathsKeepIdentity(n: Native, id: Identity, paths: seq<PathTree>)
    requires PathsHold(n, paths)
    requires forall j | 0 <= j < |paths| :: Tip(n, paths[j]).Some? && Tip(n, paths[j]).value.asset.identity == id
    ensures BasesHave(n, id, BasesOfPaths(paths)) && StepsHave(n, id, StepsOfPaths(paths))
    decreases paths, 0
  {
    hide Transition, DecodeBase, Tip;
    if paths != [] {
      OneIdentity(n, paths[0]);
      forall j | 0 <= j < |paths[1..]|
        ensures Tip(n, paths[1..][j]).Some? && Tip(n, paths[1..][j]).value.asset.identity == id
      {
        assert paths[1..][j] == paths[j + 1];
      }
      PathsKeepIdentity(n, id, paths[1..]);
    }
  }

  // --------------------------------------------------- everything is attested once

  ghost function BaseCalls(calls: seq<Call>): seq<seq<byte>> {
    if calls == [] then []
    else (if calls[0].ConfirmedBase? then [calls[0].file] else []) + BaseCalls(calls[1..])
  }

  ghost function AnchorCalls(calls: seq<Call>): seq<Outpoint> {
    if calls == [] then []
    else (if calls[0].UnconfirmedAnchor? then [calls[0].anchor] else []) + AnchorCalls(calls[1..])
  }

  ghost function AnchorsOf(n: Native, steps: seq<StepTree>): seq<Outpoint> {
    if steps == [] then []
    else (if Transition(n, steps[0]).Some? then [Transition(n, steps[0]).value.Out()] else []) + AnchorsOf(n, steps[1..])
  }

  lemma CallsConcat(a: seq<Call>, b: seq<Call>)
    ensures BaseCalls(a + b) == BaseCalls(a) + BaseCalls(b)
    ensures AnchorCalls(a + b) == AnchorCalls(a) + AnchorCalls(b)
  {
    BaseCallsConcat(a, b);
    AnchorCallsConcat(a, b);
  }

  lemma {:induction false} BaseCallsConcat(a: seq<Call>, b: seq<Call>)
    ensures BaseCalls(a + b) == BaseCalls(a) + BaseCalls(b)
    decreases |a|
  {
    if a == [] {
      assert a + b == b;
    } else {
      BaseCallsConcat(a[1..], b);
      assert (a + b)[0] == a[0] && (a + b)[1..] == a[1..] + b;
    }
  }

  lemma {:induction false} AnchorCallsConcat(a: seq<Call>, b: seq<Call>)
    ensures AnchorCalls(a + b) == AnchorCalls(a) + AnchorCalls(b)
    decreases |a|
  {
    if a == [] {
      assert a + b == b;
    } else {
      AnchorCallsConcat(a[1..], b);
      assert (a + b)[0] == a[0] && (a + b)[1..] == a[1..] + b;
    }
  }

  lemma {:induction false} AnchorsConcat(n: Native, a: seq<StepTree>, b: seq<StepTree>)
    ensures AnchorsOf(n, a + b) == AnchorsOf(n, a) + AnchorsOf(n, b)
    decreases |a|
  {
    hide Transition;
    if a == [] {
      assert a + b == b;
    } else {
      AnchorsConcat(n, a[1..], b);
      assert (a + b)[1..] == a[1..] + b;
    }
  }

  /** The calls of a verified tree name each confirmed base once and each step
      once, a step after every step of the co-input paths it merges. */
  lemma {:induction false} EachAttestedOnce(n: Native, t: PathTree)
    requires TreeHolds(n, t)
    ensures BaseCalls(Trace(n, t)) == BasesOf(t)
    ensures AnchorCalls(Trace(n, t)) == AnchorsOf(n, StepsOf(t))
    decreases t, 1
  {
    var base := DecodeBase(n, t.base).value;
    hide DecodeBase;
    var rest := StepsTrace(n, base, 0, t.steps);
    CallsConcat([ConfirmedBase(t.base)], rest);
    StepsAttestedOnce(n, base, 0, t.steps);
    assert BaseCalls([ConfirmedBase(t.base)]) == [t.base] + BaseCalls([]);
    assert AnchorCalls([ConfirmedBase(t.base)]) == [] + AnchorCalls([]);
    assert Trace(n, t) == [ConfirmedBase(t.base)] + rest;
  }

  lemma {:induction false} StepsAttestedOnce(n: Native, previous: Proof, k: nat, steps: seq<StepTree>)
    requires StepsHold(n, previous, steps)
    ensures BaseCalls(StepsTrace(n, previous, k, steps)) == BasesOfSteps(steps)
    ensures AnchorCalls(StepsTrace(n, previous, k, steps)) == AnchorsOf(n, StepsWithin(steps))
    decreases steps, 0
  {
    hide Transition, Tip, Attestation;
    if steps != [] {
      var t := Transition(n, steps[0]).value;
      CallsConcat(StepTrace(n, previous, k, steps[0]), StepsTrace(n, t, k + 1, steps[1..]));
      StepAttestedOnce(n, previous, k, steps[0]);
      StepsAttestedOnce(n, t, k + 1, steps[1..]);
      AnchorsConcat(n, StepsOfPaths(steps[0].coPaths) + [steps[0]], StepsWithin(steps[1..]));
    }
  }

  lemma {:induction false} StepAttestedOnce(n: Native, previous: Proof, k: nat, s: StepTree)
    requires Transition(n, s).Some? && StepTreeHolds(n, previous, s)
    ensures BaseCalls(StepTrace(n, previous, k, s)) == BasesOfPaths(s.coPaths)
    ensures AnchorCalls(StepTrace(n, previous, k, s)) == AnchorsOf(n, StepsOfPaths(s.coPaths) + [s])
    decreases s, 0
  {
    hide Transition, Tip;
    var call := Attestation(k, previous, Transition(n, s).value, Tips(n, s.coPaths));
    CallsConcat(PathsTrace(n, s.coPaths), [call]);
    PathsAttestedOnce(n, s.coPaths);
    AnchorsConcat(n, StepsOfPaths(s.coPaths), [s]);
    assert BaseCalls([call]) == [] + BaseCalls([]) && AnchorCalls([call]) == [call.anchor] + AnchorCalls([]);
    assert AnchorsOf(n, [s]) == [call.anchor] + AnchorsOf(n, []);
  }

  lemma {:induction false} PathsAttestedOnce(n: Native, paths: seq<PathTree>)
    requires PathsHold(n, paths)
    ensures BaseCalls(PathsTrace(n, paths)) == BasesOfPaths(paths)
    ensures AnchorCalls(PathsTrace(n, paths)) == AnchorsOf(n, StepsOfPaths(paths))
    decreases paths, 0
  {
    if paths != [] {
      CallsConcat(Trace(n, paths[0]), PathsTrace(n, paths[1..]));
      EachAttestedOnce(n, paths[0]);
      PathsAttestedOnce(n, paths[1..]);
      AnchorsConcat(n, StepsOf(paths[0]), StepsOfPaths(paths[1..]));
    }
  }

  // ------------------------------------------------ witnesses against expected inputs

  /** An accepted step spends exactly the spine tip and the co-input tips: its
      asset witnesses are in bijection with those outpoints, which are pairwise
      distinct, and its anchor transaction spends each of them once. */
  lemma WitnessesAreTheTips(n: Native, previous: Proof, s: StepTree)
    requires Transition(n, s).Some? && StepTreeHolds(n, previous, s)
    ensures var t := Transition(n, s).value;
            var tips := [previous.Out()] + Outs(Tips(n, s.coPaths));
            && AllComplete(t.EffectiveWitnesses())
            && Distinct(tips)
            && multiset(Outpoints(t.EffectiveWitnesses())) == multiset(tips)
            && t.prevOut in tips
            && (forall o | o in tips :: multiset(t.anchorTx.inputs)[Some(o)] == 1)
  {
    var t := Transition(n, s).value;
    var tips := [previous.Out()] + Outs(Tips(n, s.coPaths));
    TransitionWitnesses(n, s);
    var ws := t.EffectiveWitnesses();
    hide Transition, TreeHolds;
    assert BindsInputs(t, SetOf(tips)) && SpendsEachOnce(t, SetOf(tips)) && Distinct(tips);
    hide StepTreeHolds, Distinct;
    BoundAreTips(t, tips);
    EachTipSpent(t, tips);
    hide BindsInputs, SpendsEachOnce, SetOf;
    Pigeonhole(Outpoints(ws), tips);
    assert t.prevOut in multiset(tips);
  }

  lemma BoundAreTips(t: Proof, tips: seq<Outpoint>)
    requires BindsInputs(t, SetOf(tips)) && AllComplete(t.EffectiveWitnesses())
    ensures SetOf(Outpoints(t.EffectiveWitnesses())) == SetOf(tips)
  {
    var ws := t.EffectiveWitnesses();
    forall o | o in SetOf(tips)
      ensures o in Outpoints(ws)
    {
      var k :| 0 <= k < |ws| && ws[k].prevOut == Some(o);
      assert Outpoints(ws)[k] == o;
    }
  }

  lemma EachTipSpent(t: Proof, tips: seq<Outpoint>)
    requires SpendsEachOnce(t, SetOf(tips))
    ensures forall o | o in tips :: multiset(t.anchorTx.inputs)[Some(o)] == 1
  {
    forall o | o in tips
      ensures multiset(t.anchorTx.inputs)[Some(o)] == 1
    {
      assert o in SetOf(tips);
    }
  }

  lemma TransitionWitnesses(n: Native, s: StepTree)
    requires Transition(n, s).Some?
    ensures var t := Transition(n, s).value;
            && AllComplete(t.EffectiveWitnesses())
            && |t.EffectiveWitnesses()| == 1 + |s.coPaths|
            && t.prevOut in Outpoints(t.EffectiveWitnesses())
  {
    var t := Transition(n, s).value;
    assert t.prevOut in multiset(Outpoints(t.EffectiveWitnesses()));
  }

  /** Every step of a verified tree, at any nesting level, is accepted against
      some proof of the tree that it extends. */
  ghost predicate Accepted(n: Native, s: StepTree) {
    Transition(n, s).Some? && exists previous :: StepTreeHolds(n, previous, s)
  }

  lemma {:induction false} EveryStepAccepted(n: Native, t: PathTree)
    requires TreeHolds(n, t)
    ensures forall s | s in StepsOf(t) :: Accepted(n, s)
    decreases t, 1
  {
    StepsAccepted(n, DecodeBase(n, t.base).value, t.steps);
  }

  lemma {:induction false} StepsAccepted(n: Native, previous: Proof, steps: seq<StepTree>)
    requires StepsHold(n, previous, steps)
    ensures forall s | s in StepsWithin(steps) :: Accepted(n, s)
    decreases steps, 0
  {
    hide Transition;
    if steps != [] {
      assert Accepted(n, steps[0]);
      PathsAccepted(n, steps[0].coPaths);
      StepsAccepted(n, Transition(n, steps[0]).value, steps[1..]);
    }
  }

  lemma {:induction false} PathsAccepted(n: Native, paths: seq<PathTree>)
    requires PathsHold(n, paths)
    ensures forall s | s in StepsOfPaths(paths) :: Accepted(n, s)
    decreases paths, 0
  {
    if paths != [] {
      EveryStepAccepted(n, paths[0]);
      PathsAccepted(n, paths[1..]);
    }
  }

  // ------------------------------------------------------------------- the entry point

  /** The hashes of `Verify`: the tagged one of a content ID, the plain one of a
      base proof. */
  datatype PathHashes = PathHashes(body: Hasher, content: seq<byte> -> seq<byte>, base: seq<byte> -> seq<byte>)

  /** The result; what the source derives from the final proof is in `tip`. */
  datatype PathSummary = PathSummary(contentId: seq<byte>, baseProofId: seq<byte>, depth: nat, tip: Proof)

  /** Everything `Verify` demands, the final summary included. */
  ghost predicate Verifies(n: Native, o: Oracle, t: PathTree, log: seq<Call>) {
    && Validated(n, t) && (t.steps != [] ==> o.extended)
    && Run(n, o, t, log).Some? && Tip(n, t).Some? && n.summarizes(Tip(n, t).value)
  }

  lemma ValidDepth(n: Native, t: PathTree)
    requires Validated(n, t)
    ensures |t.steps| <= MAX_STEPS
  {
    hide ContentOk;
  }

  /** What a completed run establishes about the whole tree. */
  ghost predicate Established(n: Native, t: PathTree, before: seq<Call>, after: seq<Call>, tip: Proof) {
    && TreeHolds(n, t)
    && after == before + Trace(n, t)
    && BaseCalls(Trace(n, t)) == BasesOf(t)
    && AnchorCalls(Trace(n, t)) == AnchorsOf(n, StepsOf(t))
    && BasesHave(n, tip.asset.identity, BasesOf(t))
    && StepsHave(n, tip.asset.identity, StepsOf(t))
    && (forall s | s in StepsOf(t) :: Accepted(n, s))
  }

  lemma RunEstablishes(n: Native, o: Oracle, t: PathTree, log: seq<Call>)
    requires Run(n, o, t, log).Some?
    ensures Tip(n, t).Some? && Established(n, t, log, Run(n, o, t, log).value, Tip(n, t).value)
  {
    hide Tip, TreeHolds, Trace, BaseCalls, AnchorCalls, BasesOf, AnchorsOf, StepsOf, BasesHave, StepsHave, Accepted;
    EachAttestedOnce(n, t);
    OneIdentity(n, t);
    EveryStepAccepted(n, t);
  }

  /** `Verify`: validation, the extension check, the chain, then the summary. On
      success the host was asked about each confirmed base once and each step
      once, and every proof in the tree carries the asset parameters of the tip. */
  method Verify(n: Native, host: Host, hashes: PathHashes, t: PathTree) returns (r: Option<PathSummary>)
    modifies host`log
    ensures r.Some? <==> Verifies(n, host.oracle, t, old(host.log))
    ensures r.Some? ==>
            && Some(r.value.tip) == Tip(n, t) && r.value.depth == |t.steps|
            && r.value.contentId == hashes.content(MarshalBody(hashes.body, t))
            && r.value.baseProofId == hashes.base(t.base)
            && Established(n, t, old(host.log), host.log, r.value.tip)
  {
    hide Validated, Run, Tip, Established, MarshalBody;
    ghost var before := host.log;
    if !Validated(n, t) || (t.steps != [] && !host.oracle.extended) {
      return None;
    }
    var tip := VerifyChain(n, host, t);
    if tip.None? || !n.summarizes(tip.value) {
      return None;
    }
    // The content ID validates the path once more, which cannot fail here.
    ValidDepth(n, t);
    RunEstablishes(n, host.oracle, t, before);
    r := Some(PathSummary(hashes.content(MarshalBody(hashes.body, t)), hashes.base(t.base),
                          |t.steps| % 0x1_0000, tip.value));
  }
}
