/** The Taproot Assets proofs a path carries, and the library operations on
    them. The library is a record of functions, so every result holds for any
    decoder, encoder and verifier; `Native.Valid` is all that is assumed. */
module NativeProofs {
  import opened Wrappers
  import opened Bytes
  import opened Collections
  import opened ProofPathCodec

  const TRANSITION_V1 := 1
  const ASSET_V1 := 1

  datatype Outpoint = Outpoint(txid: nat, index: nat)

  /** The asset parameters that must survive every transition. */
  datatype Identity = Identity(assetType: nat, genesis: nat, groupKey: Option<nat>)

  datatype Asset = Asset(identity: Identity, version: nat, lockTime: nat, relativeLockTime: nat,
                         witnesses: seq<Witness>)
  {
    /** The asset is a split leaf: its only witness names a predecessor, signs
        nothing and carries a split commitment. */
    predicate IsSplit() {
      |witnesses| == 1 && witnesses[0].prevOut.Some? && !witnesses[0].signed && witnesses[0].splitRoot.Some?
    }
  }

  datatype Witness = Witness(prevOut: Option<Outpoint>, signed: bool, splitRoot: Option<Asset>)

  datatype Transaction = Transaction(txid: nat, inputs: seq<Option<Outpoint>>)

  datatype Block = NoBlock | Block(header: nat, height: nat, merkleProof: seq<nat>)

  datatype Proof = Proof(version: nat, asset: Asset, prevOut: Outpoint, anchorTx: Transaction, outputIndex: nat,
                         block: Block, additionalInputs: seq<ProofFile>, splitRootProof: bool, challenge: bool)
  {
    function Out(): Outpoint {
      Outpoint(anchorTx.txid, outputIndex)
    }

    /** The witnesses that authorise the transition: a split leaf's are on the
        root asset embedded in its split commitment. */
    function EffectiveWitnesses(): seq<Witness> {
      if asset.IsSplit() then asset.witnesses[0].splitRoot.value.witnesses else asset.witnesses
    }
  }

  datatype ProofFile = ProofFile(version: nat, proofs: seq<Proof>)

  datatype Native = Native(
    decodeFile: seq<byte> -> Option<ProofFile>,
    encodeFile: ProofFile -> Option<seq<byte>>,
    decodeProof: seq<byte> -> Option<Proof>,
    encodeProof: Proof -> Option<seq<byte>>,
    validAsset: Asset -> bool,
    genesisAsset: Asset -> bool,
    activationOk: Proof -> bool,
    knownFileVersion: nat -> bool,
    summarizes: Proof -> bool,
    isolated: Proof -> bool,
    // the native check of a transition against the state it spends, with the
    // co-input lineages spliced in; the state it yields is the transition's own
    verifies: (Asset, Outpoint, Proof, seq<ProofFile>) -> bool)
  {
    /** A file that encodes decodes to itself. */
    ghost predicate Valid() {
      forall f :: encodeFile(f).Some? ==> decodeFile(encodeFile(f).value) == Some(f)
    }
  }

  /** `decodeAssetProofPathBase`: the tip of the confirmed base file. */
  function DecodeBase(n: Native, raw: seq<byte>): Option<Proof> {
    match n.decodeFile(raw)
    case None => None
    case Some(file) =>
      if file.proofs == [] then None else
      var tip := file.proofs[|file.proofs| - 1];
      if n.validAsset(tip.asset) then Some(tip) else None
  }

  predicate Complete(w: Witness) {
    w.prevOut.Some? && w.signed && w.splitRoot.None?
  }

  predicate AllComplete(ws: seq<Witness>) {
    forall i | 0 <= i < |ws| :: Complete(ws[i])
  }

  function Outpoints(ws: seq<Witness>): (o: seq<Outpoint>)
    requires AllComplete(ws)
    ensures |o| == |ws|
  {
    seq(|ws|, i requires 0 <= i < |ws| => assert Complete(ws[i]); ws[i].prevOut.value)
  }

  /** The witness rules: complete, as many as pinned (zero pins nothing), and
      exactly one of them spends the declared predecessor. */
  predicate WitnessesOk(ws: seq<Witness>, prevOut: Outpoint, want: nat) {
    && ws != []
    && (want > 0 ==> |ws| == want)
    && AllComplete(ws)
    && multiset(Outpoints(ws))[prevOut] == 1
  }

  predicate SplitOk(n: Native, t: Proof) {
    if t.asset.IsSplit() then
      var root := t.asset.witnesses[0].splitRoot.value;
      && t.splitRootProof && root.version == ASSET_V1
      && root.lockTime == 0 && root.relativeLockTime == 0 && n.validAsset(root)
    else !t.splitRootProof
  }

  /** The structural rules for one transition proof. */
  predicate StepProofOk(n: Native, t: Proof, want: nat) {
    && t.version == TRANSITION_V1 && t.asset.version == ASSET_V1
    && n.validAsset(t.asset) && !n.genesisAsset(t.asset) && n.activationOk(t)
    && t.asset.lockTime == 0 && t.asset.relativeLockTime == 0
    && t.additionalInputs == []
    && (forall i | 0 <= i < |t.anchorTx.inputs| :: t.anchorTx.inputs[i].Some?)
    && multiset(t.anchorTx.inputs)[Some(t.prevOut)] == 1
    && !t.challenge
    && SplitOk(n, t)
    && WitnessesOk(t.EffectiveWitnesses(), t.prevOut, want)
  }

  function DecodeStepProof(n: Native, raw: seq<byte>, want: nat): Option<Proof> {
    if raw == [] || |raw| > MAX_STEP_SIZE then None else
    match n.decodeProof(raw)
    case None => None
    case Some(t) => if StepProofOk(n, t, want) then Some(t) else None
  }

  /** `decodeAssetProofPathStep`, with the counting loops of the source. */
  method CheckStepProof(n: Native, raw: seq<byte>, want: nat) returns (r: Option<Proof>)
    ensures r == DecodeStepProof(n, raw, want)
  {
    if raw == [] || |raw| > MAX_STEP_SIZE {
      return None;
    }
    var decoded := n.decodeProof(raw);
    if decoded.None? {
      return None;
    }
    var t := decoded.value;
    if t.version != TRANSITION_V1 || t.asset.version != ASSET_V1 || !n.validAsset(t.asset) ||
       n.genesisAsset(t.asset) || !n.activationOk(t) ||
       t.asset.lockTime != 0 || t.asset.relativeLockTime != 0 || t.additionalInputs != [] {
      return None;
    }
    var inputs := t.anchorTx.inputs;
    var spends := CountInputs(inputs, t.prevOut);
    if spends != 1 || t.challenge || !SplitOk(n, t) {
      return None;
    }
    var ws := t.EffectiveWitnesses();
    if ws == [] || (want > 0 && |ws| != want) {
      return None;
    }
    var predecessors := CountPredecessors(ws, t.prevOut);
    r := if predecessors == 1 then Some(t) else None;
  }

  /** Counts the anchor inputs that spend `o`; a nil input yields -1. */
  method CountInputs(inputs: seq<Option<Outpoint>>, o: Outpoint) returns (count: int)
    ensures if forall i | 0 <= i < |inputs| :: inputs[i].Some? then count == multiset(inputs)[Some(o)] else count == -1
  {
    count := 0;
    for i := 0 to |inputs|
      invariant forall k | 0 <= k < i :: inputs[k].Some?
      invariant count == multiset(inputs[..i])[Some(o)]
    {
      if inputs[i].None? {
        return -1;
      }
      TakeOneMore(inputs, i);
      if inputs[i].value == o {
        count := count + 1;
      }
    }
    assert inputs[..|inputs|] == inputs;
  }

  /** Counts the witnesses that spend `o`; an incomplete witness yields -1. */
  method CountPredecessors(ws: seq<Witness>, o: Outpoint) returns (count: int)
    ensures if AllComplete(ws) then count == multiset(Outpoints(ws))[o] else count == -1
  {
    count := 0;
    for i := 0 to |ws|
      invariant AllComplete(ws[..i])
      invariant count == multiset(Outpoints(ws[..i]))[o]
    {
      if !Complete(ws[i]) {
        assert !AllComplete(ws);
        return -1;
      }
      assert Outpoints(ws[..i + 1]) == Outpoints(ws[..i]) + [ws[i].prevOut.value];
      if ws[i].prevOut.value == o {
        count := count + 1;
      }
    }
    assert ws[..|ws|] == ws;
  }

  // ------------------------------------------------------------ content of a path

  /** `validateContent`: every proof of the tree decodes and keeps the policy. */
  predicate ContentOk(n: Native, t: PathTree)
    decreases t, 1
  {
    match DecodeBase(n, t.base)
    case None => false
    case Some(base) =>
      && base.asset.lockTime == 0 && base.asset.relativeLockTime == 0
      && (t.steps != [] ==> base.asset.version == ASSET_V1)
      && StepsContentOk(n, t.steps)
  }

  predicate StepsContentOk(n: Native, steps: seq<StepTree>)
    decreases steps, 0
  {
    steps != [] ==>
      && DecodeStepProof(n, steps[0].proof, 1 + |steps[0].coPaths|).Some?
      && PathsContentOk(n, steps[0].coPaths)
      && StepsContentOk(n, steps[1..])
  }

  predicate PathsContentOk(n: Native, paths: seq<PathTree>)
    decreases paths, 0
  {
    paths != [] ==> ContentOk(n, paths[0]) && PathsContentOk(n, paths[1..])
  }

  /** The transition of a step whose witness count its co-paths pin. */
  function Transition(n: Native, s: StepTree): Option<Proof> {
    DecodeStepProof(n, s.proof, 1 + |s.coPaths|)
  }
}
