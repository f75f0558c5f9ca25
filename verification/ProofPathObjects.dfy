/** The public operations on path objects: validating, writing, reading and
    verifying (custom_anchor_proof_path.go). They join what the other proof-path
    modules prove about objects and about trees. */
module ProofPathObjects {
  import opened Wrappers
  import opened Bytes
  import opened ProofPathCodec
  import opened ProofPathLayout
  import opened ProofPathShape
  import opened ProofPathMarshal
  import opened NativeProofs
  import opened ProofPathAssembly
  import opened ProofPathVerify

  // ------------------------------------------------------------- content of objects

  lemma NoContent(n: Native, nodes: set<AssetProofPath>, depth: nat)
    requires Closed(nodes) && depth <= MAX_CO_DEPTH
    ensures UnfoldSteps(nodes, [], depth) == Some([]) && UnfoldPaths(nodes, [], depth) == Some([])
    ensures StepsContentOk(n, []) && PathsContentOk(n, [])
  {
  }

  lemma FirstStepContent(n: Native, step: StepTree, tail: seq<StepTree>)
    ensures StepsContentOk(n, [step] + tail) <==>
            Transition(n, step).Some? && PathsContentOk(n, step.coPaths) && StepsContentOk(n, tail)
  {
    assert ([step] + tail)[0] == step && ([step] + tail)[1..] == tail;
  }

  lemma FirstPathContent(n: Native, path: PathTree, tail: seq<PathTree>)
    ensures PathsContentOk(n, [path] + tail) <==> ContentOk(n, path) && PathsContentOk(n, tail)
  {
    assert ([path] + tail)[0] == path && ([path] + tail)[1..] == tail;
  }

  /** `validateContent`, once the shape bounds hold. */
  method ValidateContent(n: Native, p: AssetProofPath, ghost nodes: set<AssetProofPath>, ghost depth: nat)
    returns (ok: bool)
    requires Closed(nodes) && p in nodes && Unfold(nodes, p, depth).Some?
    ensures ok <==> ContentOk(n, Unfold(nodes, p, depth).value)
    decreases Levels(depth), 2
  {
    hide UnfoldSteps, StepsContentOk;
    var base := DecodeBase(n, p.base);
    if base.None? || base.value.asset.lockTime != 0 || base.value.asset.relativeLockTime != 0 ||
       (|p.steps| > 0 && base.value.asset.version != ASSET_V1) {
      return false;
    }
    ok := ValidateStepContents(n, p.steps, nodes, depth);
  }

  method ValidateStepContents(n: Native, steps: seq<ProofPathStep>, ghost nodes: set<AssetProofPath>, ghost depth: nat)
    returns (ok: bool)
    requires Closed(nodes) && StepsIn(nodes, steps) && depth <= MAX_CO_DEPTH
    requires UnfoldSteps(nodes, steps, depth).Some?
    ensures ok <==> StepsContentOk(n, UnfoldSteps(nodes, steps, depth).value)
    decreases Levels(depth), 1
  {
    hide Unfold, UnfoldSteps, UnfoldPaths, StepsContentOk, PathsContentOk, DecodeStepProof;
    assert steps[0..] == steps;
    for i := 0 to |steps|
      invariant StepsIn(nodes, steps[i..]) && UnfoldSteps(nodes, steps[i..], depth).Some?
      invariant StepsContentOk(n, UnfoldSteps(nodes, steps, depth).value) ==
                StepsContentOk(n, UnfoldSteps(nodes, steps[i..], depth).value)
    {
      UnfoldFirstStep(nodes, steps[i..], depth);
      assert steps[i..][0] == steps[i] && steps[i..][1..] == steps[i + 1..];
      ghost var coPaths := UnfoldPaths(nodes, steps[i].coPaths, depth).value;
      FirstStepContent(n, StepTree(steps[i].proof, coPaths), UnfoldSteps(nodes, steps[i + 1..], depth).value);
      var transition := CheckStepProof(n, steps[i].proof, 1 + |steps[i].coPaths|);
      if transition.None? {
        return false;
      }
      var pathsOk := ValidatePathContents(n, steps[i].coPaths, nodes, depth);
      if !pathsOk {
        return false;
      }
    }
    NoContent(n, nodes, depth);
    ok := true;
  }

  method ValidatePathContents(n: Native, paths: seq<AssetProofPath?>, ghost nodes: set<AssetProofPath>, ghost depth: nat)
    returns (ok: bool)
    requires Closed(nodes) && PathsIn(nodes, paths) && depth <= MAX_CO_DEPTH
    requires UnfoldPaths(nodes, paths, depth).Some?
    ensures ok <==> PathsContentOk(n, UnfoldPaths(nodes, paths, depth).value)
    decreases Levels(depth), 0
  {
    hide Unfold, UnfoldPaths, PathsContentOk, ContentOk;
    assert paths[0..] == paths;
    for j := 0 to |paths|
      invariant PathsIn(nodes, paths[j..]) && UnfoldPaths(nodes, paths[j..], depth).Some?
      invariant PathsContentOk(n, UnfoldPaths(nodes, paths, depth).value) ==
                PathsContentOk(n, UnfoldPaths(nodes, paths[j..], depth).value)
    {
      UnfoldFirstPath(nodes, paths[j..], depth);
      assert paths[j..][0] == paths[j] && paths[j..][1..] == paths[j + 1..];
      FirstPathContent(n, Unfold(nodes, paths[j], depth + 1).value, UnfoldPaths(nodes, paths[j + 1..], depth).value);
      var pathOk := ValidateContent(n, paths[j], nodes, depth + 1);
      if !pathOk {
        return false;
      }
    }
    NoContent(n, nodes, depth);
    ok := true;
  }

  // ------------------------------------------------- validating, writing and reading

  /** The tree of an object that `Validate` accepts. */
  ghost function ValidTree(n: Native, nodes: set<AssetProofPath>, p: AssetProofPath?): Option<PathTree>
    requires Closed(nodes) && (p == null || p in nodes)
    reads nodes
  {
    var t := Unfold(nodes, p, 0);
    if t.Some? && Validated(n, t.value) then t else None
  }

  /** `Validate`: the shape of the whole pointer graph, then the content. */
  method Validate(n: Native, p: AssetProofPath?, ghost nodes: set<AssetProofPath>) returns (ok: bool)
    requires Closed(nodes) && (p == null || p in nodes)
    ensures ok <==> ValidTree(n, nodes, p).Some?
  {
    hide Unfold, ShapeBounds, ShapeSize, ContentOk;
    var budget := new SizeBudget();
    ok := ValidateShape(p, 0, budget, nodes);
    if ok {
      NilHasNoTree(nodes, p);
      ok := ValidateContent(n, p, nodes, 0);
    }
  }

  lemma NilHasNoTree(nodes: set<AssetProofPath>, p: AssetProofPath?)
    requires Closed(nodes) && (p == null || p in nodes) && Unfold(nodes, p, 0).Some?
    ensures p != null
  {
  }

  /** `MarshalBinary`. */
  method MarshalBinary(n: Native, h: Hasher, p: AssetProofPath?, ghost nodes: set<AssetProofPath>)
    returns (r: Option<seq<byte>>)
    requires Closed(nodes) && (p == null || p in nodes)
    ensures r == match ValidTree(n, nodes, p)
                 case None => None
                 case Some(t) => Some(Encode(h, t))
    ensures r.Some? ==> PathBytes(h, r.value, ValidTree(n, nodes, p).value)
  {
    hide Unfold, Validated, Encode, PathBytes;
    var ok := Validate(n, p, nodes);
    if !ok {
      return None;
    }
    NilHasNoTree(nodes, p);
    var encoded := EncodePath(h, p, nodes, 0);
    r := Some(encoded);
  }

  /** What `UnmarshalBinary` accepts: bytes that decode to a valid path. */
  function Unmarshalled(n: Native, h: Hasher, encoded: seq<byte>): Option<PathTree> {
    match Decode(h, encoded, 0)
    case Err(_) => None
    case Ok(t) => if Validated(n, t) then Some(t) else None
  }

  /** `UnmarshalBinary`: decodes into a fresh object, validates it, and only then
      assigns the receiver. */
  method UnmarshalBinary(n: Native, h: Hasher, p: AssetProofPath, encoded: seq<byte>)
    returns (ok: bool, ghost nodes: set<AssetProofPath>)
    modifies p
    ensures ok <==> Unmarshalled(n, h, encoded).Some?
    ensures !ok ==> p.base == old(p.base) && p.steps == old(p.steps)
    ensures ok ==> p in nodes && fresh(nodes - {p}) && Closed(nodes)
    ensures ok ==> Unfold(nodes, p, 0) == Unmarshalled(n, h, encoded)
  {
    hide Unfold, UnfoldSteps, Decode, Validated;
    nodes := {p};
    var decoded := new AssetProofPath();
    var r, kids := UnmarshalBinaryAt(h, decoded, encoded, 0);
    if r.Err? {
      return false, nodes;
    }
    ok := Validate(n, decoded, kids);
    if !ok {
      return false, nodes;
    }
    UnfoldedParts(kids, decoded);
    ghost var trees := UnfoldSteps(kids, decoded.steps, 0).value;
    p.base, p.steps := decoded.base, decoded.steps;
    nodes := kids + {p};
    DecodedObject(kids, p, 0, trees);
  }

  lemma UnfoldedParts(nodes: set<AssetProofPath>, p: AssetProofPath)
    requires Closed(nodes) && p in nodes && Unfold(nodes, p, 0).Some?
    ensures StepsIn(nodes, p.steps) && UnfoldSteps(nodes, p.steps, 0).Some?
    ensures Unfold(nodes, p, 0) == Some(PathTree(p.base, UnfoldSteps(nodes, p.steps, 0).value))
  {
    hide UnfoldSteps;
  }

  // ------------------------------------------------------------ the round trip

  /** A valid path holds no empty proof: the content check rejects one. */
  lemma {:induction false} ContentIsNotEmpty(n: Native, t: PathTree)
    requires ContentOk(n, t)
    ensures NoEmptyProof(t)
    decreases t, 1
  {
    StepContentIsNotEmpty(n, t.steps);
  }

  lemma {:induction false} StepContentIsNotEmpty(n: Native, steps: seq<StepTree>)
    requires StepsContentOk(n, steps)
    ensures StepsNoEmptyProof(steps)
    decreases steps, 0
  {
    if steps != [] {
      PathContentIsNotEmpty(n, steps[0].coPaths);
      StepContentIsNotEmpty(n, steps[1..]);
    }
  }

  lemma {:induction false} PathContentIsNotEmpty(n: Native, paths: seq<PathTree>)
    requires PathsContentOk(n, paths)
    ensures PathsNoEmptyProof(paths)
    decreases paths, 0
  {
    if paths != [] {
      ContentIsNotEmpty(n, paths[0]);
      PathContentIsNotEmpty(n, paths[1..]);
    }
  }

  /** A path that passes `Validate` survives `MarshalBinary` and
      `UnmarshalBinary` exactly when its encoding, two bytes per step longer
      than the total `Validate` computes, still fits the limit. */
  lemma ValidRoundTripExactly(n: Native, h: Hasher, t: PathTree)
    requires Validated(n, t)
    ensures Unmarshalled(n, h, Encode(h, t)) == Some(t) <==> ShapeSize(t) + 2 * StepCount(t) <= MAX_PATH_SIZE
    ensures Unmarshalled(n, h, Encode(h, t)) in {None, Some(t)}
  {
    ContentIsNotEmpty(n, t);
    RoundTripExactly(h, t);
    hide ShapeBounds, ContentOk, NoEmptyProof, ShapeSize, StepCount;
    if Decode(h, Encode(h, t), 0).Ok? {
      SameEncodingSamePath(h, t);
    }
  }

  /** If an encoding decodes at all, it decodes to what was encoded. */
  lemma SameEncodingSamePath(h: Hasher, t: PathTree)
    requires Charge(Some(t), 0, 0).Some? && NoEmptyProof(t) && Decode(h, Encode(h, t), 0).Ok?
    ensures Decode(h, Encode(h, t), 0) == Ok(t)
  {
    BoundsOfTree(t, 0);
    hide ShapeBounds, NoEmptyProof, ShapeSize, WithinBounds;
    DecodesExactlyTheEncodings(h, Encode(h, t), 0, Decode(h, Encode(h, t), 0).value);
    DecodesExactlyTheEncodings(h, Encode(h, t), 0, t);
  }

  /** Whatever `UnmarshalBinary` accepts, `MarshalBinary` writes back. */
  lemma UnmarshalledIsCanonical(n: Native, h: Hasher, encoded: seq<byte>)
    requires Unmarshalled(n, h, encoded).Some?
    ensures Validated(n, Unmarshalled(n, h, encoded).value)
    ensures Encode(h, Unmarshalled(n, h, encoded).value) == encoded
  {
    hide Validated, Encode;
    EncodeDecode(h, encoded, 0);
  }

  // ---------------------------------------------- a valid path that cannot be read

  function TheAsset(): Asset {
    Asset(Identity(0, 0, None), ASSET_V1, 0, 0, [Witness(Some(Outpoint(0, 0)), true, None)])
  }

  function TheProof(): Proof {
    Proof(TRANSITION_V1, TheAsset(), Outpoint(0, 0), Transaction(1, [Some(Outpoint(0, 0))]), 0, NoBlock, [], false, false)
  }

  /** A library that reads the same well-formed proof from any bytes. */
  function Forgiving(): Native {
    Native(
      (raw: seq<byte>) => Some(ProofFile(0, [TheProof()])), (f: ProofFile) => None,
      (raw: seq<byte>) => Some(TheProof()), (p: Proof) => None,
      (a: Asset) => true, (a: Asset) => false, (p: Proof) => true, (v: nat) => true,
      (p: Proof) => true, (p: Proof) => true, (a: Asset, o: Outpoint, p: Proof, fs: seq<ProofFile>) => true)
  }

  lemma TheProofIsOk()
    ensures StepProofOk(Forgiving(), TheProof(), 1)
  {
    var ws := TheAsset().witnesses;
    assert Outpoints(ws) == [Outpoint(0, 0)];
    assert multiset([Outpoint(0, 0)])[Outpoint(0, 0)] == 1;
    assert multiset(TheProof().anchorTx.inputs) == multiset{Some(Outpoint(0, 0))};
  }

  lemma {:induction false} PlainContent(steps: seq<StepTree>)
    requires forall i | 0 <= i < |steps| :: 0 < |steps[i].proof| <= MAX_STEP_SIZE && steps[i].coPaths == []
    ensures StepsContentOk(Forgiving(), steps)
    decreases |steps|
  {
    if steps != [] {
      TheProofIsOk();
      PlainContent(steps[1..]);
    }
  }

  /** With such a library the whole of `Validate` accepts a path whose own
      encoding is refused. */
  lemma ValidButUnreadable(h: Hasher)
    ensures Forgiving().Valid() && Validated(Forgiving(), LargestShape())
    ensures Unmarshalled(Forgiving(), h, Encode(h, LargestShape())) == None
  {
    ShapeAcceptsUndecodable(h);
    hide Decode, Encode, StepsContentOk, Charge, Zeros;
    var t := LargestShape();
    assert forall i | 0 <= i < |t.steps| :: 0 < |t.steps[i].proof| <= MAX_STEP_SIZE && t.steps[i].coPaths == [] by {
      ZerosLength();
    }
    PlainContent(t.steps);
  }

  lemma ZerosLength()
    ensures forall k: nat :: |Zeros(k)| == k
  {
  }

  // -------------------------------------------------------------- verifying objects

  /** The tree of a validated object, read once. */
  method ReadTree(p: AssetProofPath, ghost nodes: set<AssetProofPath>, ghost depth: nat) returns (t: PathTree)
    requires Closed(nodes) && p in nodes && Unfold(nodes, p, depth).Some?
    ensures t == Unfold(nodes, p, depth).value
    decreases Levels(depth), 2
  {
    hide UnfoldSteps;
    var steps := ReadSteps(p.steps, nodes, depth);
    t := PathTree(p.base, steps);
  }

  method ReadSteps(steps: seq<ProofPathStep>, ghost nodes: set<AssetProofPath>, ghost depth: nat)
    returns (trees: seq<StepTree>)
    requires Closed(nodes) && StepsIn(nodes, steps) && depth <= MAX_CO_DEPTH
    requires UnfoldSteps(nodes, steps, depth).Some?
    ensures trees == UnfoldSteps(nodes, steps, depth).value
    decreases Levels(depth), 1
  {
    hide Unfold, UnfoldSteps, UnfoldPaths;
    ghost var all := UnfoldSteps(nodes, steps, depth).value;
    trees := [];
    assert steps[0..] == steps && [] + all == all;
    for i := 0 to |steps|
      invariant StepsIn(nodes, steps[i..]) && UnfoldSteps(nodes, steps[i..], depth).Some?
      invariant trees + UnfoldSteps(nodes, steps[i..], depth).value == all
    {
      UnfoldFirstStep(nodes, steps[i..], depth);
      assert steps[i..][0] == steps[i] && steps[i..][1..] == steps[i + 1..];
      var coPaths := ReadPaths(steps[i].coPaths, nodes, depth);
      Shift(trees, StepTree(steps[i].proof, coPaths), UnfoldSteps(nodes, steps[i + 1..], depth).value);
      trees := trees + [StepTree(steps[i].proof, coPaths)];
    }
    NothingRead(nodes, depth);
    assert trees + [] == trees;
  }

  method ReadPaths(paths: seq<AssetProofPath?>, ghost nodes: set<AssetProofPath>, ghost depth: nat)
    returns (trees: seq<PathTree>)
    requires Closed(nodes) && PathsIn(nodes, paths) && depth <= MAX_CO_DEPTH
    requires UnfoldPaths(nodes, paths, depth).Some?
    ensures trees == UnfoldPaths(nodes, paths, depth).value
    decreases Levels(depth), 0
  {
    hide Unfold, UnfoldPaths;
    ghost var all := UnfoldPaths(nodes, paths, depth).value;
    trees := [];
    assert paths[0..] == paths && [] + all == all;
    for j := 0 to |paths|
      invariant PathsIn(nodes, paths[j..]) && UnfoldPaths(nodes, paths[j..], depth).Some?
      invariant trees + UnfoldPaths(nodes, paths[j..], depth).value == all
    {
      UnfoldFirstPath(nodes, paths[j..], depth);
      assert paths[j..][0] == paths[j] && paths[j..][1..] == paths[j + 1..];
      var tree := ReadTree(paths[j], nodes, depth + 1);
      Shift(trees, tree, UnfoldPaths(nodes, paths[j + 1..], depth).value);
      trees := trees + [tree];
    }
    NothingRead(nodes, depth);
    assert trees + [] == trees;
  }

  lemma Shift<T>(a: seq<T>, x: T, b: seq<T>)
    ensures a + ([x] + b) == (a + [x]) + b
  {
  }

  lemma NothingRead(nodes: set<AssetProofPath>, depth: nat)
    requires Closed(nodes) && depth <= MAX_CO_DEPTH
    ensures UnfoldSteps(nodes, [], depth) == Some([]) && UnfoldPaths(nodes, [], depth) == Some([])
  {
  }

  /** `Verify` on an object. Verification never writes to the path, so it works
      on the tree the object denotes. */
  method VerifyPath(n: Native, host: Host, hashes: PathHashes, p: AssetProofPath?, ghost nodes: set<AssetProofPath>)
    returns (r: Option<PathSummary>)
    requires Closed(nodes) && (p == null || p in nodes)
    modifies host`log
    ensures r.Some? <==>
            old(ValidTree(n, nodes, p)).Some? &&
            Verifies(n, host.oracle, old(ValidTree(n, nodes, p)).value, old(host.log))
    ensures r.Some? ==>
            var t := old(ValidTree(n, nodes, p)).value;
            && Some(r.value.tip) == Tip(n, t) && r.value.depth == |t.steps|
            && r.value.contentId == hashes.content(MarshalBody(hashes.body, t))
            && r.value.baseProofId == hashes.base(t.base)
            && Established(n, t, old(host.log), host.log, r.value.tip)
  {
    hide Unfold, Validated, Established, Verifies, Tip, MarshalBody;
    var ok := Validate(n, p, nodes);
    if !ok {
      return None;
    }
    NilHasNoTree(nodes, p);
    var t := ReadTree(p, nodes, 0);
    r := Verify(n, host, hashes, t);
  }
}
