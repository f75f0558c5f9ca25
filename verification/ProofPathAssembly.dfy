/** The two assemblers of a proof path: the in-memory file that feeds a merging
    step's verification (custom_anchor_proof_path.go) and the confirmed file
    built once every anchor is in a block (custom_anchor_proof_confirm.go). */
module ProofPathAssembly {
  import opened Wrappers
  import opened Bytes
  import opened ProofPathCodec
  import opened ProofPathShape
  import opened NativeProofs

  // ------------------------------------------------------------- the synthetic file

  function Append(n: Native, f: ProofFile, p: Proof): Option<ProofFile> {
    if n.knownFileVersion(f.version) && n.encodeProof(p).Some?
    then Some(f.(proofs := f.proofs + [p])) else None
  }

  /** `syntheticProofFile`: the base file with the steps appended without block
      data, each with the synthetic files of its co-inputs. */
  function SyntheticFile(n: Native, t: PathTree): Option<ProofFile>
    decreases t, 1
  {
    match n.decodeFile(t.base)
    case None => None
    case Some(base) => SyntheticSteps(n, base, t.steps)
  }

  function SyntheticSteps(n: Native, f: ProofFile, steps: seq<StepTree>): Option<ProofFile>
    decreases steps, 0
  {
    if steps == [] then Some(f) else
    match Transition(n, steps[0])
    case None => None
    case Some(t) =>
      match SyntheticInputs(n, steps[0].coPaths)
      case None => None
      case Some(inputs) =>
        match Append(n, f, t.(block := NoBlock, additionalInputs := inputs))
        case None => None
        case Some(longer) => SyntheticSteps(n, longer, steps[1..])
  }

  function SyntheticInputs(n: Native, paths: seq<PathTree>): Option<seq<ProofFile>>
    decreases paths, 0
  {
    if paths == [] then Some([]) else
    match SyntheticFile(n, paths[0])
    case None => None
    case Some(first) =>
      match SyntheticInputs(n, paths[1..])
      case None => None
      case Some(rest) => Some([first] + rest)
  }

  // ------------------------------------------------------------- the confirmed file

  datatype Confirmation = Confirmation(height: nat, block: seq<byte>)

  datatype BlockData = BlockData(header: nat, txids: seq<nat>)

  /** The block library and the size limit of one proof in a file. */
  datatype Chain = Chain(
    decodeBlock: seq<byte> -> Option<BlockData>,
    merkleProof: (seq<nat>, nat) -> seq<nat>,
    maxProofSize: nat)

  datatype ConfirmError = InvalidPath | MissingBlock | LimitExceeded

  type Confirmations = map<nat, Confirmation>

  /** The inclusion data `confirmTransitionProof` finds for an anchor. */
  function FindBlock(chain: Chain, confirmations: Confirmations, txid: nat): Option<Block> {
    if txid !in confirmations || confirmations[txid].block == [] then None else
    match chain.decodeBlock(confirmations[txid].block)
    case None => None
    case Some(data) =>
      match FirstIndex(data.txids, txid)
      case None => None
      case Some(i) => Some(Block(data.header, confirmations[txid].height, chain.merkleProof(data.txids, i)))
  }

  function FirstIndex(s: seq<nat>, x: nat): (r: Option<nat>)
    ensures r.Some? <==> x in s
    ensures r.Some? ==> r.value < |s| && s[r.value] == x && x !in s[..r.value]
  {
    if s == [] then None else if s[0] == x then Some(0) else
    match FirstIndex(s[1..], x)
    case None => None
    case Some(i) => assert s[..i + 1] == [s[0]] + s[1..][..i]; Some(i + 1)
  }

  lemma {:induction false} FirstIndexIs(s: seq<nat>, x: nat, i: nat)
    requires i < |s| && s[i] == x && x !in s[..i]
    ensures FirstIndex(s, x) == Some(i)
  {
    if i > 0 {
      assert s[0] == s[..i][0];
      assert s[1..][..i - 1] == s[..i][1..];
      FirstIndexIs(s[1..], x, i - 1);
    }
  }

  /** A block with this transaction was supplied. */
  ghost predicate Supplied(chain: Chain, confirmations: Confirmations, txid: nat) {
    && txid in confirmations && confirmations[txid].block != []
    && exists data :: chain.decodeBlock(confirmations[txid].block) == Some(data) && txid in data.txids
  }

  /** The supplied block, with the merkle proof of the first transaction in it
      that is this one. */
  ghost predicate Included(chain: Chain, confirmations: Confirmations, txid: nat, k: Block) {
    && txid in confirmations && confirmations[txid].block != []
    && exists data, before, after ::
         && chain.decodeBlock(confirmations[txid].block) == Some(data)
         && data.txids == before + [txid] + after && txid !in before
         && k == Block(data.header, confirmations[txid].height, chain.merkleProof(data.txids, |before|))
  }

  /** The block found is the supplied one, proved at the transaction's place. */
  lemma FindBlockExactly(chain: Chain, confirmations: Confirmations, txid: nat)
    ensures FindBlock(chain, confirmations, txid).Some? <==> Supplied(chain, confirmations, txid)
    ensures forall k :: FindBlock(chain, confirmations, txid) == Some(k) <==> Included(chain, confirmations, txid, k)
  {
    hide FirstIndex;
    if Supplied(chain, confirmations, txid) {
      var data := chain.decodeBlock(confirmations[txid].block).value;
      var i := FirstIndex(data.txids, txid).value;
      var found := Block(data.header, confirmations[txid].height, chain.merkleProof(data.txids, i));
      assert data.txids == data.txids[..i] + [txid] + data.txids[i + 1..];
      assert Included(chain, confirmations, txid, found);
      forall k | Included(chain, confirmations, txid, k)
        ensures k == found
      {
        IncludedOnce(chain, confirmations, txid, data, k);
      }
    }
  }

  lemma IncludedOnce(chain: Chain, confirmations: Confirmations, txid: nat, data: BlockData, k: Block)
    requires Included(chain, confirmations, txid, k) && chain.decodeBlock(confirmations[txid].block) == Some(data)
    ensures FirstIndex(data.txids, txid).Some?
    ensures k == Block(data.header, confirmations[txid].height,
                       chain.merkleProof(data.txids, FirstIndex(data.txids, txid).value))
  {
    hide FirstIndex;
    var before, after :|
      && data.txids == before + [txid] + after && txid !in before
      && k == Block(data.header, confirmations[txid].height, chain.merkleProof(data.txids, |before|));
    assert data.txids[|before|] == txid && data.txids[..|before|] == before;
    FirstIndexIs(data.txids, txid, |before|);
  }

  /** `Validate`: shape, then content. */
  predicate Validated(n: Native, t: PathTree) {
    Charge(Some(t), 0, 0).Some? && ContentOk(n, t)
  }

  ghost function ConfirmFile(n: Native, chain: Chain, confirmations: Confirmations, t: PathTree)
    : Result<seq<byte>, ConfirmError>
    decreases t, 1
  {
    if !Validated(n, t) then Err(InvalidPath) else
    if t.steps == [] then Ok(t.base) else
    match n.decodeFile(t.base)
    case None => Err(InvalidPath)
    case Some(base) =>
      match ConfirmSteps(n, chain, confirmations, base, t.steps)
      case Err(e) => Err(e)
      case Ok(file) =>
        match n.encodeFile(file)
        case None => Err(LimitExceeded)
        case Some(raw) => Ok(raw)
  }

  ghost function ConfirmSteps(n: Native, chain: Chain, confirmations: Confirmations, f: ProofFile, steps: seq<StepTree>)
    : Result<ProofFile, ConfirmError>
    decreases steps, 0
  {
    if steps == [] then Ok(f) else
    match ConfirmStep(n, chain, confirmations, steps[0])
    case Err(e) => Err(e)
    case Ok(p) =>
      if !n.knownFileVersion(f.version) then Err(LimitExceeded)
      else ConfirmSteps(n, chain, confirmations, f.(proofs := f.proofs + [p]), steps[1..])
  }

  ghost function ConfirmStep(n: Native, chain: Chain, confirmations: Confirmations, s: StepTree)
    : Result<Proof, ConfirmError>
    decreases s, 0
  {
    match Transition(n, s)
    case None => Err(InvalidPath)
    case Some(t) =>
      match ConfirmInputs(n, chain, confirmations, s.coPaths)
      case Err(e) => Err(e)
      case Ok(inputs) =>
        match FindBlock(chain, confirmations, t.anchorTx.txid)
        case None => Err(MissingBlock)
        case Some(block) =>
          var p := t.(additionalInputs := inputs, block := block);
          match n.encodeProof(p)
          case None => Err(LimitExceeded)
          case Some(raw) => if |raw| > chain.maxProofSize then Err(LimitExceeded) else Ok(p)
  }

  ghost function ConfirmInputs(n: Native, chain: Chain, confirmations: Confirmations, paths: seq<PathTree>)
    : Result<seq<ProofFile>, ConfirmError>
    decreases paths, 0
  {
    if paths == [] then Ok([]) else
    match ConfirmFile(n, chain, confirmations, paths[0])
    case Err(e) => Err(e)
    case Ok(raw) =>
      match n.decodeFile(raw)
      case None => Err(LimitExceeded)
      case Some(first) =>
        match ConfirmInputs(n, chain, confirmations, paths[1..])
        case Err(e) => Err(e)
        case Ok(rest) => Ok([first] + rest)
  }

  // ------------------------------------------------------------- the source's loops

  /** `confirmTransitionProof`: assigns the block fields from the first
      transaction of the supplied block that is the anchor. */
  method ConfirmTransition(chain: Chain, confirmations: Confirmations, t: Proof) returns (r: Result<Proof, ConfirmError>)
    ensures r == match FindBlock(chain, confirmations, t.anchorTx.txid)
                 case None => Err(MissingBlock)
                 case Some(block) => Ok(t.(block := block))
    ensures r.Ok? <==> Supplied(chain, confirmations, t.anchorTx.txid)
    ensures r.Ok? ==> r.value == t.(block := r.value.block)
    ensures r.Ok? ==> Included(chain, confirmations, t.anchorTx.txid, r.value.block)
  {
    hide Included;
    FindBlockExactly(chain, confirmations, t.anchorTx.txid);
    var txid := t.anchorTx.txid;
    if txid !in confirmations || confirmations[txid].block == [] {
      return Err(MissingBlock);
    }
    var decoded := chain.decodeBlock(confirmations[txid].block);
    if decoded.None? {
      return Err(MissingBlock);
    }
    var txids := decoded.value.txids;
    var txIndex := -1;
    for i := 0 to |txids|
      invariant txIndex == -1 && txid !in txids[..i]
    {
      if txids[i] == txid {
        txIndex := i;
        break;
      }
    }
    if txIndex < 0 {
      assert txids[..|txids|] == txids;
      return Err(MissingBlock);
    }
    FirstIndexIs(txids, txid, txIndex);
    r := Ok(t.(block := Block(decoded.value.header, confirmations[txid].height, chain.merkleProof(txids, txIndex))));
  }

  /** `ConfirmProofFile`. */
  method ConfirmProofFile(n: Native, chain: Chain, confirmations: Confirmations, t: PathTree)
    returns (r: Result<seq<byte>, ConfirmError>)
    ensures r == ConfirmFile(n, chain, confirmations, t)
    decreases t, 2
  {
    if !Validated(n, t) {
      return Err(InvalidPath);
    }
    if t.steps == [] {
      return Ok(t.base);
    }
    var base := n.decodeFile(t.base);
    if base.None? {
      return Err(InvalidPath);
    }
    var file := ConfirmAllSteps(n, chain, confirmations, base.value, t.steps);
    if file.Err? {
      return Err(file.error);
    }
    var raw := n.encodeFile(file.value);
    r := if raw.None? then Err(LimitExceeded) else Ok(raw.value);
  }

  method ConfirmAllSteps(n: Native, chain: Chain, confirmations: Confirmations, base: ProofFile, steps: seq<StepTree>)
    returns (r: Result<ProofFile, ConfirmError>)
    ensures r == ConfirmSteps(n, chain, confirmations, base, steps)
    decreases steps, 1
  {
    hide ConfirmSteps, ConfirmStep;
    var file := base;
    assert steps[0..] == steps;
    for i := 0 to |steps|
      invariant ConfirmSteps(n, chain, confirmations, base, steps) ==
                ConfirmSteps(n, chain, confirmations, file, steps[i..])
    {
      assert steps[i..][0] == steps[i] && steps[i..][1..] == steps[i + 1..];
      ConfirmFirstStep(n, chain, confirmations, file, steps[i..]);
      var p := ConfirmOneStep(n, chain, confirmations, steps[i]);
      if p.Err? {
        return Err(p.error);
      }
      if !n.knownFileVersion(file.version) {
        return Err(LimitExceeded);
      }
      file := file.(proofs := file.proofs + [p.value]);
    }
    ConfirmNothing(n, chain, confirmations, file);
    r := Ok(file);
  }

  lemma ConfirmFirstStep(n: Native, chain: Chain, confirmations: Confirmations, f: ProofFile, steps: seq<StepTree>)
    requires steps != []
    ensures ConfirmSteps(n, chain, confirmations, f, steps) ==
            match ConfirmStep(n, chain, confirmations, steps[0])
            case Err(e) => Err(e)
            case Ok(p) =>
              if !n.knownFileVersion(f.version) then Err(LimitExceeded)
              else ConfirmSteps(n, chain, confirmations, f.(proofs := f.proofs + [p]), steps[1..])
  {
  }

  lemma ConfirmNothing(n: Native, chain: Chain, confirmations: Confirmations, f: ProofFile)
    ensures ConfirmSteps(n, chain, confirmations, f, []) == Ok(f)
    ensures ConfirmInputs(n, chain, confirmations, []) == Ok([])
  {
  }

  method ConfirmOneStep(n: Native, chain: Chain, confirmations: Confirmations, s: StepTree)
    returns (r: Result<Proof, ConfirmError>)
    ensures r == ConfirmStep(n, chain, confirmations, s)
    decreases s, 1
  {
    var decoded := CheckStepProof(n, s.proof, 1 + |s.coPaths|);
    if decoded.None? {
      return Err(InvalidPath);
    }
    var inputs := ConfirmCoInputs(n, chain, confirmations, s.coPaths);
    if inputs.Err? {
      return Err(inputs.error);
    }
    var confirmed := ConfirmTransition(chain, confirmations, decoded.value.(additionalInputs := inputs.value));
    if confirmed.Err? {
      return Err(confirmed.error);
    }
    var raw := n.encodeProof(confirmed.value);
    if raw.None? || |raw.value| > chain.maxProofSize {
      return Err(LimitExceeded);
    }
    r := Ok(confirmed.value);
  }

  method ConfirmCoInputs(n: Native, chain: Chain, confirmations: Confirmations, paths: seq<PathTree>)
    returns (r: Result<seq<ProofFile>, ConfirmError>)
    ensures r == ConfirmInputs(n, chain, confirmations, paths)
    decreases paths, 1
  {
    hide ConfirmInputs, ConfirmFile, Validated;
    var files: seq<ProofFile> := [];
    assert paths[0..] == paths;
    ghost var all := ConfirmInputs(n, chain, confirmations, paths);
    StartInputs(all);
    for j := 0 to |paths|
      invariant all == PrependFiles(files, ConfirmInputs(n, chain, confirmations, paths[j..]))
    {
      assert paths[j..][0] == paths[j] && paths[j..][1..] == paths[j + 1..];
      ConfirmFirstInput(n, chain, confirmations, files, paths[j..]);
      var raw := ConfirmProofFile(n, chain, confirmations, paths[j]);
      if raw.Err? {
        return Err(raw.error);
      }
      var file := n.decodeFile(raw.value);
      if file.None? {
        return Err(LimitExceeded);
      }
      files := files + [file.value];
    }
    ConfirmNothing(n, chain, confirmations, ProofFile(0, []));
    assert files + [] == files;
    r := Ok(files);
  }

  ghost function PrependFiles(done: seq<ProofFile>, more: Result<seq<ProofFile>, ConfirmError>)
    : Result<seq<ProofFile>, ConfirmError>
  {
    match more
    case Err(e) => Err(e)
    case Ok(files) => Ok(done + files)
  }

  lemma StartInputs(all: Result<seq<ProofFile>, ConfirmError>)
    ensures PrependFiles([], all) == all
  {
    assert all.Ok? ==> [] + all.value == all.value;
  }

  lemma ConfirmFirstInput(n: Native, chain: Chain, confirmations: Confirmations, done: seq<ProofFile>,
                          paths: seq<PathTree>)
    requires paths != []
    ensures PrependFiles(done, ConfirmInputs(n, chain, confirmations, paths)) ==
            match ConfirmFile(n, chain, confirmations, paths[0])
            case Err(e) => Err(e)
            case Ok(raw) =>
              match n.decodeFile(raw)
              case None => Err(LimitExceeded)
              case Some(file) => PrependFiles(done + [file], ConfirmInputs(n, chain, confirmations, paths[1..]))
  {
    hide ConfirmFile;
    var rest := ConfirmInputs(n, chain, confirmations, paths[1..]);
    if rest.Ok? {
      forall file: ProofFile
        ensures done + ([file] + rest.value) == done + [file] + rest.value
      {
      }
    }
  }

  // ------------------------------------------------- nested validation never fails

  ghost predicate AllValidated(n: Native, paths: seq<PathTree>) {
    forall j | 0 <= j < |paths| :: Validated(n, paths[j])
  }

  lemma {:induction false} ShallowerBounds(t: PathTree, depth: nat, less: nat)
    requires ShapeBounds(t, depth) && less <= depth
    ensures ShapeBounds(t, less)
    decreases t, 1
  {
    ShallowerSteps(t.steps, depth, less);
  }

  lemma {:induction false} ShallowerSteps(steps: seq<StepTree>, depth: nat, less: nat)
    requires StepsShapeBounds(steps, depth) && less <= depth
    ensures StepsShapeBounds(steps, less)
    decreases steps, 0
  {
    if steps != [] {
      ShallowerPaths(steps[0].coPaths, depth, less);
      ShallowerSteps(steps[1..], depth, less);
    }
  }

  lemma {:induction false} ShallowerPaths(paths: seq<PathTree>, depth: nat, less: nat)
    requires CoPathsShapeBounds(paths, depth) && less <= depth
    ensures CoPathsShapeBounds(paths, less)
    decreases paths, 0
  {
    if paths != [] {
      ShallowerBounds(paths[0], depth + 1, less + 1);
      ShallowerPaths(paths[1..], depth, less);
    }
  }

  lemma {:induction false} PathsOfValid(n: Native, paths: seq<PathTree>)
    requires CoPathsShapeBounds(paths, 0) && CoPathsShapeSize(paths) <= MAX_PATH_SIZE && PathsContentOk(n, paths)
    ensures AllValidated(n, paths)
    decreases |paths|
  {
    if paths != [] {
      ShallowerBounds(paths[0], 1, 0);
      PathsOfValid(n, paths[1..]);
      forall j | 0 <= j < |paths|
        ensures Validated(n, paths[j])
      {
        assert j > 0 ==> Validated(n, paths[1..][j - 1]);
      }
    }
  }

  lemma {:induction false} StepsOfValid(n: Native, steps: seq<StepTree>)
    requires StepsShapeBounds(steps, 0) && StepsShapeSize(steps) <= MAX_PATH_SIZE && StepsContentOk(n, steps)
    ensures forall i | 0 <= i < |steps| :: AllValidated(n, steps[i].coPaths) && Transition(n, steps[i]).Some?
    decreases |steps|
  {
    if steps != [] {
      PathsOfValid(n, steps[0].coPaths);
      StepsOfValid(n, steps[1..]);
      forall i | 0 <= i < |steps|
        ensures AllValidated(n, steps[i].coPaths) && Transition(n, steps[i]).Some?
      {
        assert i > 0 ==> AllValidated(n, steps[1..][i - 1].coPaths) && Transition(n, steps[1..][i - 1]).Some?;
      }
    }
  }

  /** The co-input paths of a valid path are valid on their own, so the nested
      `ConfirmProofFile` calls never fail their own validation. */
  lemma ValidatedParts(n: Native, t: PathTree)
    requires Validated(n, t)
    ensures forall i | 0 <= i < |t.steps| :: AllValidated(n, t.steps[i].coPaths) && Transition(n, t.steps[i]).Some?
    ensures n.decodeFile(t.base).Some?
  {
    StepsOfValid(n, t.steps);
  }

  // ------------------------------------------------------ when confirmation succeeds

  /** Every step of the tree, those of co-input paths included. */
  ghost function StepsOf(t: PathTree): seq<StepTree>
    decreases t, 1
  {
    StepsWithin(t.steps)
  }

  ghost function StepsWithin(steps: seq<StepTree>): seq<StepTree>
    decreases steps, 0
  {
    if steps == [] then [] else StepsOfPaths(steps[0].coPaths) + [steps[0]] + StepsWithin(steps[1..])
  }

  ghost function StepsOfPaths(paths: seq<PathTree>): seq<StepTree>
    decreases paths, 0
  {
    if paths == [] then [] else StepsOf(paths[0]) + StepsOfPaths(paths[1..])
  }

  /** A block that contains the step's anchor transaction was supplied. */
  ghost predicate StepConfirmed(n: Native, chain: Chain, confirmations: Confirmations, s: StepTree) {
    Transition(n, s).Some? && Supplied(chain, confirmations, Transition(n, s).value.anchorTx.txid)
  }

  ghost predicate AllConfirmed(n: Native, chain: Chain, confirmations: Confirmations, steps: seq<StepTree>) {
    forall s | s in steps :: StepConfirmed(n, chain, confirmations, s)
  }

  // ------------------------------------------------------- the file without limits

  /** What confirmation would assemble if the library had no size limits. A step
      without a block keeps none. */
  ghost function FullFile(n: Native, chain: Chain, confirmations: Confirmations, t: PathTree): Option<ProofFile>
    decreases t, 1
  {
    match n.decodeFile(t.base)
    case None => None
    case Some(base) => Some(base.(proofs := base.proofs + FullSteps(n, chain, confirmations, t.steps)))
  }

  ghost function FullSteps(n: Native, chain: Chain, confirmations: Confirmations, steps: seq<StepTree>): seq<Proof>
    decreases steps, 0
  {
    if steps == [] then [] else
    FullStep(n, chain, confirmations, steps[0]) + FullSteps(n, chain, confirmations, steps[1..])
  }

  ghost function FullStep(n: Native, chain: Chain, confirmations: Confirmations, s: StepTree): seq<Proof>
    decreases s, 0
  {
    match Transition(n, s)
    case None => []
    case Some(t) =>
      var inputs := FullInputs(n, chain, confirmations, s.coPaths);
      match FindBlock(chain, confirmations, t.anchorTx.txid)
      case None => [t.(additionalInputs := inputs)]
      case Some(block) => [t.(additionalInputs := inputs, block := block)]
  }

  ghost function FullInputs(n: Native, chain: Chain, confirmations: Confirmations, paths: seq<PathTree>): seq<ProofFile>
    decreases paths, 0
  {
    if paths == [] then [] else
    (match FullFile(n, chain, confirmations, paths[0]) case None => [] case Some(file) => [file]) +
    FullInputs(n, chain, confirmations, paths[1..])
  }

  /** The library can write this proof, and into a file. */
  ghost predicate ProofFits(n: Native, chain: Chain, p: Proof) {
    n.encodeProof(p).Some? && |n.encodeProof(p).value| <= chain.maxProofSize
  }

  /** The library's limits, over the whole tree: known file versions, every
      assembled proof and every assembled file, the embedded ones included. */
  ghost predicate FileFits(n: Native, chain: Chain, confirmations: Confirmations, t: PathTree)
    decreases t, 1
  {
    t.steps != [] ==>
      && n.decodeFile(t.base).Some? && n.knownFileVersion(n.decodeFile(t.base).value.version)
      && StepsFit(n, chain, confirmations, t.steps)
      && n.encodeFile(FullFile(n, chain, confirmations, t).value).Some?
  }

  ghost predicate StepsFit(n: Native, chain: Chain, confirmations: Confirmations, steps: seq<StepTree>)
    decreases steps, 0
  {
    steps != [] ==>
      StepFits(n, chain, confirmations, steps[0]) && StepsFit(n, chain, confirmations, steps[1..])
  }

  ghost predicate StepFits(n: Native, chain: Chain, confirmations: Confirmations, s: StepTree)
    decreases s, 0
  {
    && InputsFit(n, chain, confirmations, s.coPaths)
    && forall p | p in FullStep(n, chain, confirmations, s) :: ProofFits(n, chain, p)
  }

  ghost predicate InputsFit(n: Native, chain: Chain, confirmations: Confirmations, paths: seq<PathTree>)
    decreases paths, 0
  {
    paths != [] ==>
      FileFits(n, chain, confirmations, paths[0]) && InputsFit(n, chain, confirmations, paths[1..])
  }

  /** An outcome decided by the blocks and the limits. Where both fail the
      source reports whichever it meets first. */
  ghost predicate Decided<T>(r: Result<T, ConfirmError>, confirmed: bool, fits: bool, value: T) {
    && (confirmed && fits ==> r == Ok(value))
    && (!confirmed && fits ==> r == Err(MissingBlock))
    && (confirmed && !fits ==> r == Err(LimitExceeded))
    && (!confirmed && !fits ==> r == Err(MissingBlock) || r == Err(LimitExceeded))
  }

  ghost predicate StepsReady(n: Native, steps: seq<StepTree>) {
    forall i | 0 <= i < |steps| :: AllValidated(n, steps[i].coPaths) && Transition(n, steps[i]).Some?
  }

  lemma {:induction false} ConfirmStepsDecided(n: Native, chain: Chain, confirmations: Confirmations, f: ProofFile,
                                               steps: seq<StepTree>)
    requires n.Valid() && StepsReady(n, steps)
    ensures Decided(ConfirmSteps(n, chain, confirmations, f, steps),
                    AllConfirmed(n, chain, confirmations, StepsWithin(steps)),
                    (steps != [] ==> n.knownFileVersion(f.version)) && StepsFit(n, chain, confirmations, steps),
                    f.(proofs := f.proofs + FullSteps(n, chain, confirmations, steps)))
    decreases steps, 0
  {
    if steps == [] {
      assert f.proofs + [] == f.proofs;
    } else {
      ConfirmStepDecided(n, chain, confirmations, steps[0]);
      AllConfirmedParts(n, chain, confirmations, StepsOfPaths(steps[0].coPaths) + [steps[0]], StepsWithin(steps[1..]));
      ConfirmFirstStep(n, chain, confirmations, f, steps);
      var p := FullStep(n, chain, confirmations, steps[0])[0];
      var f' := f.(proofs := f.proofs + [p]);
      ConfirmStepsDecided(n, chain, confirmations, f', steps[1..]);
      AppendTwice(f.proofs, p, FullSteps(n, chain, confirmations, steps[1..]));
      hide ConfirmSteps, ConfirmStep, FullStep, StepFits;
    }
  }

  lemma AllConfirmedParts(n: Native, chain: Chain, confirmations: Confirmations, a: seq<StepTree>, b: seq<StepTree>)
    ensures AllConfirmed(n, chain, confirmations, a + b) <==>
            AllConfirmed(n, chain, confirmations, a) && AllConfirmed(n, chain, confirmations, b)
  {
    forall s | s in a || s in b
      ensures s in a + b
    {
    }
  }

  lemma {:induction false} ConfirmStepDecided(n: Native, chain: Chain, confirmations: Confirmations, s: StepTree)
    requires n.Valid() && AllValidated(n, s.coPaths) && Transition(n, s).Some?
    ensures |FullStep(n, chain, confirmations, s)| == 1
    ensures Decided(ConfirmStep(n, chain, confirmations, s),
                    AllConfirmed(n, chain, confirmations, StepsOfPaths(s.coPaths) + [s]),
                    StepFits(n, chain, confirmations, s), FullStep(n, chain, confirmations, s)[0])
    decreases s, 0
  {
    hide AllConfirmed, StepsOfPaths, FullInputs, InputsFit, ConfirmInputs;
    ConfirmInputsDecided(n, chain, confirmations, s.coPaths);
    AllConfirmedParts(n, chain, confirmations, StepsOfPaths(s.coPaths), [s]);
    OneConfirmed(n, chain, confirmations, s);
    FindBlockExactly(chain, confirmations, Transition(n, s).value.anchorTx.txid);
    var p := FullStep(n, chain, confirmations, s)[0];
    assert FullStep(n, chain, confirmations, s) == [p];
    assert StepFits(n, chain, confirmations, s) <==>
           InputsFit(n, chain, confirmations, s.coPaths) && ProofFits(n, chain, p);
  }

  lemma OneConfirmed(n: Native, chain: Chain, confirmations: Confirmations, s: StepTree)
    ensures AllConfirmed(n, chain, confirmations, [s]) <==> StepConfirmed(n, chain, confirmations, s)
  {
    assert s in [s];
  }

  lemma {:induction false} ConfirmInputsDecided(n: Native, chain: Chain, confirmations: Confirmations,
                                                paths: seq<PathTree>)
    requires n.Valid() && AllValidated(n, paths)
    ensures Decided(ConfirmInputs(n, chain, confirmations, paths),
                    AllConfirmed(n, chain, confirmations, StepsOfPaths(paths)),
                    InputsFit(n, chain, confirmations, paths), FullInputs(n, chain, confirmations, paths))
    decreases paths, 0
  {
    if paths != [] {
      assert Validated(n, paths[0]);
      ConfirmFileDecided(n, chain, confirmations, paths[0]);
      AllConfirmedParts(n, chain, confirmations, StepsOf(paths[0]), StepsOfPaths(paths[1..]));
      assert AllValidated(n, paths[1..]);
      ConfirmInputsDecided(n, chain, confirmations, paths[1..]);
      hide ConfirmFile, FullFile, FileFits, StepsOf, Validated;
    }
  }

  /** What decides the confirmation of a valid path: it succeeds if and only if
      every step of the tree has a block with its anchor transaction and the
      library's limits hold, and the file then is the one without limits. If
      only blocks are missing it says so, if only a limit is hit it says that. */
  lemma {:induction false} ConfirmFileDecided(n: Native, chain: Chain, confirmations: Confirmations, t: PathTree)
    requires n.Valid() && Validated(n, t)
    ensures FullFile(n, chain, confirmations, t).Some?
    ensures Decided(DecodedFile(n, ConfirmFile(n, chain, confirmations, t)),
                    AllConfirmed(n, chain, confirmations, StepsOf(t)), FileFits(n, chain, confirmations, t),
                    FullFile(n, chain, confirmations, t))
    decreases t, 1
  {
    ValidatedParts(n, t);
    var base := n.decodeFile(t.base).value;
    assert base.proofs + [] == base.proofs;
    if t.steps != [] {
      ConfirmStepsDecided(n, chain, confirmations, base, t.steps);
    }
    hide ConfirmSteps, FullSteps, StepsFit, StepsWithin, Validated;
  }

  /** A confirmed file as the library reads it. */
  ghost function DecodedFile(n: Native, r: Result<seq<byte>, ConfirmError>): Result<Option<ProofFile>, ConfirmError> {
    match r
    case Err(e) => Err(e)
    case Ok(raw) => Ok(n.decodeFile(raw))
  }

  lemma ConfirmSucceedsExactly(n: Native, chain: Chain, confirmations: Confirmations, t: PathTree)
    requires n.Valid() && Validated(n, t)
    ensures ConfirmFile(n, chain, confirmations, t).Ok? <==>
            AllConfirmed(n, chain, confirmations, StepsOf(t)) && FileFits(n, chain, confirmations, t)
    ensures FileFits(n, chain, confirmations, t) && !AllConfirmed(n, chain, confirmations, StepsOf(t)) ==>
              ConfirmFile(n, chain, confirmations, t) == Err(MissingBlock)
  {
    hide ConfirmFile, AllConfirmed, FileFits, FullFile, Validated, StepsOf;
    ConfirmFileDecided(n, chain, confirmations, t);
  }

  // ------------------------------------------------- the two assemblies agree

  /** A file without the block data of its step proofs, down through the files
      embedded as inputs. The proofs of the confirmed base are left alone. */
  ghost function Erase(n: Native, t: PathTree, f: ProofFile): ProofFile
    requires n.decodeFile(t.base).Some?
    decreases t, 1
  {
    var baseCount := |n.decodeFile(t.base).value.proofs|;
    if baseCount > |f.proofs| then f
    else f.(proofs := f.proofs[..baseCount] + EraseSteps(n, t.steps, f.proofs[baseCount..]))
  }

  ghost function EraseSteps(n: Native, steps: seq<StepTree>, proofs: seq<Proof>): seq<Proof>
    decreases steps, 0
  {
    if steps == [] || proofs == [] then proofs
    else [EraseStep(n, steps[0], proofs[0])] + EraseSteps(n, steps[1..], proofs[1..])
  }

  ghost function EraseStep(n: Native, s: StepTree, p: Proof): Proof
    decreases s, 0
  {
    p.(block := NoBlock, additionalInputs := EraseInputs(n, s.coPaths, p.additionalInputs))
  }

  ghost function EraseInputs(n: Native, paths: seq<PathTree>, files: seq<ProofFile>): seq<ProofFile>
    decreases paths, 0
  {
    if paths == [] || files == [] || n.decodeFile(paths[0].base).None? then files
    else [Erase(n, paths[0], files[0])] + EraseInputs(n, paths[1..], files[1..])
  }

  lemma {:induction false} StepsAgree(n: Native, chain: Chain, confirmations: Confirmations, f: ProofFile, g: ProofFile,
                                      steps: seq<StepTree>, added: seq<Proof>)
    requires n.Valid() && StepsReady(n, steps)
    requires ConfirmSteps(n, chain, confirmations, f, steps) == Ok(f.(proofs := f.proofs + added))
    requires SyntheticSteps(n, g, steps).Some? && f.version == g.version
    ensures SyntheticSteps(n, g, steps) == Some(g.(proofs := g.proofs + EraseSteps(n, steps, added)))
    decreases steps, 0
  {
    if steps == [] {
      NothingAdded(f, g, added);
    } else {
      ConfirmFirstStep(n, chain, confirmations, f, steps);
      var p := ConfirmStep(n, chain, confirmations, steps[0]).value;
      var f' := f.(proofs := f.proofs + [p]);
      var more := ConfirmExtends(n, chain, confirmations, f', steps[1..]);
      AddedCons(f, p, more, added);
      StepAgrees(n, chain, confirmations, steps[0]);
      var q := EraseStep(n, steps[0], p);
      var g' := g.(proofs := g.proofs + [q]);
      StepsAgree(n, chain, confirmations, f', g', steps[1..], more);
      AddedErased(n, steps, p, more, g);
    }
  }

  lemma NothingAdded(f: ProofFile, g: ProofFile, added: seq<Proof>)
    requires f.proofs == f.proofs + added
    ensures g.proofs + added == g.proofs
  {
    assert |f.proofs + added| == |f.proofs| + |added|;
  }

  /** Confirming steps only appends proofs to the file. */
  lemma {:induction false} ConfirmExtends(n: Native, chain: Chain, confirmations: Confirmations, f: ProofFile,
                                          steps: seq<StepTree>) returns (added: seq<Proof>)
    requires ConfirmSteps(n, chain, confirmations, f, steps).Ok?
    ensures ConfirmSteps(n, chain, confirmations, f, steps) == Ok(f.(proofs := f.proofs + added))
    decreases |steps|
  {
    if steps == [] {
      added := [];
      assert f.proofs + [] == f.proofs;
    } else {
      ConfirmFirstStep(n, chain, confirmations, f, steps);
      hide ConfirmSteps, ConfirmStep;
      var p := ConfirmStep(n, chain, confirmations, steps[0]).value;
      var more := ConfirmExtends(n, chain, confirmations, f.(proofs := f.proofs + [p]), steps[1..]);
      added := [p] + more;
      AppendTwice(f.proofs, p, more);
    }
  }

  lemma AppendTwice(proofs: seq<Proof>, p: Proof, more: seq<Proof>)
    ensures proofs + ([p] + more) == (proofs + [p]) + more
  {
  }

  lemma AddedCons(f: ProofFile, p: Proof, more: seq<Proof>, added: seq<Proof>)
    requires f.proofs + added == (f.proofs + [p]) + more
    ensures added == [p] + more
  {
    assert (f.proofs + added)[|f.proofs|..] == added;
    assert ((f.proofs + [p]) + more)[|f.proofs|..] == [p] + more;
  }

  lemma AddedErased(n: Native, steps: seq<StepTree>, p: Proof, more: seq<Proof>, g: ProofFile)
    requires steps != []
    ensures EraseSteps(n, steps, [p] + more) == [EraseStep(n, steps[0], p)] + EraseSteps(n, steps[1..], more)
    ensures (g.proofs + [EraseStep(n, steps[0], p)]) + EraseSteps(n, steps[1..], more) ==
            g.proofs + EraseSteps(n, steps, [p] + more)
  {
    assert ([p] + more)[0] == p && ([p] + more)[1..] == more;
  }

  lemma {:induction false} StepAgrees(n: Native, chain: Chain, confirmations: Confirmations, s: StepTree)
    requires n.Valid() && AllValidated(n, s.coPaths) && ConfirmStep(n, chain, confirmations, s).Ok?
    requires SyntheticInputs(n, s.coPaths).Some?
    ensures EraseStep(n, s, ConfirmStep(n, chain, confirmations, s).value) ==
            Transition(n, s).value.(block := NoBlock, additionalInputs := SyntheticInputs(n, s.coPaths).value)
    decreases s, 0
  {
    InputsAgree(n, chain, confirmations, s.coPaths);
  }

  lemma {:induction false} InputsAgree(n: Native, chain: Chain, confirmations: Confirmations, paths: seq<PathTree>)
    requires n.Valid() && AllValidated(n, paths) && ConfirmInputs(n, chain, confirmations, paths).Ok?
    requires SyntheticInputs(n, paths).Some?
    ensures EraseInputs(n, paths, ConfirmInputs(n, chain, confirmations, paths).value) ==
            SyntheticInputs(n, paths).value
    decreases paths, 0
  {
    if paths != [] {
      assert Validated(n, paths[0]) && AllValidated(n, paths[1..]);
      ValidatedParts(n, paths[0]);
      AssembliesAgree(n, chain, confirmations, paths[0]);
      InputsAgree(n, chain, confirmations, paths[1..]);
      var first := n.decodeFile(ConfirmFile(n, chain, confirmations, paths[0]).value).value;
      var rest := ConfirmInputs(n, chain, confirmations, paths[1..]).value;
      assert ([first] + rest)[0] == first && ([first] + rest)[1..] == rest;
    }
  }

  /** Erasing the block data of a confirmed file, recursively through the files
      embedded in it, yields the synthetic file of the same path. */
  lemma {:induction false} AssembliesAgree(n: Native, chain: Chain, confirmations: Confirmations, t: PathTree)
    requires n.Valid() && Validated(n, t)
    requires ConfirmFile(n, chain, confirmations, t).Ok? && SyntheticFile(n, t).Some?
    ensures n.decodeFile(t.base).Some?
    ensures n.decodeFile(ConfirmFile(n, chain, confirmations, t).value).Some?
    ensures Erase(n, t, n.decodeFile(ConfirmFile(n, chain, confirmations, t).value).value) == SyntheticFile(n, t).value
    decreases t, 1
  {
    ValidatedParts(n, t);
    var base := n.decodeFile(t.base).value;
    if t.steps == [] {
      assert base.proofs[..|base.proofs|] + base.proofs[|base.proofs|..] == base.proofs;
    } else {
      var added := ConfirmExtends(n, chain, confirmations, base, t.steps);
      StepsAgree(n, chain, confirmations, base, base, t.steps, added);
      assert (base.proofs + added)[..|base.proofs|] == base.proofs;
      assert (base.proofs + added)[|base.proofs|..] == added;
    }
  }
}
