/** Writing a path object to bytes and reading one back
    (custom_anchor_proof_path.go), proved against the encoding of the tree the
    object denotes. */
module ProofPathMarshal {
  import opened Wrappers
  import opened Bytes
  import opened ProofPathCodec
  import opened ProofPathLayout
  import opened ProofPathShape

  // ------------------------------------------------------------------- encoding

  lemma UnfoldFirstStep(nodes: set<AssetProofPath>, steps: seq<ProofPathStep>, depth: nat)
    requires Closed(nodes) && StepsIn(nodes, steps) && steps != [] && depth <= MAX_CO_DEPTH
    requires UnfoldSteps(nodes, steps, depth).Some?
    ensures StepsIn(nodes, steps[1..]) && PathsIn(nodes, steps[0].coPaths)
    ensures UnfoldPaths(nodes, steps[0].coPaths, depth).Some? && UnfoldSteps(nodes, steps[1..], depth).Some?
    ensures UnfoldSteps(nodes, steps, depth).value ==
            [StepTree(steps[0].proof, UnfoldPaths(nodes, steps[0].coPaths, depth).value)] +
            UnfoldSteps(nodes, steps[1..], depth).value
  {
    assert PathsIn(nodes, steps[0].coPaths) && StepsIn(nodes, steps[1..]);
  }

  lemma UnfoldFirstPath(nodes: set<AssetProofPath>, paths: seq<AssetProofPath?>, depth: nat)
    requires Closed(nodes) && PathsIn(nodes, paths) && paths != [] && depth <= MAX_CO_DEPTH
    requires UnfoldPaths(nodes, paths, depth).Some?
    ensures PathsIn(nodes, paths[1..]) && paths[0] != null && depth < MAX_CO_DEPTH
    ensures Unfold(nodes, paths[0], depth + 1).Some? && UnfoldPaths(nodes, paths[1..], depth).Some?
    ensures UnfoldPaths(nodes, paths, depth).value ==
            [Unfold(nodes, paths[0], depth + 1).value] + UnfoldPaths(nodes, paths[1..], depth).value
  {
  }

  lemma EncodeConsStep(h: Hasher, step: StepTree, tail: seq<StepTree>, before: seq<byte>)
    ensures before + EncodeSteps(h, [step] + tail) == (before + EncodeStep(h, step)) + EncodeSteps(h, tail)
  {
    hide EncodeSteps, EncodeStep;
    ConsHeadTail(step, tail);
    StepsSplit(h, [step] + tail, []);
    AppendPair(before, EncodeStep(h, step), EncodeSteps(h, tail), EncodeSteps(h, [step] + tail));
  }

  lemma EncodeConsPath(h: Hasher, path: PathTree, tail: seq<PathTree>, before: seq<byte>)
    ensures before + EncodeCoPaths(h, [path] + tail) == (before + Sized(Encode(h, path))) + EncodeCoPaths(h, tail)
  {
    hide EncodeCoPaths, Encode;
    ConsHeadTail(path, tail);
    CoPathsSplit(h, [path] + tail, []);
    AppendPair(before, Sized(Encode(h, path)), EncodeCoPaths(h, tail), EncodeCoPaths(h, [path] + tail));
  }

  lemma AppendPair(a: seq<byte>, b: seq<byte>, c: seq<byte>, bc: seq<byte>)
    requires bc + [] == b + (c + [])
    ensures a + bc == (a + b) + c
  {
    assert bc == bc + [] && c + [] == c;
  }

  /** `encode`: the bytes of a path that was already validated. The base length
      and the step count stand most significant byte first. */
  method EncodePath(h: Hasher, p: AssetProofPath, ghost nodes: set<AssetProofPath>, ghost depth: nat)
    returns (encoded: seq<byte>)
    requires Closed(nodes) && p in nodes && Unfold(nodes, p, depth).Some?
    ensures encoded == Encode(h, Unfold(nodes, p, depth).value)
    ensures PathBytes(h, encoded, Unfold(nodes, p, depth).value)
    ensures |encoded| >= 16 + |p.base|
    ensures encoded[10..14] ==
            [|p.base| / 0x100_0000 % 256, |p.base| / 0x1_0000 % 256, |p.base| / 0x100 % 256, |p.base| % 256]
    ensures encoded[14 + |p.base|..16 + |p.base|] == [|p.steps| / 0x100 % 256, |p.steps| % 256]
    decreases Levels(depth), 1
  {
    hide Encode, UnfoldSteps, PathBytes, MarshalBody;
    var body := MarshalPathBody(h, p, nodes, depth);
    encoded := body + h(body);
    ghost var t := Unfold(nodes, p, depth).value;
    assert t.base == p.base && |t.steps| == |p.steps|;
    hide Unfold;
    EncodedNumbers(h, encoded, t);
  }

  lemma EncodedNumbers(h: Hasher, encoded: seq<byte>, t: PathTree)
    requires encoded == MarshalBody(h, t) + h(MarshalBody(h, t))
    ensures encoded == Encode(h, t) && PathBytes(h, encoded, t)
    ensures |encoded| >= 16 + |t.base|
    ensures encoded[10..14] ==
            [|t.base| / 0x100_0000 % 256, |t.base| / 0x1_0000 % 256, |t.base| / 0x100 % 256, |t.base| % 256]
    ensures encoded[14 + |t.base|..16 + |t.base|] == [|t.steps| / 0x100 % 256, |t.steps| % 256]
  {
    hide MarshalBody, StepsBytes, Number;
    EncodingIsLaidOut(h, encoded, t);
    NumberBytes(encoded[10..14], |t.base|);
    NumberBytes(encoded[14 + |t.base|..16 + |t.base|], |t.steps|);
  }

  method MarshalPathBody(h: Hasher, p: AssetProofPath, ghost nodes: set<AssetProofPath>, ghost depth: nat)
    returns (body: seq<byte>)
    requires Closed(nodes) && p in nodes && Unfold(nodes, p, depth).Some?
    ensures body == MarshalBody(h, Unfold(nodes, p, depth).value)
    decreases Levels(depth), 0, 3
  {
    body := MAGIC + BigEndian(FORMAT, 2) + Sized(p.base) + BigEndian(|p.steps|, 2);
    BodyStart(h, nodes, p, depth, body);
    hide *;
    var encodedSteps := MarshalSteps(h, p.steps, nodes, depth);
    body := body + encodedSteps;
  }

  method MarshalSteps(h: Hasher, steps: seq<ProofPathStep>, ghost nodes: set<AssetProofPath>, ghost depth: nat)
    returns (encoded: seq<byte>)
    requires Closed(nodes) && StepsIn(nodes, steps) && depth <= MAX_CO_DEPTH
    requires UnfoldSteps(nodes, steps, depth).Some?
    ensures encoded == EncodeSteps(h, UnfoldSteps(nodes, steps, depth).value)
    decreases Levels(depth), 0, 2
  {
    hide Unfold, UnfoldSteps, UnfoldPaths, EncodeSteps, EncodeStep;
    ghost var trees := UnfoldSteps(nodes, steps, depth).value;
    encoded := [];
    assert steps[0..] == steps;
    for i := 0 to |steps|
      invariant StepsIn(nodes, steps[i..]) && UnfoldSteps(nodes, steps[i..], depth).Some?
      invariant encoded + EncodeSteps(h, UnfoldSteps(nodes, steps[i..], depth).value) == EncodeSteps(h, trees)
    {
      UnfoldFirstStep(nodes, steps[i..], depth);
      assert steps[i..][0] == steps[i] && steps[i..][1..] == steps[i + 1..];
      ghost var coPaths := UnfoldPaths(nodes, steps[i].coPaths, depth).value;
      EncodeConsStep(h, StepTree(steps[i].proof, coPaths), UnfoldSteps(nodes, steps[i + 1..], depth).value, encoded);
      var encodedStep := MarshalStep(h, steps[i], nodes, depth);
      encoded := encoded + encodedStep;
    }
    NothingEncoded(h, nodes, depth, encoded);
  }

  lemma BodyStart(h: Hasher, nodes: set<AssetProofPath>, p: AssetProofPath, depth: nat, body: seq<byte>)
    requires Closed(nodes) && p in nodes && Unfold(nodes, p, depth).Some?
    requires body == MAGIC + BigEndian(FORMAT, 2) + Sized(p.base) + BigEndian(|p.steps|, 2)
    ensures depth <= MAX_CO_DEPTH && StepsIn(nodes, p.steps) && UnfoldSteps(nodes, p.steps, depth).Some?
    ensures body + EncodeSteps(h, UnfoldSteps(nodes, p.steps, depth).value) ==
            MarshalBody(h, Unfold(nodes, p, depth).value)
  {
    hide EncodeSteps, UnfoldSteps, BigEndian, Sized;
  }

  lemma NothingEncoded(h: Hasher, nodes: set<AssetProofPath>, depth: nat, body: seq<byte>)
    requires Closed(nodes) && depth <= MAX_CO_DEPTH
    ensures UnfoldSteps(nodes, [], depth) == Some([]) && UnfoldPaths(nodes, [], depth) == Some([])
    ensures body + EncodeSteps(h, []) == body && body + EncodeCoPaths(h, []) == body
  {
  }

  method MarshalStep(h: Hasher, step: ProofPathStep, ghost nodes: set<AssetProofPath>, ghost depth: nat)
    returns (encoded: seq<byte>)
    requires Closed(nodes) && PathsIn(nodes, step.coPaths) && depth <= MAX_CO_DEPTH
    requires UnfoldPaths(nodes, step.coPaths, depth).Some?
    ensures encoded == EncodeStep(h, StepTree(step.proof, UnfoldPaths(nodes, step.coPaths, depth).value))
    decreases Levels(depth), 0, 1
  {
    hide UnfoldPaths, EncodeCoPaths;
    encoded := Sized(step.proof) + BigEndian(|step.coPaths|, 2);
    var encodedPaths := MarshalCoPaths(h, step.coPaths, nodes, depth);
    encoded := encoded + encodedPaths;
  }

  method MarshalCoPaths(h: Hasher, paths: seq<AssetProofPath?>, ghost nodes: set<AssetProofPath>, ghost depth: nat)
    returns (encoded: seq<byte>)
    requires Closed(nodes) && PathsIn(nodes, paths) && depth <= MAX_CO_DEPTH
    requires UnfoldPaths(nodes, paths, depth).Some?
    ensures encoded == EncodeCoPaths(h, UnfoldPaths(nodes, paths, depth).value)
    decreases Levels(depth), 0, 0
  {
    hide Unfold, UnfoldPaths, EncodeCoPaths, Encode;
    ghost var trees := UnfoldPaths(nodes, paths, depth).value;
    encoded := [];
    assert paths[0..] == paths;
    for j := 0 to |paths|
      invariant PathsIn(nodes, paths[j..]) && UnfoldPaths(nodes, paths[j..], depth).Some?
      invariant encoded + EncodeCoPaths(h, UnfoldPaths(nodes, paths[j..], depth).value) == EncodeCoPaths(h, trees)
    {
      UnfoldFirstPath(nodes, paths[j..], depth);
      assert paths[j..][0] == paths[j] && paths[j..][1..] == paths[j + 1..];
      EncodeConsPath(h, Unfold(nodes, paths[j], depth + 1).value,
                     UnfoldPaths(nodes, paths[j + 1..], depth).value, encoded);
      var blob := EncodePath(h, paths[j], nodes, depth + 1);
      encoded := encoded + Sized(blob);
    }
    NothingEncoded(h, nodes, depth, encoded);
  }

  // ------------------------------------------------------------------- decoding

  /** A `bytes.Reader` over an encoded body. */
  class Reader {
    var rest: seq<byte>

    constructor (b: seq<byte>)
      ensures rest == b
    {
      rest := b;
    }

    method Uint(width: nat) returns (r: Result<nat, PathError>)
      modifies this
      ensures match ReadUint(old(rest), width)
              case Read(n, after) => r == Ok(n) && rest == after
              case Failed(e) => r == Err(e)
    {
      if |rest| < width {
        return Err(Invalid);
      }
      r := Ok(FromBigEndian(rest[..width]));
      rest := rest[width..];
    }

    /** `readAssetProofPathBytes`. */
    method SizedBytes(maximum: nat) returns (r: Result<seq<byte>, PathError>)
      modifies this
      ensures match ReadSized(old(rest), maximum)
              case Read(value, after) => r == Ok(value) && rest == after
              case Failed(e) => r == Err(e)
    {
      var length := Uint(4);
      if length.Err? {
        return Err(Invalid);
      }
      var n := length.value;
      if n == 0 || n > maximum || n > |rest| {
        return Err(Invalid);
      }
      assert old(rest)[4..4 + n] == rest[..n] && old(rest)[4 + n..] == rest[n..];
      r := Ok(rest[..n]);
      rest := rest[n..];
    }
  }

  /** Pointers that stay inside a closed set denote the same trees in any
      larger closed set. */
  lemma {:induction false} UnfoldLarger(nodes: set<AssetProofPath>, more: set<AssetProofPath>,
                                        p: AssetProofPath?, depth: nat)
    requires Closed(nodes) && Closed(more) && nodes <= more && (p == null || p in nodes)
    ensures Unfold(nodes, p, depth) == Unfold(more, p, depth)
    decreases Levels(depth), 3, 0
  {
    if p != null && depth <= MAX_CO_DEPTH {
      UnfoldStepsLarger(nodes, more, p.steps, depth);
    }
  }

  lemma {:induction false} UnfoldStepsLarger(nodes: set<AssetProofPath>, more: set<AssetProofPath>,
                                             steps: seq<ProofPathStep>, depth: nat)
    requires Closed(nodes) && Closed(more) && nodes <= more && StepsIn(nodes, steps) && depth <= MAX_CO_DEPTH
    ensures StepsIn(more, steps) && UnfoldSteps(nodes, steps, depth) == UnfoldSteps(more, steps, depth)
    decreases Levels(depth), 1, |steps|
  {
    forall i | 0 <= i < |steps|
      ensures PathsIn(more, steps[i].coPaths)
    {
      assert PathsIn(nodes, steps[i].coPaths);
    }
    if steps != [] {
      assert PathsIn(nodes, steps[0].coPaths) && StepsIn(nodes, steps[1..]);
      UnfoldPathsLarger(nodes, more, steps[0].coPaths, depth);
      UnfoldStepsLarger(nodes, more, steps[1..], depth);
    }
  }

  lemma {:induction false} UnfoldPathsLarger(nodes: set<AssetProofPath>, more: set<AssetProofPath>,
                                             paths: seq<AssetProofPath?>, depth: nat)
    requires Closed(nodes) && Closed(more) && nodes <= more && PathsIn(nodes, paths) && depth <= MAX_CO_DEPTH
    ensures PathsIn(more, paths) && UnfoldPaths(nodes, paths, depth) == UnfoldPaths(more, paths, depth)
    decreases Levels(depth), 0, |paths|
  {
    if paths != [] {
      UnfoldLarger(nodes, more, paths[0], depth + 1);
      UnfoldPathsLarger(nodes, more, paths[1..], depth);
    }
  }

  lemma {:induction false} UnfoldStepsAppend(nodes: set<AssetProofPath>, steps: seq<ProofPathStep>, last: ProofPathStep,
                                             trees: seq<StepTree>, coPaths: seq<PathTree>, depth: nat)
    requires Closed(nodes) && StepsIn(nodes, steps) && PathsIn(nodes, last.coPaths) && depth <= MAX_CO_DEPTH
    requires UnfoldSteps(nodes, steps, depth) == Some(trees)
    requires UnfoldPaths(nodes, last.coPaths, depth) == Some(coPaths)
    ensures StepsIn(nodes, steps + [last])
    ensures UnfoldSteps(nodes, steps + [last], depth) == Some(trees + [StepTree(last.proof, coPaths)])
    decreases |steps|
  {
    if steps == [] {
      assert steps + [last] == [last] && [last][1..] == [];
      assert trees + [StepTree(last.proof, coPaths)] == [StepTree(last.proof, coPaths)] + [];
    } else {
      assert PathsIn(nodes, steps[0].coPaths) && StepsIn(nodes, steps[1..]);
      UnfoldStepsAppend(nodes, steps[1..], last, trees[1..], coPaths, depth);
      assert (steps + [last])[1..] == steps[1..] + [last];
      assert trees + [StepTree(last.proof, coPaths)] == [trees[0]] + (trees[1..] + [StepTree(last.proof, coPaths)]);
    }
  }

  lemma {:induction false} UnfoldPathsAppend(nodes: set<AssetProofPath>, paths: seq<AssetProofPath?>, last: AssetProofPath,
                                             trees: seq<PathTree>, tree: PathTree, depth: nat)
    requires Closed(nodes) && PathsIn(nodes, paths) && last in nodes && depth <= MAX_CO_DEPTH
    requires UnfoldPaths(nodes, paths, depth) == Some(trees)
    requires Unfold(nodes, last, depth + 1) == Some(tree)
    ensures UnfoldPaths(nodes, paths + [last], depth) == Some(trees + [tree])
    decreases |paths|
  {
    if paths == [] {
      assert paths + [last] == [last] && [last][1..] == [];
      assert trees + [tree] == [tree] + [];
    } else {
      UnfoldPathsAppend(nodes, paths[1..], last, trees[1..], tree, depth);
      assert (paths + [last])[1..] == paths[1..] + [last];
      assert trees + [tree] == [trees[0]] + (trees[1..] + [tree]);
    }
  }

  /** A parse whose first elements are already known. */
  ghost function Prepend<T>(done: seq<T>, parsed: Parsed<seq<T>>): Parsed<seq<T>> {
    match parsed
    case Failed(e) => Failed(e)
    case Read(more, rest) => Read(done + more, rest)
  }

  lemma PrependStep(h: Hasher, done: seq<StepTree>, b: seq<byte>, count: nat, depth: nat)
    requires count > 0
    ensures Prepend(done, DecodeSteps(h, b, count, depth)) ==
            match DecodeStep(h, b, depth)
            case Failed(e) => Failed(e)
            case Read(step, afterStep) => Prepend(done + [step], DecodeSteps(h, afterStep, count - 1, depth))
  {
    match DecodeStep(h, b, depth)
    case Failed(_) =>
    case Read(step, afterStep) =>
      match DecodeSteps(h, afterStep, count - 1, depth)
      case Failed(_) =>
      case Read(more, _) => assert done + ([step] + more) == done + [step] + more;
  }

  /** One embedded co-input path at the front of `b`. */
  ghost function ReadCoPath(h: Hasher, b: seq<byte>, depth: nat): (r: Parsed<PathTree>)
    ensures r.Read? ==> |r.rest| < |b|
  {
    match ReadSized(b, MAX_PATH_SIZE)
    case Failed(e) => Failed(e)
    case Read(blob, afterBlob) =>
      match Decode(h, blob, depth + 1)
      case Err(e) => Failed(e)
      case Ok(path) => Read(path, afterBlob)
  }

  lemma PrependPath(h: Hasher, done: seq<PathTree>, b: seq<byte>, count: nat, depth: nat)
    requires count > 0
    ensures Prepend(done, DecodeCoPaths(h, b, count, depth)) ==
            match ReadCoPath(h, b, depth)
            case Failed(e) => Failed(e)
            case Read(path, afterPath) => Prepend(done + [path], DecodeCoPaths(h, afterPath, count - 1, depth))
  {
    match ReadCoPath(h, b, depth)
    case Failed(_) =>
    case Read(path, afterPath) =>
      match DecodeCoPaths(h, afterPath, count - 1, depth)
      case Failed(_) =>
      case Read(more, _) => assert done + ([path] + more) == done + [path] + more;
  }

  /** `unmarshalBinaryAt`: on success the receiver, with freshly allocated
      co-input paths, denotes exactly the decoded tree; on failure the receiver
      is untouched. */
  method UnmarshalBinaryAt(h: Hasher, p: AssetProofPath, encoded: seq<byte>, depth: nat)
    returns (r: Result<(), PathError>, ghost nodes: set<AssetProofPath>)
    modifies p
    ensures match Decode(h, encoded, depth)
            case Err(e) => r == Err(e) && p.base == old(p.base) && p.steps == old(p.steps)
            case Ok(t) =>
              && r.Ok? && p in nodes && fresh(nodes - {p})
              && Closed(nodes) && Unfold(nodes, p, depth) == Some(t)
    decreases |encoded|, 3
  {
    nodes := {p};
    if depth > MAX_CO_DEPTH || |encoded| > MAX_PATH_SIZE || |encoded| < HEADER_SIZE + CHECKSUM_SIZE {
      return Err(Invalid), nodes;
    }
    var body := encoded[..|encoded| - CHECKSUM_SIZE];
    if h(body) != encoded[|encoded| - CHECKSUM_SIZE..] {
      return Err(Invalid), nodes;
    }
    r, nodes := UnmarshalBody(h, p, body, depth);
  }

  method UnmarshalBody(h: Hasher, p: AssetProofPath, body: seq<byte>, depth: nat)
    returns (r: Result<(), PathError>, ghost nodes: set<AssetProofPath>)
    requires |body| >= HEADER_SIZE && depth <= MAX_CO_DEPTH
    modifies p
    ensures match DecodeBody(h, body, depth)
            case Err(e) => r == Err(e) && p.base == old(p.base) && p.steps == old(p.steps)
            case Ok(t) =>
              && r.Ok? && p in nodes && fresh(nodes - {p})
              && Closed(nodes) && Unfold(nodes, p, depth) == Some(t)
    decreases |body|, 2
  {
    hide Unfold, UnfoldSteps, DecodeSteps, Closed, StepsIn, FromBigEndian;
    nodes := {p};
    var reader := new Reader(body[10..]);
    if body[..8] != MAGIC {
      return Err(Invalid), nodes;
    }
    if FromBigEndian(body[8..10]) != FORMAT {
      return Err(UnknownFormat), nodes;
    }
    var base := reader.SizedBytes(MAX_BASE_SIZE);
    if base.Err? {
      return Err(base.error), nodes;
    }
    var count := reader.Uint(2);
    if count.Err? {
      return Err(count.error), nodes;
    }
    if count.value > MAX_STEPS {
      return Err(Invalid), nodes;
    }
    ghost var b := reader.rest;
    var steps, kids := UnmarshalSteps(h, reader, count.value, depth);
    if steps.Err? {
      return Err(steps.error), nodes;
    }
    if reader.rest != [] {
      return Err(Invalid), nodes;
    }
    ghost var trees := DecodeSteps(h, b, count.value, depth).value;
    p.base, p.steps := base.value, steps.value;
    nodes := kids + {p};
    DecodedObject(kids, p, depth, trees);
    r := Ok(());
  }

  lemma DecodedObject(kids: set<AssetProofPath>, p: AssetProofPath, depth: nat, trees: seq<StepTree>)
    requires Closed(kids) && StepsIn(kids, p.steps) && depth <= MAX_CO_DEPTH
    requires UnfoldSteps(kids, p.steps, depth) == Some(trees)
    ensures Closed(kids + {p}) && Unfold(kids + {p}, p, depth) == Some(PathTree(p.base, trees))
  {
    assert Closed(kids + {p}) by {
      forall q | q in kids + {p}
        ensures StepsIn(kids + {p}, q.steps)
      {
        assert StepsIn(kids, q.steps);
        forall i | 0 <= i < |q.steps|
          ensures PathsIn(kids + {p}, q.steps[i].coPaths)
        {
          assert PathsIn(kids, q.steps[i].coPaths);
        }
      }
    }
    UnfoldStepsLarger(kids, kids + {p}, p.steps, depth);
  }

  /** The union of two closed sets is closed. */
  lemma ClosedUnion(a: set<AssetProofPath>, b: set<AssetProofPath>)
    requires Closed(a) && Closed(b)
    ensures Closed(a + b)
  {
    forall q | q in a + b
      ensures StepsIn(a + b, q.steps)
    {
      assert q in a ==> StepsIn(a, q.steps);
      assert q in b ==> StepsIn(b, q.steps);
      forall i | 0 <= i < |q.steps|
        ensures PathsIn(a + b, q.steps[i].coPaths)
      {
        assert q in a ==> PathsIn(a, q.steps[i].coPaths);
        assert q in b ==> PathsIn(b, q.steps[i].coPaths);
      }
    }
  }

  lemma NoObjects(depth: nat)
    requires depth <= MAX_CO_DEPTH
    ensures Closed({}) && StepsIn({}, []) && PathsIn({}, [])
    ensures UnfoldSteps({}, [], depth) == Some([]) && UnfoldPaths({}, [], depth) == Some([])
  {
  }

  /** Reading one more step extends the objects read so far. */
  lemma StepsGrow(kids: set<AssetProofPath>, coKids: set<AssetProofPath>, steps: seq<ProofPathStep>, last: ProofPathStep,
                  trees: seq<StepTree>, tree: StepTree, depth: nat)
    requires Closed(kids) && Closed(coKids) && depth <= MAX_CO_DEPTH
    requires StepsIn(kids, steps) && UnfoldSteps(kids, steps, depth) == Some(trees)
    requires PathsIn(coKids, last.coPaths) && UnfoldPaths(coKids, last.coPaths, depth) == Some(tree.coPaths)
    requires last.proof == tree.proof
    ensures Closed(kids + coKids) && StepsIn(kids + coKids, steps + [last])
    ensures UnfoldSteps(kids + coKids, steps + [last], depth) == Some(trees + [tree])
  {
    hide UnfoldSteps, UnfoldPaths;
    ClosedUnion(kids, coKids);
    UnfoldStepsLarger(kids, kids + coKids, steps, depth);
    UnfoldPathsLarger(coKids, kids + coKids, last.coPaths, depth);
    UnfoldStepsAppend(kids + coKids, steps, last, trees, tree.coPaths, depth);
  }

  lemma PathsGrow(kids: set<AssetProofPath>, coKids: set<AssetProofPath>, paths: seq<AssetProofPath?>,
                  last: AssetProofPath, trees: seq<PathTree>, tree: PathTree, depth: nat)
    requires Closed(kids) && Closed(coKids) && depth <= MAX_CO_DEPTH
    requires PathsIn(kids, paths) && UnfoldPaths(kids, paths, depth) == Some(trees)
    requires last in coKids && Unfold(coKids, last, depth + 1) == Some(tree)
    ensures Closed(kids + coKids) && PathsIn(kids + coKids, paths + [last])
    ensures UnfoldPaths(kids + coKids, paths + [last], depth) == Some(trees + [tree])
  {
    hide Unfold, UnfoldPaths;
    ClosedUnion(kids, coKids);
    UnfoldPathsLarger(kids, kids + coKids, paths, depth);
    UnfoldLarger(coKids, kids + coKids, last, depth + 1);
    UnfoldPathsAppend(kids + coKids, paths, last, trees, tree, depth);
  }

  method UnmarshalSteps(h: Hasher, reader: Reader, count: nat, depth: nat)
    returns (r: Result<seq<ProofPathStep>, PathError>, ghost kids: set<AssetProofPath>)
    requires depth <= MAX_CO_DEPTH
    modifies reader
    ensures fresh(kids) && Closed(kids)
    ensures match DecodeSteps(h, old(reader.rest), count, depth)
            case Failed(e) => r == Err(e)
            case Read(trees, after) =>
              && r.Ok? && reader.rest == after
              && StepsIn(kids, r.value) && UnfoldSteps(kids, r.value, depth) == Some(trees)
    decreases |reader.rest|, 1, 1
  {
    hide *;
    kids := {};
    var steps: seq<ProofPathStep> := [];
    ghost var trees: seq<StepTree> := [];
    ghost var all := DecodeSteps(h, reader.rest, count, depth);
    ghost var size := |reader.rest|;
    NoObjects(depth);
    PrependNothing(all);
    for i := 0 to count
      invariant fresh(kids) && Closed(kids) && StepsIn(kids, steps)
      invariant UnfoldSteps(kids, steps, depth) == Some(trees)
      invariant |reader.rest| <= size
      invariant all == Prepend(trees, DecodeSteps(h, reader.rest, count - i, depth))
    {
      PrependStep(h, trees, reader.rest, count - i, depth);
      ghost var b := reader.rest;
      var step, coKids := UnmarshalStep(h, reader, depth);
      if step.Err? {
        return Err(step.error), kids;
      }
      ghost var tree := DecodeStep(h, b, depth).value;
      StepsGrow(kids, coKids, steps, step.value, trees, tree, depth);
      kids := kids + coKids;
      steps := steps + [step.value];
      trees := trees + [tree];
    }
    DecodedNothing(h, reader.rest, depth, trees, []);
    r := Ok(steps);
  }

  method UnmarshalStep(h: Hasher, reader: Reader, depth: nat)
    returns (r: Result<ProofPathStep, PathError>, ghost kids: set<AssetProofPath>)
    requires depth <= MAX_CO_DEPTH
    modifies reader
    ensures fresh(kids) && Closed(kids)
    ensures match DecodeStep(h, old(reader.rest), depth)
            case Failed(e) => r == Err(e)
            case Read(tree, after) =>
              && r.Ok? && reader.rest == after && r.value.proof == tree.proof
              && PathsIn(kids, r.value.coPaths) && UnfoldPaths(kids, r.value.coPaths, depth) == Some(tree.coPaths)
    decreases |reader.rest|, 1, 0
  {
    hide UnfoldPaths, DecodeCoPaths;
    kids := {};
    var proof := reader.SizedBytes(MAX_STEP_SIZE);
    if proof.Err? {
      return Err(proof.error), kids;
    }
    var coCount := reader.Uint(2);
    if coCount.Err? {
      return Err(coCount.error), kids;
    }
    if coCount.value > MAX_CO_PATHS {
      return Err(Invalid), kids;
    }
    var coPaths;
    coPaths, kids := UnmarshalCoPaths(h, reader, coCount.value, depth);
    if coPaths.Err? {
      return Err(coPaths.error), kids;
    }
    r := Ok(ProofPathStep(proof.value, coPaths.value));
  }

  lemma PrependNothing<T>(parsed: Parsed<seq<T>>)
    ensures Prepend([], parsed) == parsed
  {
    match parsed
    case Failed(_) =>
    case Read(more, _) => assert [] + more == more;
  }

  lemma DecodedNothing(h: Hasher, b: seq<byte>, depth: nat, steps: seq<StepTree>, paths: seq<PathTree>)
    ensures Prepend(steps, DecodeSteps(h, b, 0, depth)) == Read(steps, b)
    ensures Prepend(paths, DecodeCoPaths(h, b, 0, depth)) == Read(paths, b)
  {
    assert steps + [] == steps && paths + [] == paths;
  }

  method UnmarshalCoPaths(h: Hasher, reader: Reader, count: nat, depth: nat)
    returns (r: Result<seq<AssetProofPath?>, PathError>, ghost kids: set<AssetProofPath>)
    requires depth <= MAX_CO_DEPTH
    modifies reader
    ensures fresh(kids) && Closed(kids)
    ensures match DecodeCoPaths(h, old(reader.rest), count, depth)
            case Failed(e) => r == Err(e)
            case Read(trees, after) =>
              && r.Ok? && reader.rest == after
              && PathsIn(kids, r.value) && UnfoldPaths(kids, r.value, depth) == Some(trees)
    decreases |reader.rest|, 0, 1
  {
    hide *;
    kids := {};
    var paths: seq<AssetProofPath?> := [];
    ghost var trees: seq<PathTree> := [];
    ghost var all := DecodeCoPaths(h, reader.rest, count, depth);
    ghost var size := |reader.rest|;
    NoObjects(depth);
    PrependNothing(all);
    for j := 0 to count
      invariant fresh(kids) && Closed(kids) && PathsIn(kids, paths)
      invariant UnfoldPaths(kids, paths, depth) == Some(trees)
      invariant |reader.rest| <= size
      invariant all == Prepend(trees, DecodeCoPaths(h, reader.rest, count - j, depth))
    {
      PrependPath(h, trees, reader.rest, count - j, depth);
      ghost var b := reader.rest;
      var coPath, coKids := UnmarshalCoPath(h, reader, depth);
      if coPath.Err? {
        return Err(coPath.error), kids;
      }
      ghost var tree := ReadCoPath(h, b, depth).value;
      PathsGrow(kids, coKids, paths, coPath.value, trees, tree, depth);
      kids := kids + coKids;
      paths := paths + [coPath.value];
      trees := trees + [tree];
    }
    DecodedNothing(h, reader.rest, depth, [], trees);
    r := Ok(paths);
  }

  /** One embedded co-input path: its blob, read into a fresh object. */
  method UnmarshalCoPath(h: Hasher, reader: Reader, depth: nat)
    returns (r: Result<AssetProofPath, PathError>, ghost kids: set<AssetProofPath>)
    requires depth <= MAX_CO_DEPTH
    modifies reader
    ensures fresh(kids)
    ensures match ReadCoPath(h, old(reader.rest), depth)
            case Failed(e) => r == Err(e)
            case Read(tree, after) =>
              && r.Ok? && reader.rest == after && Closed(kids) && r.value in kids
              && Unfold(kids, r.value, depth + 1) == Some(tree)
    decreases |reader.rest|, 0, 0
  {
    hide Unfold, Decode;
    kids := {};
    var blob := reader.SizedBytes(MAX_PATH_SIZE);
    if blob.Err? {
      return Err(blob.error), kids;
    }
    var coPath := new AssetProofPath();
    var decoded;
    decoded, kids := UnmarshalBinaryAt(h, coPath, blob.value, depth + 1);
    if decoded.Err? {
      return Err(decoded.error), {};
    }
    r := Ok(coPath);
  }
}
