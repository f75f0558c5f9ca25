/** Asset proof paths as linked objects: the shape check over an arbitrary
    pointer graph, the encoder and the decoder (custom_anchor_proof_path.go).

    The tree a path denotes is what unfolding its pointers yields. A nil or
    over-deep pointer denotes nothing, and neither does a cycle. */
module ProofPathShape {
  import opened Wrappers
  import opened Bytes
  import opened ProofPathCodec

  datatype ProofPathStep = ProofPathStep(proof: seq<byte>, coPaths: seq<AssetProofPath?>)

  class AssetProofPath {
    var base: seq<byte>
    var steps: seq<ProofPathStep>

    constructor ()
      ensures base == [] && steps == []
    {
      base, steps := [], [];
    }
  }

  // -------------------------------------------------------------- pointer graphs

  ghost predicate PathsIn(nodes: set<AssetProofPath>, paths: seq<AssetProofPath?>) {
    forall j | 0 <= j < |paths| :: paths[j] == null || paths[j] in nodes
  }

  ghost predicate StepsIn(nodes: set<AssetProofPath>, steps: seq<ProofPathStep>) {
    forall i | 0 <= i < |steps| :: PathsIn(nodes, steps[i].coPaths)
  }

  /** Following pointers from a node of `nodes` never leaves `nodes`. */
  ghost predicate Closed(nodes: set<AssetProofPath>)
    reads nodes
  {
    forall p | p in nodes :: StepsIn(nodes, p.steps)
  }

  ghost function Levels(depth: nat): nat {
    if depth > MAX_CO_DEPTH then 0 else MAX_CO_DEPTH + 1 - depth
  }

  /** The tree denoted by `p` when it is reached at co-input nesting `depth`. */
  ghost function Unfold(nodes: set<AssetProofPath>, p: AssetProofPath?, depth: nat): Option<PathTree>
    requires Closed(nodes) && (p == null || p in nodes)
    reads nodes
    decreases Levels(depth), 3, 0
  {
    if p == null || depth > MAX_CO_DEPTH then None else
    var steps := UnfoldSteps(nodes, p.steps, depth);
    if steps.None? then None else Some(PathTree(p.base, steps.value))
  }

  ghost function UnfoldSteps(nodes: set<AssetProofPath>, steps: seq<ProofPathStep>, depth: nat)
    : (r: Option<seq<StepTree>>)
    requires Closed(nodes) && StepsIn(nodes, steps) && depth <= MAX_CO_DEPTH
    reads nodes
    ensures r.Some? ==> |r.value| == |steps|
    decreases Levels(depth), 1, |steps|
  {
    if steps == [] then Some([]) else
    assert PathsIn(nodes, steps[0].coPaths);
    var coPaths := UnfoldPaths(nodes, steps[0].coPaths, depth);
    assert StepsIn(nodes, steps[1..]);
    var rest := UnfoldSteps(nodes, steps[1..], depth);
    if coPaths.None? || rest.None? then None
    else Some([StepTree(steps[0].proof, coPaths.value)] + rest.value)
  }

  /** The trees of the co-input paths of one step of a path at `depth`. */
  ghost function UnfoldPaths(nodes: set<AssetProofPath>, paths: seq<AssetProofPath?>, depth: nat)
    : (r: Option<seq<PathTree>>)
    requires Closed(nodes) && PathsIn(nodes, paths) && depth <= MAX_CO_DEPTH
    reads nodes
    ensures r.Some? ==> |r.value| == |paths|
    decreases Levels(depth), 0, |paths|
  {
    if paths == [] then Some([]) else
    var first := Unfold(nodes, paths[0], depth + 1);
    var rest := UnfoldPaths(nodes, paths[1..], depth);
    if first.None? || rest.None? then None else Some([first.value] + rest.value)
  }

  // ------------------------------------------------------------------ shape sizes

  /** The size `validateShape` charges for a tree. */
  function ShapeSize(t: PathTree): nat
    decreases t, 0
  {
    HEADER_SIZE + CHECKSUM_SIZE + |t.base| + StepsShapeSize(t.steps)
  }

  function StepsShapeSize(steps: seq<StepTree>): nat
    decreases steps, 0
  {
    if steps == [] then 0
    else 4 + |steps[0].proof| + CoPathsShapeSize(steps[0].coPaths) + StepsShapeSize(steps[1..])
  }

  function CoPathsShapeSize(paths: seq<PathTree>): nat
    decreases paths, 0
  {
    if paths == [] then 0 else 4 + ShapeSize(paths[0]) + CoPathsShapeSize(paths[1..])
  }

  /** The steps of a whole tree, those of its co-input paths included. */
  ghost function StepCount(t: PathTree): nat
    decreases t, 0
  {
    StepsCount(t.steps)
  }

  ghost function StepsCount(steps: seq<StepTree>): nat
    decreases steps, 0
  {
    if steps == [] then 0 else 1 + CoPathsStepCount(steps[0].coPaths) + StepsCount(steps[1..])
  }

  ghost function CoPathsStepCount(paths: seq<PathTree>): nat
    decreases paths, 0
  {
    if paths == [] then 0 else StepCount(paths[0]) + CoPathsStepCount(paths[1..])
  }

  lemma {:induction false} StepsEncodedSize(h: Hasher, steps: seq<StepTree>)
    ensures |EncodeSteps(h, steps)| == StepsShapeSize(steps) + 2 * StepsCount(steps)
    decreases steps, 0
  {
    if steps == [] {
    } else {
      StepsSplit(h, steps, []);
      StepSplit(h, steps[0], []);
      CoPathsEncodedSize(h, steps[0].coPaths);
      StepsEncodedSize(h, steps[1..]);
    }
  }

  lemma {:induction false} CoPathsEncodedSize(h: Hasher, paths: seq<PathTree>)
    ensures |EncodeCoPaths(h, paths)| == CoPathsShapeSize(paths) + 2 * CoPathsStepCount(paths)
    decreases paths, 0
  {
    if paths == [] {
    } else {
      CoPathsSplit(h, paths, []);
      EncodedSize(h, paths[0]);
      CoPathsEncodedSize(h, paths[1..]);
    }
  }

  /** The shape total misses exactly the two-byte co-path count of every step
      in the whole tree. */
  lemma {:induction false} EncodedSize(h: Hasher, t: PathTree)
    ensures |Encode(h, t)| == ShapeSize(t) + 2 * StepCount(t)
    decreases t, 1
  {
    BodySplit(h, t);
    StepsEncodedSize(h, t.steps);
  }

  /** The count and size limits of the shape check. Unlike the decoder it lets
      an empty transition proof pass; the content check rejects those. */
  predicate ShapeBounds(t: PathTree, depth: nat)
    decreases t, 0
  {
    && depth <= MAX_CO_DEPTH
    && 0 < |t.base| <= MAX_BASE_SIZE
    && |t.steps| <= MAX_STEPS
    && StepsShapeBounds(t.steps, depth)
  }

  predicate StepsShapeBounds(steps: seq<StepTree>, depth: nat)
    decreases steps, 0
  {
    steps != [] ==>
      && |steps[0].proof| <= MAX_STEP_SIZE
      && |steps[0].coPaths| <= MAX_CO_PATHS
      && CoPathsShapeBounds(steps[0].coPaths, depth)
      && StepsShapeBounds(steps[1..], depth)
  }

  predicate CoPathsShapeBounds(paths: seq<PathTree>, depth: nat)
    decreases paths, 0
  {
    paths != [] ==> ShapeBounds(paths[0], depth + 1) && CoPathsShapeBounds(paths[1..], depth)
  }

  /** What the shape check makes of a tree when `total` is already spent: the
      new total, or nothing if the tree is missing, out of bounds or too big. */
  function Charge(t: Option<PathTree>, depth: nat, total: nat): Option<nat> {
    if t.Some? && ShapeBounds(t.value, depth) && total + ShapeSize(t.value) <= MAX_PATH_SIZE
    then Some(total + ShapeSize(t.value)) else None
  }

  ghost function ChargeSteps(steps: Option<seq<StepTree>>, depth: nat, total: nat): Option<nat> {
    if steps.Some? && StepsShapeBounds(steps.value, depth) && total + StepsShapeSize(steps.value) <= MAX_PATH_SIZE
    then Some(total + StepsShapeSize(steps.value)) else None
  }

  ghost function ChargePaths(paths: Option<seq<PathTree>>, depth: nat, total: nat): Option<nat> {
    if paths.Some? && CoPathsShapeBounds(paths.value, depth) && total + CoPathsShapeSize(paths.value) <= MAX_PATH_SIZE
    then Some(total + CoPathsShapeSize(paths.value)) else None
  }

  /** The `*uint64` the recursion shares. */
  class SizeBudget {
    var total: nat

    constructor ()
      ensures total == 0
    {
      total := 0;
    }

    /** Unsigned 64-bit addition, which wraps. */
    method Add(n: nat)
      modifies this
      ensures total == (old(total) + n) % 0x1_0000_0000_0000_0000
    {
      total := (total + n) % 0x1_0000_0000_0000_0000;
    }
  }

  lemma ChargeFirstStep(nodes: set<AssetProofPath>, steps: seq<ProofPathStep>, depth: nat, total: nat)
    requires Closed(nodes) && StepsIn(nodes, steps) && steps != [] && depth <= MAX_CO_DEPTH
    ensures StepsIn(nodes, steps[1..]) && PathsIn(nodes, steps[0].coPaths)
    ensures ChargeSteps(UnfoldSteps(nodes, steps, depth), depth, total) ==
            if |steps[0].proof| > MAX_STEP_SIZE || |steps[0].coPaths| > MAX_CO_PATHS then None else
            var spent := ChargePaths(UnfoldPaths(nodes, steps[0].coPaths, depth), depth, total + 4 + |steps[0].proof|);
            if spent.None? then None
            else ChargeSteps(UnfoldSteps(nodes, steps[1..], depth), depth, spent.value)
  {
    assert PathsIn(nodes, steps[0].coPaths) && StepsIn(nodes, steps[1..]);
    var first, rest := UnfoldPaths(nodes, steps[0].coPaths, depth), UnfoldSteps(nodes, steps[1..], depth);
    if first.Some? && rest.Some? {
      ConsHeadTail(StepTree(steps[0].proof, first.value), rest.value);
    }
  }

  lemma ChargeFirstPath(nodes: set<AssetProofPath>, paths: seq<AssetProofPath?>, depth: nat, total: nat)
    requires Closed(nodes) && PathsIn(nodes, paths) && paths != [] && depth <= MAX_CO_DEPTH
    ensures PathsIn(nodes, paths[1..])
    ensures ChargePaths(UnfoldPaths(nodes, paths, depth), depth, total) ==
            var spent := Charge(Unfold(nodes, paths[0], depth + 1), depth + 1, total + 4);
            if spent.None? then None
            else ChargePaths(UnfoldPaths(nodes, paths[1..], depth), depth, spent.value)
  {
    var first, rest := Unfold(nodes, paths[0], depth + 1), UnfoldPaths(nodes, paths[1..], depth);
    if first.Some? && rest.Some? {
      ConsHeadTail(first.value, rest.value);
    }
  }

  lemma ChargeNothing(nodes: set<AssetProofPath>, depth: nat, total: nat)
    requires Closed(nodes) && depth <= MAX_CO_DEPTH && total <= MAX_PATH_SIZE
    ensures ChargeSteps(UnfoldSteps(nodes, [], depth), depth, total) == Some(total)
    ensures ChargePaths(UnfoldPaths(nodes, [], depth), depth, total) == Some(total)
  {
  }

  lemma ChargeNode(nodes: set<AssetProofPath>, p: AssetProofPath, depth: nat, total: nat)
    requires Closed(nodes) && p in nodes && depth <= MAX_CO_DEPTH
    ensures Charge(Unfold(nodes, p, depth), depth, total) ==
            if |p.base| == 0 || |p.base| > MAX_BASE_SIZE || |p.steps| > MAX_STEPS then None
            else ChargeSteps(UnfoldSteps(nodes, p.steps, depth), depth,
                             total + HEADER_SIZE + CHECKSUM_SIZE + |p.base|)
  {
  }

  lemma ChargeFits(nodes: set<AssetProofPath>, steps: seq<ProofPathStep>, paths: seq<AssetProofPath?>,
                   depth: nat, total: nat)
    requires Closed(nodes) && StepsIn(nodes, steps) && PathsIn(nodes, paths) && depth <= MAX_CO_DEPTH
    ensures total > MAX_PATH_SIZE ==>
            && ChargeSteps(UnfoldSteps(nodes, steps, depth), depth, total).None?
            && ChargePaths(UnfoldPaths(nodes, paths, depth), depth, total).None?
  {
  }

  /** `validateShape` on any pointer graph, cyclic ones included: it terminates,
      never wraps its counter, and accepts exactly the graphs that unfold to a
      tree within the limits whose shape total fits the budget. */
  method ValidateShape(p: AssetProofPath?, depth: nat, budget: SizeBudget, ghost nodes: set<AssetProofPath>)
    returns (ok: bool)
    requires Closed(nodes) && (p == null || p in nodes)
    requires budget.total <= MAX_PATH_SIZE + 4
    modifies budget
    ensures var charged := Charge(Unfold(nodes, p, depth), depth, old(budget.total));
            if ok then charged == Some(budget.total) else charged == None
    decreases Levels(depth), 2
  {
    if p == null || depth > MAX_CO_DEPTH {
      return false;
    }
    hide Unfold, UnfoldSteps, Charge, ChargeSteps;
    ChargeNode(nodes, p, depth, budget.total);
    if |p.base| == 0 || |p.base| > MAX_BASE_SIZE || |p.steps| > MAX_STEPS {
      return false;
    }
    budget.Add(HEADER_SIZE + CHECKSUM_SIZE + |p.base|);
    if budget.total > MAX_PATH_SIZE {
      ChargeFits(nodes, p.steps, [], depth, budget.total);
      return false;
    }
    ok := ValidateSteps(p.steps, depth, budget, nodes);
  }

  /** The outer loop of `validateShape`, over the steps of one path. */
  method ValidateSteps(steps: seq<ProofPathStep>, depth: nat, budget: SizeBudget, ghost nodes: set<AssetProofPath>)
    returns (ok: bool)
    requires Closed(nodes) && StepsIn(nodes, steps) && depth <= MAX_CO_DEPTH
    requires budget.total <= MAX_PATH_SIZE
    modifies budget
    ensures var charged := ChargeSteps(UnfoldSteps(nodes, steps, depth), depth, old(budget.total));
            if ok then charged == Some(budget.total) else charged == None
    decreases Levels(depth), 1
  {
    hide Unfold, UnfoldSteps, UnfoldPaths, Charge, ChargeSteps, ChargePaths;
    ghost var charged := ChargeSteps(UnfoldSteps(nodes, steps, depth), depth, budget.total);
    assert steps[0..] == steps;
    for i := 0 to |steps|
      invariant budget.total <= MAX_PATH_SIZE
      invariant StepsIn(nodes, steps[i..])
      invariant charged == ChargeSteps(UnfoldSteps(nodes, steps[i..], depth), depth, budget.total)
    {
      var step := steps[i];
      ChargeFirstStep(nodes, steps[i..], depth, budget.total);
      assert steps[i..][0] == step && steps[i..][1..] == steps[i + 1..];
      if |step.proof| > MAX_STEP_SIZE {
        return false;
      }
      budget.Add(4 + |step.proof|);
      if budget.total > MAX_PATH_SIZE {
        ChargeFits(nodes, [], step.coPaths, depth, budget.total);
        return false;
      }
      if |step.coPaths| > MAX_CO_PATHS {
        return false;
      }
      var coOk := ValidateCoPaths(step.coPaths, depth, budget, nodes);
      if !coOk {
        return false;
      }
    }
    ChargeNothing(nodes, depth, budget.total);
    ok := true;
  }

  /** The inner loop of `validateShape` over one step's co-input paths. */
  method ValidateCoPaths(paths: seq<AssetProofPath?>, depth: nat, budget: SizeBudget, ghost nodes: set<AssetProofPath>)
    returns (ok: bool)
    requires Closed(nodes) && PathsIn(nodes, paths) && depth <= MAX_CO_DEPTH
    requires budget.total <= MAX_PATH_SIZE
    modifies budget
    ensures var charged := ChargePaths(UnfoldPaths(nodes, paths, depth), depth, old(budget.total));
            if ok then charged == Some(budget.total) && budget.total <= MAX_PATH_SIZE else charged == None
    decreases Levels(depth), 0
  {
    hide Unfold, UnfoldPaths, ChargePaths;
    ghost var charged := ChargePaths(UnfoldPaths(nodes, paths, depth), depth, budget.total);
    assert paths[0..] == paths;
    for j := 0 to |paths|
      invariant budget.total <= MAX_PATH_SIZE
      invariant PathsIn(nodes, paths[j..])
      invariant charged == ChargePaths(UnfoldPaths(nodes, paths[j..], depth), depth, budget.total)
    {
      ChargeFirstPath(nodes, paths[j..], depth, budget.total);
      assert paths[j..][0] == paths[j] && paths[j..][1..] == paths[j + 1..];
      budget.Add(4);
      var pathOk := ValidateShape(paths[j], depth + 1, budget, nodes);
      if !pathOk {
        return false;
      }
    }
    ChargeNothing(nodes, depth, budget.total);
    ok := true;
  }

  // -------------------------------------------------- what acceptance guarantees

  /** Some step of `p` names `q` as a co-input path. */
  ghost predicate PointsTo(p: AssetProofPath, q: AssetProofPath?)
    reads p
  {
    exists i, j :: 0 <= i < |p.steps| && 0 <= j < |p.steps[i].coPaths| && p.steps[i].coPaths[j] == q
  }

  ghost predicate Chain(nodes: set<AssetProofPath>, chain: seq<AssetProofPath>)
    reads nodes
  {
    && chain != []
    && (forall i | 0 <= i < |chain| :: chain[i] in nodes)
    && (forall i | 0 <= i < |chain| - 1 :: PointsTo(chain[i], chain[i + 1]))
  }

  lemma {:induction false} UnfoldedPath(nodes: set<AssetProofPath>, paths: seq<AssetProofPath?>, depth: nat, j: nat)
    requires Closed(nodes) && PathsIn(nodes, paths) && depth <= MAX_CO_DEPTH && j < |paths|
    requires UnfoldPaths(nodes, paths, depth).Some?
    ensures Unfold(nodes, paths[j], depth + 1).Some?
    decreases |paths|
  {
    if j > 0 {
      UnfoldedPath(nodes, paths[1..], depth, j - 1);
    }
  }

  lemma {:induction false} UnfoldedStep(nodes: set<AssetProofPath>, steps: seq<ProofPathStep>, depth: nat, i: nat)
    requires Closed(nodes) && StepsIn(nodes, steps) && depth <= MAX_CO_DEPTH && i < |steps|
    requires UnfoldSteps(nodes, steps, depth).Some?
    ensures PathsIn(nodes, steps[i].coPaths) && UnfoldPaths(nodes, steps[i].coPaths, depth).Some?
    decreases |steps|
  {
    assert PathsIn(nodes, steps[i].coPaths);
    if i > 0 {
      assert StepsIn(nodes, steps[1..]);
      UnfoldedStep(nodes, steps[1..], depth, i - 1);
    }
  }

  lemma {:induction false} UnfoldedChild(nodes: set<AssetProofPath>, p: AssetProofPath, q: AssetProofPath?, depth: nat)
    requires Closed(nodes) && p in nodes && Unfold(nodes, p, depth).Some? && PointsTo(p, q)
    ensures q != null && q in nodes && depth < MAX_CO_DEPTH && Unfold(nodes, q, depth + 1).Some?
  {
    var i, j :| 0 <= i < |p.steps| && 0 <= j < |p.steps[i].coPaths| && p.steps[i].coPaths[j] == q;
    UnfoldedStep(nodes, p.steps, depth, i);
    UnfoldedPath(nodes, p.steps[i].coPaths, depth, j);
  }

  /** A path that unfolds has no pointer chain longer than the nesting limit
      allows, so it has no cycle, and no nil pointer at the end of any chain. */
  lemma {:induction false} AcceptedIsShallow(nodes: set<AssetProofPath>, chain: seq<AssetProofPath>, depth: nat)
    requires Closed(nodes) && Chain(nodes, chain)
    requires Unfold(nodes, chain[0], depth).Some?
    ensures |chain| <= MAX_CO_DEPTH + 1 - depth
    ensures !PointsTo(chain[|chain| - 1], null)
    decreases |chain|
  {
    if |chain| == 1 {
      if PointsTo(chain[0], null) {
        UnfoldedChild(nodes, chain[0], null, depth);
      }
    } else {
      assert PointsTo(chain[0], chain[0 + 1]);
      UnfoldedChild(nodes, chain[0], chain[1], depth);
      forall i | 0 <= i < |chain[1..]| - 1
        ensures PointsTo(chain[1..][i], chain[1..][i + 1])
      {
        assert PointsTo(chain[i + 1], chain[i + 1 + 1]);
      }
      AcceptedIsShallow(nodes, chain[1..], depth + 1);
    }
  }

  /** The converse: a nil-free node all of whose pointer chains are short enough
      unfolds. Otherwise the lemma produces the chain that stops it. */
  lemma {:induction false} ObstructingChain(nodes: set<AssetProofPath>, p: AssetProofPath, depth: nat)
    returns (chain: seq<AssetProofPath>)
    requires Closed(nodes) && p in nodes && depth <= MAX_CO_DEPTH && Unfold(nodes, p, depth).None?
    ensures Chain(nodes, chain) && chain[0] == p
    ensures |chain| > MAX_CO_DEPTH + 1 - depth || PointsTo(chain[|chain| - 1], null)
    decreases Levels(depth)
  {
    var i, j := ObstructingPointer(nodes, p.steps, depth);
    var q := p.steps[i].coPaths[j];
    assert PointsTo(p, q);
    if q == null {
      chain := [p];
    } else if depth == MAX_CO_DEPTH {
      chain := [p, q];
    } else {
      var rest := ObstructingChain(nodes, q, depth + 1);
      chain := [p] + rest;
      forall k | 0 <= k < |chain| - 1
        ensures PointsTo(chain[k], chain[k + 1])
      {
        assert k > 0 ==> PointsTo(rest[k - 1], rest[k - 1 + 1]);
      }
    }
  }

  lemma {:induction false} ObstructingPointer(nodes: set<AssetProofPath>, steps: seq<ProofPathStep>, depth: nat)
    returns (i: nat, j: nat)
    requires Closed(nodes) && StepsIn(nodes, steps) && depth <= MAX_CO_DEPTH
    requires UnfoldSteps(nodes, steps, depth).None?
    ensures i < |steps| && j < |steps[i].coPaths|
    ensures steps[i].coPaths[j] == null || steps[i].coPaths[j] in nodes
    ensures Unfold(nodes, steps[i].coPaths[j], depth + 1).None?
    decreases |steps|
  {
    assert PathsIn(nodes, steps[0].coPaths) && StepsIn(nodes, steps[1..]);
    if UnfoldPaths(nodes, steps[0].coPaths, depth).None? {
      j := ObstructingCoPath(nodes, steps[0].coPaths, depth);
      i := 0;
    } else {
      i, j := ObstructingPointer(nodes, steps[1..], depth);
      i := i + 1;
    }
  }

  lemma {:induction false} ObstructingCoPath(nodes: set<AssetProofPath>, paths: seq<AssetProofPath?>, depth: nat)
    returns (j: nat)
    requires Closed(nodes) && PathsIn(nodes, paths) && depth <= MAX_CO_DEPTH
    requires UnfoldPaths(nodes, paths, depth).None?
    ensures j < |paths| && Unfold(nodes, paths[j], depth + 1).None?
    decreases |paths|
  {
    if Unfold(nodes, paths[0], depth + 1).None? {
      j := 0;
    } else {
      j := ObstructingCoPath(nodes, paths[1..], depth);
      j := j + 1;
    }
  }

  /** A path object denotes a tree exactly when no pointer chain from it is
      longer than four objects and none ends at an object with a nil pointer. */
  lemma UnfoldsExactlyWhenShallow(nodes: set<AssetProofPath>, p: AssetProofPath)
    requires Closed(nodes) && p in nodes
    ensures Unfold(nodes, p, 0).Some? <==>
            forall chain | Chain(nodes, chain) && chain[0] == p ::
              |chain| <= MAX_CO_DEPTH + 1 && !PointsTo(chain[|chain| - 1], null)
  {
    if Unfold(nodes, p, 0).Some? {
      forall chain | Chain(nodes, chain) && chain[0] == p
        ensures |chain| <= MAX_CO_DEPTH + 1 && !PointsTo(chain[|chain| - 1], null)
      {
        AcceptedIsShallow(nodes, chain, 0);
      }
    } else {
      var chain := ObstructingChain(nodes, p, 0);
    }
  }

  // ------------------------------------------------------- shape and round trip

  ghost predicate NoEmptyProof(t: PathTree)
    decreases t, 0
  {
    StepsNoEmptyProof(t.steps)
  }

  ghost predicate StepsNoEmptyProof(steps: seq<StepTree>)
    decreases steps, 0
  {
    steps != [] ==> steps[0].proof != [] && PathsNoEmptyProof(steps[0].coPaths) && StepsNoEmptyProof(steps[1..])
  }

  ghost predicate PathsNoEmptyProof(paths: seq<PathTree>)
    decreases paths, 0
  {
    paths != [] ==> NoEmptyProof(paths[0]) && PathsNoEmptyProof(paths[1..])
  }

  lemma {:induction false} BoundsOfSteps(steps: seq<StepTree>, depth: nat)
    ensures (forall i | 0 <= i < |steps| :: StepWithinBounds(steps[i], depth)) <==>
            StepsShapeBounds(steps, depth) && StepsNoEmptyProof(steps)
    decreases steps, 0
  {
    if steps != [] {
      var head, tail := steps[0], steps[1..];
      BoundsOfPaths(head.coPaths, depth);
      BoundsOfSteps(tail, depth);
      assert steps == [head] + tail;
      assert StepWithinBounds(head, depth) <==>
             && 0 < |head.proof| <= MAX_STEP_SIZE && |head.coPaths| <= MAX_CO_PATHS
             && CoPathsShapeBounds(head.coPaths, depth) && PathsNoEmptyProof(head.coPaths);
      assert (forall i | 0 <= i < |steps| :: StepWithinBounds(steps[i], depth)) <==>
             StepWithinBounds(head, depth) && (forall i | 0 <= i < |tail| :: StepWithinBounds(tail[i], depth)) by {
        AllOfCons(steps, s => StepWithinBounds(s, depth));
      }
    }
  }

  lemma AllOfCons<T>(s: seq<T>, p: T -> bool)
    requires s != []
    ensures (forall i | 0 <= i < |s| :: p(s[i])) <==> p(s[0]) && (forall i | 0 <= i < |s[1..]| :: p(s[1..][i]))
  {
    if p(s[0]) && (forall i | 0 <= i < |s[1..]| :: p(s[1..][i])) {
      forall i | 0 <= i < |s|
        ensures p(s[i])
      {
        assert i > 0 ==> p(s[1..][i - 1]);
      }
    }
  }

  lemma {:induction false} BoundsOfPaths(paths: seq<PathTree>, depth: nat)
    ensures (forall i | 0 <= i < |paths| :: WithinBounds(paths[i], depth + 1)) <==>
            CoPathsShapeBounds(paths, depth) && PathsNoEmptyProof(paths)
    decreases paths, 0
  {
    if paths != [] {
      BoundsOfTree(paths[0], depth + 1);
      BoundsOfPaths(paths[1..], depth);
      AllOfCons(paths, t => WithinBounds(t, depth + 1));
    }
  }

  /** The decoder's limits are the shape check's, plus non-empty proofs. */
  lemma {:induction false} BoundsOfTree(t: PathTree, depth: nat)
    ensures WithinBounds(t, depth) <==> ShapeBounds(t, depth) && NoEmptyProof(t)
    decreases t, 1
  {
    BoundsOfSteps(t.steps, depth);
  }

  /** The round trip of a path that passes the shape check and whose proofs are
      non-empty: it succeeds exactly when the encoding, which is two bytes per
      step longer than the shape total, still fits. */
  lemma RoundTripExactly(h: Hasher, t: PathTree)
    requires Charge(Some(t), 0, 0).Some? && NoEmptyProof(t)
    ensures Decode(h, Encode(h, t), 0) == Ok(t) <==> ShapeSize(t) + 2 * StepCount(t) <= MAX_PATH_SIZE
  {
    BoundsOfTree(t, 0);
    EncodedSize(h, t);
    DecodesExactlyTheEncodings(h, Encode(h, t), 0, t);
  }

  /** Every tree a decode returns passes the shape check. */
  lemma DecodedPassesShape(h: Hasher, encoded: seq<byte>, depth: nat)
    requires Decode(h, encoded, depth).Ok?
    ensures Charge(Some(Decode(h, encoded, depth).value), depth, 0).Some?
  {
    var t := Decode(h, encoded, depth).value;
    EncodeDecode(h, encoded, depth);
    DecodesExactlyTheEncodings(h, encoded, depth, t);
    BoundsOfTree(t, depth);
    EncodedSize(h, t);
  }

  function Zeros(n: nat): seq<byte> {
    seq(n, _ => 0)
  }

  /** A path whose shape total is exactly the limit: seven full-size proofs and
      one of 4194224 bytes after a full-size base. */
  function LargestShape(): PathTree {
    PathTree(Zeros(MAX_BASE_SIZE),
             seq(8, i => StepTree(Zeros(if i == 7 then 4194224 else MAX_STEP_SIZE), [])))
  }

  /** The shape check accepts a path that its own encoding cannot carry. */
  lemma ShapeAcceptsUndecodable(h: Hasher)
    ensures Charge(Some(LargestShape()), 0, 0) == Some(MAX_PATH_SIZE)
    ensures NoEmptyProof(LargestShape())
    ensures Decode(h, Encode(h, LargestShape()), 0).Err?
  {
    hide *;
    var t := LargestShape();
    LargestShapeFits(t);
    EncodedSize(h, t);
    TooLongIsRejected(h, Encode(h, t));
  }

  lemma {:induction false} LargestShapeFits(t: PathTree)
    requires t == LargestShape()
    ensures Charge(Some(t), 0, 0) == Some(MAX_PATH_SIZE) && NoEmptyProof(t)
    ensures ShapeSize(t) + 2 * StepCount(t) == MAX_PATH_SIZE + 16
  {
    EightPlainSteps(t.steps);
  }

  lemma TooLongIsRejected(h: Hasher, encoded: seq<byte>)
    requires |encoded| > MAX_PATH_SIZE
    ensures Decode(h, encoded, 0).Err?
  {
  }

  lemma {:induction false} EightPlainSteps(steps: seq<StepTree>)
    requires |steps| == 8
    requires forall i | 0 <= i < 8 :: steps[i] == StepTree(Zeros(if i == 7 then 4194224 else MAX_STEP_SIZE), [])
    ensures StepsShapeSize(steps) == 7 * MAX_STEP_SIZE + 4194224 + 32
    ensures StepsCount(steps) == 8
    ensures StepsShapeBounds(steps, 0) && StepsNoEmptyProof(steps)
  {
    PlainSteps(steps, 0);
  }

  lemma {:induction false} PlainSteps(steps: seq<StepTree>, k: nat)
    requires |steps| == 8 && k <= 8
    requires forall i | 0 <= i < 8 :: steps[i] == StepTree(Zeros(if i == 7 then 4194224 else MAX_STEP_SIZE), [])
    ensures StepsCount(steps[k..]) == 8 - k
    ensures StepsShapeSize(steps[k..]) ==
            (if k == 8 then 0 else (7 - k) * (MAX_STEP_SIZE + 4) + 4194224 + 4)
    ensures StepsShapeBounds(steps[k..], 0) && StepsNoEmptyProof(steps[k..])
    decreases 8 - k
  {
    assert steps[0..] == steps;
    if k < 8 {
      PlainSteps(steps, k + 1);
      assert steps[k..][1..] == steps[k + 1..];
    }
  }

  // ------------------------------------------------- exactly which shapes pass

  /** At most three levels of co-input paths; a base of 1 byte to 32 MiB; at most 64
      steps, each with a proof of at most 4 MiB and at most 15 co-input paths. */
  ghost predicate InShape(t: PathTree, depth: nat)
    decreases t, 1
  {
    && depth <= 3 && 1 <= |t.base| <= 0x200_0000 && |t.steps| <= 64
    && forall i | 0 <= i < |t.steps| :: StepInShape(t.steps[i], depth)
  }

  ghost predicate StepInShape(s: StepTree, depth: nat)
    decreases s, 0
  {
    && |s.proof| <= 0x40_0000 && |s.coPaths| <= 15
    && forall j | 0 <= j < |s.coPaths| :: InShape(s.coPaths[j], depth + 1)
  }

  lemma {:induction false} PathsInShape(paths: seq<PathTree>, depth: nat)
    ensures CoPathsShapeBounds(paths, depth) <==> forall j | 0 <= j < |paths| :: InShape(paths[j], depth + 1)
    decreases paths, 0
  {
    hide InShape, ShapeBounds;
    if paths != [] {
      ShapeIs(paths[0], depth + 1);
      PathsInShape(paths[1..], depth);
      assert forall j | 0 < j < |paths| :: paths[j] == paths[1..][j - 1];
      assert forall j | 0 <= j < |paths[1..]| :: paths[1..][j] == paths[j + 1];
    }
  }

  lemma {:induction false} StepsInShape(steps: seq<StepTree>, depth: nat)
    ensures StepsShapeBounds(steps, depth) <==> forall i | 0 <= i < |steps| :: StepInShape(steps[i], depth)
    decreases steps, 0
  {
    hide CoPathsShapeBounds;
    if steps != [] {
      PathsInShape(steps[0].coPaths, depth);
      StepsInShape(steps[1..], depth);
      hide StepInShape;
      assert forall i | 0 < i < |steps| :: steps[i] == steps[1..][i - 1];
      assert forall i | 0 <= i < |steps[1..]| :: steps[1..][i] == steps[i + 1];
    }
  }

  lemma {:induction false} ShapeIs(t: PathTree, depth: nat)
    ensures ShapeBounds(t, depth) <==> InShape(t, depth)
    decreases t, 1
  {
    hide StepInShape, StepsShapeBounds;
    StepsInShape(t.steps, depth);
  }

  /** The shape check passes exactly the trees within these limits whose size, by
      the check's own count, fits 64 MiB together with what was spent before; the
      decoder's limits are the same but for empty proofs. */
  lemma ShapeExactly(t: PathTree, depth: nat, total: nat, after: nat)
    ensures Charge(Some(t), depth, total) == Some(after) <==>
            InShape(t, depth) && after == total + ShapeSize(t) && after <= 0x400_0000
    ensures WithinBounds(t, depth) <==> InShape(t, depth) && NoEmptyProof(t)
  {
    hide InShape, ShapeBounds, ShapeSize, WithinBounds, NoEmptyProof;
    ShapeIs(t, depth);
    BoundsOfTree(t, depth);
  }
}
