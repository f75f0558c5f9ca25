/** The binary encoding of asset proof paths (custom_anchor_proof_path.go).

    A path is a confirmed base proof followed by unconfirmed steps; a step may
    merge co-input paths, each embedded with the same self-describing,
    checksummed encoding. `PathTree` is the value such a path denotes. */
module ProofPathCodec {
  import opened Wrappers
  import opened Bytes

  const MAX_STEPS := 64
  const MAX_BASE_SIZE := 32 * 1024 * 1024
  const MAX_STEP_SIZE := 4 * 1024 * 1024
  const MAX_PATH_SIZE := 64 * 1024 * 1024
  const MAX_CO_PATHS := 15
  const MAX_CO_DEPTH := 3
  const CHECKSUM_SIZE := 32
  const HEADER_SIZE := 16
  const FORMAT := 0

  /** The ASCII bytes of "TAPPATH" and a zero byte. */
  const MAGIC: seq<byte> := [0x54, 0x41, 0x50, 0x50, 0x41, 0x54, 0x48, 0x00]

  /** SHA-256, of which only the digest size matters here. */
  type Hasher = h: seq<byte> -> seq<byte> | forall b :: |h(b)| == CHECKSUM_SIZE
    witness (b: seq<byte>) => seq(CHECKSUM_SIZE, _ => 0)

  datatype PathTree = PathTree(base: seq<byte>, steps: seq<StepTree>)

  datatype StepTree = StepTree(proof: seq<byte>, coPaths: seq<PathTree>)

  datatype PathError = Invalid | UnknownFormat

  // ---------------------------------------------------------------- encoding

  function Sized(value: seq<byte>): seq<byte> {
    BigEndian(|value|, 4) + value
  }

  function Encode(h: Hasher, t: PathTree): seq<byte>
    decreases t, 1
  {
    MarshalBody(h, t) + h(MarshalBody(h, t))
  }

  function MarshalBody(h: Hasher, t: PathTree): seq<byte>
    decreases t, 0
  {
    BodyPrefix(t) + EncodeSteps(h, t.steps)
  }

  function BodyPrefix(t: PathTree): seq<byte> {
    MAGIC + BigEndian(FORMAT, 2) + Sized(t.base) + BigEndian(|t.steps|, 2)
  }

  function EncodeSteps(h: Hasher, steps: seq<StepTree>): seq<byte>
    decreases steps, 0
  {
    if steps == [] then [] else EncodeStep(h, steps[0]) + EncodeSteps(h, steps[1..])
  }

  function EncodeStep(h: Hasher, s: StepTree): seq<byte>
    decreases s, 0
  {
    Sized(s.proof) + BigEndian(|s.coPaths|, 2) + EncodeCoPaths(h, s.coPaths)
  }

  function EncodeCoPaths(h: Hasher, paths: seq<PathTree>): seq<byte>
    decreases paths, 0
  {
    if paths == [] then [] else Sized(Encode(h, paths[0])) + EncodeCoPaths(h, paths[1..])
  }

  // ---------------------------------------------------------------- decoding

  /** A value read from the front of a byte string, and the bytes after it. */
  datatype Parsed<+T> = Read(value: T, rest: seq<byte>) | Failed(error: PathError)

  function ReadUint(b: seq<byte>, width: nat): (r: Parsed<nat>) {
    if |b| < width then Failed(Invalid) else Read(FromBigEndian(b[..width]), b[width..])
  }

  /** A length-prefixed, non-empty byte string of at most `maximum` bytes. */
  function ReadSized(b: seq<byte>, maximum: nat): (r: Parsed<seq<byte>>)
    ensures r.Read? ==> |r.value| < |b| && |r.rest| < |b|
  {
    if |b| < 4 then Failed(Invalid) else
    var length := FromBigEndian(b[..4]);
    if length == 0 || length > maximum || length > |b| - 4 then Failed(Invalid)
    else Read(b[4..4 + length], b[4 + length..])
  }

  function Decode(h: Hasher, encoded: seq<byte>, depth: nat): Result<PathTree, PathError>
    decreases |encoded|, 3
  {
    if depth > MAX_CO_DEPTH || |encoded| > MAX_PATH_SIZE then Err(Invalid) else
    if |encoded| < HEADER_SIZE + CHECKSUM_SIZE then Err(Invalid) else
    var body := encoded[..|encoded| - CHECKSUM_SIZE];
    if h(body) != encoded[|encoded| - CHECKSUM_SIZE..] then Err(Invalid) else
    DecodeBody(h, body, depth)
  }

  function DecodeBody(h: Hasher, body: seq<byte>, depth: nat): Result<PathTree, PathError>
    requires |body| >= HEADER_SIZE
    decreases |body|, 2
  {
    if body[..8] != MAGIC then Err(Invalid) else
    if FromBigEndian(body[8..10]) != FORMAT then Err(UnknownFormat) else
    match ReadSized(body[10..], MAX_BASE_SIZE)
    case Failed(e) => Err(e)
    case Read(base, afterBase) =>
      match ReadUint(afterBase, 2)
      case Failed(e) => Err(e)
      case Read(count, afterCount) =>
        if count > MAX_STEPS then Err(Invalid) else
        match DecodeSteps(h, afterCount, count, depth)
        case Failed(e) => Err(e)
        case Read(steps, rest) =>
          if rest != [] then Err(Invalid) else Ok(PathTree(base, steps))
  }

  function DecodeSteps(h: Hasher, b: seq<byte>, count: nat, depth: nat): (r: Parsed<seq<StepTree>>)
    ensures r.Read? ==> |r.rest| <= |b|
    decreases |b|, 1
  {
    if count == 0 then Read([], b) else
    match DecodeStep(h, b, depth)
    case Failed(e) => Failed(e)
    case Read(step, afterStep) =>
      match DecodeSteps(h, afterStep, count - 1, depth)
      case Failed(e) => Failed(e)
      case Read(steps, rest) => Read([step] + steps, rest)
  }

  function DecodeStep(h: Hasher, b: seq<byte>, depth: nat): (r: Parsed<StepTree>)
    ensures r.Read? ==> |r.rest| < |b|
    decreases |b|, 0
  {
    match ReadSized(b, MAX_STEP_SIZE)
    case Failed(e) => Failed(e)
    case Read(proof, afterProof) =>
      match ReadUint(afterProof, 2)
      case Failed(e) => Failed(e)
      case Read(count, afterCount) =>
        if count > MAX_CO_PATHS then Failed(Invalid) else
        match DecodeCoPaths(h, afterCount, count, depth)
        case Failed(e) => Failed(e)
        case Read(coPaths, rest) => Read(StepTree(proof, coPaths), rest)
  }

  function DecodeCoPaths(h: Hasher, b: seq<byte>, count: nat, depth: nat): (r: Parsed<seq<PathTree>>)
    ensures r.Read? ==> |r.rest| <= |b|
    decreases |b|, 0
  {
    if count == 0 then Read([], b) else
    match ReadSized(b, MAX_PATH_SIZE)
    case Failed(e) => Failed(e)
    case Read(blob, afterBlob) =>
      match Decode(h, blob, depth + 1)
      case Err(e) => Failed(e)
      case Ok(coPath) =>
        match DecodeCoPaths(h, afterBlob, count - 1, depth)
        case Failed(e) => Failed(e)
        case Read(coPaths, rest) => Read([coPath] + coPaths, rest)
  }

  // ------------------------------------------------------------------ bounds

  /** The count, size and nesting limits a decoder enforces at `depth`. */
  ghost predicate WithinBounds(t: PathTree, depth: nat)
    decreases t, 0
  {
    && depth <= MAX_CO_DEPTH
    && 0 < |t.base| <= MAX_BASE_SIZE
    && |t.steps| <= MAX_STEPS
    && (forall i | 0 <= i < |t.steps| :: StepWithinBounds(t.steps[i], depth))
  }

  ghost predicate StepWithinBounds(s: StepTree, depth: nat)
    decreases s, 0
  {
    && 0 < |s.proof| <= MAX_STEP_SIZE
    && |s.coPaths| <= MAX_CO_PATHS
    && (forall i | 0 <= i < |s.coPaths| :: WithinBounds(s.coPaths[i], depth + 1))
  }

  // -------------------------------------------------------- round trip lemmas

  lemma ReadUintOfWritten(n: nat, width: nat, rest: seq<byte>)
    requires n < Pow256(width)
    ensures ReadUint(BigEndian(n, width) + rest, width) == Read(n, rest)
  {
    BigEndianInverse(n, width);
    var b := BigEndian(n, width) + rest;
    assert b[..width] == BigEndian(n, width) && b[width..] == rest;
  }

  lemma ReadSizedOfWritten(value: seq<byte>, maximum: nat, rest: seq<byte>)
    requires 0 < |value| <= maximum && |value| < 0x1_0000_0000
    ensures ReadSized(Sized(value) + rest, maximum) == Read(value, rest)
  {
    Pow256Values();
    BigEndianInverse(|value|, 4);
    var b := Sized(value) + rest;
    assert b[..4] == BigEndian(|value|, 4);
    assert b[4..4 + |value|] == value && b[4 + |value|..] == rest;
  }

  lemma WrittenOfReadSized(b: seq<byte>, maximum: nat)
    requires ReadSized(b, maximum).Read?
    ensures var Read(value, rest) := ReadSized(b, maximum);
            b == Sized(value) + rest && 0 < |value| <= maximum
  {
    FromBigEndianInverse(b[..4]);
    var Read(value, rest) := ReadSized(b, maximum);
    assert b == b[..4] + value + rest;
  }

  lemma WrittenOfReadUint(b: seq<byte>, width: nat)
    requires ReadUint(b, width).Read?
    ensures var Read(n, rest) := ReadUint(b, width); b == BigEndian(n, width) + rest
  {
    FromBigEndianInverse(b[..width]);
    assert b == b[..width] + b[width..];
  }

  // The next lemmas are the single steps of the inductions: how one element is
  // split off an encoding, and how one parsed element extends a parse.

  lemma {:induction false} StepsSplit(h: Hasher, steps: seq<StepTree>, rest: seq<byte>)
    requires steps != []
    ensures EncodeSteps(h, steps) + rest == EncodeStep(h, steps[0]) + (EncodeSteps(h, steps[1..]) + rest)
    ensures |EncodeSteps(h, steps)| == |EncodeStep(h, steps[0])| + |EncodeSteps(h, steps[1..])|
  {
    Concat3(EncodeStep(h, steps[0]), EncodeSteps(h, steps[1..]), rest);
  }

  lemma {:induction false} StepSplit(h: Hasher, s: StepTree, rest: seq<byte>)
    ensures EncodeStep(h, s) + rest ==
            Sized(s.proof) + (BigEndian(|s.coPaths|, 2) + (EncodeCoPaths(h, s.coPaths) + rest))
    ensures |EncodeStep(h, s)| == |s.proof| + 6 + |EncodeCoPaths(h, s.coPaths)|
  {
    Concat4(Sized(s.proof), BigEndian(|s.coPaths|, 2), EncodeCoPaths(h, s.coPaths), rest);
  }

  lemma Concat3(a: seq<byte>, b: seq<byte>, c: seq<byte>)
    ensures (a + b) + c == a + (b + c)
  {
  }

  lemma Concat4(a: seq<byte>, b: seq<byte>, c: seq<byte>, d: seq<byte>)
    ensures (a + b + c) + d == a + (b + (c + d))
  {
  }

  lemma {:induction false} CoPathsSplit(h: Hasher, paths: seq<PathTree>, rest: seq<byte>)
    requires paths != []
    ensures EncodeCoPaths(h, paths) + rest ==
            Sized(Encode(h, paths[0])) + (EncodeCoPaths(h, paths[1..]) + rest)
    ensures |EncodeCoPaths(h, paths)| == 4 + |Encode(h, paths[0])| + |EncodeCoPaths(h, paths[1..])|
  {
    Concat3(Sized(Encode(h, paths[0])), EncodeCoPaths(h, paths[1..]), rest);
  }

  lemma {:induction false} BodySplit(h: Hasher, t: PathTree)
    ensures var body := MarshalBody(h, t);
            && |body| >= HEADER_SIZE
            && body[..8] == MAGIC
            && body[8..10] == BigEndian(FORMAT, 2)
            && body[10..] == Sized(t.base) + (BigEndian(|t.steps|, 2) + EncodeSteps(h, t.steps))
    ensures |MarshalBody(h, t)| == HEADER_SIZE + |t.base| + |EncodeSteps(h, t.steps)|
  {
    BodyConcat(BigEndian(FORMAT, 2), Sized(t.base), BigEndian(|t.steps|, 2), EncodeSteps(h, t.steps));
  }

  lemma BodyConcat(format: seq<byte>, base: seq<byte>, count: seq<byte>, steps: seq<byte>)
    requires |format| == 2
    ensures var body := MAGIC + format + base + count + steps;
            body[..8] == MAGIC && body[8..10] == format && body[10..] == base + (count + steps)
  {
  }

  lemma {:induction false} ExtendSteps(h: Hasher, b: seq<byte>, count: nat, depth: nat, step: StepTree, afterStep: seq<byte>,
                    tail: seq<StepTree>, rest: seq<byte>)
    requires count > 0
    requires DecodeStep(h, b, depth) == Read(step, afterStep)
    requires DecodeSteps(h, afterStep, count - 1, depth) == Read(tail, rest)
    ensures DecodeSteps(h, b, count, depth) == Read([step] + tail, rest)
  {
  }

  lemma {:induction false} ExtendCoPaths(h: Hasher, b: seq<byte>, count: nat, depth: nat, blob: seq<byte>, afterBlob: seq<byte>,
                      coPath: PathTree, tail: seq<PathTree>, rest: seq<byte>)
    requires count > 0
    requires ReadSized(b, MAX_PATH_SIZE) == Read(blob, afterBlob)
    requires Decode(h, blob, depth + 1) == Ok(coPath)
    requires DecodeCoPaths(h, afterBlob, count - 1, depth) == Read(tail, rest)
    ensures DecodeCoPaths(h, b, count, depth) == Read([coPath] + tail, rest)
  {
  }

  lemma {:induction false} EncodedCons(h: Hasher, b: seq<byte>, count: nat, depth: nat, step: StepTree,
                                       tail: seq<StepTree>, afterStep: seq<byte>, rest: seq<byte>)
    requires StepWithinBounds(step, depth) && b == EncodeStep(h, step) + afterStep
    requires ReadsBack(h, afterStep, count, depth, tail, rest)
    ensures ReadsBack(h, b, count + 1, depth, [step] + tail, rest)
  {
    ConsHeadTail(step, tail);
    StepsSplit(h, [step] + tail, rest);
  }

  lemma {:induction false} EncodedCoCons(h: Hasher, b: seq<byte>, count: nat, depth: nat, coPath: PathTree,
                                         tail: seq<PathTree>, afterBlob: seq<byte>, rest: seq<byte>)
    requires WithinBounds(coPath, depth + 1) && b == Sized(Encode(h, coPath)) + afterBlob
    requires CoReadsBack(h, afterBlob, count, depth, tail, rest)
    ensures CoReadsBack(h, b, count + 1, depth, [coPath] + tail, rest)
  {
    ConsHeadTail(coPath, tail);
    CoPathsSplit(h, [coPath] + tail, rest);
  }

  lemma HeadTail<T>(s: seq<T>)
    requires s != []
    ensures [s[0]] + s[1..] == s
  {
  }

  lemma ConsHeadTail<T>(x: T, s: seq<T>)
    ensures ([x] + s)[0] == x && ([x] + s)[1..] == s
    ensures forall i | 1 <= i < |[x] + s| :: ([x] + s)[i] == s[i - 1]
  {
  }

  lemma {:induction false} DecodeEncodeSteps(h: Hasher, steps: seq<StepTree>, depth: nat, rest: seq<byte>)
    requires depth <= MAX_CO_DEPTH
    requires forall i | 0 <= i < |steps| :: StepWithinBounds(steps[i], depth)
    requires |EncodeSteps(h, steps)| <= MAX_PATH_SIZE
    ensures DecodeSteps(h, EncodeSteps(h, steps) + rest, |steps|, depth) == Read(steps, rest)
    decreases steps, 0
  {
    if steps == [] {
      assert EncodeSteps(h, steps) + rest == rest;
    } else {
      var tail := EncodeSteps(h, steps[1..]) + rest;
      StepsSplit(h, steps, rest);
      DecodeEncodeStep(h, steps[0], depth, tail);
      DecodeEncodeSteps(h, steps[1..], depth, rest);
      ExtendSteps(h, EncodeSteps(h, steps) + rest, |steps|, depth, steps[0], tail, steps[1..], rest);
      HeadTail(steps);
    }
  }

  lemma {:induction false} DecodeEncodeStep(h: Hasher, s: StepTree, depth: nat, rest: seq<byte>)
    requires depth <= MAX_CO_DEPTH
    requires StepWithinBounds(s, depth)
    requires |EncodeStep(h, s)| <= MAX_PATH_SIZE
    ensures DecodeStep(h, EncodeStep(h, s) + rest, depth) == Read(s, rest)
    decreases s, 0
  {
    var afterCount := EncodeCoPaths(h, s.coPaths) + rest;
    StepSplit(h, s, rest);
    Pow256Values();
    ReadSizedOfWritten(s.proof, MAX_STEP_SIZE, BigEndian(|s.coPaths|, 2) + afterCount);
    ReadUintOfWritten(|s.coPaths|, 2, afterCount);
    DecodeEncodeCoPaths(h, s.coPaths, depth, rest);
  }

  lemma {:induction false} DecodeEncodeCoPaths(h: Hasher, paths: seq<PathTree>, depth: nat, rest: seq<byte>)
    requires forall i | 0 <= i < |paths| :: WithinBounds(paths[i], depth + 1)
    requires |EncodeCoPaths(h, paths)| <= MAX_PATH_SIZE
    ensures DecodeCoPaths(h, EncodeCoPaths(h, paths) + rest, |paths|, depth) == Read(paths, rest)
    decreases paths, 0
  {
    if paths == [] {
      assert EncodeCoPaths(h, paths) + rest == rest;
    } else {
      var blob := Encode(h, paths[0]);
      var tail := EncodeCoPaths(h, paths[1..]) + rest;
      CoPathsSplit(h, paths, rest);
      ReadSizedOfWritten(blob, MAX_PATH_SIZE, tail);
      DecodeEncode(h, paths[0], depth + 1);
      DecodeEncodeCoPaths(h, paths[1..], depth, rest);
      ExtendCoPaths(h, EncodeCoPaths(h, paths) + rest, |paths|, depth, blob, tail, paths[0], paths[1..], rest);
      HeadTail(paths);
    }
  }

  /** Decoding undoes encoding for every tree within the limits whose encoding
      fits the size limit, at every nesting level. */
  lemma {:induction false} DecodeEncode(h: Hasher, t: PathTree, depth: nat)
    requires WithinBounds(t, depth)
    requires |Encode(h, t)| <= MAX_PATH_SIZE
    ensures Decode(h, Encode(h, t), depth) == Ok(t)
    decreases t, 1
  {
    var body := MarshalBody(h, t);
    BodySplit(h, t);
    assert forall i | 0 <= i < |t.steps| :: StepWithinBounds(t.steps[i], depth);
    hide DecodeBody, Decode, DecodeSteps, EncodeSteps, MarshalBody, StepWithinBounds;
    DecodeEncodeSteps(h, t.steps, depth, []);
    assert EncodeSteps(h, t.steps) + [] == EncodeSteps(h, t.steps);
    DecodeBodyOfParts(h, body, depth, t);
    DecodeOfBody(h, body, depth);
  }

  lemma {:induction false} DecodeOfBody(h: Hasher, body: seq<byte>, depth: nat)
    requires depth <= MAX_CO_DEPTH && HEADER_SIZE <= |body| <= MAX_PATH_SIZE - CHECKSUM_SIZE
    ensures Decode(h, body + h(body), depth) == DecodeBody(h, body, depth)
  {
    hide DecodeBody;
    assert (body + h(body))[..|body|] == body && (body + h(body))[|body|..] == h(body);
  }

  lemma {:induction false} DecodeBodyOfParts(h: Hasher, body: seq<byte>, depth: nat, t: PathTree)
    requires |body| >= HEADER_SIZE && 0 < |t.base| <= MAX_BASE_SIZE && |t.steps| <= MAX_STEPS
    requires body[..8] == MAGIC && body[8..10] == BigEndian(FORMAT, 2)
    requires body[10..] == Sized(t.base) + (BigEndian(|t.steps|, 2) + EncodeSteps(h, t.steps))
    requires DecodeSteps(h, EncodeSteps(h, t.steps), |t.steps|, depth) == Read(t.steps, [])
    ensures DecodeBody(h, body, depth) == Ok(t)
  {
    Pow256Values();
    BigEndianInverse(FORMAT, 2);
    ReadSizedOfWritten(t.base, MAX_BASE_SIZE, BigEndian(|t.steps|, 2) + EncodeSteps(h, t.steps));
    ReadUintOfWritten(|t.steps|, 2, EncodeSteps(h, t.steps));
  }

  /** `b` is the encoding of `count` bounded steps followed by `rest`. */
  ghost predicate ReadsBack(h: Hasher, b: seq<byte>, count: nat, depth: nat, steps: seq<StepTree>, rest: seq<byte>) {
    && |steps| == count
    && b == EncodeSteps(h, steps) + rest
    && (forall i | 0 <= i < |steps| :: StepWithinBounds(steps[i], depth))
  }

  ghost predicate CoReadsBack(h: Hasher, b: seq<byte>, count: nat, depth: nat, paths: seq<PathTree>, rest: seq<byte>) {
    && |paths| == count
    && b == EncodeCoPaths(h, paths) + rest
    && (forall i | 0 <= i < |paths| :: WithinBounds(paths[i], depth + 1))
  }

  ghost predicate StepsParse(h: Hasher, b: seq<byte>, count: nat, depth: nat, steps: seq<StepTree>, rest: seq<byte>) {
    DecodeSteps(h, b, count, depth) == Read(steps, rest)
  }

  ghost predicate CoPathsParse(h: Hasher, b: seq<byte>, count: nat, depth: nat, paths: seq<PathTree>, rest: seq<byte>) {
    DecodeCoPaths(h, b, count, depth) == Read(paths, rest)
  }

  lemma {:induction false} NoSteps(h: Hasher, b: seq<byte>, depth: nat, steps: seq<StepTree>, rest: seq<byte>)
    requires StepsParse(h, b, 0, depth, steps, rest)
    ensures ReadsBack(h, b, 0, depth, steps, rest)
  {
    assert b == EncodeSteps(h, []) + b;
  }

  lemma {:induction false} NoCoPaths(h: Hasher, b: seq<byte>, depth: nat, paths: seq<PathTree>, rest: seq<byte>)
    requires CoPathsParse(h, b, 0, depth, paths, rest)
    ensures CoReadsBack(h, b, 0, depth, paths, rest)
  {
    assert b == EncodeCoPaths(h, []) + b;
  }

  lemma {:induction false} FirstStep(h: Hasher, b: seq<byte>, count: nat, depth: nat,
                                     steps: seq<StepTree>, rest: seq<byte>)
    returns (step: StepTree, afterStep: seq<byte>, tail: seq<StepTree>)
    requires count > 0 && StepsParse(h, b, count, depth, steps, rest)
    ensures |afterStep| < |b| && DecodeStep(h, b, depth) == Read(step, afterStep)
    ensures StepsParse(h, afterStep, count - 1, depth, tail, rest)
    ensures steps == [step] + tail
  {
    step, afterStep := DecodeStep(h, b, depth).value, DecodeStep(h, b, depth).rest;
    tail := DecodeSteps(h, afterStep, count - 1, depth).value;
  }

  lemma {:induction false} EncodeDecodeSteps(h: Hasher, b: seq<byte>, count: nat, depth: nat,
                                             steps: seq<StepTree>, rest: seq<byte>)
    requires depth <= MAX_CO_DEPTH
    ensures StepsParse(h, b, count, depth, steps, rest) ==> ReadsBack(h, b, count, depth, steps, rest)
    decreases |b|, 1
  {
    hide *;
    if !StepsParse(h, b, count, depth, steps, rest) {
    } else if count == 0 {
      NoSteps(h, b, depth, steps, rest);
    } else {
      var step, afterStep, tail := FirstStep(h, b, count, depth, steps, rest);
      EncodeDecodeStep(h, b, depth);
      EncodeDecodeSteps(h, afterStep, count - 1, depth, tail, rest);
      EncodedCons(h, b, count - 1, depth, step, tail, afterStep, rest);
    }
  }

  lemma {:induction false} EncodeDecodeStep(h: Hasher, b: seq<byte>, depth: nat)
    requires depth <= MAX_CO_DEPTH
    requires DecodeStep(h, b, depth).Read?
    ensures var Read(step, rest) := DecodeStep(h, b, depth);
            b == EncodeStep(h, step) + rest && StepWithinBounds(step, depth)
    decreases |b|, 0
  {
    var Read(proof, afterProof) := ReadSized(b, MAX_STEP_SIZE);
    WrittenOfReadSized(b, MAX_STEP_SIZE);
    WrittenOfReadUint(afterProof, 2);
    var Read(count, afterCount) := ReadUint(afterProof, 2);
    var Read(coPaths, rest) := DecodeCoPaths(h, afterCount, count, depth);
    EncodeDecodeCoPaths(h, afterCount, count, depth, coPaths, rest);
    StepSplit(h, StepTree(proof, coPaths), rest);
  }

  lemma {:induction false} FirstCoPath(h: Hasher, b: seq<byte>, count: nat, depth: nat,
                                       paths: seq<PathTree>, rest: seq<byte>)
    returns (blob: seq<byte>, coPath: PathTree, afterBlob: seq<byte>, tail: seq<PathTree>)
    requires count > 0 && CoPathsParse(h, b, count, depth, paths, rest)
    ensures |blob| < |b| && |afterBlob| < |b| && b == Sized(blob) + afterBlob
    ensures Decode(h, blob, depth + 1) == Ok(coPath)
    ensures CoPathsParse(h, afterBlob, count - 1, depth, tail, rest)
    ensures paths == [coPath] + tail
  {
    WrittenOfReadSized(b, MAX_PATH_SIZE);
    blob, afterBlob := ReadSized(b, MAX_PATH_SIZE).value, ReadSized(b, MAX_PATH_SIZE).rest;
    coPath := Decode(h, blob, depth + 1).value;
    tail := DecodeCoPaths(h, afterBlob, count - 1, depth).value;
  }

  lemma {:induction false} EncodeDecodeCoPaths(h: Hasher, b: seq<byte>, count: nat, depth: nat,
                                               paths: seq<PathTree>, rest: seq<byte>)
    ensures CoPathsParse(h, b, count, depth, paths, rest) ==> CoReadsBack(h, b, count, depth, paths, rest)
    decreases |b|, 0
  {
    hide *;
    if !CoPathsParse(h, b, count, depth, paths, rest) {
    } else if count == 0 {
      NoCoPaths(h, b, depth, paths, rest);
    } else {
      var blob, coPath, afterBlob, tail := FirstCoPath(h, b, count, depth, paths, rest);
      EncodeDecode(h, blob, depth + 1);
      EncodeDecodeCoPaths(h, afterBlob, count - 1, depth, tail, rest);
      EncodedCoCons(h, b, count - 1, depth, coPath, tail, afterBlob, rest);
    }
  }

  /** Whatever decodes is canonical: re-encoding the result reproduces exactly
      the bytes that were read, and the result is within the limits. */
  lemma {:induction false} EncodeDecode(h: Hasher, encoded: seq<byte>, depth: nat)
    requires Decode(h, encoded, depth).Ok?
    ensures Encode(h, Decode(h, encoded, depth).value) == encoded
    ensures WithinBounds(Decode(h, encoded, depth).value, depth)
    decreases |encoded|, 3
  {
    hide *;
    var body := DecodedBody(h, encoded, depth);
    EncodeDecodeBody(h, body, depth);
    EncodeOfBody(h, DecodeBody(h, body, depth).value);
  }

  lemma {:induction false} EncodeOfBody(h: Hasher, t: PathTree)
    ensures Encode(h, t) == MarshalBody(h, t) + h(MarshalBody(h, t))
  {
  }

  /** The body a successful decode read, without its checksum. */
  lemma {:induction false} DecodedBody(h: Hasher, encoded: seq<byte>, depth: nat) returns (body: seq<byte>)
    requires Decode(h, encoded, depth).Ok?
    ensures HEADER_SIZE <= |body| < |encoded| <= MAX_PATH_SIZE && depth <= MAX_CO_DEPTH
    ensures encoded == body + h(body)
    ensures Decode(h, encoded, depth) == DecodeBody(h, body, depth)
  {
    hide DecodeBody;
    body := encoded[..|encoded| - CHECKSUM_SIZE];
    assert encoded == body + encoded[|body|..];
  }

  lemma {:induction false} EncodeDecodeBody(h: Hasher, body: seq<byte>, depth: nat)
    requires |body| >= HEADER_SIZE && depth <= MAX_CO_DEPTH
    requires DecodeBody(h, body, depth).Ok?
    ensures MarshalBody(h, DecodeBody(h, body, depth).value) == body
    ensures WithinBounds(DecodeBody(h, body, depth).value, depth)
    decreases |body|, 2
  {
    WrittenOfReadSized(body[10..], MAX_BASE_SIZE);
    var Read(base, afterBase) := ReadSized(body[10..], MAX_BASE_SIZE);
    WrittenOfReadUint(afterBase, 2);
    var Read(count, afterCount) := ReadUint(afterBase, 2);
    var Read(steps, rest) := DecodeSteps(h, afterCount, count, depth);
    EncodeDecodeSteps(h, afterCount, count, depth, steps, rest);
    var t := DecodeBody(h, body, depth).value;
    FromBigEndianInverse(body[8..10]);
    BodySplit(h, t);
    assert EncodeSteps(h, t.steps) + [] == EncodeSteps(h, t.steps);
    SameParts(body, MarshalBody(h, t));
  }

  lemma SameParts(a: seq<byte>, b: seq<byte>)
    requires |a| >= 10 && |b| >= 10
    requires a[..8] == b[..8] && a[8..10] == b[8..10] && a[10..] == b[10..]
    ensures a == b
  {
    assert a == a[..8] + a[8..10] + a[10..] && b == b[..8] + b[8..10] + b[10..];
  }

  /** The codec is a bijection between the trees within the limits and the byte
      strings that decode. */
  lemma DecodesExactlyTheEncodings(h: Hasher, encoded: seq<byte>, depth: nat, t: PathTree)
    ensures Decode(h, encoded, depth) == Ok(t) <==>
            WithinBounds(t, depth) && encoded == Encode(h, t) && |encoded| <= MAX_PATH_SIZE
  {
    if Decode(h, encoded, depth) == Ok(t) {
      EncodeDecode(h, encoded, depth);
    }
    if WithinBounds(t, depth) && encoded == Encode(h, t) && |encoded| <= MAX_PATH_SIZE {
      DecodeEncode(h, t, depth);
    }
  }
}
