/** The wire format of a proof path, byte by byte (custom_anchor_proof_path.go):
    what the encoding of a path is, said without an encoder. */
module ProofPathLayout {
  import opened Wrappers
  import opened Bytes
  import opened ProofPathCodec

  /** The bytes are the number, most significant first, cut to their width. */
  predicate Number(b: seq<byte>, n: nat) {
    forall i | 0 <= i < |b| :: b[i] == n / Pow256(|b| - 1 - i) % 256
  }

  /** "TAPPATH", a zero byte and a zero format number; the base after its length
      on four bytes; the number of steps on two; the steps; the digest of all
      that. */
  ghost predicate PathBytes(h: Hasher, e: seq<byte>, t: PathTree)
    decreases t, 2
  {
    && |e| >= 48 + |t.base|
    && e[..10] == [0x54, 0x41, 0x50, 0x50, 0x41, 0x54, 0x48, 0, 0, 0]
    && Number(e[10..14], |t.base|) && e[14..14 + |t.base|] == t.base
    && Number(e[14 + |t.base|..16 + |t.base|], |t.steps|)
    && StepsBytes(h, e[16 + |t.base|..|e| - 32], t.steps)
    && e[|e| - 32..] == h(e[..|e| - 32])
  }

  ghost predicate StepsBytes(h: Hasher, b: seq<byte>, steps: seq<StepTree>)
    decreases steps, 1
  {
    if steps == [] then b == []
    else exists cut: nat ::
      cut <= |b| && StepBytes(h, b[..cut], steps[0]) && StepsBytes(h, b[cut..], steps[1..])
  }

  /** The proof after its length on four bytes, the number of co-input paths on
      two, then each of them after its length on four. */
  ghost predicate StepBytes(h: Hasher, b: seq<byte>, s: StepTree)
    decreases s, 1
  {
    && |b| >= 6 + |s.proof|
    && Number(b[..4], |s.proof|) && b[4..4 + |s.proof|] == s.proof
    && Number(b[4 + |s.proof|..6 + |s.proof|], |s.coPaths|)
    && CoPathsBytes(h, b[6 + |s.proof|..], s.coPaths)
  }

  ghost predicate CoPathsBytes(h: Hasher, b: seq<byte>, paths: seq<PathTree>)
    decreases paths, 0
  {
    if paths == [] then b == []
    else exists cut: nat ::
      4 <= cut <= |b| && Number(b[..4], cut - 4) && PathBytes(h, b[4..cut], paths[0])
      && CoPathsBytes(h, b[cut..], paths[1..])
  }

  // -------------------------------------------------- the encoder writes this format

  lemma NumberIsBigEndian(b: seq<byte>, n: nat)
    ensures Number(b, n) <==> b == BigEndian(n, |b|)
  {
    forall i | 0 <= i < |b|
      ensures BigEndian(n, |b|)[i] == n / Pow256(|b| - 1 - i) % 256
    {
      BigEndianAt(n, |b|, i);
    }
  }

  /** One field after another. */
  lemma Fields(a: seq<byte>, b: seq<byte>, c: seq<byte>, d: seq<byte>)
    ensures var all := a + b + c + d;
            && all[..|a|] == a && all[|a|..|a| + |b|] == b
            && all[|a| + |b|..|a| + |b| + |c|] == c && all[|a| + |b| + |c|..] == d
  {
  }

  lemma Cut(b: seq<byte>, i: nat, j: nat, k: nat)
    requires i <= j <= k <= |b|
    ensures b == b[..i] + b[i..j] + b[j..k] + b[k..]
  {
  }

  lemma {:induction false} StepIsLaidOut(h: Hasher, b: seq<byte>, s: StepTree)
    ensures StepBytes(h, b, s) <==> b == EncodeStep(h, s)
    decreases s, 1
  {
    hide CoPathsBytes, EncodeCoPaths, Number, BigEndian;
    var n := |s.proof|;
    var length, count, rest := BigEndian(n, 4), BigEndian(|s.coPaths|, 2), EncodeCoPaths(h, s.coPaths);
    assert EncodeStep(h, s) == length + s.proof + count + rest;
    Fields(length, s.proof, count, rest);
    if |b| >= 6 + n {
      Cut(b, 4, 4 + n, 6 + n);
      NumberIsBigEndian(b[..4], n);
      NumberIsBigEndian(b[4 + n..6 + n], |s.coPaths|);
      CoPathsAreLaidOut(h, b[6 + n..], s.coPaths);
    }
  }

  lemma {:induction false} StepsAreLaidOut(h: Hasher, b: seq<byte>, steps: seq<StepTree>)
    ensures StepsBytes(h, b, steps) <==> b == EncodeSteps(h, steps)
    decreases steps, 1
  {
    hide StepBytes, EncodeStep;
    if steps != [] {
      var first, rest := EncodeStep(h, steps[0]), EncodeSteps(h, steps[1..]);
      forall cut: nat | cut <= |b|
        ensures StepBytes(h, b[..cut], steps[0]) && StepsBytes(h, b[cut..], steps[1..]) <==>
                b[..cut] == first && b[cut..] == rest
      {
        StepIsLaidOut(h, b[..cut], steps[0]);
        StepsAreLaidOut(h, b[cut..], steps[1..]);
      }
      if b == first + rest {
        assert b[..|first|] == first && b[|first|..] == rest;
      }
      if cut: nat :| cut <= |b| && b[..cut] == first && b[cut..] == rest {
        assert b == b[..cut] + b[cut..];
      }
    }
  }

  lemma {:induction false} CoPathsAreLaidOut(h: Hasher, b: seq<byte>, paths: seq<PathTree>)
    ensures CoPathsBytes(h, b, paths) <==> b == EncodeCoPaths(h, paths)
    decreases paths, 0
  {
    hide PathBytes, Encode, Number, BigEndian;
    if paths != [] {
      var blob, rest := Encode(h, paths[0]), EncodeCoPaths(h, paths[1..]);
      forall cut: nat | 4 <= cut <= |b|
        ensures Number(b[..4], cut - 4) && PathBytes(h, b[4..cut], paths[0]) &&
                CoPathsBytes(h, b[cut..], paths[1..]) <==>
                b[..4] == BigEndian(cut - 4, 4) && b[4..cut] == blob && b[cut..] == rest
      {
        NumberIsBigEndian(b[..4], cut - 4);
        EncodingIsLaidOut(h, b[4..cut], paths[0]);
        CoPathsAreLaidOut(h, b[cut..], paths[1..]);
      }
      OneCoPath(b, blob, rest);
    }
  }

  lemma OneCoPath(b: seq<byte>, blob: seq<byte>, rest: seq<byte>)
    ensures (exists cut: nat :: 4 <= cut <= |b| &&
               b[..4] == BigEndian(cut - 4, 4) && b[4..cut] == blob && b[cut..] == rest) <==>
            b == Sized(blob) + rest
  {
    hide BigEndian;
    if b == Sized(blob) + rest {
      var cut := 4 + |blob|;
      assert b[..4] == BigEndian(cut - 4, 4) && b[4..cut] == blob && b[cut..] == rest;
    }
    if cut: nat :| 4 <= cut <= |b| && b[..4] == BigEndian(cut - 4, 4) && b[4..cut] == blob && b[cut..] == rest {
      assert b == b[..4] + b[4..cut] + b[cut..];
    }
  }

  /** The encoding of a path is the one byte string of this format for it. */
  lemma {:induction false} EncodingIsLaidOut(h: Hasher, e: seq<byte>, t: PathTree)
    ensures PathBytes(h, e, t) <==> e == Encode(h, t)
    decreases t, 4
  {
    hide PathBytes, Encode;
    if PathBytes(h, e, t) {
      HasFormat(h, e, t);
    }
    EncodingHasFormat(h, t);
  }

  lemma {:induction false} EncodingHasFormat(h: Hasher, t: PathTree)
    ensures PathBytes(h, Encode(h, t), t)
    decreases t, 3
  {
    hide PathBytes, EncodeSteps, BigEndian, Encode, MarshalBody;
    EncodedParts(h, t);
    PathParts(h, Encode(h, t), t);
  }

  lemma {:induction false} HasFormat(h: Hasher, e: seq<byte>, t: PathTree)
    requires PathBytes(h, e, t)
    ensures e == Encode(h, t)
    decreases t, 3
  {
    hide PathBytes, EncodeSteps, BigEndian, MarshalBody;
    PathIsLong(h, e, t);
    PathParts(h, e, t);
    BodyPieces(e, 14 + |t.base|);
    EncodedBody(h, t);
    assert e == e[..|e| - 32] + e[|e| - 32..];
  }

  lemma PathIsLong(h: Hasher, e: seq<byte>, t: PathTree)
    ensures PathBytes(h, e, t) ==> |e| >= 48 + |t.base|
  {
    hide StepsBytes, Number;
  }

  /** The format of a path, with its numbers and its steps as encoded. */
  lemma {:induction false} PathParts(h: Hasher, e: seq<byte>, t: PathTree)
    requires |e| >= 48 + |t.base|
    ensures var n := 14 + |t.base|;
            PathBytes(h, e, t) <==>
            && e[..10] == [0x54, 0x41, 0x50, 0x50, 0x41, 0x54, 0x48, 0, 0, 0]
            && e[10..14] == BigEndian(|t.base|, 4) && e[14..n] == t.base
            && e[n..n + 2] == BigEndian(|t.steps|, 2)
            && e[n + 2..|e| - 32] == EncodeSteps(h, t.steps)
            && e[|e| - 32..] == h(e[..|e| - 32])
    decreases t, 2
  {
    hide StepsBytes, EncodeSteps, Number, BigEndian;
    var n := 14 + |t.base|;
    NumberIsBigEndian(e[10..14], |t.base|);
    NumberIsBigEndian(e[n..n + 2], |t.steps|);
    StepsAreLaidOut(h, e[n + 2..|e| - 32], t.steps);
  }

  lemma BodyPieces(e: seq<byte>, n: nat)
    requires 14 <= n && |e| >= n + 34
    ensures e[..|e| - 32] == e[..10] + e[10..14] + e[14..n] + e[n..n + 2] + e[n + 2..|e| - 32]
  {
  }

  lemma {:induction false} EncodedParts(h: Hasher, t: PathTree)
    ensures var e, n := Encode(h, t), 14 + |t.base|;
            && |e| >= 48 + |t.base|
            && e[..10] == [0x54, 0x41, 0x50, 0x50, 0x41, 0x54, 0x48, 0, 0, 0]
            && e[10..14] == BigEndian(|t.base|, 4) && e[14..n] == t.base
            && e[n..n + 2] == BigEndian(|t.steps|, 2)
            && e[n + 2..|e| - 32] == EncodeSteps(h, t.steps)
            && e[|e| - 32..] == h(e[..|e| - 32])
  {
    hide EncodeSteps, BigEndian, MarshalBody;
    EncodedBody(h, t);
    Slices([0x54, 0x41, 0x50, 0x50, 0x41, 0x54, 0x48, 0, 0, 0], BigEndian(|t.base|, 4), t.base,
           BigEndian(|t.steps|, 2), EncodeSteps(h, t.steps));
    WithDigest(MarshalBody(h, t), h(MarshalBody(h, t)), 14 + |t.base|);
  }

  lemma {:induction false} EncodedBody(h: Hasher, t: PathTree)
    ensures MarshalBody(h, t) ==
            [0x54, 0x41, 0x50, 0x50, 0x41, 0x54, 0x48, 0, 0, 0] + BigEndian(|t.base|, 4) + t.base +
            BigEndian(|t.steps|, 2) + EncodeSteps(h, t.steps)
  {
    hide EncodeSteps, BigEndian;
    FormatIsZero();
    assert MAGIC + BigEndian(FORMAT, 2) == [0x54, 0x41, 0x50, 0x50, 0x41, 0x54, 0x48, 0, 0, 0];
    Flat(MAGIC, BigEndian(FORMAT, 2), BigEndian(|t.base|, 4), t.base, BigEndian(|t.steps|, 2), EncodeSteps(h, t.steps));
  }

  lemma Flat(magic: seq<byte>, format: seq<byte>, length: seq<byte>, base: seq<byte>, count: seq<byte>,
             steps: seq<byte>)
    ensures (magic + format + (length + base) + count) + steps == (magic + format) + length + base + count + steps
  {
  }

  lemma Slices(head: seq<byte>, length: seq<byte>, base: seq<byte>, count: seq<byte>, steps: seq<byte>)
    requires |head| == 10 && |length| == 4 && |count| == 2
    ensures var body, n := head + length + base + count + steps, 14 + |base|;
            && |body| >= n + 2 && body[..10] == head && body[10..14] == length && body[14..n] == base
            && body[n..n + 2] == count && body[n + 2..] == steps
  {
  }

  lemma WithDigest(body: seq<byte>, digest: seq<byte>, n: nat)
    requires 14 <= n && n + 2 <= |body| && |digest| == 32
    ensures var e := body + digest;
            && e[..10] == body[..10] && e[10..14] == body[10..14] && e[14..n] == body[14..n]
            && e[n..n + 2] == body[n..n + 2] && e[n + 2..|e| - 32] == body[n + 2..]
            && e[..|e| - 32] == body && e[|e| - 32..] == digest
  {
  }

  /** Numbers of four and of two bytes, spelled out. */
  lemma NumberBytes(b: seq<byte>, n: nat)
    requires Number(b, n)
    ensures |b| == 4 ==> b == [n / 0x100_0000 % 256, n / 0x1_0000 % 256, n / 0x100 % 256, n % 256]
    ensures |b| == 2 ==> b == [n / 0x100 % 256, n % 256]
  {
    Pow256Values();
    assert Pow256(3) == 0x100_0000 && Pow256(0) == 1;
  }

  lemma FormatIsZero()
    ensures BigEndian(FORMAT, 2) == [0, 0]
  {
    Pow256Values();
    BigEndianAt(FORMAT, 2, 0);
    BigEndianAt(FORMAT, 2, 1);
  }

  /** What decodes is exactly what has the format, within the limits. */
  lemma DecodesExactlyTheFormat(h: Hasher, encoded: seq<byte>, depth: nat, t: PathTree)
    ensures Decode(h, encoded, depth) == Ok(t) <==>
            WithinBounds(t, depth) && PathBytes(h, encoded, t) && |encoded| <= MAX_PATH_SIZE
  {
    hide Decode, WithinBounds, PathBytes, Encode;
    DecodesExactlyTheEncodings(h, encoded, depth, t);
    EncodingIsLaidOut(h, encoded, t);
  }

  /** A whole, undamaged byte string with a format number other than zero is
      reported as an unknown format, not as a malformed path. */
  lemma OtherFormatsAreReported(h: Hasher, encoded: seq<byte>, depth: nat)
    requires depth <= MAX_CO_DEPTH && 48 <= |encoded| <= MAX_PATH_SIZE
    requires encoded[|encoded| - 32..] == h(encoded[..|encoded| - 32])
    requires encoded[..8] == [0x54, 0x41, 0x50, 0x50, 0x41, 0x54, 0x48, 0] && encoded[8..10] != [0, 0]
    ensures Decode(h, encoded, depth) == Err(UnknownFormat)
  {
    hide FromBigEndian, BigEndian;
    var body := encoded[..|encoded| - CHECKSUM_SIZE];
    assert body[..8] == encoded[..8] && body[8..10] == encoded[8..10];
    FromBigEndianInverse(body[8..10]);
    FormatIsZero();
  }
}
