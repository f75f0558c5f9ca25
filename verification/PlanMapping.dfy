/** Mapping the virtual packets of a plan back to the request
    (custom_anchor_builder.go). */
module PlanMapping {
  import opened Wrappers
  import opened Integers
  import opened Collections
  import opened AssetRefs
  import opened NativeProofs
  import opened Amounts

  /** An asset predecessor: outpoint, issuance and script key. */
  datatype PrevId = PrevId(outpoint: Outpoint, issuance: seq<int>, scriptKey: seq<int>)

  /** A position among the virtual inputs or outputs of the packets. */
  datatype Place<T> = Place(packet: nat, index: nat, content: T)

  function RowOf<T>(packet: nat, row: seq<T>, n: nat): (s: seq<Place<T>>)
    requires n <= |row|
    ensures |s| == n && forall i | 0 <= i < n :: s[i] == Place(packet, i, row[i])
  {
    seq(n, i requires 0 <= i < n => Place(packet, i, row[i]))
  }

  /** All entries, packet by packet. */
  function Places<T>(rows: seq<seq<T>>): seq<Place<T>> {
    if rows == [] then [] else
    var last := |rows| - 1;
    Places(rows[..last]) + RowOf(last, rows[last], |rows[last]|)
  }

  /** The loops reach every entry in the order of `Places`. */
  lemma {:induction false} PlaceAt<T>(rows: seq<seq<T>>, p: nat, i: nat)
    requires p < |rows| && i <= |rows[p]|
    ensures |Places(rows[..p])| + |rows[p]| <= |Places(rows)|
    ensures i < |rows[p]| ==> Places(rows)[|Places(rows[..p])| + i] == Place(p, i, rows[p][i])
    ensures |Places(rows[..p + 1])| == |Places(rows[..p])| + |rows[p]|
    decreases |rows|
  {
    var last := |rows| - 1;
    assert rows[..p + 1][..p] == rows[..p];
    if p < last {
      assert rows[..last][..p] == rows[..p];
      PlaceAt(rows[..last], p, i);
    }
  }

  // ------------------------------------------------------------------------- inputs

  type VirtualInput = Option<PrevId>

  /** A logical input; `sourceOk` is whether its proof source can be encoded. */
  datatype LogicalInput = LogicalInput(prev: PrevId, sourceOk: bool)

  /** Where a logical input ended up. */
  datatype InputSummary = Unset | InputSummary(packetIndex: nat, virtualIndex: nat, anchorIndex: nat)

  /** `findAnchorInput`. */
  method FindAnchor(anchor: seq<Outpoint>, outpoint: Outpoint) returns (r: Option<nat>)
    ensures r.Some? ==> r.value < |anchor| && anchor[r.value] == outpoint
    ensures r.None? <==> outpoint !in anchor
  {
    for i := 0 to |anchor|
      invariant outpoint !in anchor[..i]
    {
      if anchor[i] == outpoint {
        return Some(i);
      }
    }
    r := None;
  }

  predicate PrevIn(prev: PrevId, inputs: seq<LogicalInput>) {
    exists i | 0 <= i < |inputs| :: inputs[i].prev == prev
  }

  /** The first logical input with this predecessor. */
  method FindInput(inputs: seq<LogicalInput>, prev: PrevId) returns (r: Option<nat>)
    ensures r.None? <==> !PrevIn(prev, inputs)
    ensures r.Some? ==> r.value < |inputs| && inputs[r.value].prev == prev && !PrevIn(prev, inputs[..r.value])
  {
    for i := 0 to |inputs|
      invariant !PrevIn(prev, inputs[..i])
    {
      if inputs[i].prev == prev {
        return Some(i);
      }
    }
    r := None;
  }

  predicate Spends(places: seq<Place<VirtualInput>>, prev: PrevId) {
    exists k | 0 <= k < |places| :: places[k].content == Some(prev)
  }

  predicate Anchored(anchor: seq<Outpoint>, v: VirtualInput) {
    v.Some? && v.value.outpoint in anchor
  }

  predicate LocatedAt(place: Place<VirtualInput>, prev: PrevId, s: InputSummary)
    requires s.InputSummary?
  {
    && place.content == Some(prev)
    && s.packetIndex == place.packet % 0x1_0000_0000 && s.virtualIndex == place.index % 0x1_0000_0000
  }

  /** The summary describes a place that spends this predecessor. */
  ghost predicate Describes(anchor: seq<Outpoint>, places: seq<Place<VirtualInput>>, prev: PrevId, s: InputSummary) {
    && s.InputSummary? && s.anchorIndex < |anchor| && anchor[s.anchorIndex] == prev.outpoint
    && exists k :: 0 <= k < |places| && LocatedAt(places[k], prev, s)
  }

  ghost predicate NoTwoSpendTheSame(places: seq<Place<VirtualInput>>) {
    forall j, k | 0 <= j < k < |places| :: places[j].content != places[k].content
  }

  ghost predicate NoTwoInputsTheSame(inputs: seq<LogicalInput>) {
    forall i | 0 <= i < |inputs| :: !PrevIn(inputs[i].prev, inputs[..i])
  }

  /** What `mapCustomAnchorInputs` accepts: logical and virtual inputs are in
      one-to-one correspondence, and the anchor transaction spends them all. */
  ghost predicate InputsMatch(anchor: seq<Outpoint>, inputs: seq<LogicalInput>, places: seq<Place<VirtualInput>>) {
    && NoTwoInputsTheSame(inputs) && NoTwoSpendTheSame(places)
    && (forall i | 0 <= i < |inputs| :: Spends(places, inputs[i].prev) && inputs[i].sourceOk)
    && (forall k | 0 <= k < |places| :: Anchored(anchor, places[k].content) && PrevIn(places[k].content.value, inputs))
  }

  /** The state of the loop once the places in `done` were handled. */
  ghost predicate Mapped(anchor: seq<Outpoint>, inputs: seq<LogicalInput>, done: seq<Place<VirtualInput>>,
                         seen: seq<bool>, result: seq<InputSummary>) {
    && |seen| == |result| == |inputs|
    && NoTwoSpendTheSame(done)
    && (forall k | 0 <= k < |done| :: Anchored(anchor, done[k].content) && PrevIn(done[k].content.value, inputs))
    && (forall i | 0 <= i < |inputs| ::
          seen[i] <==> Spends(done, inputs[i].prev) && !PrevIn(inputs[i].prev, inputs[..i]))
    && (forall i | 0 <= i < |inputs| && seen[i] ::
          inputs[i].sourceOk && Describes(anchor, done, inputs[i].prev, result[i]))
  }

  method MapInputs(anchor: seq<Outpoint>, inputs: seq<LogicalInput>, packets: seq<seq<VirtualInput>>)
    returns (r: Option<seq<InputSummary>>)
    ensures r.Some? <==> InputsMatch(anchor, inputs, Places(packets))
    ensures r.Some? ==> |r.value| == |inputs| && forall i | 0 <= i < |inputs| ::
              Describes(anchor, Places(packets), inputs[i].prev, r.value[i])
  {
    hide Places, Mapped, InputsMatch, Describes;
    ghost var places := Places(packets);
    var seen := seq(|inputs|, i => false);
    var result := seq(|inputs|, i => Unset);
    assert Mapped(anchor, inputs, places[..0], seen, result) by {
      NothingMapped(anchor, inputs, places[..0], seen, result);
    }
    assert packets[..0] == [] && |Places<VirtualInput>([])| == 0 by { NoPlaces<VirtualInput>(); }
    for p := 0 to |packets|
      invariant |Places(packets[..p])| <= |places|
      invariant Mapped(anchor, inputs, places[..|Places(packets[..p])|], seen, result)
    {
      ghost var start := |Places(packets[..p])|;
      PlaceAt(packets, p, 0);
      for i := 0 to |packets[p]|
        invariant Mapped(anchor, inputs, places[..start + i], seen, result)
      {
        PlaceAt(packets, p, i);
        var ok, matched, summary := MapOne(anchor, inputs, places, start + i, seen, result, p, i, packets[p][i]);
        if !ok {
          return None;
        }
        result := result[matched := summary];
        seen := seen[matched := true];
      }
    }
    assert packets[..|packets|] == packets && places[..|places|] == places;
    assert |seen| == |inputs| by { MappedSizes(anchor, inputs, places, seen, result); }
    for i := 0 to |seen|
      invariant forall j | 0 <= j < i :: seen[j]
    {
      if !seen[i] {
        Uncovered(anchor, inputs, places, seen, result, i);
        return None;
      }
    }
    AllMapped(anchor, inputs, places, seen, result);
    r := Some(result);
  }

  lemma NoPlaces<T>()
    ensures |Places<T>([])| == 0
  {
  }

  lemma NothingMapped(anchor: seq<Outpoint>, inputs: seq<LogicalInput>, done: seq<Place<VirtualInput>>,
                      seen: seq<bool>, result: seq<InputSummary>)
    requires done == [] && |seen| == |result| == |inputs| && forall i | 0 <= i < |seen| :: !seen[i]
    ensures Mapped(anchor, inputs, done, seen, result)
  {
  }

  lemma MappedSizes(anchor: seq<Outpoint>, inputs: seq<LogicalInput>, done: seq<Place<VirtualInput>>,
                    seen: seq<bool>, result: seq<InputSummary>)
    requires Mapped(anchor, inputs, done, seen, result)
    ensures |seen| == |result| == |inputs|
  {
  }

  /** One virtual input. */
  method MapOne(anchor: seq<Outpoint>, inputs: seq<LogicalInput>, ghost places: seq<Place<VirtualInput>>, ghost n: nat,
                seen: seq<bool>, ghost result: seq<InputSummary>, p: nat, i: nat, v: VirtualInput)
    returns (ok: bool, matched: nat, summary: InputSummary)
    requires n < |places| && places[n] == Place(p, i, v) && Mapped(anchor, inputs, places[..n], seen, result)
    ensures ok ==> matched < |seen| == |result|
    ensures ok ==> Mapped(anchor, inputs, places[..n + 1], seen[matched := true], result[matched := summary])
    ensures !ok ==> !InputsMatch(anchor, inputs, places)
  {
    hide Mapped, InputsMatch;
    matched, summary := 0, Unset;
    MappedSizes(anchor, inputs, places[..n], seen, result);
    if v.None? {
      NotAnchored(anchor, inputs, places, n);
      return false, matched, summary;
    }
    var found := FindInput(inputs, v.value);
    if found.None? {
      NotLogical(anchor, inputs, places, n);
      return false, matched, summary;
    }
    matched := found.value;
    if seen[matched] {
      SeenTwice(anchor, inputs, places, n, seen, result, matched);
      return false, matched, summary;
    }
    if !inputs[matched].sourceOk {
      NoSource(anchor, inputs, places, matched);
      return false, matched, summary;
    }
    var anchorIndex := FindAnchor(anchor, v.value.outpoint);
    if anchorIndex.None? {
      NotAnchored(anchor, inputs, places, n);
      return false, matched, summary;
    }
    summary := InputSummary(p % 0x1_0000_0000, i % 0x1_0000_0000, anchorIndex.value);
    OneMore(anchor, inputs, places, n, seen, result, matched, summary);
    ok := true;
  }

  lemma NotAnchored(anchor: seq<Outpoint>, inputs: seq<LogicalInput>, places: seq<Place<VirtualInput>>, n: nat)
    requires n < |places| && !Anchored(anchor, places[n].content)
    ensures !InputsMatch(anchor, inputs, places)
  {
  }

  lemma NotLogical(anchor: seq<Outpoint>, inputs: seq<LogicalInput>, places: seq<Place<VirtualInput>>, n: nat)
    requires n < |places| && places[n].content.Some? && !PrevIn(places[n].content.value, inputs)
    ensures !InputsMatch(anchor, inputs, places)
  {
  }

  lemma NoSource(anchor: seq<Outpoint>, inputs: seq<LogicalInput>, places: seq<Place<VirtualInput>>, i: nat)
    requires i < |inputs| && !inputs[i].sourceOk
    ensures !InputsMatch(anchor, inputs, places)
  {
  }

  lemma SeenTwice(anchor: seq<Outpoint>, inputs: seq<LogicalInput>, places: seq<Place<VirtualInput>>, n: nat,
                  seen: seq<bool>, result: seq<InputSummary>, i: nat)
    requires n < |places| && Mapped(anchor, inputs, places[..n], seen, result)
    requires i < |inputs| && seen[i] && places[n].content == Some(inputs[i].prev)
    ensures !InputsMatch(anchor, inputs, places)
  {
    var k :| 0 <= k < n && places[..n][k].content == Some(inputs[i].prev);
    assert places[k].content == places[n].content;
  }

  lemma OneMore(anchor: seq<Outpoint>, inputs: seq<LogicalInput>, places: seq<Place<VirtualInput>>, n: nat,
                seen: seq<bool>, result: seq<InputSummary>, i: nat, summary: InputSummary)
    requires n < |places| && Mapped(anchor, inputs, places[..n], seen, result)
    requires i < |inputs| && !seen[i] && inputs[i].sourceOk && places[n].content == Some(inputs[i].prev)
    requires !PrevIn(inputs[i].prev, inputs[..i]) && Anchored(anchor, places[n].content)
    requires summary.InputSummary? && LocatedAt(places[n], inputs[i].prev, summary)
    requires summary.anchorIndex < |anchor| && anchor[summary.anchorIndex] == inputs[i].prev.outpoint
    ensures Mapped(anchor, inputs, places[..n + 1], seen[i := true], result[i := summary])
  {
    hide PrevIn, Anchored, LocatedAt;
    var done, next := places[..n], places[..n + 1];
    var prev := inputs[i].prev;
    assert next == done + [places[n]];
    assert !Spends(done, prev);
    forall q: PrevId
      ensures Spends(next, q) <==> Spends(done, q) || q == prev
    {
      assert Spends(done, q) ==> Spends(next, q);
      assert next[n].content == Some(prev);
    }
    assert NoTwoSpendTheSame(next) by {
      forall j, k | 0 <= j < k < |next|
        ensures next[j].content != next[k].content
      {
        assert done[j].content == next[j].content;
        assert k < n ==> done[k].content == next[k].content;
      }
    }
    assert PrevIn(prev, inputs) by { IsIn(inputs, i); }
    forall j | 0 <= j < |inputs|
      ensures seen[i := true][j] <==> Spends(next, inputs[j].prev) && !PrevIn(inputs[j].prev, inputs[..j])
    {
      if inputs[j].prev == prev && j != i {
        FirstIsUnique(inputs, i, j);
      }
    }
    forall j | 0 <= j < |inputs| && seen[i := true][j]
      ensures inputs[j].sourceOk && Describes(anchor, next, inputs[j].prev, result[i := summary][j])
    {
      if j == i {
        assert LocatedAt(next[n], prev, summary);
      } else {
        var k :| 0 <= k < |done| && LocatedAt(done[k], inputs[j].prev, result[j]);
        assert next[k] == done[k];
      }
    }
  }

  lemma IsIn(inputs: seq<LogicalInput>, i: nat)
    requires i < |inputs|
    ensures PrevIn(inputs[i].prev, inputs)
  {
  }

  lemma FirstIsUnique(inputs: seq<LogicalInput>, i: nat, j: nat)
    requires i < |inputs| && j < |inputs| && i != j && inputs[i].prev == inputs[j].prev
    requires !PrevIn(inputs[i].prev, inputs[..i])
    ensures PrevIn(inputs[j].prev, inputs[..j])
  {
    assert forall k | 0 <= k < i :: inputs[..i][k] == inputs[k];
    assert forall k | 0 <= k < j :: inputs[..j][k] == inputs[k];
  }

  lemma Uncovered(anchor: seq<Outpoint>, inputs: seq<LogicalInput>, places: seq<Place<VirtualInput>>,
                  seen: seq<bool>, result: seq<InputSummary>, i: nat)
    requires Mapped(anchor, inputs, places, seen, result) && i < |seen| && !seen[i]
    ensures !InputsMatch(anchor, inputs, places)
  {
  }

  lemma AllMapped(anchor: seq<Outpoint>, inputs: seq<LogicalInput>, places: seq<Place<VirtualInput>>,
                  seen: seq<bool>, result: seq<InputSummary>)
    requires Mapped(anchor, inputs, places, seen, result) && forall i | 0 <= i < |seen| :: seen[i]
    ensures InputsMatch(anchor, inputs, places)
    ensures |result| == |inputs| && forall i | 0 <= i < |inputs| :: Describes(anchor, places, inputs[i].prev, result[i])
  {
    hide PrevIn, Spends, Describes, Anchored;
  }

  /** The mapping accepts exactly a one-to-one correspondence: the virtual inputs
      are a rearrangement of the logical ones, which are pairwise distinct, have a
      proof source, and are all spent by the anchor transaction. */
  lemma InputsArePermuted(anchor: seq<Outpoint>, inputs: seq<LogicalInput>, places: seq<Place<VirtualInput>>)
    ensures InputsMatch(anchor, inputs, places) <==>
            && multiset(Contents(places)) == multiset(Expected(inputs)) && Distinct(Expected(inputs))
            && forall i | 0 <= i < |inputs| :: inputs[i].sourceOk && inputs[i].prev.outpoint in anchor
  {
    if InputsMatch(anchor, inputs, places) {
      MatchIsPermutation(anchor, inputs, places);
    }
    if && multiset(Contents(places)) == multiset(Expected(inputs)) && Distinct(Expected(inputs))
       && forall i | 0 <= i < |inputs| :: inputs[i].sourceOk && inputs[i].prev.outpoint in anchor {
      PermutationMatches(anchor, inputs, places);
    }
  }

  lemma PermutationMatches(anchor: seq<Outpoint>, inputs: seq<LogicalInput>, places: seq<Place<VirtualInput>>)
    requires multiset(Contents(places)) == multiset(Expected(inputs)) && Distinct(Expected(inputs))
    requires forall i | 0 <= i < |inputs| :: inputs[i].sourceOk && inputs[i].prev.outpoint in anchor
    ensures InputsMatch(anchor, inputs, places)
  {
    var left, right := Contents(places), Expected(inputs);
    SameElements(right, left);
    assert forall v :: v in left <==> v in SetOf(left);
    assert forall v :: v in right <==> v in SetOf(right);
    forall j, k | 0 <= j < k < |places|
      ensures places[j].content != places[k].content
    {
      assert left[j] != left[k];
    }
    forall i, j | 0 <= j < i < |inputs|
      ensures inputs[..i][j].prev != inputs[i].prev
    {
      assert right[j] != right[i];
    }
    forall i | 0 <= i < |inputs|
      ensures Spends(places, inputs[i].prev)
    {
      assert right[i] in left;
      var k :| 0 <= k < |left| && left[k] == right[i];
      assert places[k].content == Some(inputs[i].prev);
    }
    forall k | 0 <= k < |places|
      ensures Anchored(anchor, places[k].content) && PrevIn(places[k].content.value, inputs)
    {
      assert left[k] in right;
      var i :| 0 <= i < |right| && right[i] == left[k];
      assert inputs[i].prev == places[k].content.value;
    }
  }

  lemma MatchIsPermutation(anchor: seq<Outpoint>, inputs: seq<LogicalInput>, places: seq<Place<VirtualInput>>)
    requires InputsMatch(anchor, inputs, places)
    ensures multiset(Contents(places)) == multiset(Expected(inputs)) && Distinct(Expected(inputs))
    ensures forall i | 0 <= i < |inputs| :: inputs[i].sourceOk && inputs[i].prev.outpoint in anchor
  {
    var left, right := Contents(places), Expected(inputs);
    forall i, j | 0 <= i < j < |right|
      ensures right[i] != right[j]
    {
      assert inputs[..j][i] == inputs[i];
    }
    forall i | 0 <= i < |inputs|
      ensures inputs[i].prev.outpoint in anchor
    {
      var k :| 0 <= k < |places| && places[k].content == Some(inputs[i].prev);
      assert Anchored(anchor, places[k].content);
    }
    forall v
      ensures v in left <==> v in right
    {
      if v in left {
        var k :| 0 <= k < |left| && left[k] == v;
        var i :| 0 <= i < |inputs| && inputs[i].prev == places[k].content.value;
        assert right[i] == v;
      }
      if v in right {
        var i :| 0 <= i < |right| && right[i] == v;
        var k :| 0 <= k < |places| && places[k].content == Some(inputs[i].prev);
        assert left[k] == v;
      }
    }
    DistinctSize(left);
    DistinctSize(right);
    assert SetOf(left) == SetOf(right);
  }

  function Contents(places: seq<Place<VirtualInput>>): (s: seq<VirtualInput>)
    ensures |s| == |places|
  {
    seq(|places|, k requires 0 <= k < |places| => places[k].content)
  }

  function Expected(inputs: seq<LogicalInput>): (s: seq<VirtualInput>)
    ensures |s| == |inputs|
  {
    seq(|inputs|, i requires 0 <= i < |inputs| => Some(inputs[i].prev))
  }

  // ------------------------------------------------------------------------ outputs

  /** A logical output of the request. */
  datatype LogicalOutput = LogicalOutput(ref: string, anchorIndex: nat, amount: uint64, burn: bool, opTrue: bool)

  datatype VirtualOutput = VirtualOutput(ref: Option<string>, anchorIndex: nat, amount: uint64, scriptKey: seq<int>)

  /** A virtual packet; `issuance` and `first` are absent when the native
      library rejects the packet or it has no usable first input. */
  datatype OutputPacket = OutputPacket(issuance: Option<seq<int>>, first: Option<PrevId>, outputs: seq<VirtualOutput>)

  /** Key derivation: burn keys, the script key of a logical output for an
      issuance, and OP_TRUE spend info for a key. */
  datatype Derive = Derive(
    burnKey: PrevId -> seq<int>,
    scriptKey: (LogicalOutput, seq<int>) -> Option<seq<int>>,
    opTrueOk: (LogicalOutput, seq<int>, seq<int>) -> bool,
    keyOk: seq<int> -> bool,
    // a requested reference names what a virtual output carries
    refMatches: (string, string, seq<int>) -> bool)

  /** `customAnchorAssetRefMatchesIssuance`. */
  predicate RefMatches(l: Library, requested: string, semantic: string, issuance: seq<int>) {
    Equivalent(l, requested, semantic) || (AssetId(l, requested).Some? && AssetId(l, requested).value == issuance)
  }

  /** Matching references as the builder does. */
  function WithRefs(l: Library, d: Derive): Derive {
    d.(refMatches := (requested, semantic, issuance) => RefMatches(l, requested, semantic, issuance))
  }

  /** What the scan of the logical outputs finds. */
  datatype Scan = Broken | Missing | Found(i: nat)

  predicate Candidate(d: Derive, c: LogicalOutput, v: VirtualOutput, issuance: seq<int>)
    requires v.ref.Some?
  {
    c.anchorIndex == v.anchorIndex && d.refMatches(c.ref, v.ref.value, issuance)
  }

  function ExpectedKey(d: Derive, c: LogicalOutput, issuance: seq<int>, first: PrevId): Option<seq<int>> {
    if c.burn then Some(d.burnKey(first)) else d.scriptKey(c, issuance)
  }

  /** The first candidate whose key is the virtual output's key; a key that
      cannot be derived on the way is an error. */
  function ScanFrom(d: Derive, outputs: seq<LogicalOutput>, v: VirtualOutput, issuance: seq<int>,
                    first: PrevId, from: nat): (r: Scan)
    requires v.ref.Some? && from <= |outputs|
    ensures r.Found? ==> from <= r.i < |outputs| && Candidate(d, outputs[r.i], v, issuance) &&
                         ExpectedKey(d, outputs[r.i], issuance, first) == Some(v.scriptKey)
    decreases |outputs| - from
  {
    if from == |outputs| then Missing
    else if !Candidate(d, outputs[from], v, issuance) then ScanFrom(d, outputs, v, issuance, first, from + 1)
    else match ExpectedKey(d, outputs[from], issuance, first)
    case None => Broken
    case Some(key) =>
      if key == v.scriptKey then Found(from) else ScanFrom(d, outputs, v, issuance, first, from + 1)
  }

  /** The logical output a virtual output belongs to. */
  function Assign(d: Derive, outputs: seq<LogicalOutput>, packet: OutputPacket, v: VirtualOutput): (r: Option<nat>)
    ensures r.Some? ==> r.value < |outputs|
  {
    if packet.issuance.None? || packet.first.None? || v.ref.None? then None else
    match ScanFrom(d, outputs, v, packet.issuance.value, packet.first.value, 0)
    case Broken => None
    case Missing => None
    case Found(i) =>
      if d.keyOk(v.scriptKey) && (outputs[i].opTrue ==> d.opTrueOk(outputs[i], packet.issuance.value, v.scriptKey))
      then Some(i) else None
  }

  /** The logical output a virtual output is assigned to names its asset, uses
      its anchor output and derives its script key. */
  lemma AssignmentMatches(l: Library, d: Derive, outputs: seq<LogicalOutput>, packet: OutputPacket, v: VirtualOutput)
    requires Assign(WithRefs(l, d), outputs, packet, v).Some?
    ensures packet.issuance.Some? && packet.first.Some? && v.ref.Some?
    ensures var c := outputs[Assign(WithRefs(l, d), outputs, packet, v).value];
            && c.anchorIndex == v.anchorIndex
            && RefMatches(l, c.ref, v.ref.value, packet.issuance.value)
            && ExpectedKey(d, c, packet.issuance.value, packet.first.value) == Some(v.scriptKey)
  {
    hide RefMatches;
  }

  /** The request's output names what the virtual output carries: the same anchor
      output, and an equivalent reference or the very issuance. */
  predicate Names(l: Library, c: LogicalOutput, v: VirtualOutput, issuance: seq<int>) {
    && v.ref.Some? && c.anchorIndex == v.anchorIndex
    && (Equivalent(l, c.ref, v.ref.value) || AssetId(l, c.ref) == Some(issuance))
  }

  /** The key the request's output must have. */
  predicate HasKey(d: Derive, c: LogicalOutput, issuance: seq<int>, first: PrevId, key: Option<seq<int>>) {
    (c.burn && key == Some(d.burnKey(first))) || (!c.burn && key == d.scriptKey(c, issuance))
  }

  /** Output `i` is the first named one with the virtual output's key, and for all
      named before it some other key is known. */
  predicate FirstWithKey(l: Library, d: Derive, outputs: seq<LogicalOutput>, v: VirtualOutput, issuance: seq<int>,
                         first: PrevId, i: nat)
  {
    && i < |outputs| && Names(l, outputs[i], v, issuance) && HasKey(d, outputs[i], issuance, first, Some(v.scriptKey))
    && forall j | 0 <= j < i && Names(l, outputs[j], v, issuance) ::
         !HasKey(d, outputs[j], issuance, first, None) && !HasKey(d, outputs[j], issuance, first, Some(v.scriptKey))
  }

  lemma CandidateIs(l: Library, d: Derive, c: LogicalOutput, v: VirtualOutput, issuance: seq<int>, first: PrevId)
    requires v.ref.Some?
    ensures Candidate(WithRefs(l, d), c, v, issuance) <==> Names(l, c, v, issuance)
    ensures forall key :: ExpectedKey(WithRefs(l, d), c, issuance, first) == key <==> HasKey(d, c, issuance, first, key)
  {
    hide Equivalent, AssetId;
  }

  lemma {:induction false} ScanExactly(l: Library, d: Derive, outputs: seq<LogicalOutput>, v: VirtualOutput,
                                       issuance: seq<int>, first: PrevId, from: nat, i: nat)
    requires v.ref.Some? && from <= |outputs|
    ensures ScanFrom(WithRefs(l, d), outputs, v, issuance, first, from) == Found(i) <==>
            && from <= i < |outputs| && Names(l, outputs[i], v, issuance)
            && HasKey(d, outputs[i], issuance, first, Some(v.scriptKey))
            && forall j | from <= j < i && Names(l, outputs[j], v, issuance) ::
                 && !HasKey(d, outputs[j], issuance, first, None)
                 && !HasKey(d, outputs[j], issuance, first, Some(v.scriptKey))
    decreases |outputs| - from
  {
    hide Candidate, ExpectedKey, Names, HasKey, WithRefs;
    if from < |outputs| {
      CandidateIs(l, d, outputs[from], v, issuance, first);
      ScanExactly(l, d, outputs, v, issuance, first, from + 1, i);
    }
  }

  /** The virtual output belongs to output `i`: the first of the request that names
      it and has its key, which is one, and OP_TRUE outputs check out. */
  predicate Owns(l: Library, d: Derive, outputs: seq<LogicalOutput>, packet: OutputPacket, v: VirtualOutput, i: nat) {
    && packet.issuance.Some? && packet.first.Some?
    && FirstWithKey(l, d, outputs, v, packet.issuance.value, packet.first.value, i)
    && d.keyOk(v.scriptKey)
    && (outputs[i].opTrue ==> d.opTrueOk(outputs[i], packet.issuance.value, v.scriptKey))
  }

  lemma AssignsExactly(l: Library, d: Derive, outputs: seq<LogicalOutput>, packet: OutputPacket, v: VirtualOutput,
                       i: nat)
    ensures Assign(WithRefs(l, d), outputs, packet, v) == Some(i) <==> Owns(l, d, outputs, packet, v, i)
  {
    hide ScanFrom, HasKey;
    if packet.issuance.Some? && packet.first.Some? && v.ref.Some? {
      ScanExactly(l, d, outputs, v, packet.issuance.value, packet.first.value, 0, i);
    }
  }

  /** A virtual output with its packet. */
  datatype Item = Item(packet: OutputPacket, v: VirtualOutput)

  function ItemRow(packet: OutputPacket): (s: seq<Item>)
    ensures |s| == |packet.outputs|
  {
    seq(|packet.outputs|, i requires 0 <= i < |packet.outputs| => Item(packet, packet.outputs[i]))
  }

  function ItemRows(packets: seq<OutputPacket>): (s: seq<seq<Item>>)
    ensures |s| == |packets|
  {
    seq(|packets|, p requires 0 <= p < |packets| => ItemRow(packets[p]))
  }

  function AssignPlace(d: Derive, outputs: seq<LogicalOutput>, place: Place<Item>): (r: Option<nat>)
    ensures r.Some? ==> r.value < |outputs|
  {
    Assign(d, outputs, place.content.packet, place.content.v)
  }

  /** The sum of the virtual outputs assigned to logical output `i`. */
  function MappedTo(d: Derive, outputs: seq<LogicalOutput>, places: seq<Place<Item>>, i: nat): nat {
    if places == [] then 0 else
    var last := places[|places| - 1];
    MappedTo(d, outputs, places[..|places| - 1], i) +
    if AssignPlace(d, outputs, last) == Some(i) then last.content.v.amount else 0
  }

  /** What the packet check demands even of packets without outputs. */
  predicate PacketOk(packet: OutputPacket) {
    packet.issuance.Some? && packet.first.Some?
  }

  /** What `mapCustomAnchorOutputs` accepts. */
  ghost predicate OutputsMatch(d: Derive, outputs: seq<LogicalOutput>, packets: seq<OutputPacket>,
                               places: seq<Place<Item>>) {
    && (forall p | 0 <= p < |packets| :: PacketOk(packets[p]))
    && (forall k | 0 <= k < |places| :: AssignPlace(d, outputs, places[k]).Some?)
    && (forall i | 0 <= i < |outputs| :: MappedTo(d, outputs, places, i) == outputs[i].amount)
  }

  datatype Planned = Planned(requestIndex: nat, packetIndex: nat, virtualIndex: nat, anchorIndex: nat, amount: uint64)

  predicate PlansFor(d: Derive, outputs: seq<LogicalOutput>, place: Place<Item>, planned: Planned) {
    && AssignPlace(d, outputs, place) == Some(planned.requestIndex)
    && planned.packetIndex == place.packet % 0x1_0000_0000 && planned.virtualIndex == place.index % 0x1_0000_0000
    && planned.anchorIndex == place.content.v.anchorIndex && planned.amount == place.content.v.amount
  }

  method FindLogical(d: Derive, outputs: seq<LogicalOutput>, v: VirtualOutput, issuance: seq<int>,
                     first: PrevId) returns (r: Scan)
    requires v.ref.Some?
    ensures r == ScanFrom(d, outputs, v, issuance, first, 0)
  {
    hide Candidate, ExpectedKey;
    var idx := 0;
    while idx < |outputs|
      invariant idx <= |outputs|
      invariant ScanFrom(d, outputs, v, issuance, first, 0) == ScanFrom(d, outputs, v, issuance, first, idx)
    {
      if Candidate(d, outputs[idx], v, issuance) {
        var key := ExpectedKey(d, outputs[idx], issuance, first);
        if key.None? {
          return Broken;
        }
        if key.value == v.scriptKey {
          return Found(idx);
        }
      }
      idx := idx + 1;
    }
    r := Missing;
  }

  /** The matched logical output of one virtual output, with its OP_TRUE check. */
  method AssignOne(d: Derive, outputs: seq<LogicalOutput>, packet: OutputPacket, v: VirtualOutput)
    returns (r: Option<nat>)
    ensures r == Assign(d, outputs, packet, v)
  {
    hide ScanFrom;
    if packet.issuance.None? || packet.first.None? || v.ref.None? {
      return None;
    }
    var found := FindLogical(d, outputs, v, packet.issuance.value, packet.first.value);
    if !found.Found? || !d.keyOk(v.scriptKey) {
      return None;
    }
    if outputs[found.i].opTrue && !d.opTrueOk(outputs[found.i], packet.issuance.value, v.scriptKey) {
      return None;
    }
    r := Some(found.i);
  }

  /** The running sums: absent entries are zero. */
  function SumAt(amounts: map<nat, uint64>, i: nat): uint64 {
    if i in amounts then amounts[i] else 0
  }

  /** The state of the loop once the places in `done` were handled. */
  ghost predicate OutputsMapped(d: Derive, outputs: seq<LogicalOutput>, done: seq<Place<Item>>,
                                amounts: map<nat, uint64>, result: seq<Planned>) {
    && |result| == |done|
    && (forall k | 0 <= k < |done| :: PlansFor(d, outputs, done[k], result[k]))
    && (forall i: nat :: SumAt(amounts, i) == MappedTo(d, outputs, done, i))
  }

  lemma {:induction false} MappedPrefix(d: Derive, outputs: seq<LogicalOutput>, places: seq<Place<Item>>,
                                        n: nat, i: nat)
    requires n <= |places|
    ensures MappedTo(d, outputs, places[..n], i) <= MappedTo(d, outputs, places, i)
    decreases |places|
  {
    if n == |places| {
      assert places[..n] == places;
    } else {
      assert places[..|places| - 1][..n] == places[..n];
      MappedPrefix(d, outputs, places[..|places| - 1], n, i);
    }
  }

  /** One virtual output: the assignment and the checked sum. */
  method MapOutput(d: Derive, outputs: seq<LogicalOutput>, packets: seq<OutputPacket>,
                   ghost places: seq<Place<Item>>, ghost n: nat, amounts: map<nat, uint64>, result: seq<Planned>,
                   p: nat, k: nat) returns (ok: bool, amounts': map<nat, uint64>, result': seq<Planned>)
    requires p < |packets| && k < |packets[p].outputs|
    requires n < |places| && places[n] == Place(p, k, Item(packets[p], packets[p].outputs[k]))
    requires OutputsMapped(d, outputs, places[..n], amounts, result)
    ensures ok ==> OutputsMapped(d, outputs, places[..n + 1], amounts', result')
    ensures !ok ==> !OutputsMatch(d, outputs, packets, places)
  {
    hide Assign, OutputsMatch;
    amounts', result' := amounts, result;
    var v := packets[p].outputs[k];
    ghost var next := places[..n + 1];
    assert next[..n] == places[..n] && next[n] == places[n];
    var owner := AssignOne(d, outputs, packets[p], v);
    if owner.None? {
      Unassigned(d, outputs, packets, places, n);
      return false, amounts', result';
    }
    var i := owner.value;
    assert MappedTo(d, outputs, next, i) == SumAt(amounts, i) + v.amount;
    var sum := CheckedAdd(SumAt(amounts, i), v.amount);
    if sum.None? {
      MappedPrefix(d, outputs, places, n + 1, i);
      TooMuch(d, outputs, packets, places, i);
      return false, amounts', result';
    }
    amounts' := amounts[i := sum.value];
    result' := result + [Planned(i, p % 0x1_0000_0000, k % 0x1_0000_0000, v.anchorIndex, v.amount)];
    forall j: nat
      ensures SumAt(amounts', j) == MappedTo(d, outputs, next, j)
    {
      assert SumAt(amounts, j) == MappedTo(d, outputs, places[..n], j);
    }
    ok := true;
  }

  lemma Unassigned(d: Derive, outputs: seq<LogicalOutput>, packets: seq<OutputPacket>,
                   places: seq<Place<Item>>, n: nat)
    requires n < |places| && AssignPlace(d, outputs, places[n]).None?
    ensures !OutputsMatch(d, outputs, packets, places)
  {
  }

  lemma TooMuch(d: Derive, outputs: seq<LogicalOutput>, packets: seq<OutputPacket>,
                places: seq<Place<Item>>, i: nat)
    requires i < |outputs| && MappedTo(d, outputs, places, i) > MAX_UINT64
    ensures !OutputsMatch(d, outputs, packets, places)
  {
  }

  /** `mapCustomAnchorOutputs`: one planned output per virtual output, in order,
      and for every logical output exactly the requested amount. */
  method MapOutputs(d: Derive, outputs: seq<LogicalOutput>, packets: seq<OutputPacket>)
    returns (r: Option<seq<Planned>>)
    ensures r.Some? <==> OutputsMatch(d, outputs, packets, Places(ItemRows(packets)))
    ensures r.Some? ==> |r.value| == |Places(ItemRows(packets))|
    ensures r.Some? ==> forall k | 0 <= k < |r.value| ::
              PlansFor(d, outputs, Places(ItemRows(packets))[k], r.value[k])
  {
    hide Places, OutputsMapped, MappedTo, PlansFor, AssignPlace;
    ghost var rows := ItemRows(packets);
    ghost var places := Places(rows);
    var amounts: map<nat, uint64> := map[];
    var result: seq<Planned> := [];
    assert OutputsMapped(d, outputs, places[..0], amounts, result) by {
      NoOutputsMapped(d, outputs, places[..0], amounts, result);
    }
    assert rows[..0] == [] && |Places<Item>([])| == 0 by { NoPlaces<Item>(); }
    for p := 0 to |packets|
      invariant |Places(rows[..p])| <= |places|
      invariant OutputsMapped(d, outputs, places[..|Places(rows[..p])|], amounts, result)
      invariant forall q | 0 <= q < p :: PacketOk(packets[q])
    {
      if !PacketOk(packets[p]) {
        return None;
      }
      ghost var start := |Places(rows[..p])|;
      PlaceAt(rows, p, 0);
      for k := 0 to |packets[p].outputs|
        invariant OutputsMapped(d, outputs, places[..start + k], amounts, result)
      {
        PlaceAt(rows, p, k);
        var ok;
        ok, amounts, result := MapOutput(d, outputs, packets, places, start + k, amounts, result, p, k);
        if !ok {
          return None;
        }
      }
    }
    assert rows[..|packets|] == rows && places[..|places|] == places;
    MappedFacts(d, outputs, places, amounts, result);
    for i := 0 to |outputs|
      invariant forall j | 0 <= j < i :: MappedTo(d, outputs, places, j) == outputs[j].amount
    {
      if SumAt(amounts, i) != outputs[i].amount {
        return None;
      }
    }
    r := Some(result);
  }

  lemma NoOutputsMapped(d: Derive, outputs: seq<LogicalOutput>, done: seq<Place<Item>>,
                        amounts: map<nat, uint64>, result: seq<Planned>)
    requires done == [] && amounts == map[] && result == []
    ensures OutputsMapped(d, outputs, done, amounts, result)
  {
  }

  lemma MappedFacts(d: Derive, outputs: seq<LogicalOutput>, places: seq<Place<Item>>,
                    amounts: map<nat, uint64>, result: seq<Planned>)
    requires OutputsMapped(d, outputs, places, amounts, result)
    ensures forall i: nat :: SumAt(amounts, i) == MappedTo(d, outputs, places, i)
    ensures |result| == |places| && forall k | 0 <= k < |places| ::
              PlansFor(d, outputs, places[k], result[k]) && AssignPlace(d, outputs, places[k]).Some?
  {
    hide MappedTo, Assign;
  }

  // ----------------------------------------------- exactly what the mapping accepts

  /** The owners' assignment of the first virtual outputs. */
  ghost predicate OwnedBy(l: Library, d: Derive, outputs: seq<LogicalOutput>, places: seq<Place<Item>>,
                          owners: seq<nat>)
  {
    && |owners| == |places|
    && forall k | 0 <= k < |places| :: Owns(l, d, outputs, places[k].content.packet, places[k].content.v, owners[k])
  }

  /** What output `i` owns. */
  function OwnedSum(places: seq<Place<Item>>, owners: seq<nat>, i: nat): nat
    requires |owners| == |places|
  {
    if places == [] then 0 else
    (if owners[0] == i then places[0].content.v.amount else 0) + OwnedSum(places[1..], owners[1..], i)
  }

  lemma {:induction false} OwnedSumAppend(places: seq<Place<Item>>, owners: seq<nat>, i: nat)
    requires |owners| == |places| && places != []
    ensures var n := |places| - 1;
            OwnedSum(places, owners, i) == OwnedSum(places[..n], owners[..n], i) +
              if owners[n] == i then places[n].content.v.amount else 0
    decreases |places|
  {
    var n := |places| - 1;
    if n > 0 {
      assert places[1..][..n - 1] == places[..n][1..] && owners[1..][..n - 1] == owners[..n][1..];
      OwnedSumAppend(places[1..], owners[1..], i);
    }
  }

  lemma {:induction false} MappedIsOwned(l: Library, d: Derive, outputs: seq<LogicalOutput>, places: seq<Place<Item>>,
                                         owners: seq<nat>, i: nat)
    requires OwnedBy(l, d, outputs, places, owners)
    ensures MappedTo(WithRefs(l, d), outputs, places, i) == OwnedSum(places, owners, i)
    decreases |places|
  {
    hide Assign, Owns, WithRefs;
    if places != [] {
      var n := |places| - 1;
      MappedIsOwned(l, d, outputs, places[..n], owners[..n], i);
      OwnedSumAppend(places, owners, i);
      AssignsExactly(l, d, outputs, places[n].content.packet, places[n].content.v, owners[n]);
    }
  }

  /** The mapping accepts exactly the plans in which every virtual output belongs
      to an output of the request and every output owns what was asked for. */
  lemma MapsExactly(l: Library, d: Derive, outputs: seq<LogicalOutput>, packets: seq<OutputPacket>,
                    places: seq<Place<Item>>)
    ensures OutputsMatch(WithRefs(l, d), outputs, packets, places) <==>
            && (forall p | 0 <= p < |packets| :: packets[p].issuance.Some? && packets[p].first.Some?)
            && exists owners :: OwnedBy(l, d, outputs, places, owners) && AllPaid(outputs, places, owners)
  {
    hide Assign, Owns, MappedTo, WithRefs;
    if forall k | 0 <= k < |places| :: AssignPlace(WithRefs(l, d), outputs, places[k]).Some? {
      var owners := seq(|places|, k requires 0 <= k < |places| =>
        AssignPlace(WithRefs(l, d), outputs, places[k]).value);
      forall k | 0 <= k < |places|
        ensures Owns(l, d, outputs, places[k].content.packet, places[k].content.v, owners[k])
      {
        AssignsExactly(l, d, outputs, places[k].content.packet, places[k].content.v, owners[k]);
      }
      PaidExactly(l, d, outputs, places, owners);
    }
    forall owners | OwnedBy(l, d, outputs, places, owners)
      ensures forall k | 0 <= k < |places| :: AssignPlace(WithRefs(l, d), outputs, places[k]).Some?
      ensures AllPaid(outputs, places, owners) <==>
              forall i | 0 <= i < |outputs| :: MappedTo(WithRefs(l, d), outputs, places, i) == outputs[i].amount
    {
      forall k | 0 <= k < |places|
        ensures AssignPlace(WithRefs(l, d), outputs, places[k]).Some?
      {
        AssignsExactly(l, d, outputs, places[k].content.packet, places[k].content.v, owners[k]);
      }
      PaidExactly(l, d, outputs, places, owners);
    }
  }

  predicate AllPaid(outputs: seq<LogicalOutput>, places: seq<Place<Item>>, owners: seq<nat>) {
    && |owners| == |places|
    && forall i | 0 <= i < |outputs| :: OwnedSum(places, owners, i) == outputs[i].amount
  }

  lemma PaidExactly(l: Library, d: Derive, outputs: seq<LogicalOutput>, places: seq<Place<Item>>, owners: seq<nat>)
    requires OwnedBy(l, d, outputs, places, owners)
    ensures AllPaid(outputs, places, owners) <==>
            forall i | 0 <= i < |outputs| :: MappedTo(WithRefs(l, d), outputs, places, i) == outputs[i].amount
  {
    hide MappedTo, WithRefs, OwnedSum;
    forall i: nat
      ensures MappedTo(WithRefs(l, d), outputs, places, i) == OwnedSum(places, owners, i)
    {
      MappedIsOwned(l, d, outputs, places, owners, i);
    }
  }

  // ------------------------------------------------------------ conservation

  function VirtualSum(places: seq<Place<Item>>): nat {
    if places == [] then 0
    else VirtualSum(places[..|places| - 1]) + places[|places| - 1].content.v.amount
  }

  function MappedSum(d: Derive, outputs: seq<LogicalOutput>, places: seq<Place<Item>>, n: nat): nat {
    if n == 0 then 0 else MappedSum(d, outputs, places, n - 1) + MappedTo(d, outputs, places, n - 1)
  }

  function RequestedSum(outputs: seq<LogicalOutput>, n: nat): nat
    requires n <= |outputs|
  {
    if n == 0 then 0 else RequestedSum(outputs, n - 1) + outputs[n - 1].amount
  }

  lemma {:induction false} OneMoreMapped(d: Derive, outputs: seq<LogicalOutput>, places: seq<Place<Item>>,
                                         n: nat)
    requires places != []
    ensures var last := places[|places| - 1];
            MappedSum(d, outputs, places, n) == MappedSum(d, outputs, places[..|places| - 1], n) +
              match AssignPlace(d, outputs, last)
              case None => 0
              case Some(i) => if i < n then last.content.v.amount else 0
    decreases n
  {
    hide Assign;
    if n > 0 {
      OneMoreMapped(d, outputs, places, n - 1);
    }
  }

  lemma {:induction false} NothingSummed(d: Derive, outputs: seq<LogicalOutput>, n: nat)
    ensures MappedSum(d, outputs, [], n) == 0
    decreases n
  {
    if n > 0 {
      NothingSummed(d, outputs, n - 1);
    }
  }

  lemma {:induction false} EveryUnitIsMapped(d: Derive, outputs: seq<LogicalOutput>,
                                             places: seq<Place<Item>>)
    requires forall k | 0 <= k < |places| :: AssignPlace(d, outputs, places[k]).Some?
    ensures MappedSum(d, outputs, places, |outputs|) == VirtualSum(places)
    decreases |places|
  {
    hide Assign, MappedSum;
    if places == [] {
      NothingSummed(d, outputs, |outputs|);
    } else {
      var init := places[..|places| - 1];
      assert forall k | 0 <= k < |init| :: init[k] == places[k];
      EveryUnitIsMapped(d, outputs, init);
      OneMoreMapped(d, outputs, places, |outputs|);
    }
  }

  lemma {:induction false} SumsAgree(d: Derive, outputs: seq<LogicalOutput>, places: seq<Place<Item>>,
                                     n: nat)
    requires n <= |outputs|
    requires forall i | 0 <= i < |outputs| :: MappedTo(d, outputs, places, i) == outputs[i].amount
    ensures MappedSum(d, outputs, places, n) == RequestedSum(outputs, n)
    decreases n
  {
    hide MappedTo;
    if n > 0 {
      SumsAgree(d, outputs, places, n - 1);
    }
  }

  /** An accepted mapping neither loses nor adds a unit: the virtual outputs
      together hold exactly what the logical outputs together ask for. */
  lemma MappingConserves(d: Derive, outputs: seq<LogicalOutput>, packets: seq<OutputPacket>)
    requires OutputsMatch(d, outputs, packets, Places(ItemRows(packets)))
    ensures VirtualSum(Places(ItemRows(packets))) == RequestedSum(outputs, |outputs|)
  {
    hide MappedTo, Places, AssignPlace;
    EveryUnitIsMapped(d, outputs, Places(ItemRows(packets)));
    SumsAgree(d, outputs, Places(ItemRows(packets)), |outputs|);
  }
}
