/** The mappings of a package between its summaries and the virtual packets it
    commits to (custom_anchor_package.go). */
module PackageMappings {
  import opened Wrappers
  import opened Bytes
  import opened Integers
  import opened Collections
  import opened AssetRefs

  const ACTIVE: byte := 1
  const PASSIVE: byte := 2

  /** The position of a virtual input or output. */
  datatype Slot = Slot(role: byte, packet: nat, index: nat)

  // ----------------------------------------------------------- every slot, in order

  function Row(role: byte, packet: nat, n: nat): (s: seq<Slot>)
    ensures |s| == n && forall i | 0 <= i < n :: s[i] == Slot(role, packet, i)
  {
    seq(n, i requires 0 <= i < n => Slot(role, packet, i))
  }

  /** The slots of packets with these counts. */
  function Slots(role: byte, counts: seq<nat>): seq<Slot> {
    if counts == [] then [] else
    var last := |counts| - 1;
    Slots(role, counts[..last]) + Row(role, last, counts[last])
  }

  predicate InRange(s: Slot, role: byte, counts: seq<nat>) {
    s.role == role && s.packet < |counts| && s.index < counts[s.packet]
  }

  lemma {:induction false} SlotsAreAll(role: byte, counts: seq<nat>)
    ensures forall s :: s in Slots(role, counts) <==> InRange(s, role, counts)
    ensures Distinct(Slots(role, counts))
    decreases |counts|
  {
    if counts != [] {
      var last := |counts| - 1;
      var before, row := Slots(role, counts[..last]), Row(role, last, counts[last]);
      SlotsAreAll(role, counts[..last]);
      forall s
        ensures s in before + row <==> InRange(s, role, counts)
      {
        assert s in row ==> s == Slot(role, last, s.index);
        assert s.index < counts[last] ==> row[s.index] == Slot(role, last, s.index);
      }
      forall i, j | 0 <= i < j < |before + row|
        ensures (before + row)[i] != (before + row)[j]
      {
        assert i < |before| ==> (before + row)[i] in before;
      }
    }
  }

  // ----------------------------------------------------------------- the mapping key

  /** `customAnchorMappingKey`; both indices are cut to 32 bits. */
  function Key(s: Slot): (k: seq<byte>)
    ensures |k| == 9
  {
    [s.role] + BigEndian(s.packet, 4) + BigEndian(s.index, 4)
  }

  predicate Narrow(s: Slot) {
    s.packet < 0x1_0000_0000 && s.index < 0x1_0000_0000
  }

  lemma KeyInjective(s: Slot, t: Slot)
    requires Narrow(s) && Narrow(t) && Key(s) == Key(t)
    ensures s == t
  {
    var k, k' := Key(s), Key(t);
    assert k[0] == s.role && k'[0] == t.role;
    assert k[1..5] == BigEndian(s.packet, 4) && k'[1..5] == BigEndian(t.packet, 4);
    assert k[5..] == BigEndian(s.index, 4) && k'[5..] == BigEndian(t.index, 4);
    Pow256Values();
    BigEndianInverse(s.packet, 4);
    BigEndianInverse(t.packet, 4);
    BigEndianInverse(s.index, 4);
    BigEndianInverse(t.index, 4);
  }

  function Keys(slots: seq<Slot>): (r: seq<seq<byte>>)
    ensures |r| == |slots|
  {
    seq(|slots|, i requires 0 <= i < |slots| => Key(slots[i]))
  }

  predicate AllNarrow(slots: seq<Slot>) {
    forall s | s in slots :: Narrow(s)
  }

  /** On 32-bit slots, key arithmetic is slot arithmetic. */
  lemma KeysAreSlots(slots: seq<Slot>)
    requires AllNarrow(slots)
    ensures Distinct(Keys(slots)) <==> Distinct(slots)
  {
    hide Key;
    forall i, j | 0 <= i < j < |slots|
      ensures Keys(slots)[i] == Keys(slots)[j] <==> slots[i] == slots[j]
    {
      assert slots[i] in slots && slots[j] in slots;
      if Key(slots[i]) == Key(slots[j]) {
        KeyInjective(slots[i], slots[j]);
      }
    }
  }

  lemma KeyMember(slots: seq<Slot>, s: Slot)
    requires AllNarrow(slots) && Narrow(s)
    ensures Key(s) in Keys(slots) <==> s in slots
  {
    hide Key;
    if Key(s) in Keys(slots) {
      var i :| 0 <= i < |slots| && Keys(slots)[i] == Key(s);
      assert slots[i] in slots;
      KeyInjective(slots[i], s);
    }
    if s in slots {
      var i :| 0 <= i < |slots| && slots[i] == s;
      assert Keys(slots)[i] == Key(s);
    }
  }

  // ------------------------------------------------------------------- the summaries

  /** What a summary of a virtual output and its proof update both state. */
  datatype Details = Details(
    logicalId: string, logicalIndex: uint32, assetRef: string, issuance: seq<byte>,
    scriptKey: seq<byte>, anchorTxid: seq<byte>, anchorVout: uint32,
    recipient: seq<byte>, courier: seq<byte>, metadata: seq<byte>)

  /** An input summary, an output summary or a proof update; `rest` is what
      only its own kind has. */
  datatype Summary = Summary(
    role: byte, packetIndex: uint32, virtualIndex: uint32, anchorIndex: uint32, details: Details, rest: seq<byte>)
  {
    function Position(): Slot {
      Slot(role, packetIndex, virtualIndex)
    }
  }

  function Positions(rows: seq<Summary>): (r: seq<Slot>)
    ensures |r| == |rows|
    ensures AllNarrow(r)
  {
    seq(|rows|, i requires 0 <= i < |rows| => rows[i].Position())
  }

  datatype VPacket = VPacket(inputs: seq<seq<byte>>, outputs: seq<seq<byte>>)

  /** The checks on one entry that involve the native asset library. */
  datatype Checks = Checks(
    inputFields: Summary -> bool,
    outputFields: Summary -> bool,
    updateFields: Summary -> bool,
    inputMatches: (seq<byte>, Summary) -> bool,
    outputMatches: (VPacket, nat, Summary) -> bool,
    updateMatches: (VPacket, nat, Summary) -> bool)

  /** `customAnchorPacketCount`. */
  function PacketCount(role: byte, active: nat, passive: nat): Option<nat> {
    if role == ACTIVE then Some(active) else if role == PASSIVE then Some(passive) else None
  }

  /** What the structural loop asks of one entry. It does not look at the
      virtual index. */
  predicate EntryOk(fieldsOk: Summary -> bool, s: Summary, active: nat, passive: nat, anchors: nat) {
    && fieldsOk(s)
    && PacketCount(s.role, active, passive).Some?
    && s.packetIndex < PacketCount(s.role, active, passive).value % 0x1_0000_0000
    && s.anchorIndex < anchors % 0x1_0000_0000
  }

  predicate EntriesOk(fieldsOk: Summary -> bool, rows: seq<Summary>, active: nat, passive: nat, anchors: nat) {
    && (forall i | 0 <= i < |rows| :: EntryOk(fieldsOk, rows[i], active, passive, anchors))
    && Distinct(Keys(Positions(rows)))
  }

  /** One of the three loops over the summaries, with its duplicate check. */
  method CheckEntries(fieldsOk: Summary -> bool, rows: seq<Summary>, active: nat, passive: nat, anchors: nat)
    returns (ok: bool, mappings: set<seq<byte>>)
    ensures ok <==> EntriesOk(fieldsOk, rows, active, passive, anchors)
    ensures ok ==> mappings == SetOf(Keys(Positions(rows)))
  {
    hide Key, EntryOk;
    ghost var keys := Keys(Positions(rows));
    mappings := {};
    for i := 0 to |rows|
      invariant forall j | 0 <= j < i :: EntryOk(fieldsOk, rows[j], active, passive, anchors)
      invariant Distinct(keys[..i]) && mappings == SetOf(keys[..i])
    {
      TakeOneMore(keys, i);
      DistinctAppend(keys[..i], keys[i]);
      DistinctPrefix(keys, i + 1);
      if !EntryOk(fieldsOk, rows[i], active, passive, anchors) {
        return false, mappings;
      }
      var key := Key(rows[i].Position());
      if key in mappings {
        return false, mappings;
      }
      mappings := mappings + {key};
    }
    assert keys[..|rows|] == keys;
    ok := true;
  }

  // -------------------------------------------------------------- the virtual packets

  function InputCounts(packets: seq<VPacket>): (c: seq<nat>)
    ensures |c| == |packets|
  {
    seq(|packets|, i requires 0 <= i < |packets| => |packets[i].inputs|)
  }

  function OutputCounts(packets: seq<VPacket>): (c: seq<nat>)
    ensures |c| == |packets|
  {
    seq(|packets|, i requires 0 <= i < |packets| => |packets[i].outputs|)
  }

  function InputSlots(active: seq<VPacket>, passive: seq<VPacket>): seq<Slot> {
    Slots(ACTIVE, InputCounts(active)) + Slots(PASSIVE, InputCounts(passive))
  }

  function OutputSlots(active: seq<VPacket>, passive: seq<VPacket>): seq<Slot> {
    Slots(ACTIVE, OutputCounts(active)) + Slots(PASSIVE, OutputCounts(passive))
  }

  /** The update repeats what its output summary says. */
  predicate Agree(l: Library, output: Summary, update: Summary) {
    && output.anchorIndex == update.anchorIndex
    && Equivalent(l, update.details.assetRef, output.details.assetRef)
    && update.details.(assetRef := "") == output.details.(assetRef := "")
  }

  /** The table holds exactly these entries. */
  ghost predicate Holds(m: map<seq<byte>, Summary>, rows: seq<Summary>) {
    && m.Keys == SetOf(Keys(Positions(rows)))
    && forall i | 0 <= i < |rows| :: HasEntry(m, rows[i])
  }

  predicate HasEntry(m: map<seq<byte>, Summary>, row: Summary) {
    Key(row.Position()) in m && m[Key(row.Position())] == row
  }

  /** The lookup tables, the last entry winning as in a Go map. */
  method ByMapping(rows: seq<Summary>) returns (m: map<seq<byte>, Summary>)
    requires Distinct(Keys(Positions(rows)))
    ensures Holds(m, rows)
  {
    hide Key;
    ghost var keys := Keys(Positions(rows));
    m := map[];
    for i := 0 to |rows|
      invariant m.Keys == SetOf(keys[..i])
      invariant forall j | 0 <= j < i :: HasEntry(m, rows[j])
    {
      TakeOneMore(keys, i);
      ghost var before := m;
      m := m[Key(rows[i].Position()) := rows[i]];
      forall j | 0 <= j < i
        ensures HasEntry(m, rows[j])
      {
        assert HasEntry(before, rows[j]) && keys[j] != keys[i];
      }
    }
    assert keys[..|rows|] == keys;
  }

  predicate InputFits(c: Checks, m: map<seq<byte>, Summary>, s: Slot, input: seq<byte>) {
    Key(s) in m && c.inputMatches(input, m[Key(s)])
  }

  predicate OutputFits(l: Library, c: Checks, outputs: map<seq<byte>, Summary>, updates: map<seq<byte>, Summary>,
                       s: Slot, packet: VPacket) {
    && Key(s) in outputs && Key(s) in updates
    && c.outputMatches(packet, s.index, outputs[Key(s)])
    && Agree(l, outputs[Key(s)], updates[Key(s)])
    && c.updateMatches(packet, s.index, updates[Key(s)])
  }

  ghost predicate PacketFits(l: Library, c: Checks, inputs: map<seq<byte>, Summary>,
                             outputs: map<seq<byte>, Summary>, updates: map<seq<byte>, Summary>,
                             role: byte, p: nat, packet: VPacket) {
    && (forall i | 0 <= i < |packet.inputs| :: InputFits(c, inputs, Slot(role, p, i), packet.inputs[i]))
    && (forall i | 0 <= i < |packet.outputs| :: OutputFits(l, c, outputs, updates, Slot(role, p, i), packet))
  }

  /** The two inner loops, for one packet. */
  method CheckPacket(l: Library, c: Checks, inputs: map<seq<byte>, Summary>, outputs: map<seq<byte>, Summary>,
                     updates: map<seq<byte>, Summary>, role: byte, p: nat, packet: VPacket) returns (ok: bool)
    ensures ok <==> PacketFits(l, c, inputs, outputs, updates, role, p, packet)
  {
    hide InputFits, OutputFits;
    for i := 0 to |packet.inputs|
      invariant forall j | 0 <= j < i :: InputFits(c, inputs, Slot(role, p, j), packet.inputs[j])
    {
      if !InputFits(c, inputs, Slot(role, p, i), packet.inputs[i]) {
        return false;
      }
    }
    for i := 0 to |packet.outputs|
      invariant forall j | 0 <= j < i :: OutputFits(l, c, outputs, updates, Slot(role, p, j), packet)
    {
      if !OutputFits(l, c, outputs, updates, Slot(role, p, i), packet) {
        return false;
      }
    }
    ok := true;
  }

  /** The outer loop, for one collection, with its counters. */
  method CheckPackets(l: Library, c: Checks, inputs: map<seq<byte>, Summary>, outputs: map<seq<byte>, Summary>,
                      updates: map<seq<byte>, Summary>, role: byte, packets: seq<VPacket>)
    returns (ok: bool, actualInputs: nat, actualOutputs: nat)
    ensures ok <==> forall p | 0 <= p < |packets| :: PacketFits(l, c, inputs, outputs, updates, role, p, packets[p])
    ensures ok ==> actualInputs == |Slots(role, InputCounts(packets))|
    ensures ok ==> actualOutputs == |Slots(role, OutputCounts(packets))|
  {
    hide PacketFits;
    ghost var ins, outs := InputCounts(packets), OutputCounts(packets);
    actualInputs, actualOutputs := 0, 0;
    for p := 0 to |packets|
      invariant forall q | 0 <= q < p :: PacketFits(l, c, inputs, outputs, updates, role, q, packets[q])
      invariant actualInputs == |Slots(role, ins[..p])| && actualOutputs == |Slots(role, outs[..p])|
    {
      assert ins[..p + 1][..p] == ins[..p] && outs[..p + 1][..p] == outs[..p];
      var fits := CheckPacket(l, c, inputs, outputs, updates, role, p, packets[p]);
      if !fits {
        return false, actualInputs, actualOutputs;
      }
      actualInputs, actualOutputs := actualInputs + |packets[p].inputs|, actualOutputs + |packets[p].outputs|;
    }
    assert ins[..|packets|] == ins && outs[..|packets|] == outs;
    ok := true;
  }

  // ------------------------------------------------------------------ exact coverage

  /** The entries and the slots correspond one to one. */
  ghost predicate Bijection(rows: seq<Summary>, slots: seq<Slot>) {
    Distinct(Positions(rows)) && SetOf(Positions(rows)) == SetOf(slots)
  }

  ghost predicate Covers(rows: seq<Summary>, slots: seq<Slot>) {
    forall s | s in slots :: Key(s) in Keys(Positions(rows))
  }

  /** Counting: distinct keys, every slot's key among them and equal numbers
      leave room for nothing else. */
  lemma BijectionByCount(rows: seq<Summary>, slots: seq<Slot>)
    requires AllNarrow(slots) && Distinct(slots) && Distinct(Keys(Positions(rows)))
    ensures Covers(rows, slots) && |slots| == |rows| <==> Bijection(rows, slots)
  {
    hide Key, Keys, Distinct;
    var positions := Positions(rows);
    KeysAreSlots(positions);
    DistinctSize(positions);
    DistinctSize(slots);
    forall s | s in slots
      ensures Key(s) in Keys(positions) <==> s in positions
    {
      KeyMember(positions, s);
    }
    if Covers(rows, slots) && |slots| == |rows| {
      assert SetOf(slots) <= SetOf(positions);
      SubsetSizes(SetOf(slots), SetOf(positions));
    }
    if Bijection(rows, slots) {
      assert |slots| == |rows|;
      assert forall s | s in slots :: s in SetOf(positions);
    }
  }

  predicate Addressable(packets: seq<VPacket>) {
    |packets| <= 0x1_0000_0000 &&
    forall p | 0 <= p < |packets| :: |packets[p].inputs| <= 0x1_0000_0000 && |packets[p].outputs| <= 0x1_0000_0000
  }

  lemma AllSlots(active: seq<VPacket>, passive: seq<VPacket>)
    ensures forall s :: s in InputSlots(active, passive) <==>
                        InRange(s, ACTIVE, InputCounts(active)) || InRange(s, PASSIVE, InputCounts(passive))
    ensures forall s :: s in OutputSlots(active, passive) <==>
                        InRange(s, ACTIVE, OutputCounts(active)) || InRange(s, PASSIVE, OutputCounts(passive))
    ensures Distinct(InputSlots(active, passive)) && Distinct(OutputSlots(active, passive))
    ensures Addressable(active) && Addressable(passive) ==>
              AllNarrow(InputSlots(active, passive)) && AllNarrow(OutputSlots(active, passive))
  {
    TwoCollections(InputCounts(active), InputCounts(passive));
    TwoCollections(OutputCounts(active), OutputCounts(passive));
    hide Slots;
  }

  lemma TwoCollections(a: seq<nat>, b: seq<nat>)
    ensures forall s :: s in Slots(ACTIVE, a) + Slots(PASSIVE, b) <==> InRange(s, ACTIVE, a) || InRange(s, PASSIVE, b)
    ensures Distinct(Slots(ACTIVE, a) + Slots(PASSIVE, b))
  {
    SlotsAreAll(ACTIVE, a);
    SlotsAreAll(PASSIVE, b);
    hide Slots;
    var left, right := Slots(ACTIVE, a), Slots(PASSIVE, b);
    forall i, j | 0 <= i < j < |left + right|
      ensures (left + right)[i] != (left + right)[j]
    {
      assert i < |left| ==> left[i] in left;
      assert j >= |left| ==> right[j - |left|] in right;
    }
  }

  function PacketOf(active: seq<VPacket>, passive: seq<VPacket>, s: Slot): Option<VPacket> {
    var packets := if s.role == ACTIVE then active else passive;
    if s.role != ACTIVE && s.role != PASSIVE then None
    else if s.packet < |packets| then Some(packets[s.packet]) else None
  }

  /** Collections that 32-bit indices can address. */
  type Packets = p: seq<VPacket> | Addressable(p)

  /** The part of a package these checks are about. */
  datatype Mappings = Mappings(
    active: Packets, passive: Packets, inputs: seq<Summary>, outputs: seq<Summary>, updates: seq<Summary>)

  /** The input summary lies on a virtual input and matches it. */
  predicate InputRowOk(c: Checks, active: seq<VPacket>, passive: seq<VPacket>, row: Summary) {
    && PacketOf(active, passive, row.Position()).Some?
    && var packet := PacketOf(active, passive, row.Position()).value;
       row.virtualIndex < |packet.inputs| && c.inputMatches(packet.inputs[row.virtualIndex], row)
  }

  /** An output summary and an update for the same virtual output fit it and
      each other. */
  predicate OutputRowsOk(l: Library, c: Checks, active: seq<VPacket>, passive: seq<VPacket>,
                         output: Summary, update: Summary) {
    && PacketOf(active, passive, output.Position()).Some?
    && var packet := PacketOf(active, passive, output.Position()).value;
       && output.virtualIndex < |packet.outputs|
       && c.outputMatches(packet, output.virtualIndex, output)
       && Agree(l, output, update)
       && c.updateMatches(packet, output.virtualIndex, update)
  }

  ghost predicate AllInputsOk(c: Checks, active: seq<VPacket>, passive: seq<VPacket>, rows: seq<Summary>) {
    forall i | 0 <= i < |rows| :: InputRowOk(c, active, passive, rows[i])
  }

  ghost predicate AllOutputsOk(l: Library, c: Checks, active: seq<VPacket>, passive: seq<VPacket>,
                               outputs: seq<Summary>, updates: seq<Summary>) {
    forall i, j | 0 <= i < |outputs| && 0 <= j < |updates| && outputs[i].Position() == updates[j].Position() ::
      OutputRowsOk(l, c, active, passive, outputs[i], updates[j])
  }

  predicate AllEntriesOk(c: Checks, active: nat, passive: nat, anchorIns: nat, anchorOuts: nat,
                         inputs: seq<Summary>, outputs: seq<Summary>, updates: seq<Summary>) {
    && EntriesOk(c.inputFields, inputs, active, passive, anchorIns)
    && EntriesOk(c.outputFields, outputs, active, passive, anchorOuts)
    && EntriesOk(c.updateFields, updates, active, passive, anchorOuts)
  }

  /** What the counting in `validateStructure` and `validateSemanticMappings`
      amounts to. */
  ghost predicate MappingsOk(l: Library, c: Checks, active: seq<VPacket>, passive: seq<VPacket>,
                             anchorIns: nat, anchorOuts: nat,
                             inputs: seq<Summary>, outputs: seq<Summary>, updates: seq<Summary>) {
    && AllEntriesOk(c, |active|, |passive|, anchorIns, anchorOuts, inputs, outputs, updates)
    && Bijection(inputs, InputSlots(active, passive))
    && Bijection(outputs, OutputSlots(active, passive)) && Bijection(updates, OutputSlots(active, passive))
    && AllInputsOk(c, active, passive, inputs)
    && AllOutputsOk(l, c, active, passive, outputs, updates)
  }

  ghost predicate MappingsHold(l: Library, c: Checks, m: Mappings, anchorIns: nat, anchorOuts: nat) {
    MappingsOk(l, c, m.active, m.passive, anchorIns, anchorOuts, m.inputs, m.outputs, m.updates)
  }

  /** What the packet loops find. */
  ghost predicate PacketsFit(l: Library, c: Checks, ins: map<seq<byte>, Summary>, outs: map<seq<byte>, Summary>,
                             ups: map<seq<byte>, Summary>, active: seq<VPacket>, passive: seq<VPacket>) {
    && (forall p | 0 <= p < |active| :: PacketFits(l, c, ins, outs, ups, ACTIVE, p, active[p]))
    && (forall p | 0 <= p < |passive| :: PacketFits(l, c, ins, outs, ups, PASSIVE, p, passive[p]))
  }

  method ValidateMappings(l: Library, c: Checks, active: seq<VPacket>, passive: seq<VPacket>,
                          anchorIns: nat, anchorOuts: nat,
                          inputs: seq<Summary>, outputs: seq<Summary>, updates: seq<Summary>) returns (ok: bool)
    requires Addressable(active) && Addressable(passive)
    ensures ok <==> MappingsOk(l, c, active, passive, anchorIns, anchorOuts, inputs, outputs, updates)
  {
    hide EntryOk, Keys, Distinct, PacketsFit, Bijection, AllInputsOk, AllOutputsOk, Slots, Addressable;
    var inputsOk, inputMappings := CheckEntries(c.inputFields, inputs, |active|, |passive|, anchorIns);
    if !inputsOk {
      return false;
    }
    var outputsOk, outputMappings := CheckEntries(c.outputFields, outputs, |active|, |passive|, anchorOuts);
    if !outputsOk {
      return false;
    }
    var updatesOk, updateMappings := CheckEntries(c.updateFields, updates, |active|, |passive|, anchorOuts);
    if !updatesOk {
      return false;
    }
    DistinctSize(Keys(Positions(inputs)));
    DistinctSize(Keys(Positions(outputs)));
    DistinctSize(Keys(Positions(updates)));
    ok := ValidateSemantics(l, c, active, passive, inputs, outputs, updates,
                            |inputMappings|, |outputMappings|, |updateMappings|);
  }

  /** `validateSemanticMappings`. */
  method ValidateSemantics(l: Library, c: Checks, active: seq<VPacket>, passive: seq<VPacket>,
                           inputs: seq<Summary>, outputs: seq<Summary>, updates: seq<Summary>,
                           inputMappings: nat, outputMappings: nat, updateMappings: nat) returns (ok: bool)
    requires Addressable(active) && Addressable(passive)
    requires Distinct(Keys(Positions(inputs))) && inputMappings == |inputs|
    requires Distinct(Keys(Positions(outputs))) && outputMappings == |outputs|
    requires Distinct(Keys(Positions(updates))) && updateMappings == |updates|
    ensures ok <==>
            && Bijection(inputs, InputSlots(active, passive))
            && Bijection(outputs, OutputSlots(active, passive)) && Bijection(updates, OutputSlots(active, passive))
            && AllInputsOk(c, active, passive, inputs)
            && AllOutputsOk(l, c, active, passive, outputs, updates)
  {
    hide Keys, Distinct, PacketFits, Bijection, AllInputsOk, AllOutputsOk, Slots, Holds, Addressable;
    var ins := ByMapping(inputs);
    var outs := ByMapping(outputs);
    var ups := ByMapping(updates);
    var fits, activeIns, activeOuts := CheckPackets(l, c, ins, outs, ups, ACTIVE, active);
    if fits {
      var fits', passiveIns, passiveOuts := CheckPackets(l, c, ins, outs, ups, PASSIVE, passive);
      fits := fits';
      activeIns, activeOuts := activeIns + passiveIns, activeOuts + passiveOuts;
    }
    SemanticsExactly(l, c, active, passive, inputs, outputs, updates, ins, outs, ups);
    ok := fits && activeIns == inputMappings && activeIns == |inputs| &&
          activeOuts == outputMappings && activeOuts == |outputs| &&
          activeOuts == updateMappings && activeOuts == |updates|;
  }

  lemma SemanticsExactly(l: Library, c: Checks, active: seq<VPacket>, passive: seq<VPacket>,
                         inputs: seq<Summary>, outputs: seq<Summary>, updates: seq<Summary>,
                         ins: map<seq<byte>, Summary>, outs: map<seq<byte>, Summary>, ups: map<seq<byte>, Summary>)
    requires Addressable(active) && Addressable(passive)
    requires Distinct(Keys(Positions(inputs))) && Holds(ins, inputs)
    requires Distinct(Keys(Positions(outputs))) && Holds(outs, outputs)
    requires Distinct(Keys(Positions(updates))) && Holds(ups, updates)
    ensures PacketsFit(l, c, ins, outs, ups, active, passive) && |InputSlots(active, passive)| == |inputs| &&
            |OutputSlots(active, passive)| == |outputs| == |updates| <==>
            && Bijection(inputs, InputSlots(active, passive))
            && Bijection(outputs, OutputSlots(active, passive)) && Bijection(updates, OutputSlots(active, passive))
            && AllInputsOk(c, active, passive, inputs)
            && AllOutputsOk(l, c, active, passive, outputs, updates)
  {
    hide Keys, Distinct, Bijection, Slots, Holds, PacketsFit, AllInputsOk, AllOutputsOk, InputSlots, OutputSlots, Key;
    hide Covers, Positions;
    AllSlots(active, passive);
    var inSlots, outSlots := InputSlots(active, passive), OutputSlots(active, passive);
    BijectionByCount(inputs, inSlots);
    BijectionByCount(outputs, outSlots);
    BijectionByCount(updates, outSlots);
    if PacketsFit(l, c, ins, outs, ups, active, passive) {
      FitsCover(l, c, active, passive, inputs, outputs, updates, ins, outs, ups);
    }
    if Bijection(inputs, inSlots) && Bijection(outputs, outSlots) && Bijection(updates, outSlots) {
      FitsAreRows(l, c, active, passive, inputs, outputs, updates, ins, outs, ups);
    }
  }

  lemma FitsCover(l: Library, c: Checks, active: seq<VPacket>, passive: seq<VPacket>,
                  inputs: seq<Summary>, outputs: seq<Summary>, updates: seq<Summary>,
                  ins: map<seq<byte>, Summary>, outs: map<seq<byte>, Summary>, ups: map<seq<byte>, Summary>)
    requires Holds(ins, inputs) && Holds(outs, outputs) && Holds(ups, updates)
    requires PacketsFit(l, c, ins, outs, ups, active, passive)
    ensures Covers(inputs, InputSlots(active, passive))
    ensures Covers(outputs, OutputSlots(active, passive)) && Covers(updates, OutputSlots(active, passive))
  {
    hide Keys, Slots, InputSlots, OutputSlots, Key;
    AllSlots(active, passive);
    forall s | s in InputSlots(active, passive)
      ensures Key(s) in Keys(Positions(inputs))
    {
      var packets := if s.role == ACTIVE then active else passive;
      assert PacketFits(l, c, ins, outs, ups, s.role, s.packet, packets[s.packet]);
      assert InputFits(c, ins, Slot(s.role, s.packet, s.index), packets[s.packet].inputs[s.index]);
      assert Key(s) in ins.Keys;
    }
    forall s | s in OutputSlots(active, passive)
      ensures Key(s) in Keys(Positions(outputs)) && Key(s) in Keys(Positions(updates))
    {
      var packets := if s.role == ACTIVE then active else passive;
      assert PacketFits(l, c, ins, outs, ups, s.role, s.packet, packets[s.packet]);
      assert OutputFits(l, c, outs, ups, Slot(s.role, s.packet, s.index), packets[s.packet]);
      assert Key(s) in outs.Keys && Key(s) in ups.Keys;
    }
  }

  lemma FitsAreRows(l: Library, c: Checks, active: seq<VPacket>, passive: seq<VPacket>,
                    inputs: seq<Summary>, outputs: seq<Summary>, updates: seq<Summary>,
                    ins: map<seq<byte>, Summary>, outs: map<seq<byte>, Summary>, ups: map<seq<byte>, Summary>)
    requires Holds(ins, inputs) && Holds(outs, outputs) && Holds(ups, updates)
    requires Bijection(inputs, InputSlots(active, passive))
    requires Bijection(outputs, OutputSlots(active, passive)) && Bijection(updates, OutputSlots(active, passive))
    ensures PacketsFit(l, c, ins, outs, ups, active, passive) <==>
            AllInputsOk(c, active, passive, inputs) && AllOutputsOk(l, c, active, passive, outputs, updates)
  {
    hide Keys, Slots, InputSlots, OutputSlots, Key, Distinct;
    AllSlots(active, passive);
    if PacketsFit(l, c, ins, outs, ups, active, passive) {
      forall i | 0 <= i < |inputs|
        ensures InputRowOk(c, active, passive, inputs[i])
      {
        InputRowFromFit(l, c, active, passive, inputs, ins, outs, ups, i);
      }
      forall i, j | 0 <= i < |outputs| && 0 <= j < |updates| && outputs[i].Position() == updates[j].Position()
        ensures OutputRowsOk(l, c, active, passive, outputs[i], updates[j])
      {
        OutputRowsFromFit(l, c, active, passive, outputs, updates, ins, outs, ups, i, j);
      }
    }
    if AllInputsOk(c, active, passive, inputs) && AllOutputsOk(l, c, active, passive, outputs, updates) {
      forall p | 0 <= p < |active|
        ensures PacketFits(l, c, ins, outs, ups, ACTIVE, p, active[p])
      {
        FitFromRows(l, c, active, passive, inputs, outputs, updates, ins, outs, ups, ACTIVE, p);
      }
      forall p | 0 <= p < |passive|
        ensures PacketFits(l, c, ins, outs, ups, PASSIVE, p, passive[p])
      {
        FitFromRows(l, c, active, passive, inputs, outputs, updates, ins, outs, ups, PASSIVE, p);
      }
    }
  }

  lemma InputRowFromFit(l: Library, c: Checks, active: seq<VPacket>, passive: seq<VPacket>, inputs: seq<Summary>,
                        ins: map<seq<byte>, Summary>, outs: map<seq<byte>, Summary>, ups: map<seq<byte>, Summary>,
                        i: nat)
    requires Holds(ins, inputs) && Bijection(inputs, InputSlots(active, passive)) && i < |inputs|
    requires PacketsFit(l, c, ins, outs, ups, active, passive)
    ensures InputRowOk(c, active, passive, inputs[i])
  {
    hide Keys, Slots, InputSlots, OutputSlots, Key, Distinct;
    AllSlots(active, passive);
    var s := inputs[i].Position();
    assert Positions(inputs)[i] == s && s in SetOf(Positions(inputs));
    var packets := if s.role == ACTIVE then active else passive;
    assert PacketFits(l, c, ins, outs, ups, s.role, s.packet, packets[s.packet]);
    assert InputFits(c, ins, Slot(s.role, s.packet, s.index), packets[s.packet].inputs[s.index]);
    assert HasEntry(ins, inputs[i]);
  }

  lemma OutputRowsFromFit(l: Library, c: Checks, active: seq<VPacket>, passive: seq<VPacket>,
                          outputs: seq<Summary>, updates: seq<Summary>,
                          ins: map<seq<byte>, Summary>, outs: map<seq<byte>, Summary>, ups: map<seq<byte>, Summary>,
                          i: nat, j: nat)
    requires Holds(outs, outputs) && Holds(ups, updates) && Bijection(outputs, OutputSlots(active, passive))
    requires i < |outputs| && j < |updates| && outputs[i].Position() == updates[j].Position()
    requires PacketsFit(l, c, ins, outs, ups, active, passive)
    ensures OutputRowsOk(l, c, active, passive, outputs[i], updates[j])
  {
    hide Keys, Slots, InputSlots, OutputSlots, Key, Distinct, Agree;
    AllSlots(active, passive);
    var s := outputs[i].Position();
    assert Positions(outputs)[i] == s && s in SetOf(Positions(outputs));
    var packets := if s.role == ACTIVE then active else passive;
    assert PacketFits(l, c, ins, outs, ups, s.role, s.packet, packets[s.packet]);
    assert OutputFits(l, c, outs, ups, Slot(s.role, s.packet, s.index), packets[s.packet]);
    assert HasEntry(outs, outputs[i]) && HasEntry(ups, updates[j]);
  }

  lemma FitFromRows(l: Library, c: Checks, active: seq<VPacket>, passive: seq<VPacket>,
                    inputs: seq<Summary>, outputs: seq<Summary>, updates: seq<Summary>,
                    ins: map<seq<byte>, Summary>, outs: map<seq<byte>, Summary>, ups: map<seq<byte>, Summary>,
                    role: byte, p: nat)
    requires Holds(ins, inputs) && Holds(outs, outputs) && Holds(ups, updates)
    requires Bijection(inputs, InputSlots(active, passive))
    requires Bijection(outputs, OutputSlots(active, passive)) && Bijection(updates, OutputSlots(active, passive))
    requires AllInputsOk(c, active, passive, inputs) && AllOutputsOk(l, c, active, passive, outputs, updates)
    requires (role == ACTIVE && p < |active|) || (role == PASSIVE && p < |passive|)
    ensures PacketFits(l, c, ins, outs, ups, role, p, if role == ACTIVE then active[p] else passive[p])
  {
    hide Keys, Slots, InputSlots, OutputSlots, Key, Distinct, Agree;
    AllSlots(active, passive);
    var packet := if role == ACTIVE then active[p] else passive[p];
    forall k | 0 <= k < |packet.inputs|
      ensures InputFits(c, ins, Slot(role, p, k), packet.inputs[k])
    {
      var i := RowAt(inputs, InputSlots(active, passive), Slot(role, p, k));
      assert InputRowOk(c, active, passive, inputs[i]) && HasEntry(ins, inputs[i]);
    }
    forall k | 0 <= k < |packet.outputs|
      ensures OutputFits(l, c, outs, ups, Slot(role, p, k), packet)
    {
      var i := RowAt(outputs, OutputSlots(active, passive), Slot(role, p, k));
      var j := RowAt(updates, OutputSlots(active, passive), Slot(role, p, k));
      assert OutputRowsOk(l, c, active, passive, outputs[i], updates[j]);
      assert HasEntry(outs, outputs[i]) && HasEntry(ups, updates[j]);
    }
  }

  lemma RowAt(rows: seq<Summary>, slots: seq<Slot>, s: Slot) returns (i: nat)
    requires Bijection(rows, slots) && s in slots
    ensures i < |rows| && rows[i].Position() == s
  {
    assert s in SetOf(slots);
    var k :| 0 <= k < |rows| && Positions(rows)[k] == s;
    i := k;
  }

  /** In an accepted package every virtual index is in range, though no branch
      compares it with anything. */
  lemma VirtualIndicesInRange(l: Library, c: Checks, active: seq<VPacket>, passive: seq<VPacket>,
                              anchorIns: nat, anchorOuts: nat,
                              inputs: seq<Summary>, outputs: seq<Summary>, updates: seq<Summary>)
    requires MappingsOk(l, c, active, passive, anchorIns, anchorOuts, inputs, outputs, updates)
    ensures forall i | 0 <= i < |inputs| ::
              InRange(inputs[i].Position(), ACTIVE, InputCounts(active)) ||
              InRange(inputs[i].Position(), PASSIVE, InputCounts(passive))
    ensures forall i | 0 <= i < |outputs| ::
              InRange(outputs[i].Position(), ACTIVE, OutputCounts(active)) ||
              InRange(outputs[i].Position(), PASSIVE, OutputCounts(passive))
    ensures forall i | 0 <= i < |updates| ::
              InRange(updates[i].Position(), ACTIVE, OutputCounts(active)) ||
              InRange(updates[i].Position(), PASSIVE, OutputCounts(passive))
  {
    hide AllEntriesOk, AllInputsOk, AllOutputsOk, InputSlots, OutputSlots, Slots, Distinct;
    AllSlots(active, passive);
    RowsAreSlots(inputs, InputSlots(active, passive));
    RowsAreSlots(outputs, OutputSlots(active, passive));
    RowsAreSlots(updates, OutputSlots(active, passive));
  }

  lemma RowsAreSlots(rows: seq<Summary>, slots: seq<Slot>)
    requires Bijection(rows, slots)
    ensures forall i | 0 <= i < |rows| :: rows[i].Position() in slots
  {
    forall i | 0 <= i < |rows|
      ensures rows[i].Position() in slots
    {
      assert Positions(rows)[i] in SetOf(Positions(rows));
    }
  }

  /** Every output summary has exactly one proof update, for the same virtual
      output, and the two agree. */
  lemma OneUpdatePerOutput(l: Library, c: Checks, active: seq<VPacket>, passive: seq<VPacket>,
                           anchorIns: nat, anchorOuts: nat,
                           inputs: seq<Summary>, outputs: seq<Summary>, updates: seq<Summary>, i: nat)
    returns (j: nat)
    requires MappingsOk(l, c, active, passive, anchorIns, anchorOuts, inputs, outputs, updates) && i < |outputs|
    ensures j < |updates| && updates[j].Position() == outputs[i].Position() && Agree(l, outputs[i], updates[j])
    ensures forall k | 0 <= k < |updates| && k != j :: updates[k].Position() != outputs[i].Position()
  {
    hide AllEntriesOk, AllInputsOk, InputSlots, OutputSlots, Agree;
    var slots := OutputSlots(active, passive);
    assert Positions(outputs)[i] in SetOf(Positions(outputs));
    j := RowAt(updates, slots, outputs[i].Position());
    assert OutputRowsOk(l, c, active, passive, outputs[i], updates[j]);
    forall k | 0 <= k < |updates| && k != j
      ensures updates[k].Position() != outputs[i].Position()
    {
      assert Positions(updates)[k] != Positions(updates)[j];
    }
  }

  // ------------------------------------------------- what is accepted, row by row

  /** The rows are one for each slot there is. */
  ghost predicate OneEach(rows: seq<Summary>, active: seq<nat>, passive: seq<nat>) {
    && (forall i | 0 <= i < |rows| ::
          InRange(rows[i].Position(), ACTIVE, active) || InRange(rows[i].Position(), PASSIVE, passive))
    && (forall i, j | 0 <= i < j < |rows| :: rows[i].Position() != rows[j].Position())
    && (forall s | InRange(s, ACTIVE, active) || InRange(s, PASSIVE, passive) :: HasRow(rows, s))
  }

  ghost predicate HasRow(rows: seq<Summary>, s: Slot) {
    exists i :: 0 <= i < |rows| && rows[i].Position() == s
  }

  /** The row is well formed and points at an anchor input or output there is. */
  predicate Anchored(fieldsOk: Summary -> bool, rows: seq<Summary>, anchors: nat) {
    forall i | 0 <= i < |rows| :: fieldsOk(rows[i]) && rows[i].anchorIndex < anchors
  }

  /** The packet the row is about. */
  function Owner(active: seq<VPacket>, passive: seq<VPacket>, row: Summary): VPacket
    requires row.role == ACTIVE || row.role == PASSIVE
    requires row.packetIndex < if row.role == ACTIVE then |active| else |passive|
  {
    if row.role == ACTIVE then active[row.packetIndex] else passive[row.packetIndex]
  }

  predicate InputMatches(c: Checks, active: seq<VPacket>, passive: seq<VPacket>, row: Summary) {
    && (InRange(row.Position(), ACTIVE, InputCounts(active)) || InRange(row.Position(), PASSIVE, InputCounts(passive)))
    && c.inputMatches(Owner(active, passive, row).inputs[row.virtualIndex], row)
  }

  predicate InputsMatch(c: Checks, active: seq<VPacket>, passive: seq<VPacket>, rows: seq<Summary>) {
    forall i | 0 <= i < |rows| :: InputMatches(c, active, passive, rows[i])
  }

  predicate OutputMatches(matches: (VPacket, nat, Summary) -> bool, active: seq<VPacket>, passive: seq<VPacket>,
                          row: Summary)
  {
    && (InRange(row.Position(), ACTIVE, OutputCounts(active)) || InRange(row.Position(), PASSIVE, OutputCounts(passive)))
    && matches(Owner(active, passive, row), row.virtualIndex, row)
  }

  predicate OutputsMatch(matches: (VPacket, nat, Summary) -> bool, active: seq<VPacket>, passive: seq<VPacket>,
                         rows: seq<Summary>)
  {
    forall i | 0 <= i < |rows| :: OutputMatches(matches, active, passive, rows[i])
  }

  /** An update and the output summary of the same virtual output say the same. */
  predicate SameOutput(l: Library, o: Summary, u: Summary) {
    && o.anchorIndex == u.anchorIndex && Equivalent(l, u.details.assetRef, o.details.assetRef)
    && o.details.logicalId == u.details.logicalId && o.details.logicalIndex == u.details.logicalIndex
    && o.details.issuance == u.details.issuance && o.details.scriptKey == u.details.scriptKey
    && o.details.anchorTxid == u.details.anchorTxid && o.details.anchorVout == u.details.anchorVout
    && o.details.recipient == u.details.recipient && o.details.courier == u.details.courier
    && o.details.metadata == u.details.metadata
  }

  predicate UpdatesAgree(l: Library, outputs: seq<Summary>, updates: seq<Summary>) {
    forall i, j | 0 <= i < |outputs| && 0 <= j < |updates| && outputs[i].Position() == updates[j].Position() ::
      SameOutput(l, outputs[i], updates[j])
  }

  lemma OneEachIsBijection(rows: seq<Summary>, slots: seq<Slot>, active: seq<nat>, passive: seq<nat>)
    requires forall s :: s in slots <==> InRange(s, ACTIVE, active) || InRange(s, PASSIVE, passive)
    ensures Bijection(rows, slots) <==> OneEach(rows, active, passive)
  {
    hide InRange;
    var positions := Positions(rows);
    assert forall s :: s in SetOf(positions) <==> s in positions;
    assert forall s :: s in SetOf(slots) <==> s in slots;
    forall s
      ensures HasRow(rows, s) <==> s in positions
    {
      if HasRow(rows, s) {
        var i :| 0 <= i < |rows| && rows[i].Position() == s;
        assert positions[i] == s;
      }
    }
    forall i | 0 <= i < |rows|
      ensures positions[i] == rows[i].Position() && positions[i] in positions
    {
    }
    if OneEach(rows, active, passive) {
      forall s | s in positions
        ensures s in slots
      {
        var i :| 0 <= i < |rows| && positions[i] == s;
      }
      forall s | s in slots
        ensures s in positions
      {
        assert HasRow(rows, s);
      }
    }
  }

  lemma EntriesExactly(fieldsOk: Summary -> bool, rows: seq<Summary>, active: seq<nat>, passive: seq<nat>, anchors: nat)
    requires |active| < 0x1_0000_0000 && |passive| < 0x1_0000_0000 && anchors < 0x1_0000_0000
    requires OneEach(rows, active, passive)
    ensures EntriesOk(fieldsOk, rows, |active|, |passive|, anchors) <==> Anchored(fieldsOk, rows, anchors)
  {
    hide Keys;
    var positions := Positions(rows);
    KeysAreSlots(positions);
    assert Distinct(positions);
    forall i | 0 <= i < |rows|
      ensures PacketCount(rows[i].role, |active|, |passive|).Some?
      ensures rows[i].packetIndex < PacketCount(rows[i].role, |active|, |passive|).value % 0x1_0000_0000
    {
      assert InRange(rows[i].Position(), ACTIVE, active) || InRange(rows[i].Position(), PASSIVE, passive);
    }
  }

  /** `Validate` accepts the mappings of a package exactly when there is one input
      summary for each virtual input and one output summary and one proof update
      for each virtual output, each well formed, on an anchor input or output that
      exists and matching its packet, and updates repeat their output summaries. */
  lemma MappingsExactly(l: Library, c: Checks, active: seq<VPacket>, passive: seq<VPacket>,
                        anchorIns: nat, anchorOuts: nat,
                        inputs: seq<Summary>, outputs: seq<Summary>, updates: seq<Summary>)
    requires |active| < 0x1_0000_0000 && |passive| < 0x1_0000_0000
    requires anchorIns < 0x1_0000_0000 && anchorOuts < 0x1_0000_0000
    ensures MappingsOk(l, c, active, passive, anchorIns, anchorOuts, inputs, outputs, updates) <==>
            && OneEach(inputs, InputCounts(active), InputCounts(passive))
            && OneEach(outputs, OutputCounts(active), OutputCounts(passive))
            && OneEach(updates, OutputCounts(active), OutputCounts(passive))
            && Anchored(c.inputFields, inputs, anchorIns)
            && Anchored(c.outputFields, outputs, anchorOuts) && Anchored(c.updateFields, updates, anchorOuts)
            && InputsMatch(c, active, passive, inputs)
            && OutputsMatch(c.outputMatches, active, passive, outputs)
            && OutputsMatch(c.updateMatches, active, passive, updates)
            && UpdatesAgree(l, outputs, updates)
  {
    hide InputSlots, OutputSlots, Bijection, Slots, EntriesOk, Anchored;
    AllSlots(active, passive);
    OneEachIsBijection(inputs, InputSlots(active, passive), InputCounts(active), InputCounts(passive));
    OneEachIsBijection(outputs, OutputSlots(active, passive), OutputCounts(active), OutputCounts(passive));
    OneEachIsBijection(updates, OutputSlots(active, passive), OutputCounts(active), OutputCounts(passive));
    if && OneEach(inputs, InputCounts(active), InputCounts(passive))
       && OneEach(outputs, OutputCounts(active), OutputCounts(passive))
       && OneEach(updates, OutputCounts(active), OutputCounts(passive)) {
      EntriesExactly(c.inputFields, inputs, InputCounts(active), InputCounts(passive), anchorIns);
      EntriesExactly(c.outputFields, outputs, OutputCounts(active), OutputCounts(passive), anchorOuts);
      EntriesExactly(c.updateFields, updates, OutputCounts(active), OutputCounts(passive), anchorOuts);
      InputsExactly(c, active, passive, inputs);
      OutputsExactly(l, c, active, passive, outputs, updates);
    }
    hide OneEach, AllInputsOk, AllOutputsOk, InputsMatch, OutputsMatch, UpdatesAgree;
  }

  lemma InputsExactly(c: Checks, active: seq<VPacket>, passive: seq<VPacket>, rows: seq<Summary>)
    requires OneEach(rows, InputCounts(active), InputCounts(passive))
    ensures AllInputsOk(c, active, passive, rows) <==> InputsMatch(c, active, passive, rows)
  {
    forall i | 0 <= i < |rows|
      ensures InputRowOk(c, active, passive, rows[i]) <==> InputMatches(c, active, passive, rows[i])
    {
      assert rows[i].role == ACTIVE || rows[i].role == PASSIVE;
    }
  }

  lemma PairExactly(l: Library, c: Checks, active: seq<VPacket>, passive: seq<VPacket>, o: Summary, u: Summary)
    requires o.Position() == u.Position()
    requires InRange(o.Position(), ACTIVE, OutputCounts(active)) || InRange(o.Position(), PASSIVE, OutputCounts(passive))
    ensures OutputRowsOk(l, c, active, passive, o, u) <==>
            && OutputMatches(c.outputMatches, active, passive, o) && OutputMatches(c.updateMatches, active, passive, u)
            && SameOutput(l, o, u)
  {
    hide Equivalent;
  }

  /** Every output has its update and every update its output. */
  lemma OutputsExactly(l: Library, c: Checks, active: seq<VPacket>, passive: seq<VPacket>,
                       outputs: seq<Summary>, updates: seq<Summary>)
    requires OneEach(outputs, OutputCounts(active), OutputCounts(passive))
    requires OneEach(updates, OutputCounts(active), OutputCounts(passive))
    ensures AllOutputsOk(l, c, active, passive, outputs, updates) <==>
            && OutputsMatch(c.outputMatches, active, passive, outputs)
            && OutputsMatch(c.updateMatches, active, passive, updates)
            && UpdatesAgree(l, outputs, updates)
  {
    hide OutputRowsOk, SameOutput, OutputMatches, InRange;
    forall i, j | 0 <= i < |outputs| && 0 <= j < |updates| && outputs[i].Position() == updates[j].Position()
      ensures OutputRowsOk(l, c, active, passive, outputs[i], updates[j]) <==>
              && OutputMatches(c.outputMatches, active, passive, outputs[i])
              && OutputMatches(c.updateMatches, active, passive, updates[j]) && SameOutput(l, outputs[i], updates[j])
    {
      PairExactly(l, c, active, passive, outputs[i], updates[j]);
    }
    if AllOutputsOk(l, c, active, passive, outputs, updates) {
      forall i | 0 <= i < |outputs|
        ensures OutputMatches(c.outputMatches, active, passive, outputs[i])
      {
        assert HasRow(updates, outputs[i].Position());
        var j :| 0 <= j < |updates| && updates[j].Position() == outputs[i].Position();
        assert OutputRowsOk(l, c, active, passive, outputs[i], updates[j]);
      }
      forall j | 0 <= j < |updates|
        ensures OutputMatches(c.updateMatches, active, passive, updates[j])
      {
        assert HasRow(outputs, updates[j].Position());
        var i :| 0 <= i < |outputs| && outputs[i].Position() == updates[j].Position();
        assert OutputRowsOk(l, c, active, passive, outputs[i], updates[j]);
      }
    }
  }
}
