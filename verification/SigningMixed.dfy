/** Not every order of Apply calls succeeds: a package with one key-path and one
    script-path input can take either authorisation first, and then never the
    other (custom_anchor_signing.go, custom_anchor_package.go). */
module SigningMixed {
  import opened Wrappers
  import opened Bytes
  import opened Collections
  import opened NativeProofs
  import opened AnchorPsbt
  import opened SigningPlans
  import opened SigningRequests
  import opened SigningPackage
  import opened SigningRuns
  import AssetRefs
  import Bech32
  import PackageMappings

  const KEY: seq<byte> := [1]
  const LEAF: seq<byte> := [2]
  const CONTROL: seq<byte> := [3]

  /** Libraries that accept everything, so only the package code decides. */
  function Lenient(): Bitcoin {
    Bitcoin(
      Curve((k: Key) => true, (k: Key) => true),
      (p: Packet) => true,
      (p: Packet, i: nat) => Some((KEY, 0, 0, [])),
      (k: Key, ks: seq<Key>) => true,
      (p: Packet, i: nat, leaf: nat) => Some((0, 0, LEAF, CONTROL)),
      (script: seq<byte>) => Some(KEY),
      (s: seq<byte>, h: nat, k: Key) => true,
      (script: seq<byte>) => true,
      (p: Packet, i: nat, w: seq<seq<byte>>) => true,
      (w: seq<seq<byte>>) => [1],
      (p: Packet) => None)
  }

  function Unchecked(): PackageMappings.Checks {
    PackageMappings.Checks(
      (s: PackageMappings.Summary) => true, (s: PackageMappings.Summary) => true, (s: PackageMappings.Summary) => true,
      (b: seq<byte>, s: PackageMappings.Summary) => true,
      (p: PackageMappings.VPacket, i: nat, s: PackageMappings.Summary) => true,
      (p: PackageMappings.VPacket, i: nat, s: PackageMappings.Summary) => true)
  }

  /** The summary of the one virtual input, of the one virtual output and of its
      proof update: position 0 of active packet 0, on anchor input or output 0. */
  function Row(): PackageMappings.Summary {
    PackageMappings.Summary(PackageMappings.ACTIVE, 0, 0, 0,
                            PackageMappings.Details("transfer", 0, "asset", [], [], [], 0, [], [], []), [])
  }

  /** One active virtual packet that moves one virtual input to one output. */
  function OneTransfer(): Details {
    Details(PackageMappings.Mappings([PackageMappings.VPacket([[]], [[]])], [], [Row()], [Row()], [Row()]), [])
  }

  function Env(): Rules {
    Rules(
      Lenient(),
      AssetRefs.Library((s: string) => s, (s: string) => s, (k: seq<byte>) => true,
                        Bech32.Checksums((s: string, d: seq<Bech32.five>) => [],
                                         (s: string, d: seq<Bech32.five>) => [0, 0, 0, 0, 0, 0])),
      (p: Packet) => Unchecked(),
      (c: CommittedContent) => c.committed.tx.ins != [] && c.committed.tx.outs != [])
  }

  function KeyPlan(): SigningPlan {
    SigningPlan(0, Some(KEY), None, None, false)
  }

  function ScriptPlan(): SigningPlan {
    SigningPlan(1, None, None, Some(ScriptPathPlan(1, [])), false)
  }

  function Plain(): PInput {
    PInput([], [], [], [], [], [], [])
  }

  function Funding(index: nat): TxIn {
    TxIn(Outpoint(0, index), 0, [], [])
  }

  /** Two inputs and one output, nothing signed. */
  function Unsigned(): Packet {
    Packet(Tx(2, 0, [Funding(0), Funding(1)], [TxOut(1000, [])]), [Plain(), Plain()], [[]], [])
  }

  function Draft(): Package {
    Package(0, 1, OneTransfer(), None, Some(Unsigned()), [KeyPlan(), ScriptPlan()], [], NoDigest, NoDigest, NoDigest)
  }

  function Ready(): Package {
    Sealed(Draft())
  }

  function Signature(): seq<byte> {
    seq(SIGNATURE_SIZE, i => 0)
  }

  lemma DraftSeals()
    ensures Ready().anchor == Some(Unsigned()) && Ready().committed == Some(Unsigned())
    ensures Ready().plans == [KeyPlan(), ScriptPlan()] && Ready().backend == []
    ensures Ready().schemaVersion == SCHEMA_VERSION && Ready().planId == 1 && Ready().details == OneTransfer()
  {
    hide SortPlans;
    assert Canonical(Unsigned(), false).inputs == Unsigned().inputs;
    PlansInOrder();
  }

  lemma PlansCover()
    ensures PlansOk(Lenient().curve, [KeyPlan(), ScriptPlan()], [], 2)
  {
    var all := Indices([KeyPlan(), ScriptPlan()]) + [];
    assert all == [0, 1];
    assert KeysOk(Lenient().curve.xOnly, []);
    forall k: nat
      ensures k in SetOf(all) <==> k in Below(2)
    {
      assert all[0] == 0 && all[1] == 1;
    }
    assert SetOf(all) == Below(2);
  }

  lemma OneSlot()
    ensures var m := OneTransfer().mappings;
            && PackageMappings.InputSlots(m.active, m.passive) == [Row().Position()]
            && PackageMappings.OutputSlots(m.active, m.passive) == [Row().Position()]
  {
    var m := OneTransfer().mappings;
    var one: seq<nat> := [1];
    assert PackageMappings.InputCounts(m.active) == one && PackageMappings.OutputCounts(m.active) == one;
    assert PackageMappings.InputCounts(m.passive) == [] && PackageMappings.OutputCounts(m.passive) == [];
    assert one[..0] == [];
    assert PackageMappings.Slots(PackageMappings.ACTIVE, one) == PackageMappings.Row(PackageMappings.ACTIVE, 0, 1);
    assert PackageMappings.Slots(PackageMappings.PASSIVE, []) == [];
  }

  lemma OneTransferOk()
    ensures DetailsOk(Env(), OneTransfer(), Unsigned())
  {
    OneSlot();
    hide PackageMappings.InputSlots, PackageMappings.OutputSlots, PackageMappings.Key;
    var m, one := OneTransfer().mappings, [Row().Position()];
    assert PackageMappings.Positions([Row()]) == one;
    assert PackageMappings.Bijection([Row()], one);
    assert PackageMappings.AllEntriesOk(Unchecked(), 1, 0, 2, 1, m.inputs, m.outputs, m.updates);
    assert PackageMappings.AllInputsOk(Unchecked(), m.active, m.passive, m.inputs);
    assert PackageMappings.AllOutputsOk(Env().library, Unchecked(), m.active, m.passive, m.outputs, m.updates);
  }

  lemma ReadyIsValid()
    ensures Valid(Env(), Ready()) && Env().bitcoin.Valid()
  {
    DraftSeals();
    PlansCover();
    OneTransferOk();
    hide PlansOk, DetailsOk, Canonical, KeepsMetadata, Sealed;
    KeepsMetadataExactly(Unsigned(), Unsigned());
    assert InputCount(Unsigned()) == 2;
    SealedDigests();
  }

  lemma SealedDigests()
    ensures Ready().committed.Some? && Ready().anchor.Some?
    ensures Ready().unsignedTxDigest == OfUnsignedTx(Ready().committed.value.tx)
    ensures Ready().committedDigest == CommittedDigest(Ready())
    ensures Ready().packageDigest == CurrentDigest(Ready())
  {
    hide Canonical, SortPlans, SortIndices;
  }

  function KeyId(): Digest {
    OfRequest(Ready().committedDigest, KeyPath, 0)
  }

  function ScriptId(): Digest {
    OfRequest(Ready().committedDigest, ScriptPath, 1)
  }

  function KeyReq(): Request {
    Request(KeyId(), KeyPath, 0, KeyContext(KEY, 0, 0, []))
  }

  function ScriptReq(): Request {
    Request(ScriptId(), ScriptPath, 1, ScriptContext(0, 0, LEAF, CONTROL, []))
  }

  lemma PlansInOrder()
    ensures SortPlans([KeyPlan(), ScriptPlan()]) == [KeyPlan(), ScriptPlan()]
  {
    hide SortPlans;
    SortedPlansStay([KeyPlan(), ScriptPlan()]);
  }

  lemma BothDerived(packet: Packet)
    ensures AllRequests(Lenient(), packet, Ready().committedDigest, [KeyPlan(), ScriptPlan()]) ==
            Some([KeyReq(), ScriptReq()])
  {
    hide Sealed, RequestOf, Lenient;
    var b, digest, plans := Lenient(), Ready().committedDigest, [KeyPlan(), ScriptPlan()];
    assert plans[..1] == [KeyPlan()] && [KeyPlan()][..0] == [];
    PlanRequests(packet);
    assert AllRequests(b, packet, digest, []) == Some([]);
    assert [] + [KeyReq()] == [KeyReq()] && [KeyReq()] + [ScriptReq()] == [KeyReq(), ScriptReq()];
    assert AllRequests(b, packet, digest, [KeyPlan()]) == Some([KeyReq()]);
  }

  lemma ReadyRequests()
    ensures RequestsOf(Env(), Ready()) == Some(Requests([KeyReq()], [], [ScriptReq()]))
  {
    hide Valid, Sealed, AllRequests, Grouped, SortPlans, Unsigned, KeyReq, ScriptReq, KeyPlan, ScriptPlan;
    ReadyIsValid();
    DraftSeals();
    PlansInOrder();
    BothDerived(Unsigned());
    GroupTwo();
  }

  lemma PlanRequests(packet: Packet)
    ensures RequestOf(Lenient(), packet, Ready().committedDigest, KeyPlan()) == Derived(KeyReq())
    ensures RequestOf(Lenient(), packet, Ready().committedDigest, ScriptPlan()) == Derived(ScriptReq())
  {
    hide Sealed;
    assert Lenient().keySpend(packet, 0) == Some((KEY, 0, 0, []));
    assert Lenient().leafSpend(packet, 1, 1) == Some((0, 0, LEAF, CONTROL));
  }

  lemma GroupTwo()
    ensures Grouped([KeyReq(), ScriptReq()]) == Requests([KeyReq()], [], [ScriptReq()])
  {
    hide Sealed;
    var q, r := KeyReq(), ScriptReq();
    assert [q, r][..1] == [q] && [q][..0] == [];
    forall mode
      ensures OfMode([q, r], mode) == OfMode([q], mode) + if mode == ScriptPath then [r] else []
      ensures OfMode([q], mode) == if mode == KeyPath then [q] else []
    {
    }
  }

  /** Either authorisation is accepted on the sealed package, but after one of
      them the other is refused. */
  lemma EitherButNotBoth()
    ensures Valid(Env(), Ready())
    ensures ApplyKey(Env(), Ready(), KeyId(), Signature()).Some?
    ensures ApplyScript(Env(), Ready(), ScriptId(), []).Some?
    ensures ApplyScript(Env(), ApplyKey(Env(), Ready(), KeyId(), Signature()).value, ScriptId(), []).None?
    ensures ApplyKey(Env(), ApplyScript(Env(), Ready(), ScriptId(), []).value, KeyId(), Signature()).None?
  {
    var e, s := Env(), Ready();
    ReadyIsValid();
    ReadyRequests();
    DraftSeals();
    hide Valid, RequestsOf, Sealed, ApplyKey, ApplyScript;
    ApplyKeyExactly(e, s, KeyId(), Signature());
    ApplyScriptExactly(e, s, ScriptId(), []);
    assert ApplyKey(e, s, KeyId(), Signature()).Some?;
    assert ApplyScript(e, s, ScriptId(), []).Some?;
    Refused(e, s, Sign(KeyId(), Signature()), Satisfy(ScriptId(), []));
    Refused(e, s, Satisfy(ScriptId(), []), Sign(KeyId(), Signature()));
  }

  /** After one kind of step the other kind cannot succeed. */
  lemma Refused(e: Rules, s: Package, first: Step, second: Step)
    requires Valid(e, s) && e.bitcoin.Valid() && s.committed.Some? && SigningRuns.Unsigned(s.committed.value)
    requires !first.Finalise? && !second.Finalise? && first.Sign? != second.Sign?
    requires Next(e, s, first).Some?
    ensures Next(e, Next(e, s, first).value, second).None?
  {
    hide Valid, ApplyKey, ApplyScript, SigningRuns.Unsigned;
    var steps := [first, second];
    assert steps[..1] == [first] && [first][..0] == [];
    assert Run(e, s, []) == Some(s);
    assert Run(e, s, [first]) == Next(e, s, first);
    assert Run(e, s, steps) == Next(e, Next(e, s, first).value, second);
    assert steps[0] == first && steps[1] == second;
    if Run(e, s, steps).Some? {
      ApplyNeverMixes(e, s, steps);
    }
  }
}
