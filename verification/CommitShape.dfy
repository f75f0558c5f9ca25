/** What the backend may change when it commits an anchor transaction
    (custom_anchor_lifecycle.go). */
module CommitShape {
  import opened Wrappers
  import opened Bytes
  import opened Collections
  import opened NativeProofs
  import opened AnchorPsbt
  import opened SigningPlans

  /** Key-origin records, and every other field of an input map. */
  datatype InMap = InMap(derivations: seq<seq<byte>>, taprootDerivations: seq<seq<byte>>, rest: seq<byte>)

  datatype Unknown = Unknown(key: seq<byte>, value: seq<byte>)

  datatype OutMap = OutMap(unknowns: seq<Unknown>, rest: seq<byte>)

  datatype Anchor = Anchor(tx: Tx, inputs: seq<InMap>, outputs: seq<OutMap>, globals: seq<byte>) {
    /** As the PSBT parser guarantees. */
    predicate Parsed() {
      |inputs| == |tx.ins| && |outputs| == |tx.outs|
    }
  }

  datatype ChangePolicy = Add | Existing(index: int) | NoNew | UnknownPolicy

  datatype Funding = WalletFunded(change: ChangePolicy) | SkipFunding

  /** Go's conversion of a length or index to `int32`. */
  function AsInt32(n: nat): int {
    (n + 0x8000_0000) % 0x1_0000_0000 - 0x8000_0000
  }

  // ------------------------------------------------------------------ PSBT metadata

  /** `customAnchorDerivationsContain`. */
  method Contains(superset: seq<seq<byte>>, subset: seq<seq<byte>>) returns (ok: bool)
    ensures ok <==> SetOf(subset) <= SetOf(superset)
  {
    for i := 0 to |subset|
      invariant forall k | 0 <= k < i :: subset[k] in superset
    {
      var found := false;
      for j := 0 to |superset|
        invariant !found && subset[i] !in superset[..j]
      {
        if subset[i] == superset[j] {
          found := true;
          break;
        }
      }
      if !found {
        assert superset[..|superset|] == superset;
        assert subset[i] in SetOf(subset);
        return false;
      }
    }
    ok := true;
  }

  /** The backend may add key origins to an input; nothing else changes and no
      key origin disappears. */
  predicate InputCompatible(before: InMap, after: InMap) {
    && before.rest == after.rest
    && SetOf(before.derivations) <= SetOf(after.derivations)
    && SetOf(before.taprootDerivations) <= SetOf(after.taprootDerivations)
  }

  method CheckInputMap(before: InMap, after: InMap) returns (ok: bool)
    ensures ok <==> InputCompatible(before, after)
  {
    if before.rest != after.rest {
      return false;
    }
    ok := Contains(after.derivations, before.derivations);
    if ok {
      ok := Contains(after.taprootDerivations, before.taprootDerivations);
    }
  }

  /** `filterCustomAnchorCommitmentFields`; `keys` are the two root keys. */
  function Filtered(unknowns: seq<Unknown>, keys: set<seq<byte>>): seq<Unknown> {
    if unknowns == [] then [] else
    var last := |unknowns| - 1;
    Filtered(unknowns[..last], keys) + if unknowns[last].key in keys then [] else [unknowns[last]]
  }

  method Filter(unknowns: seq<Unknown>, keys: set<seq<byte>>) returns (filtered: seq<Unknown>)
    ensures filtered == Filtered(unknowns, keys)
  {
    filtered := [];
    for i := 0 to |unknowns|
      invariant filtered == Filtered(unknowns[..i], keys)
    {
      assert unknowns[..i + 1][..i] == unknowns[..i];
      if unknowns[i].key !in keys {
        filtered := filtered + [unknowns[i]];
      }
    }
    assert unknowns[..|unknowns|] == unknowns;
  }

  // ---------------------------------------------------------------- accepted shapes

  predicate InputKept(before: Anchor, after: Anchor, i: nat)
    requires before.Parsed() && after.Parsed() && i < |before.inputs| <= |after.inputs|
  {
    && before.tx.ins[i].prevOut == after.tx.ins[i].prevOut && before.tx.ins[i].sequence == after.tx.ins[i].sequence
    && InputCompatible(before.inputs[i], after.inputs[i])
  }

  /** Input and output counts against the funding mode and the reported change. */
  predicate CountsOk(funding: Funding, before: Anchor, after: Anchor, change: int) {
    var ins, ins' := |before.tx.ins|, |after.tx.ins|;
    var outs, outs' := |before.tx.outs|, |after.tx.outs|;
    match funding
    case SkipFunding => ins == ins' && outs == outs' && change == -1
    case WalletFunded(policy) =>
      && ins <= ins'
      && match policy
         case Add => (outs' == outs && change == -1) || (outs' == outs + 1 && change == AsInt32(outs))
         case Existing(index) => 0 <= index < AsInt32(outs) && outs' == outs && change == index
         case NoNew => outs' == outs && change == -1
         case UnknownPolicy => false
  }

  function ExistingChange(funding: Funding): int {
    if funding.WalletFunded? && funding.change.Existing? then funding.change.index else -1
  }

  predicate OutputKept(before: Anchor, after: Anchor, existing: int, assets: set<nat>, keys: set<seq<byte>>, i: nat)
    requires before.Parsed() && after.Parsed() && i < |before.outputs| <= |after.outputs|
  {
    var left, right := before.tx.outs[i], after.tx.outs[i];
    if i % 0x1_0000_0000 in assets then
      && existing != AsInt32(i) && left.value == right.value
      && before.outputs[i].rest == after.outputs[i].rest
      && Filtered(before.outputs[i].unknowns, keys) == Filtered(after.outputs[i].unknowns, keys)
    else
      && left.script == right.script && (existing == AsInt32(i) || left.value == right.value)
      && before.outputs[i] == after.outputs[i]
  }

  /** What `verifyCommittedAnchorShape` accepts; `assets` are the anchor outputs
      of the request's asset outputs. */
  ghost predicate ShapeOk(funding: Funding, assets: set<nat>, keys: set<seq<byte>>,
                          before: Anchor, after: Anchor, change: int)
    requires before.Parsed() && after.Parsed()
  {
    && before.globals == after.globals
    && before.tx.version == after.tx.version && before.tx.lockTime == after.tx.lockTime
    && CountsOk(funding, before, after, change)
    && (forall i | 0 <= i < |before.inputs| :: InputKept(before, after, i))
    && (forall i | 0 <= i < |before.outputs| :: OutputKept(before, after, ExistingChange(funding), assets, keys, i))
  }

  method VerifyShape(funding: Funding, assetOutputs: seq<nat>, keys: set<seq<byte>>,
                     before: Anchor, after: Anchor, change: int) returns (ok: bool)
    requires before.Parsed() && after.Parsed()
    ensures ok <==> ShapeOk(funding, SetOf(assetOutputs), keys, before, after, change)
  {
    hide OutputKept, InputKept, AsInt32, SetOf;
    if before.globals != after.globals ||
       before.tx.version != after.tx.version || before.tx.lockTime != after.tx.lockTime ||
       |after.tx.ins| < |before.tx.ins| {
      return false;
    }
    for idx := 0 to |before.tx.ins|
      invariant forall k | 0 <= k < idx :: InputKept(before, after, k)
    {
      var inputOk := CheckInput(before, after, idx);
      if !inputOk {
        return false;
      }
    }
    var countsOk, existing := CheckCounts(funding, before, after, change);
    if !countsOk {
      return false;
    }
    var assets := CollectOutputs(assetOutputs);
    for idx := 0 to |before.tx.outs|
      invariant forall k | 0 <= k < idx :: OutputKept(before, after, existing, assets, keys, k)
    {
      var outputOk := CheckOutput(before, after, existing, assets, keys, idx);
      if !outputOk {
        return false;
      }
    }
    if funding.WalletFunded? && funding.change.Add? {
      for idx := |before.tx.outs| to |after.tx.outs| {
        // The source refuses an added output that is not the change output
        // here. The count check has already done so.
        assert change == AsInt32(idx);
      }
    }
    ok := true;
  }

  method CheckInput(before: Anchor, after: Anchor, i: nat) returns (ok: bool)
    requires before.Parsed() && after.Parsed() && i < |before.inputs| <= |after.inputs|
    ensures ok <==> InputKept(before, after, i)
  {
    hide InputCompatible;
    var left, right := before.tx.ins[i], after.tx.ins[i];
    if left.prevOut != right.prevOut || left.sequence != right.sequence {
      return false;
    }
    ok := CheckInputMap(before.inputs[i], after.inputs[i]);
  }

  method CheckCounts(funding: Funding, before: Anchor, after: Anchor, change: int) returns (ok: bool, existing: int)
    requires |before.tx.ins| <= |after.tx.ins|
    ensures ok <==> CountsOk(funding, before, after, change)
    ensures ok ==> existing == ExistingChange(funding)
  {
    ok, existing := true, -1;
    var outs, outs' := |before.tx.outs|, |after.tx.outs|;
    match funding
    case SkipFunding =>
      if |after.tx.ins| != |before.tx.ins| || outs' != outs || change != -1 {
        return false, existing;
      }
    case WalletFunded(policy) =>
      if outs' < outs {
        return false, existing;
      }
      match policy {
        case Add =>
          var added := outs' - outs;
          if added > 1 || (added == 0 && change != -1) || (added == 1 && change != AsInt32(outs)) {
            return false, existing;
          }
        case Existing(index) =>
          existing := index;
          if existing < 0 || existing >= AsInt32(outs) || outs' != outs || change != existing {
            return false, existing;
          }
        case NoNew =>
          if outs' != outs || change != -1 {
            return false, existing;
          }
        case UnknownPolicy =>
          return false, existing;
      }
  }

  method CollectOutputs(outputs: seq<nat>) returns (s: set<nat>)
    ensures s == SetOf(outputs)
  {
    s := {};
    for i := 0 to |outputs|
      invariant s == SetOf(outputs[..i])
    {
      TakeOneMore(outputs, i);
      s := s + {outputs[i]};
    }
    assert outputs[..|outputs|] == outputs;
  }

  method CheckOutput(before: Anchor, after: Anchor, existing: int, assets: set<nat>, keys: set<seq<byte>>, i: nat)
    returns (ok: bool)
    requires before.Parsed() && after.Parsed() && i < |before.outputs| <= |after.outputs|
    ensures ok <==> OutputKept(before, after, existing, assets, keys, i)
  {
    hide Filtered;
    var left, right := before.tx.outs[i], after.tx.outs[i];
    var isAsset, isExistingChange := i % 0x1_0000_0000 in assets, existing == AsInt32(i);
    if isExistingChange && isAsset {
      return false;
    }
    if isAsset {
      if left.value != right.value {
        return false;
      }
      var filtered := Filter(before.outputs[i].unknowns, keys);
      var filtered' := Filter(after.outputs[i].unknowns, keys);
      return filtered == filtered' && before.outputs[i].rest == after.outputs[i].rest;
    }
    if left.script != right.script || (!isExistingChange && left.value != right.value) {
      return false;
    }
    ok := before.outputs[i] == after.outputs[i];
  }

  // ----------------------------------------------------- what an accepted commit is

  predicate IndicesFit(a: Anchor) {
    |a.tx.outs| <= 0x7fff_ffff
  }

  /** The output the caller let the backend use for change, if there is one. */
  predicate IsChange(funding: Funding, i: nat) {
    funding.WalletFunded? && funding.change == Existing(i)
  }

  /** An accepted commit keeps version, locktime and the original inputs in
      order; every asset output keeps its value, and every BTC-only output is
      unchanged except for the value of a change output the caller designated,
      which is never an asset output. */
  lemma AcceptedCommit(funding: Funding, assets: set<nat>, keys: set<seq<byte>>,
                       before: Anchor, after: Anchor, change: int)
    requires before.Parsed() && after.Parsed() && IndicesFit(before)
    requires ShapeOk(funding, assets, keys, before, after, change)
    ensures before.tx.version == after.tx.version && before.tx.lockTime == after.tx.lockTime
    ensures |before.tx.ins| <= |after.tx.ins| && |before.tx.outs| <= |after.tx.outs|
    ensures forall i | 0 <= i < |before.tx.ins| ::
              before.tx.ins[i].prevOut == after.tx.ins[i].prevOut &&
              before.tx.ins[i].sequence == after.tx.ins[i].sequence &&
              InputCompatible(before.inputs[i], after.inputs[i])
    ensures forall i | 0 <= i < |before.tx.outs| && i in assets ::
              before.tx.outs[i].value == after.tx.outs[i].value && !IsChange(funding, i)
    ensures forall i | 0 <= i < |before.tx.outs| && i !in assets && !IsChange(funding, i) ::
              before.tx.outs[i] == after.tx.outs[i]
    ensures forall i | 0 <= i < |before.tx.outs| && i !in assets ::
              before.tx.outs[i].script == after.tx.outs[i].script
  {
    hide Filtered, InputCompatible;
    forall i | 0 <= i < |before.tx.ins|
      ensures before.tx.ins[i].prevOut == after.tx.ins[i].prevOut
      ensures before.tx.ins[i].sequence == after.tx.ins[i].sequence
      ensures InputCompatible(before.inputs[i], after.inputs[i])
    {
      assert InputKept(before, after, i);
    }
    forall i: nat | i < |before.tx.outs|
      ensures i in assets ==> before.tx.outs[i].value == after.tx.outs[i].value && !IsChange(funding, i)
      ensures i !in assets ==> before.tx.outs[i].script == after.tx.outs[i].script
      ensures i !in assets && !IsChange(funding, i) ==> before.tx.outs[i] == after.tx.outs[i]
    {
      assert OutputKept(before, after, ExistingChange(funding), assets, keys, i);
      assert AsInt32(i) == i;
    }
  }

  /** What filtering leaves: every field whose key is not filtered, as often as
      before, in the order it had. */
  lemma FilteredIs(a: seq<Unknown>, b: seq<Unknown>, keys: set<seq<byte>>)
    ensures forall u :: multiset(Filtered(b, keys))[u] == if u.key in keys then 0 else multiset(b)[u]
    ensures Filtered(a + b, keys) == Filtered(a, keys) + Filtered(b, keys)
  {
    forall u
      ensures multiset(Filtered(b, keys))[u] == if u.key in keys then 0 else multiset(b)[u]
    {
      FilteredCount(b, keys, u);
    }
    FilteredConcat(a, b, keys);
  }

  lemma {:induction false} FilteredCount(b: seq<Unknown>, keys: set<seq<byte>>, u: Unknown)
    ensures multiset(Filtered(b, keys))[u] == if u.key in keys then 0 else multiset(b)[u]
    decreases |b|
  {
    if b != [] {
      var init, last := b[..|b| - 1], b[|b| - 1];
      FilteredCount(init, keys, u);
      assert b == init + [last];
    }
  }

  lemma {:induction false} FilteredConcat(a: seq<Unknown>, b: seq<Unknown>, keys: set<seq<byte>>)
    ensures Filtered(a + b, keys) == Filtered(a, keys) + Filtered(b, keys)
    decreases |b|
  {
    if b == [] {
      assert a + b == a;
    } else {
      FilteredConcat(a, b[..|b| - 1], keys);
      assert (a + b)[..|a + b| - 1] == a + b[..|b| - 1];
    }
  }

  /** The input maps and the outpoints the response kept. */
  predicate KeepsInputs(before: Anchor, after: Anchor)
    requires before.Parsed() && after.Parsed()
  {
    && |before.tx.ins| <= |after.tx.ins|
    && forall i | 0 <= i < |before.tx.ins| ::
         && before.tx.ins[i].prevOut == after.tx.ins[i].prevOut && before.tx.ins[i].sequence == after.tx.ins[i].sequence
         && before.inputs[i].rest == after.inputs[i].rest
         && (forall d | d in before.inputs[i].derivations :: d in after.inputs[i].derivations)
         && (forall d | d in before.inputs[i].taprootDerivations :: d in after.inputs[i].taprootDerivations)
  }

  /** The outputs the response kept. An asset output may have another script and
      other commitment roots, the designated change output another value. */
  predicate KeepsOutputs(funding: Funding, assets: set<nat>, keys: set<seq<byte>>, before: Anchor, after: Anchor)
    requires before.Parsed() && after.Parsed()
  {
    && |before.tx.outs| <= |after.tx.outs|
    && forall i | 0 <= i < |before.tx.outs| :: KeepsOutput(funding, assets, keys, before, after, i)
  }

  predicate KeepsOutput(funding: Funding, assets: set<nat>, keys: set<seq<byte>>, before: Anchor, after: Anchor, i: nat)
    requires before.Parsed() && after.Parsed() && i < |before.tx.outs| <= |after.tx.outs|
  {
    var was, now := before.tx.outs[i], after.tx.outs[i];
    if i in assets then
      && funding != WalletFunded(Existing(i)) && was.value == now.value
      && before.outputs[i].rest == after.outputs[i].rest
      && Filtered(before.outputs[i].unknowns, keys) == Filtered(after.outputs[i].unknowns, keys)
    else
      && was.script == now.script && before.outputs[i] == after.outputs[i]
      && (funding == WalletFunded(Existing(i)) || was.value == now.value)
  }

  /** Which change output may be reported, from `n` outputs to `m`: none, a new
      last one, or the designated one. */
  predicate ReportsChange(funding: Funding, n: nat, m: nat, change: int) {
    || (change == -1 && m == n && funding in {SkipFunding, WalletFunded(Add), WalletFunded(NoNew)})
    || (change == n && m == n + 1 && funding == WalletFunded(Add))
    || (0 <= change < n && m == n && funding == WalletFunded(Existing(change)))
  }

  /** A response is accepted exactly when it keeps the PSBT's own fields, version
      and locktime, its inputs and its outputs, reports the change output it may,
      and appends inputs only with a wallet's funds. */
  lemma AcceptsExactly(funding: Funding, assets: set<nat>, keys: set<seq<byte>>,
                       before: Anchor, after: Anchor, change: int)
    requires before.Parsed() && after.Parsed() && IndicesFit(before)
    ensures ShapeOk(funding, assets, keys, before, after, change) <==>
            && before.globals == after.globals
            && before.tx.version == after.tx.version && before.tx.lockTime == after.tx.lockTime
            && KeepsInputs(before, after) && (funding.SkipFunding? ==> |after.tx.ins| == |before.tx.ins|)
            && KeepsOutputs(funding, assets, keys, before, after)
            && ReportsChange(funding, |before.tx.outs|, |after.tx.outs|, change)
  {
    hide Filtered;
    CountsExactly(funding, before, after, change);
    if |before.tx.ins| <= |after.tx.ins| && |before.tx.outs| <= |after.tx.outs| {
      forall i: nat | i < |before.tx.ins|
        ensures InputKept(before, after, i) <==>
                && before.tx.ins[i].prevOut == after.tx.ins[i].prevOut
                && before.tx.ins[i].sequence == after.tx.ins[i].sequence
                && before.inputs[i].rest == after.inputs[i].rest
                && (forall d | d in before.inputs[i].derivations :: d in after.inputs[i].derivations)
                && (forall d | d in before.inputs[i].taprootDerivations :: d in after.inputs[i].taprootDerivations)
      {
        Included(before.inputs[i].derivations, after.inputs[i].derivations);
        Included(before.inputs[i].taprootDerivations, after.inputs[i].taprootDerivations);
      }
      OutputsExactly(funding, assets, keys, before, after);
    }
    hide CountsOk, OutputKept, InputKept;
  }

  /** What a backend ordinarily returns is accepted: the submitted PSBT itself,
      with the change output where the caller put it, and with a wallet's funds
      also appended inputs and, if asked for, a new last output as change. */
  lemma OrdinaryResponses(assets: set<nat>, keys: set<seq<byte>>, a: Anchor, ins: seq<TxIn>, inMaps: seq<InMap>,
                          out: TxOut, outMap: OutMap)
    requires a.Parsed() && IndicesFit(a) && |ins| == |inMaps|
    ensures ShapeOk(SkipFunding, assets, keys, a, a, -1)
    ensures var funded := Anchor(a.tx.(ins := a.tx.ins + ins), a.inputs + inMaps, a.outputs, a.globals);
            && funded.Parsed()
            && ShapeOk(WalletFunded(Add), assets, keys, a, funded, -1)
            && ShapeOk(WalletFunded(NoNew), assets, keys, a, funded, -1)
            && forall i | 0 <= i < |a.tx.outs| && i !in assets ::
                 ShapeOk(WalletFunded(Existing(i)), assets, keys, a, funded, i)
    ensures var changed := Anchor(a.tx.(ins := a.tx.ins + ins, outs := a.tx.outs + [out]), a.inputs + inMaps,
                                  a.outputs + [outMap], a.globals);
            changed.Parsed() && ShapeOk(WalletFunded(Add), assets, keys, a, changed, |a.tx.outs|)
  {
    hide ShapeOk;
    var funded := Anchor(a.tx.(ins := a.tx.ins + ins), a.inputs + inMaps, a.outputs, a.globals);
    var changed := Anchor(a.tx.(ins := a.tx.ins + ins, outs := a.tx.outs + [out]), a.inputs + inMaps,
                          a.outputs + [outMap], a.globals);
    AcceptsExactly(SkipFunding, assets, keys, a, a, -1);
    AcceptsExactly(WalletFunded(Add), assets, keys, a, funded, -1);
    AcceptsExactly(WalletFunded(NoNew), assets, keys, a, funded, -1);
    AcceptsExactly(WalletFunded(Add), assets, keys, a, changed, |a.tx.outs|);
    forall i | 0 <= i < |a.tx.outs| && i !in assets
      ensures ShapeOk(WalletFunded(Existing(i)), assets, keys, a, funded, i)
    {
      AcceptsExactly(WalletFunded(Existing(i)), assets, keys, a, funded, i);
    }
  }

  lemma Included(a: seq<seq<byte>>, b: seq<seq<byte>>)
    ensures SetOf(a) <= SetOf(b) <==> forall d | d in a :: d in b
  {
    assert forall d :: d in a <==> d in SetOf(a);
  }

  lemma CountsExactly(funding: Funding, before: Anchor, after: Anchor, change: int)
    requires IndicesFit(before)
    ensures CountsOk(funding, before, after, change) <==>
            && |before.tx.ins| <= |after.tx.ins| && (funding.SkipFunding? ==> |after.tx.ins| == |before.tx.ins|)
            && ReportsChange(funding, |before.tx.outs|, |after.tx.outs|, change)
  {
    assert AsInt32(|before.tx.outs|) == |before.tx.outs|;
  }

  lemma OutputsExactly(funding: Funding, assets: set<nat>, keys: set<seq<byte>>, before: Anchor, after: Anchor)
    requires before.Parsed() && after.Parsed() && IndicesFit(before) && |before.tx.outs| <= |after.tx.outs|
    ensures (forall i | 0 <= i < |before.outputs| ::
               OutputKept(before, after, ExistingChange(funding), assets, keys, i)) <==>
            KeepsOutputs(funding, assets, keys, before, after)
  {
    hide Filtered;
    forall i: nat | i < |before.outputs|
      ensures OutputKept(before, after, ExistingChange(funding), assets, keys, i) <==>
              KeepsOutput(funding, assets, keys, before, after, i)
    {
      assert AsInt32(i) == i && i % 0x1_0000_0000 == i;
      assert ExistingChange(funding) == i <==> funding == WalletFunded(Existing(i));
    }
    hide OutputKept, KeepsOutput;
  }

  /** It adds at most one output, only when the caller asked for one, and that
      output is the change output the backend reports. */
  lemma AddedOutput(funding: Funding, assets: set<nat>, keys: set<seq<byte>>,
                    before: Anchor, after: Anchor, change: int)
    requires before.Parsed() && after.Parsed() && IndicesFit(before)
    requires ShapeOk(funding, assets, keys, before, after, change)
    ensures |after.tx.outs| <= |before.tx.outs| + 1
    ensures |after.tx.outs| != |before.tx.outs| ==> funding == WalletFunded(Add) && change == |before.tx.outs|
    ensures change != -1 ==> 0 <= change < |after.tx.outs| && funding.WalletFunded?
    ensures funding.SkipFunding? ==> |after.tx.ins| == |before.tx.ins|
  {
    hide OutputKept, InputKept;
    assert AsInt32(|before.tx.outs|) == |before.tx.outs|;
  }

  function ValueSum(outs: seq<TxOut>): int {
    if outs == [] then 0 else ValueSum(outs[..|outs| - 1]) + outs[|outs| - 1].value
  }

  /** The change output, wherever it is, after and before. */
  function ValueAt(a: Anchor, i: int): int {
    if 0 <= i < |a.tx.outs| then a.tx.outs[i].value else 0
  }

  lemma {:induction false} OneValueChanges(a: seq<TxOut>, b: seq<TxOut>, c: int)
    requires |a| == |b|
    requires forall i | 0 <= i < |a| && i != c :: a[i].value == b[i].value
    ensures ValueSum(b) - ValueSum(a) == if 0 <= c < |a| then b[c].value - a[c].value else 0
    decreases |a|
  {
    if a != [] {
      OneValueChanges(a[..|a| - 1], b[..|b| - 1], c);
    }
  }

  /** All the value a commit adds to or takes from the outputs is in the change
      output: nothing else the transaction pays changes. */
  lemma OnlyChangeMovesValue(funding: Funding, assets: set<nat>, keys: set<seq<byte>>,
                             before: Anchor, after: Anchor, change: int)
    requires before.Parsed() && after.Parsed() && IndicesFit(before)
    requires ShapeOk(funding, assets, keys, before, after, change)
    ensures ValueSum(after.tx.outs) - ValueSum(before.tx.outs) == ValueAt(after, change) - ValueAt(before, change)
  {
    AcceptedCommit(funding, assets, keys, before, after, change);
    AddedOutput(funding, assets, keys, before, after, change);
    assert CountsOk(funding, before, after, change);
    hide ShapeOk;
    var n := |before.tx.outs|;
    var kept := after.tx.outs[..n];
    forall i: nat | i < n && i != change
      ensures before.tx.outs[i].value == kept[i].value
    {
      assert kept[i] == after.tx.outs[i];
      assert !IsChange(funding, i);
    }
    OneValueChanges(before.tx.outs, kept, change);
    if |after.tx.outs| == n {
      assert kept == after.tx.outs;
    }
  }

  // ------------------------------------------------------------- the lock inventory

  /** The outpoints spent at these input indices. */
  function OutpointsAt(tx: Tx, indices: seq<nat>): (s: seq<Outpoint>)
    requires forall i | 0 <= i < |indices| :: indices[i] < |tx.ins|
    ensures |s| == |indices|
  {
    seq(|indices|, i requires 0 <= i < |indices| => tx.ins[indices[i]].prevOut)
  }

  predicate IndicesIn(tx: Tx, indices: seq<nat>) {
    forall i | 0 <= i < |indices| :: indices[i] < |tx.ins|
  }

  /** What `validateCustomAnchorLockInventory` accepts: the locked outpoints are
      those of the backend-managed inputs, each once. */
  ghost predicate InventoryOk(funding: Funding, tx: Tx, managed: seq<nat>, locked: seq<Outpoint>) {
    if funding.SkipFunding? then locked == []
    else IndicesIn(tx, managed) && Distinct(locked) && SetOf(locked) == SetOf(OutpointsAt(tx, managed))
  }

  method ValidateInventory(funding: Funding, tx: Tx, managed: seq<nat>, locked: seq<Outpoint>) returns (ok: bool)
    requires |tx.ins| < 0x1_0000_0000
    ensures ok <==> InventoryOk(funding, tx, managed, locked)
  {
    hide SetOf, Distinct;
    if funding.SkipFunding? {
      return |locked| == 0;
    }
    var expected := ExpectedLocks(tx, managed);
    if expected.None? {
      return false;
    }
    var actual := DistinctLocks(locked);
    if actual.None? || |expected.value| != |actual.value| {
      return false;
    }
    if !(expected.value <= actual.value) {
      return false;
    }
    SubsetSizes(expected.value, actual.value);
    ok := true;
  }

  method ExpectedLocks(tx: Tx, managed: seq<nat>) returns (r: Option<set<Outpoint>>)
    requires |tx.ins| < 0x1_0000_0000
    ensures r.Some? <==> IndicesIn(tx, managed)
    ensures r.Some? ==> r.value == SetOf(OutpointsAt(tx, managed))
  {
    var expected: set<Outpoint> := {};
    for k := 0 to |managed|
      invariant IndicesIn(tx, managed[..k]) && expected == SetOf(OutpointsAt(tx, managed[..k]))
    {
      if managed[k] >= |tx.ins| % 0x1_0000_0000 {
        return None;
      }
      ghost var before, upTo := managed[..k], managed[..k + 1];
      assert upTo == before + [managed[k]];
      forall j | 0 <= j < |upTo|
        ensures upTo[j] < |tx.ins|
      {
        assert j < k ==> upTo[j] == before[j];
      }
      assert OutpointsAt(tx, upTo) == OutpointsAt(tx, before) + [tx.ins[managed[k]].prevOut];
      expected := expected + {tx.ins[managed[k]].prevOut};
    }
    assert managed[..|managed|] == managed;
    r := Some(expected);
  }

  method DistinctLocks(locked: seq<Outpoint>) returns (r: Option<set<Outpoint>>)
    ensures r.Some? <==> Distinct(locked)
    ensures r.Some? ==> r.value == SetOf(locked)
  {
    var actual: set<Outpoint> := {};
    for k := 0 to |locked|
      invariant Distinct(locked[..k]) && actual == SetOf(locked[..k])
    {
      TakeOneMore(locked, k);
      DistinctAppend(locked[..k], locked[k]);
      if locked[k] in actual {
        assert !Distinct(locked[..k + 1]);
        DistinctPrefix(locked, k + 1);
        return None;
      }
      actual := actual + {locked[k]};
    }
    assert locked[..|locked|] == locked;
    r := Some(actual);
  }

  /** The inputs the backend appended. */
  function AddedOutpoints(before: Tx, after: Tx): set<Outpoint> {
    set i | |before.ins| <= i < |after.ins| :: after.ins[i].prevOut
  }

  /** In wallet-funded mode the locked outpoints are exactly the outpoints of
      the appended inputs; otherwise nothing is locked and nothing appended. */
  lemma LocksAreAddedInputs(funding: Funding, assets: set<nat>, keys: set<seq<byte>>,
                            before: Anchor, after: Anchor, change: int, locked: seq<Outpoint>)
    requires before.Parsed() && after.Parsed()
    requires ShapeOk(funding, assets, keys, before, after, change)
    requires InventoryOk(funding, after.tx, Added(|before.tx.ins|, |after.tx.ins|), locked)
    ensures SetOf(locked) == AddedOutpoints(before.tx, after.tx)
  {
    hide OutputKept, InputKept;
    var n, m := |before.tx.ins|, |after.tx.ins|;
    var managed := Added(n, m);
    if funding.WalletFunded? {
      var spent := OutpointsAt(after.tx, managed);
      forall x
        ensures x in SetOf(spent) <==> x in AddedOutpoints(before.tx, after.tx)
      {
        if x in SetOf(spent) {
          var k :| 0 <= k < |spent| && spent[k] == x;
          assert after.tx.ins[n + k].prevOut == x;
        }
        if x in AddedOutpoints(before.tx, after.tx) {
          var i :| n <= i < m && after.tx.ins[i].prevOut == x;
          assert spent[i - n] == x;
        }
      }
    }
  }

  /** The inventory accepted where the wallet funds: every backend-managed index is
      an input, and of the outpoints, those of managed inputs are locked once and
      no other is. */
  lemma InventoryExactly(policy: ChangePolicy, tx: Tx, managed: seq<nat>, locked: seq<Outpoint>)
    ensures InventoryOk(SkipFunding, tx, managed, locked) <==> locked == []
    ensures InventoryOk(WalletFunded(policy), tx, managed, locked) <==>
            && (forall i | i in managed :: i < |tx.ins|)
            && forall o :: multiset(locked)[o] == if SpentByOne(tx, managed, o) then 1 else 0
  {
    hide Distinct, SetOf;
    assert forall k | 0 <= k < |managed| :: managed[k] in managed;
    if IndicesIn(tx, managed) {
      var spent := OutpointsAt(tx, managed);
      forall o
        ensures o in SetOf(spent) <==> SpentByOne(tx, managed, o)
      {
        SpentOutpoint(tx, managed, o);
      }
      LockedOnce(locked, SetOf(spent));
    }
  }

  /** One of these inputs spends the outpoint. */
  predicate SpentByOne(tx: Tx, indices: seq<nat>, o: Outpoint) {
    exists i | i in indices :: i < |tx.ins| && tx.ins[i].prevOut == o
  }

  lemma SpentOutpoint(tx: Tx, indices: seq<nat>, o: Outpoint)
    requires IndicesIn(tx, indices)
    ensures o in SetOf(OutpointsAt(tx, indices)) <==> SpentByOne(tx, indices, o)
  {
    var spent := OutpointsAt(tx, indices);
    if i :| i in indices && i < |tx.ins| && tx.ins[i].prevOut == o {
      var k :| 0 <= k < |indices| && indices[k] == i;
      assert spent[k] == o;
    }
    if o in SetOf(spent) {
      var k :| 0 <= k < |spent| && spent[k] == o;
      assert indices[k] in indices;
    }
  }

  lemma LockedOnce(locked: seq<Outpoint>, wanted: set<Outpoint>)
    ensures Distinct(locked) && SetOf(locked) == wanted <==>
            forall o :: multiset(locked)[o] == if o in wanted then 1 else 0
  {
    if Distinct(locked) && SetOf(locked) == wanted {
      DistinctSize(locked);
      assert forall o :: multiset(locked)[o] == multiset(wanted)[o];
    }
    if forall o :: multiset(locked)[o] == if o in wanted then 1 else 0 {
      assert multiset(locked) == multiset(wanted);
      assert forall o :: o in locked <==> o in multiset(locked);
      assert SetOf(locked) == wanted;
      assert |locked| == |multiset(locked)| == |wanted|;
      FullSetIsDistinct(locked);
    }
  }
}
