/** The value checks of an anchor transaction and its fee
    (custom_anchor_builder.go), with the lookup of the outputs it spends
    (custom_anchor_signing.go). */
module AnchorFees {
  import opened Wrappers
  import opened Bytes
  import opened Integers
  import opened Collections
  import opened NativeProofs
  import opened AnchorPsbt

  const MAX_SATOSHI := 2_100_000_000_000_000
  const P2A_SCRIPT: seq<byte> := [0x51, 0x02, 0x4e, 0x73]

  /** A previous transaction given in full. */
  datatype PrevTx = PrevTx(txid: nat, outs: seq<TxOut>)

  /** What an input map says about the output the input spends. */
  datatype Utxos = Utxos(whole: Option<PrevTx>, single: Option<TxOut>)

  /** The transaction with the UTXO fields of its input maps, one per input. */
  datatype Funded = Funded(tx: Tx, utxos: seq<Utxos>) {
    predicate Parsed() {
      |utxos| == |tx.ins|
    }
  }

  // ---------------------------------------------------------------- spent outputs

  /** The output of a full previous transaction; a mismatch is an error. */
  function WholeOut(u: Utxos, o: Outpoint): Option<TxOut> {
    if u.whole.Some? && u.whole.value.txid == o.txid && o.index < |u.whole.value.outs| % 0x1_0000_0000
    then Some(u.whole.value.outs[o.index]) else None
  }

  /** `anchorPrevOut`: both fields, where given, must name the same output. */
  function PrevOutOf(u: Utxos, o: Outpoint): Option<TxOut> {
    if u.whole.Some? && WholeOut(u, o).None? then None
    else if u.single.Some? then
      if u.whole.Some? && WholeOut(u, o) != u.single then None else u.single
    else WholeOut(u, o)
  }

  function OutpointsOf(p: Funded): (s: seq<Outpoint>)
    ensures |s| == |p.tx.ins|
  {
    seq(|p.tx.ins|, i requires 0 <= i < |p.tx.ins| => p.tx.ins[i].prevOut)
  }

  /** Every input has a known previous output and no two spend the same one. */
  predicate PrevOutsKnown(p: Funded)
    requires p.Parsed()
  {
    && Distinct(OutpointsOf(p))
    && forall i | 0 <= i < |p.utxos| :: PrevOutOf(p.utxos[i], p.tx.ins[i].prevOut).Some?
  }

  /** The values the inputs spend. */
  function InputValues(p: Funded): (v: seq<int>)
    requires p.Parsed() && PrevOutsKnown(p)
    ensures |v| == |p.tx.ins|
  {
    seq(|p.tx.ins|, i requires 0 <= i < |p.tx.ins| =>
      assert PrevOutOf(p.utxos[i], p.tx.ins[i].prevOut).Some?; PrevOutOf(p.utxos[i], p.tx.ins[i].prevOut).value.value)
  }

  function OutputValues(tx: Tx): (v: seq<int>)
    ensures |v| == |tx.outs|
  {
    seq(|tx.outs|, i requires 0 <= i < |tx.outs| => tx.outs[i].value)
  }

  method PrevOut(u: Utxos, o: Outpoint) returns (r: Option<TxOut>)
    ensures r == PrevOutOf(u, o)
  {
    var wholeOut: Option<TxOut> := None;
    if u.whole.Some? {
      if u.whole.value.txid != o.txid || o.index >= |u.whole.value.outs| % 0x1_0000_0000 {
        return None;
      }
      wholeOut := Some(u.whole.value.outs[o.index]);
    }
    if u.single.Some? {
      if wholeOut.Some? && wholeOut.value != u.single.value {
        return None;
      }
      return u.single;
    }
    r := wholeOut;
  }

  /** `anchorPrevOuts`, as far as values go. */
  method PrevOutValues(p: Funded) returns (r: Option<seq<int>>)
    requires p.Parsed()
    ensures r.Some? <==> PrevOutsKnown(p)
    ensures r.Some? ==> r.value == InputValues(p)
  {
    hide PrevOutOf, Distinct;
    ghost var all := OutpointsOf(p);
    var seen: set<Outpoint> := {};
    var values: seq<int> := [];
    assert Distinct(all[..0]) by { DistinctNone(all[..0]); }
    for i := 0 to |p.utxos|
      invariant Distinct(all[..i]) && seen == SetOf(all[..i]) && |values| == i
      invariant forall k | 0 <= k < i :: KnownValue(p, k, values[k])
    {
      var outpoint := p.tx.ins[i].prevOut;
      TakeOneMore(all, i);
      DistinctAppend(all[..i], all[i]);
      if outpoint in seen {
        DistinctPrefix(all, i + 1);
        return None;
      }
      seen := seen + {outpoint};
      var prevOut := PrevOut(p.utxos[i], outpoint);
      if prevOut.None? {
        return None;
      }
      values := values + [prevOut.value.value];
      assert KnownValue(p, i, values[i]);
    }
    assert all[..|p.utxos|] == all;
    AllKnown(p, values);
    r := Some(values);
  }

  predicate KnownValue(p: Funded, i: nat, value: int)
    requires p.Parsed() && i < |p.utxos|
  {
    && PrevOutOf(p.utxos[i], p.tx.ins[i].prevOut).Some?
    && PrevOutOf(p.utxos[i], p.tx.ins[i].prevOut).value.value == value
  }

  lemma AllKnown(p: Funded, values: seq<int>)
    requires p.Parsed() && |values| == |p.utxos| && Distinct(OutpointsOf(p))
    requires forall k | 0 <= k < |p.utxos| :: KnownValue(p, k, values[k])
    ensures PrevOutsKnown(p) && values == InputValues(p)
  {
    hide PrevOutOf, Distinct;
    forall k | 0 <= k < |p.utxos|
      ensures PrevOutOf(p.utxos[k], p.tx.ins[k].prevOut).Some?
      ensures PrevOutOf(p.utxos[k], p.tx.ins[k].prevOut).value.value == values[k]
    {
      assert KnownValue(p, k, values[k]);
    }
  }

  lemma DistinctNone(s: seq<Outpoint>)
    requires s == []
    ensures Distinct(s)
  {
  }

  // ----------------------------------------------------------------------- totals

  function Total(values: seq<int>): int {
    if values == [] then 0 else Total(values[..|values| - 1]) + values[|values| - 1]
  }

  predicate InRange(values: seq<int>) {
    (forall i | 0 <= i < |values| :: 0 <= values[i] <= MAX_SATOSHI) && Total(values) <= MAX_SATOSHI
  }

  lemma {:induction false} TotalPrefix(values: seq<int>, n: nat)
    requires n <= |values| && forall i | 0 <= i < |values| :: 0 <= values[i]
    ensures 0 <= Total(values[..n]) <= Total(values)
    decreases |values|
  {
    if values == [] {
    } else if n == |values| {
      TotalPrefix(values[..n - 1], n - 1);
      assert values[..n] == values && values[..n - 1][..n - 1] == values[..n - 1];
    } else {
      assert values[..|values| - 1][..n] == values[..n];
      TotalPrefix(values[..|values| - 1], n);
    }
  }

  /** A guarded running total. */
  method CheckedTotal(values: seq<int>) returns (r: Option<int64>)
    ensures r.Some? <==> InRange(values)
    ensures r.Some? ==> r.value == Total(values) && r.value >= 0
  {
    var total: int64 := 0;
    for i := 0 to |values|
      invariant total == Total(values[..i]) && 0 <= total <= MAX_SATOSHI
      invariant forall k | 0 <= k < i :: 0 <= values[k] <= MAX_SATOSHI
    {
      assert values[..i + 1][..i] == values[..i];
      if values[i] < 0 || values[i] > MAX_SATOSHI {
        return None;
      }
      if total > MAX_SATOSHI - values[i] {
        if forall k | 0 <= k < |values| :: 0 <= values[k] <= MAX_SATOSHI {
          TotalPrefix(values, i + 1);
        }
        return None;
      }
      total := total + values[i];
    }
    assert values[..|values|] == values;
    r := Some(total);
  }

  /** The unguarded total of `customAnchorTransactionFee`: after the check no
      intermediate sum leaves 64 bits. */
  method PlainTotal(values: seq<int>) returns (total: int64)
    requires InRange(values)
    ensures total == Total(values)
  {
    total := 0;
    for i := 0 to |values|
      invariant total == Total(values[..i])
    {
      assert values[..i + 1][..i] == values[..i];
      TotalPrefix(values, i + 1);
      total := total + values[i];
    }
    assert values[..|values|] == values;
  }

  // ---------------------------------------------------------------- the transaction

  predicate ZeroP2A(o: TxOut) {
    o.value == 0 && o.script == P2A_SCRIPT
  }

  /** The outputs are paid for, and a zero-value pay-to-anchor output means a
      fee of exactly zero. */
  predicate PaidFor(tx: Tx, totalIn: int) {
    && InRange(OutputValues(tx)) && Total(OutputValues(tx)) <= totalIn
    && ((exists i | 0 <= i < |tx.outs| :: ZeroP2A(tx.outs[i])) ==> Total(OutputValues(tx)) == totalIn)
  }

  /** What `validateCustomAnchorBitcoinTransaction` accepts; `sane` is the
      consensus library's check of the transaction alone. */
  predicate TransactionOk(sane: Tx -> bool, p: Funded, requireFunded: bool)
    requires p.Parsed()
  {
    && sane(p.tx) && PrevOutsKnown(p) && InRange(InputValues(p))
    && (requireFunded ==> PaidFor(p.tx, Total(InputValues(p))))
  }

  method ValidateTransaction(sane: Tx -> bool, p: Funded, requireFunded: bool) returns (ok: bool)
    requires p.Parsed()
    ensures ok <==> TransactionOk(sane, p, requireFunded)
  {
    hide PrevOutsKnown, InRange, Total;
    if !sane(p.tx) {
      return false;
    }
    var values := PrevOutValues(p);
    if values.None? {
      return false;
    }
    var totalInput := CheckedTotal(values.value);
    if totalInput.None? {
      return false;
    }
    if !requireFunded {
      return true;
    }
    ok := CheckPaid(p.tx, totalInput.value);
  }

  method CheckPaid(tx: Tx, totalInput: int64) returns (ok: bool)
    ensures ok <==> PaidFor(tx, totalInput)
  {
    hide InRange, Total;
    var totalOutput := CheckedTotal(OutputValues(tx));
    if totalOutput.None? {
      return false;
    }
    var hasZeroP2A := false;
    for i := 0 to |tx.outs|
      invariant hasZeroP2A <==> exists k | 0 <= k < i :: ZeroP2A(tx.outs[k])
    {
      hasZeroP2A := hasZeroP2A || ZeroP2A(tx.outs[i]);
    }
    if totalOutput.value > totalInput {
      return false;
    }
    ok := !hasZeroP2A || totalInput - totalOutput.value == 0;
  }

  /** `customAnchorTransactionFee`: for an accepted funded transaction the exact
      difference of what it spends and what it pays, never negative, computed
      without leaving 64 bits. */
  method TransactionFee(sane: Tx -> bool, p: Funded) returns (fee: Option<nat>)
    requires p.Parsed()
    ensures fee.Some? <==> TransactionOk(sane, p, true)
    ensures fee.Some? ==> fee.value == Total(InputValues(p)) - Total(OutputValues(p.tx)) <= MAX_SATOSHI
    ensures fee.Some? && (exists i | 0 <= i < |p.tx.outs| :: ZeroP2A(p.tx.outs[i])) ==> fee.value == 0
  {
    hide PrevOutsKnown, Total;
    var ok := ValidateTransaction(sane, p, true);
    if !ok {
      return None;
    }
    var values := PrevOutValues(p);
    var totalInput := PlainTotal(values.value);
    var totalOutput := PlainTotal(OutputValues(p.tx));
    assert totalOutput >= 0 by { TotalPrefix(OutputValues(p.tx), 0); }
    fee := Some(totalInput - totalOutput);
  }

  // ------------------------------------------------ exactly which are accepted

  /** The input map names this output: it has one of the two fields, and each
      field it has names it. */
  predicate Spends(u: Utxos, o: Outpoint, out: TxOut) {
    && (u.whole.Some? || u.single.Some?)
    && (u.single.Some? ==> u.single.value == out)
    && (u.whole.Some? ==>
          && u.whole.value.txid == o.txid && o.index < |u.whole.value.outs|
          && u.whole.value.outs[o.index] == out)
  }

  /** No previous transaction has 2^32 outputs. */
  predicate Indexable(p: Funded) {
    forall i | 0 <= i < |p.utxos| && p.utxos[i].whole.Some? :: |p.utxos[i].whole.value.outs| < 0x1_0000_0000
  }

  lemma SpendsExactly(u: Utxos, o: Outpoint, out: TxOut)
    requires u.whole.Some? ==> |u.whole.value.outs| < 0x1_0000_0000
    ensures PrevOutOf(u, o) == Some(out) <==> Spends(u, o, out)
  {
  }

  ghost predicate SpendsAll(p: Funded, spent: seq<TxOut>)
    requires p.Parsed()
  {
    |spent| == |p.tx.ins| && forall i | 0 <= i < |spent| :: Spends(p.utxos[i], p.tx.ins[i].prevOut, spent[i])
  }

  function ValuesOf(outs: seq<TxOut>): (v: seq<int>)
    ensures |v| == |outs| && forall i | 0 <= i < |v| :: v[i] == outs[i].value
  {
    seq(|outs|, i requires 0 <= i < |outs| => outs[i].value)
  }

  /** An anchor transaction is accepted exactly when it is sane, no two inputs spend
      the same outpoint, each input map names the output it spends, and the values
      are amounts of bitcoin; a funded one must also pay for its outputs, to the
      satoshi if one of them is a zero-value pay-to-anchor output. */
  lemma AcceptsExactly(sane: Tx -> bool, p: Funded, requireFunded: bool)
    requires p.Parsed() && Indexable(p)
    ensures TransactionOk(sane, p, requireFunded) <==>
            && sane(p.tx)
            && (forall i, j | 0 <= i < j < |p.tx.ins| :: p.tx.ins[i].prevOut != p.tx.ins[j].prevOut)
            && exists spent :: SpendsAll(p, spent) && AreAmounts(ValuesOf(spent)) &&
                 (requireFunded ==> Pays(p.tx, Total(ValuesOf(spent))))
  {
    hide PrevOutOf, Total, Spends;
    DistinctOutpoints(p);
    PaysExactly(p.tx);
    forall values
      ensures AreAmounts(values) <==> InRange(values)
    {
    }
    if PrevOutsKnown(p) {
      var spent := KnownAreSpent(p);
    }
    forall spent | SpendsAll(p, spent) && Distinct(OutpointsOf(p))
      ensures PrevOutsKnown(p) && ValuesOf(spent) == InputValues(p)
    {
      SpentAreKnown(p, spent);
    }
    hide PrevOutsKnown, PaidFor, Pays, SpendsAll;
  }

  lemma KnownAreSpent(p: Funded) returns (spent: seq<TxOut>)
    requires p.Parsed() && Indexable(p) && PrevOutsKnown(p)
    ensures SpendsAll(p, spent) && ValuesOf(spent) == InputValues(p)
  {
    hide PrevOutOf, Spends;
    spent := seq(|p.tx.ins|, i requires 0 <= i < |p.tx.ins| =>
      assert PrevOutOf(p.utxos[i], p.tx.ins[i].prevOut).Some?; PrevOutOf(p.utxos[i], p.tx.ins[i].prevOut).value);
    forall i | 0 <= i < |spent|
      ensures Spends(p.utxos[i], p.tx.ins[i].prevOut, spent[i])
    {
      SpendsExactly(p.utxos[i], p.tx.ins[i].prevOut, spent[i]);
      assert PrevOutOf(p.utxos[i], p.tx.ins[i].prevOut).Some?;
    }
  }

  lemma SpentAreKnown(p: Funded, spent: seq<TxOut>)
    requires p.Parsed() && Indexable(p) && SpendsAll(p, spent) && Distinct(OutpointsOf(p))
    ensures PrevOutsKnown(p) && ValuesOf(spent) == InputValues(p)
  {
    hide PrevOutOf, Spends;
    forall i | 0 <= i < |p.utxos|
      ensures PrevOutOf(p.utxos[i], p.tx.ins[i].prevOut) == Some(spent[i])
    {
      SpendsExactly(p.utxos[i], p.tx.ins[i].prevOut, spent[i]);
    }
  }

  /** None is negative, and each of them and their sum is at most 21 million
      bitcoin. */
  predicate AreAmounts(values: seq<int>) {
    && Total(values) <= 21_000_000 * 100_000_000
    && forall i | 0 <= i < |values| :: 0 <= values[i] <= 21_000_000 * 100_000_000
  }

  predicate Pays(tx: Tx, totalIn: int) {
    && AreAmounts(ValuesOf(tx.outs)) && Total(ValuesOf(tx.outs)) <= totalIn
    && (TxOut(0, [0x51, 0x02, 0x4e, 0x73]) in tx.outs ==> Total(ValuesOf(tx.outs)) == totalIn)
  }

  lemma PaysExactly(tx: Tx)
    ensures forall totalIn :: Pays(tx, totalIn) <==> PaidFor(tx, totalIn)
  {
    hide Total;
    assert ValuesOf(tx.outs) == OutputValues(tx);
    if TxOut(0, P2A_SCRIPT) in tx.outs {
      var i :| 0 <= i < |tx.outs| && tx.outs[i] == TxOut(0, P2A_SCRIPT);
      assert ZeroP2A(tx.outs[i]);
    }
    if i :| 0 <= i < |tx.outs| && ZeroP2A(tx.outs[i]) {
      assert tx.outs[i] == TxOut(0, P2A_SCRIPT);
    }
  }

  lemma DistinctOutpoints(p: Funded)
    ensures Distinct(OutpointsOf(p)) <==>
            forall i, j | 0 <= i < j < |p.tx.ins| :: p.tx.ins[i].prevOut != p.tx.ins[j].prevOut
  {
    forall i, j | 0 <= i < j < |p.tx.ins|
      ensures OutpointsOf(p)[i] == OutpointsOf(p)[j] <==> p.tx.ins[i].prevOut == p.tx.ins[j].prevOut
    {
    }
  }
}
