/** Asset conservation in a custom-anchor request (custom_anchor_types.go,
    custom_anchor_builder.go): per-asset totals with checked 64-bit sums, and
    the allowance for irreversible loss. */
module Amounts {
  import opened Wrappers
  import opened Integers
  import opened Collections
  import opened AssetRefs

  /** When two references name the same asset, as a key, and which references
      are well formed. */
  datatype Assets = Assets(key: string -> string, valid: string -> bool)

  /** Asset identity as the request code computes it. */
  function AssetsOf(l: Library): Assets {
    Assets((ref: string) => AssetKey(l, ref), (ref: string) => DecodeRef(l, ref).Some?)
  }

  datatype Input = Input(ref: string, amount: uint64)

  datatype Output = Output(ref: string, amount: uint64, burn: bool)

  datatype LossMode = Reject | Burn | UnknownMode

  datatype Allowance = Allowance(ref: string, maxAmount: uint64)

  datatype LossPolicy = LossPolicy(mode: LossMode, allowances: seq<Allowance>, confirmed: bool)

  /** `checkedCustomAnchorAdd`. */
  function CheckedAdd(left: uint64, right: uint64): (r: Option<uint64>)
    ensures r.Some? <==> left + right <= MAX_UINT64
    ensures r.Some? ==> r.value == left + right
  {
    var sum := (left + right) % (MAX_UINT64 + 1);
    if sum != left + right then None else Some(sum)
  }

  // ------------------------------------------------- what is asked for, as integers

  function InTotal(assets: Assets, key: string, inputs: seq<Input>): nat {
    if inputs == [] then 0 else
    var last := inputs[|inputs| - 1];
    InTotal(assets, key, inputs[..|inputs| - 1]) + if assets.key(last.ref) == key then last.amount else 0
  }

  function OutTotal(assets: Assets, key: string, outputs: seq<Output>): nat {
    if outputs == [] then 0 else
    var last := outputs[|outputs| - 1];
    OutTotal(assets, key, outputs[..|outputs| - 1]) + if assets.key(last.ref) == key then last.amount else 0
  }

  function BurnTotal(assets: Assets, key: string, outputs: seq<Output>): (n: nat) {
    if outputs == [] then 0 else
    var last := outputs[|outputs| - 1];
    BurnTotal(assets, key, outputs[..|outputs| - 1]) +
    if last.burn && assets.key(last.ref) == key then last.amount else 0
  }

  lemma {:induction false} BurnsAreOutputs(assets: Assets, key: string, outputs: seq<Output>)
    ensures BurnTotal(assets, key, outputs) <= OutTotal(assets, key, outputs)
    decreases |outputs|
  {
    if outputs != [] {
      BurnsAreOutputs(assets, key, outputs[..|outputs| - 1]);
    }
  }

  lemma {:induction false} InPrefix(assets: Assets, key: string, inputs: seq<Input>, n: nat)
    requires n <= |inputs|
    ensures InTotal(assets, key, inputs[..n]) <= InTotal(assets, key, inputs)
    decreases |inputs|
  {
    if n == |inputs| {
      assert inputs[..n] == inputs;
    } else {
      assert inputs[..|inputs| - 1][..n] == inputs[..n];
      InPrefix(assets, key, inputs[..|inputs| - 1], n);
    }
  }

  lemma {:induction false} OutPrefix(assets: Assets, key: string, outputs: seq<Output>, n: nat)
    requires n <= |outputs|
    ensures OutTotal(assets, key, outputs[..n]) <= OutTotal(assets, key, outputs)
    decreases |outputs|
  {
    if n == |outputs| {
      assert outputs[..n] == outputs;
    } else {
      assert outputs[..|outputs| - 1][..n] == outputs[..n];
      OutPrefix(assets, key, outputs[..|outputs| - 1], n);
    }
  }

  /** `allowance`: of the first entry for the asset, if loss is confirmed. */
  function AllowanceOf(assets: Assets, policy: LossPolicy, key: string): uint64 {
    if policy.mode != Burn || !policy.confirmed then 0 else FirstAllowance(assets, policy.allowances, key)
  }

  function FirstAllowance(assets: Assets, allowances: seq<Allowance>, key: string): uint64 {
    if allowances == [] then 0
    else if assets.key(allowances[0].ref) == key then allowances[0].maxAmount
    else FirstAllowance(assets, allowances[1..], key)
  }

  ghost predicate InputsFit(assets: Assets, inputs: seq<Input>) {
    forall key :: InTotal(assets, key, inputs) <= MAX_UINT64
  }

  ghost predicate OutputsFit(assets: Assets, outputs: seq<Output>) {
    forall key :: OutTotal(assets, key, outputs) <= MAX_UINT64
  }

  predicate BalancedAt(assets: Assets, inputs: seq<Input>, outputs: seq<Output>, key: string) {
    InTotal(assets, key, inputs) == OutTotal(assets, key, outputs)
  }

  predicate WithinAt(assets: Assets, outputs: seq<Output>, policy: LossPolicy, key: string) {
    BurnTotal(assets, key, outputs) <= AllowanceOf(assets, policy, key)
  }

  /** What `validateAmounts` accepts. */
  ghost predicate AmountsOk(assets: Assets, inputs: seq<Input>, outputs: seq<Output>, policy: LossPolicy) {
    && InputsFit(assets, inputs) && OutputsFit(assets, outputs)
    && (forall i | 0 <= i < |outputs| :: BalancedAt(assets, inputs, outputs, assets.key(outputs[i].ref)))
    && (forall i | 0 <= i < |inputs| :: WithinAt(assets, outputs, policy, assets.key(inputs[i].ref)))
  }

  // -------------------------------------------------------------------- the totals

  datatype Totals = Totals(ref: string, inputs: uint64, outputs: uint64, burned: uint64)

  /** The map holds the totals of everything seen so far. */
  ghost predicate Tracks(assets: Assets, totals: map<string, Totals>, inputs: seq<Input>, outputs: seq<Output>) {
    forall key :: TracksAt(assets, totals, inputs, outputs, key)
  }

  predicate TracksAt(assets: Assets, totals: map<string, Totals>, inputs: seq<Input>, outputs: seq<Output>, key: string) {
    var n, m, b := InTotal(assets, key, inputs), OutTotal(assets, key, outputs), BurnTotal(assets, key, outputs);
    if key in totals
    then assets.key(totals[key].ref) == key &&
         totals[key].inputs == n && totals[key].outputs == m && totals[key].burned == b
    else n == 0 && m == 0 && b == 0
  }

  /** `customAnchorTotals`: the entry of an asset, or a new one. */
  function Entry(assets: Assets, totals: map<string, Totals>, ref: string): Totals {
    if assets.key(ref) in totals then totals[assets.key(ref)] else Totals(ref, 0, 0, 0)
  }

  method AddInputs(assets: Assets, inputs: seq<Input>) returns (r: Option<map<string, Totals>>)
    ensures r.Some? <==> InputsFit(assets, inputs)
    ensures r.Some? ==> Tracks(assets, r.value, inputs, [])
    ensures r.Some? ==> forall i | 0 <= i < |inputs| :: assets.key(inputs[i].ref) in r.value
  {
    var totals: map<string, Totals> := map[];
    for i := 0 to |inputs|
      invariant Tracks(assets, totals, inputs[..i], [])
      invariant forall j | 0 <= j < i :: assets.key(inputs[j].ref) in totals
    {
      var input := inputs[i];
      var key := assets.key(input.ref);
      var entry := Entry(assets, totals, input.ref);
      assert TracksAt(assets, totals, inputs[..i], [], key);
      assert inputs[..i + 1][..i] == inputs[..i];
      var amount := CheckedAdd(entry.inputs, input.amount);
      if amount.None? {
        InPrefix(assets, key, inputs, i + 1);
        return None;
      }
      var next := totals[key := entry.(inputs := amount.value)];
      ghost var upTo := inputs[..i + 1];
      forall k
        ensures TracksAt(assets, next, upTo, [], k)
      {
        assert TracksAt(assets, totals, inputs[..i], [], k);
      }
      totals := next;
    }
    assert inputs[..|inputs|] == inputs;
    forall key
      ensures InTotal(assets, key, inputs) <= MAX_UINT64
    {
      assert TracksAt(assets, totals, inputs, [], key);
    }
    r := Some(totals);
  }

  method AddOutputs(assets: Assets, inputs: seq<Input>, outputs: seq<Output>, start: map<string, Totals>)
    returns (r: Option<map<string, Totals>>)
    requires Tracks(assets, start, inputs, [])
    ensures r.Some? <==> OutputsFit(assets, outputs)
    ensures r.Some? ==> Tracks(assets, r.value, inputs, outputs)
    ensures r.Some? ==> forall i | 0 <= i < |outputs| :: assets.key(outputs[i].ref) in r.value
    ensures r.Some? ==> start.Keys <= r.value.Keys
  {
    var totals := start;
    for i := 0 to |outputs|
      invariant Tracks(assets, totals, inputs, outputs[..i])
      invariant forall j | 0 <= j < i :: assets.key(outputs[j].ref) in totals
      invariant start.Keys <= totals.Keys
    {
      var output := outputs[i];
      var key := assets.key(output.ref);
      var entry := Entry(assets, totals, output.ref);
      assert TracksAt(assets, totals, inputs, outputs[..i], key);
      assert outputs[..i + 1][..i] == outputs[..i];
      var amount := CheckedAdd(entry.outputs, output.amount);
      if amount.None? {
        OutPrefix(assets, key, outputs, i + 1);
        return None;
      }
      entry := entry.(outputs := amount.value);
      if output.burn {
        var burned := CheckedAdd(entry.burned, output.amount);
        BurnsAreOutputs(assets, key, outputs[..i]);
        // The source's overflow error for this sum cannot occur: what is burned
        // is part of what is output, and that sum fitted.
        assert burned.Some?;
        entry := entry.(burned := burned.value);
      }
      var next := totals[key := entry];
      ghost var upTo := outputs[..i + 1];
      forall k
        ensures TracksAt(assets, next, inputs, upTo, k)
      {
        assert TracksAt(assets, totals, inputs, outputs[..i], k);
      }
      totals := next;
    }
    assert outputs[..|outputs|] == outputs;
    forall key
      ensures OutTotal(assets, key, outputs) <= MAX_UINT64
    {
      assert TracksAt(assets, totals, inputs, outputs, key);
    }
    r := Some(totals);
  }

  method CheckBalances(assets: Assets, ghost inputs: seq<Input>, outputs: seq<Output>, totals: map<string, Totals>)
    returns (ok: bool)
    requires Tracks(assets, totals, inputs, outputs)
    requires forall i | 0 <= i < |outputs| :: assets.key(outputs[i].ref) in totals
    ensures ok <==> forall i | 0 <= i < |outputs| :: BalancedAt(assets, inputs, outputs, assets.key(outputs[i].ref))
  {
    hide InTotal, OutTotal, BurnTotal;
    var seen: set<string> := {};
    for i := 0 to |outputs|
      invariant forall j | 0 <= j < i :: assets.key(outputs[j].ref) in seen
      invariant forall key | key in seen :: BalancedAt(assets, inputs, outputs, key)
    {
      var key := assets.key(outputs[i].ref);
      if key !in seen {
        seen := seen + {key};
        assert TracksAt(assets, totals, inputs, outputs, key);
        if totals[key].outputs != totals[key].inputs {
          return false;
        }
      }
    }
    ok := true;
  }

  method CheckLosses(assets: Assets, inputs: seq<Input>, ghost outputs: seq<Output>, policy: LossPolicy,
                     totals: map<string, Totals>) returns (ok: bool)
    requires Tracks(assets, totals, inputs, outputs)
    requires forall i | 0 <= i < |inputs| :: assets.key(inputs[i].ref) in totals
    ensures ok <==> forall i | 0 <= i < |inputs| :: WithinAt(assets, outputs, policy, assets.key(inputs[i].ref))
  {
    hide InTotal, OutTotal, BurnTotal, AllowanceOf;
    var seen: set<string> := {};
    for i := 0 to |inputs|
      invariant forall j | 0 <= j < i :: assets.key(inputs[j].ref) in seen
      invariant forall key | key in seen :: WithinAt(assets, outputs, policy, key)
    {
      var key := assets.key(inputs[i].ref);
      if key !in seen {
        seen := seen + {key};
        var entry := totals[key];
        assert TracksAt(assets, totals, inputs, outputs, key);
        var loss := entry.burned;
        if loss != 0 && loss > AllowanceOf(assets, policy, assets.key(entry.ref)) {
          return false;
        }
      }
    }
    ok := true;
  }

  /** `validateAmounts`. */
  method ValidateAmounts(assets: Assets, inputs: seq<Input>, outputs: seq<Output>, policy: LossPolicy)
    returns (ok: bool)
    ensures ok <==> AmountsOk(assets, inputs, outputs, policy)
  {
    hide Tracks, InputsFit, OutputsFit, BalancedAt, WithinAt;
    var afterInputs := AddInputs(assets, inputs);
    if afterInputs.None? {
      return false;
    }
    var totals := AddOutputs(assets, inputs, outputs, afterInputs.value);
    if totals.None? {
      return false;
    }
    var balanced := CheckBalances(assets, inputs, outputs, totals.value);
    if !balanced {
      return false;
    }
    ok := CheckLosses(assets, inputs, outputs, policy, totals.value);
  }

  // ---------------------------------------------------------------- the loss policy

  function AllowanceKeys(assets: Assets, allowances: seq<Allowance>): (s: seq<string>)
    ensures |s| == |allowances|
  {
    seq(|allowances|, i requires 0 <= i < |allowances| => assets.key(allowances[i].ref))
  }

  function AllowanceSum(allowances: seq<Allowance>): nat {
    if allowances == [] then 0
    else AllowanceSum(allowances[..|allowances| - 1]) + allowances[|allowances| - 1].maxAmount
  }

  /** What `CustomAnchorLossPolicy.Validate` accepts. */
  ghost predicate PolicyOk(assets: Assets, p: LossPolicy) {
    match p.mode
    case Reject => p.allowances == [] && !p.confirmed
    case Burn =>
      && p.confirmed && p.allowances != []
      && (forall i | 0 <= i < |p.allowances| :: AllowanceOk(assets, p.allowances[i]))
      && Distinct(AllowanceKeys(assets, p.allowances)) && AllowanceSum(p.allowances) <= MAX_UINT64
    case UnknownMode => false
  }

  predicate AllowanceOk(assets: Assets, a: Allowance) {
    assets.valid(a.ref) && a.maxAmount > 0
  }

  lemma {:induction false} AllowancePrefix(allowances: seq<Allowance>, n: nat)
    requires n <= |allowances|
    ensures AllowanceSum(allowances[..n]) <= AllowanceSum(allowances)
    decreases |allowances|
  {
    if n == |allowances| {
      assert allowances[..n] == allowances;
    } else {
      assert allowances[..|allowances| - 1][..n] == allowances[..n];
      AllowancePrefix(allowances[..|allowances| - 1], n);
    }
  }

  method ValidatePolicy(assets: Assets, p: LossPolicy) returns (ok: bool)
    ensures ok <==> PolicyOk(assets, p)
  {
    hide AllowanceOk, Distinct, SetOf;
    match p.mode
    case Reject => return |p.allowances| == 0 && !p.confirmed;
    case UnknownMode => return false;
    case Burn =>
    if !p.confirmed || |p.allowances| == 0 {
      return false;
    }
    ghost var keys := AllowanceKeys(assets, p.allowances);
    var seen: set<string> := {};
    var total: uint64 := 0;
    assert Distinct(keys[..0]) by { DistinctNothing(keys[..0]); }
    for i := 0 to |p.allowances|
      invariant forall j | 0 <= j < i :: AllowanceOk(assets, p.allowances[j])
      invariant Distinct(keys[..i]) && forall key :: key in seen <==> key in keys[..i]
      invariant total == AllowanceSum(p.allowances[..i])
    {
      assert p.allowances[..i + 1][..i] == p.allowances[..i];
      AllowancePrefix(p.allowances, i + 1);
      assert keys[..i + 1] == keys[..i] + [keys[i]];
      DistinctAppend(keys[..i], keys[i]);
      if !AllowanceOk(assets, p.allowances[i]) {
        return false;
      }
      var key := assets.key(p.allowances[i].ref);
      if key in seen {
        DistinctPrefix(keys, i + 1);
        return false;
      }
      seen := seen + {key};
      var sum := CheckedAdd(total, p.allowances[i].maxAmount);
      if sum.None? {
        return false;
      }
      total := sum.value;
    }
    assert keys[..|keys|] == keys && p.allowances[..|p.allowances|] == p.allowances;
    ok := true;
  }

  lemma DistinctNothing(s: seq<string>)
    requires s == []
    ensures Distinct(s)
  {
  }

  // ------------------------------------------------------------------- conservation

  lemma {:induction false} NoOutput(assets: Assets, key: string, outputs: seq<Output>)
    requires forall i | 0 <= i < |outputs| :: assets.key(outputs[i].ref) != key
    ensures OutTotal(assets, key, outputs) == 0
    decreases |outputs|
  {
    if outputs != [] {
      NoOutput(assets, key, outputs[..|outputs| - 1]);
    }
  }

  lemma {:induction false} NoInput(assets: Assets, key: string, inputs: seq<Input>)
    requires forall i | 0 <= i < |inputs| :: assets.key(inputs[i].ref) != key
    ensures InTotal(assets, key, inputs) == 0
    decreases |inputs|
  {
    if inputs != [] {
      NoInput(assets, key, inputs[..|inputs| - 1]);
    }
  }

  /** Over the integers, for every asset there is: what is output went in, and
      what is burned stays within the confirmed allowance, which is zero unless
      loss was confirmed. */
  lemma ConservesAssets(assets: Assets, inputs: seq<Input>, outputs: seq<Output>, policy: LossPolicy, key: string)
    requires AmountsOk(assets, inputs, outputs, policy)
    ensures OutTotal(assets, key, outputs) > 0 ==> InTotal(assets, key, inputs) == OutTotal(assets, key, outputs)
    ensures BurnTotal(assets, key, outputs) <= AllowanceOf(assets, policy, key)
    ensures policy.mode == Reject ==> BurnTotal(assets, key, outputs) == 0
  {
    BurnsAreOutputs(assets, key, outputs);
    if i :| 0 <= i < |outputs| && assets.key(outputs[i].ref) == key {
      assert BalancedAt(assets, inputs, outputs, assets.key(outputs[i].ref));
    } else {
      NoOutput(assets, key, outputs);
    }
    if i :| 0 <= i < |inputs| && assets.key(inputs[i].ref) == key {
      assert WithinAt(assets, outputs, policy, assets.key(inputs[i].ref));
    } else {
      NoInput(assets, key, inputs);
    }
  }

  /** The builder refuses an input group without a matching output. */
  predicate EveryInputHasOutputs(assets: Assets, inputs: seq<Input>, outputs: seq<Output>) {
    forall i | 0 <= i < |inputs| :: HasOutput(assets, outputs, assets.key(inputs[i].ref))
  }

  predicate HasOutput(assets: Assets, outputs: seq<Output>, key: string) {
    exists j | 0 <= j < |outputs| :: assets.key(outputs[j].ref) == key
  }

  lemma {:induction false} InAtLeast(assets: Assets, inputs: seq<Input>, i: nat)
    requires i < |inputs|
    ensures InTotal(assets, assets.key(inputs[i].ref), inputs) >= inputs[i].amount
    decreases |inputs|
  {
    if i < |inputs| - 1 {
      InAtLeast(assets, inputs[..|inputs| - 1], i);
    }
  }

  lemma BalancedInput(assets: Assets, inputs: seq<Input>, outputs: seq<Output>, i: nat)
    requires i < |inputs| && inputs[i].amount > 0
    requires BalancedAt(assets, inputs, outputs, assets.key(inputs[i].ref))
    ensures HasOutput(assets, outputs, assets.key(inputs[i].ref))
  {
    InAtLeast(assets, inputs, i);
    if !HasOutput(assets, outputs, assets.key(inputs[i].ref)) {
      NoOutput(assets, assets.key(inputs[i].ref), outputs);
    }
  }

  /** Every asset is conserved. */
  ghost predicate Conserved(assets: Assets, inputs: seq<Input>, outputs: seq<Output>) {
    forall key :: BalancedAt(assets, inputs, outputs, key)
  }

  /** Exactly when accepted amounts conserve every asset: when every input with
      something in it has an output of its asset. The request check admits no
      empty input, so that is the builder's check and nothing less. */
  lemma ConservesExactly(assets: Assets, inputs: seq<Input>, outputs: seq<Output>, policy: LossPolicy)
    requires AmountsOk(assets, inputs, outputs, policy)
    ensures Conserved(assets, inputs, outputs) <==>
            forall i | 0 <= i < |inputs| && inputs[i].amount > 0 ::
              HasOutput(assets, outputs, assets.key(inputs[i].ref))
    ensures (forall i | 0 <= i < |inputs| :: inputs[i].amount > 0) ==>
              (Conserved(assets, inputs, outputs) <==> EveryInputHasOutputs(assets, inputs, outputs))
  {
    if Conserved(assets, inputs, outputs) {
      forall i | 0 <= i < |inputs| && inputs[i].amount > 0
        ensures HasOutput(assets, outputs, assets.key(inputs[i].ref))
      {
        BalancedInput(assets, inputs, outputs, i);
      }
    }
    if forall i | 0 <= i < |inputs| && inputs[i].amount > 0 :: HasOutput(assets, outputs, assets.key(inputs[i].ref)) {
      forall key
        ensures BalancedAt(assets, inputs, outputs, key)
      {
        BalancedWhereSpent(assets, inputs, outputs, policy, key);
      }
    }
  }

  lemma BalancedWhereSpent(assets: Assets, inputs: seq<Input>, outputs: seq<Output>, policy: LossPolicy, key: string)
    requires AmountsOk(assets, inputs, outputs, policy)
    requires forall i | 0 <= i < |inputs| && inputs[i].amount > 0 ::
               HasOutput(assets, outputs, assets.key(inputs[i].ref))
    ensures BalancedAt(assets, inputs, outputs, key)
  {
    if HasOutput(assets, outputs, key) {
      var j :| 0 <= j < |outputs| && assets.key(outputs[j].ref) == key;
      assert BalancedAt(assets, inputs, outputs, assets.key(outputs[j].ref));
    } else {
      NoOutput(assets, key, outputs);
      NothingIn(assets, key, inputs);
    }
  }

  lemma {:induction false} NothingIn(assets: Assets, key: string, inputs: seq<Input>)
    requires forall i | 0 <= i < |inputs| && inputs[i].amount > 0 :: assets.key(inputs[i].ref) != key
    ensures InTotal(assets, key, inputs) == 0
    decreases |inputs|
  {
    if inputs != [] {
      NothingIn(assets, key, inputs[..|inputs| - 1]);
    }
  }

  /** Without the builder's check the amounts alone allow an asset to vanish: a
      request whose one output matches its first input passes whatever a second
      input of another asset holds. */
  lemma UnspentInputsPass(assets: Assets, a: string, x: uint64, b: string, y: uint64)
    requires x > 0 && y > 0 && assets.key(a) != assets.key(b)
    ensures AmountsOk(assets, [Input(a, x), Input(b, y)], [Output(a, x, false)], LossPolicy(Reject, [], false))
    ensures InTotal(assets, assets.key(b), [Input(a, x), Input(b, y)]) == y
    ensures OutTotal(assets, assets.key(b), [Output(a, x, false)]) == 0
  {
    var inputs, outputs := [Input(a, x), Input(b, y)], [Output(a, x, false)];
    assert inputs[..1] == [Input(a, x)] && [Input(a, x)][..0] == [] && outputs[..0] == [];
    forall key
      ensures InTotal(assets, key, inputs) ==
              (if assets.key(a) == key then x else 0) + if assets.key(b) == key then y else 0
      ensures OutTotal(assets, key, outputs) == if assets.key(a) == key then x else 0
      ensures BurnTotal(assets, key, outputs) == 0
    {
      assert InTotal(assets, key, []) == 0 && OutTotal(assets, key, []) == 0 && BurnTotal(assets, key, []) == 0;
      assert InTotal(assets, key, [Input(a, x)]) == if assets.key(a) == key then x else 0;
    }
  }

  // -------------------------------------------------------- loss over all assets

  function TotalBurned(outputs: seq<Output>): nat {
    if outputs == [] then 0 else
    var last := outputs[|outputs| - 1];
    TotalBurned(outputs[..|outputs| - 1]) + if last.burn then last.amount else 0
  }

  function BurnedOf(assets: Assets, keys: seq<string>, outputs: seq<Output>): nat {
    if keys == [] then 0
    else BurnedOf(assets, keys[..|keys| - 1], outputs) + BurnTotal(assets, keys[|keys| - 1], outputs)
  }

  lemma {:induction false} OneMoreBurn(assets: Assets, keys: seq<string>, outputs: seq<Output>)
    requires Distinct(keys) && outputs != []
    ensures var last := outputs[|outputs| - 1];
            BurnedOf(assets, keys, outputs) == BurnedOf(assets, keys, outputs[..|outputs| - 1]) +
              if last.burn && assets.key(last.ref) in keys then last.amount else 0
    decreases |keys|
  {
    if keys != [] {
      var init, key := keys[..|keys| - 1], keys[|keys| - 1];
      assert keys == init + [key];
      DistinctAppend(init, key);
      OneMoreBurn(assets, init, outputs);
    }
  }

  lemma {:induction false} NothingBurned(assets: Assets, keys: seq<string>)
    ensures BurnedOf(assets, keys, []) == 0
    decreases |keys|
  {
    if keys != [] {
      NothingBurned(assets, keys[..|keys| - 1]);
    }
  }

  lemma {:induction false} BurnsAreCovered(assets: Assets, keys: seq<string>, outputs: seq<Output>)
    requires Distinct(keys)
    requires forall key | key !in keys :: BurnTotal(assets, key, outputs) == 0
    ensures TotalBurned(outputs) == BurnedOf(assets, keys, outputs)
    decreases |outputs|
  {
    hide BurnedOf;
    if outputs == [] {
      NothingBurned(assets, keys);
    } else {
      var init, last := outputs[..|outputs| - 1], outputs[|outputs| - 1];
      forall key | key !in keys
        ensures BurnTotal(assets, key, init) == 0
      {
        assert BurnTotal(assets, key, outputs) == 0;
      }
      OneMoreBurn(assets, keys, outputs);
      BurnsAreCovered(assets, keys, init);
      assert last.burn && assets.key(last.ref) !in keys ==> BurnTotal(assets, assets.key(last.ref), outputs) == 0;
    }
  }

  lemma {:induction false} FirstIsOnly(assets: Assets, allowances: seq<Allowance>, i: nat)
    requires Distinct(AllowanceKeys(assets, allowances)) && i < |allowances|
    ensures FirstAllowance(assets, allowances, assets.key(allowances[i].ref)) == allowances[i].maxAmount
    decreases |allowances|
  {
    var keys := AllowanceKeys(assets, allowances);
    if i > 0 {
      assert keys[0] != keys[i];
      assert AllowanceKeys(assets, allowances[1..]) == keys[1..];
      assert forall j, k | 0 <= j < k < |keys[1..]| :: keys[1..][j] == keys[j + 1] && keys[1..][k] == keys[k + 1];
      FirstIsOnly(assets, allowances[1..], i - 1);
    }
  }

  lemma {:induction false} NoAllowance(assets: Assets, allowances: seq<Allowance>, key: string)
    requires key !in AllowanceKeys(assets, allowances)
    ensures FirstAllowance(assets, allowances, key) == 0
    decreases |allowances|
  {
    if allowances != [] {
      var keys := AllowanceKeys(assets, allowances);
      assert keys[0] in keys;
      assert AllowanceKeys(assets, allowances[1..]) == keys[1..];
      NoAllowance(assets, allowances[1..], key);
    }
  }

  lemma {:induction false} BurnedWithinSum(assets: Assets, allowances: seq<Allowance>, outputs: seq<Output>)
    requires forall i | 0 <= i < |allowances| ::
               BurnTotal(assets, assets.key(allowances[i].ref), outputs) <= allowances[i].maxAmount
    ensures BurnedOf(assets, AllowanceKeys(assets, allowances), outputs) <= AllowanceSum(allowances)
    decreases |allowances|
  {
    hide BurnTotal;
    if allowances != [] {
      var init := allowances[..|allowances| - 1];
      var keys := AllowanceKeys(assets, allowances);
      assert keys[..|keys| - 1] == AllowanceKeys(assets, init);
      BurnedWithinSum(assets, init, outputs);
    }
  }

  /** With a valid policy, everything burned in one request, whatever the
      assets, is at most the sum of the confirmed allowances. */
  lemma TotalLossIsBounded(assets: Assets, inputs: seq<Input>, outputs: seq<Output>, policy: LossPolicy)
    requires AmountsOk(assets, inputs, outputs, policy) && PolicyOk(assets, policy)
    ensures TotalBurned(outputs) <= AllowanceSum(policy.allowances) <= MAX_UINT64
  {
    hide AmountsOk, Distinct, AllowanceOk;
    var keys := AllowanceKeys(assets, policy.allowances);
    if policy.mode == Reject {
      assert Distinct(keys) by { DistinctNothing(keys); }
    }
    forall key | key !in keys
      ensures BurnTotal(assets, key, outputs) == 0
    {
      ConservesAssets(assets, inputs, outputs, policy, key);
      NoAllowance(assets, policy.allowances, key);
    }
    forall i | 0 <= i < |policy.allowances|
      ensures BurnTotal(assets, assets.key(policy.allowances[i].ref), outputs) <= policy.allowances[i].maxAmount
    {
      ConservesAssets(assets, inputs, outputs, policy, assets.key(policy.allowances[i].ref));
      FirstIsOnly(assets, policy.allowances, i);
    }
    BurnsAreCovered(assets, keys, outputs);
    BurnedWithinSum(assets, policy.allowances, outputs);
  }

  // ----------------------------------------------- conservation by asset identity

  /** Everything that goes in under references equivalent to this one. */
  function InOf(l: Library, ref: string, inputs: seq<Input>): nat {
    if inputs == [] then 0 else
    var last := inputs[|inputs| - 1];
    InOf(l, ref, inputs[..|inputs| - 1]) + if Equivalent(l, last.ref, ref) then last.amount else 0
  }

  /** Everything that comes out under references equivalent to this one. */
  function OutOf(l: Library, ref: string, outputs: seq<Output>): nat {
    if outputs == [] then 0 else
    var last := outputs[|outputs| - 1];
    OutOf(l, ref, outputs[..|outputs| - 1]) + if Equivalent(l, last.ref, ref) then last.amount else 0
  }

  lemma {:induction false} InByKey(l: Library, ref: string, inputs: seq<Input>)
    ensures InOf(l, ref, inputs) == InTotal(AssetsOf(l), AssetKey(l, ref), inputs)
    decreases |inputs|
  {
    hide Equivalent, AssetKey;
    if inputs != [] {
      InByKey(l, ref, inputs[..|inputs| - 1]);
      KeyIsEquivalence(l, inputs[|inputs| - 1].ref, ref);
    }
  }

  lemma {:induction false} OutByKey(l: Library, ref: string, outputs: seq<Output>)
    ensures OutOf(l, ref, outputs) == OutTotal(AssetsOf(l), AssetKey(l, ref), outputs)
    decreases |outputs|
  {
    hide Equivalent, AssetKey;
    if outputs != [] {
      OutByKey(l, ref, outputs[..|outputs| - 1]);
      KeyIsEquivalence(l, outputs[|outputs| - 1].ref, ref);
    }
  }

  /** For one reference, the API's view and the key's view of balance agree. */
  lemma SameBalance(l: Library, ref: string, inputs: seq<Input>, outputs: seq<Output>)
    ensures InOf(l, ref, inputs) == OutOf(l, ref, outputs) <==>
            BalancedAt(AssetsOf(l), inputs, outputs, AssetsOf(l).key(ref))
  {
    hide Equivalent, AssetKey;
    InByKey(l, ref, inputs);
    OutByKey(l, ref, outputs);
    assert AssetsOf(l).key(ref) == AssetKey(l, ref);
  }

  ghost predicate EquivalentsConserved(l: Library, inputs: seq<Input>, outputs: seq<Output>) {
    forall ref :: InOf(l, ref, inputs) == OutOf(l, ref, outputs)
  }

  /** Conservation in the terms of the API: for every reference, in whatever
      spelling and for either parity of a group key, the equivalent inputs and
      the equivalent outputs add up to the same amount, exactly when every input
      has an output of its asset. */
  lemma ConservesEquivalents(l: Library, inputs: seq<Input>, outputs: seq<Output>, policy: LossPolicy)
    requires AmountsOk(AssetsOf(l), inputs, outputs, policy)
    requires forall i | 0 <= i < |inputs| :: inputs[i].amount > 0
    ensures EquivalentsConserved(l, inputs, outputs) <==> EveryInputHasOutputs(AssetsOf(l), inputs, outputs)
  {
    hide AssetsOf, AmountsOk, InOf, OutOf, BalancedAt, HasOutput;
    if EveryInputHasOutputs(AssetsOf(l), inputs, outputs) {
      ConservesExactly(AssetsOf(l), inputs, outputs, policy);
      forall ref
        ensures InOf(l, ref, inputs) == OutOf(l, ref, outputs)
      {
        SameBalance(l, ref, inputs, outputs);
      }
    }
    if EquivalentsConserved(l, inputs, outputs) {
      forall i | 0 <= i < |inputs|
        ensures HasOutput(AssetsOf(l), outputs, AssetsOf(l).key(inputs[i].ref))
      {
        SameBalance(l, inputs[i].ref, inputs, outputs);
        BalancedInput(AssetsOf(l), inputs, outputs, i);
      }
    }
  }

  // -------------------------------------------- exactly what the checks accept

  /** Everything burned under references equivalent to this one. */
  function BurnOf(l: Library, ref: string, outputs: seq<Output>): nat {
    if outputs == [] then 0 else
    var last := outputs[|outputs| - 1];
    BurnOf(l, ref, outputs[..|outputs| - 1]) + if last.burn && Equivalent(l, last.ref, ref) then last.amount else 0
  }

  lemma {:induction false} BurnByKey(l: Library, ref: string, outputs: seq<Output>)
    ensures BurnOf(l, ref, outputs) == BurnTotal(AssetsOf(l), AssetKey(l, ref), outputs)
    decreases |outputs|
  {
    hide Equivalent, AssetKey;
    if outputs != [] {
      BurnByKey(l, ref, outputs[..|outputs| - 1]);
      KeyIsEquivalence(l, outputs[|outputs| - 1].ref, ref);
    }
  }

  /** A confirmed policy allows burning this much of this asset. */
  ghost predicate Allows(l: Library, policy: LossPolicy, ref: string, loss: nat) {
    policy.mode == Burn && policy.confirmed &&
    exists i :: 0 <= i < |policy.allowances| &&
      Equivalent(l, policy.allowances[i].ref, ref) && loss <= policy.allowances[i].maxAmount
  }

  /** No two allowances are for one asset. */
  predicate OneEach(l: Library, allowances: seq<Allowance>) {
    forall i, j | 0 <= i < j < |allowances| :: !Equivalent(l, allowances[i].ref, allowances[j].ref)
  }

  lemma OneEachIsDistinct(l: Library, allowances: seq<Allowance>)
    ensures OneEach(l, allowances) <==> Distinct(AllowanceKeys(AssetsOf(l), allowances))
  {
    hide Equivalent, AssetKey;
    forall i, j | 0 <= i < j < |allowances|
      ensures AllowanceKeys(AssetsOf(l), allowances)[i] == AllowanceKeys(AssetsOf(l), allowances)[j] <==>
              Equivalent(l, allowances[i].ref, allowances[j].ref)
    {
      KeyIsEquivalence(l, allowances[i].ref, allowances[j].ref);
    }
  }

  lemma AllowanceIs(l: Library, policy: LossPolicy, ref: string, loss: nat)
    requires OneEach(l, policy.allowances)
    ensures loss <= AllowanceOf(AssetsOf(l), policy, AssetKey(l, ref)) <==> loss == 0 || Allows(l, policy, ref, loss)
  {
    hide Equivalent, AssetKey;
    var assets, key := AssetsOf(l), AssetKey(l, ref);
    OneEachIsDistinct(l, policy.allowances);
    if policy.mode == Burn {
      forall i | 0 <= i < |policy.allowances|
        ensures assets.key(policy.allowances[i].ref) == key <==> Equivalent(l, policy.allowances[i].ref, ref)
        ensures Equivalent(l, policy.allowances[i].ref, ref) ==>
                  FirstAllowance(assets, policy.allowances, key) == policy.allowances[i].maxAmount
      {
        KeyIsEquivalence(l, policy.allowances[i].ref, ref);
        FirstIsOnly(assets, policy.allowances, i);
      }
      if key !in AllowanceKeys(assets, policy.allowances) {
        NoAllowance(assets, policy.allowances, key);
      }
    }
  }

  /** A loss policy is accepted exactly when it rejects loss and says nothing else,
      or is confirmed and lists positive allowances for well-formed references, no
      two of them equivalent, that together fit 64 bits. */
  lemma PolicyExactly(l: Library, p: LossPolicy)
    ensures PolicyOk(AssetsOf(l), p) <==>
            || p == LossPolicy(Reject, [], false)
            || (p.mode == Burn && p.confirmed && p.allowances != []
                && (forall i | 0 <= i < |p.allowances| ::
                      DecodeRef(l, p.allowances[i].ref).Some? && p.allowances[i].maxAmount > 0)
                && OneEach(l, p.allowances) && AllowanceSum(p.allowances) <= MAX_UINT64)
  {
    hide Equivalent, AssetKey, DecodeRef, AllowanceSum;
    OneEachIsDistinct(l, p.allowances);
  }

  /** No asset's inputs, and no asset's outputs, exceed 64 bits. */
  ghost predicate AllFit(l: Library, inputs: seq<Input>, outputs: seq<Output>) {
    forall ref :: InOf(l, ref, inputs) <= MAX_UINT64 && OutOf(l, ref, outputs) <= MAX_UINT64
  }

  lemma FitsByReference(l: Library, inputs: seq<Input>, outputs: seq<Output>)
    ensures AllFit(l, inputs, outputs) <==> InputsFit(AssetsOf(l), inputs) && OutputsFit(AssetsOf(l), outputs)
  {
    hide Equivalent, AssetKey;
    var assets := AssetsOf(l);
    forall ref
      ensures InOf(l, ref, inputs) == InTotal(assets, assets.key(ref), inputs)
      ensures OutOf(l, ref, outputs) == OutTotal(assets, assets.key(ref), outputs)
    {
      InByKey(l, ref, inputs);
      OutByKey(l, ref, outputs);
    }
    forall key
      ensures InTotal(assets, key, inputs) == 0 || exists i :: 0 <= i < |inputs| && assets.key(inputs[i].ref) == key
      ensures OutTotal(assets, key, outputs) == 0 || exists i :: 0 <= i < |outputs| && assets.key(outputs[i].ref) == key
    {
      if forall i | 0 <= i < |inputs| :: assets.key(inputs[i].ref) != key {
        NoInput(assets, key, inputs);
      }
      if forall i | 0 <= i < |outputs| :: assets.key(outputs[i].ref) != key {
        NoOutput(assets, key, outputs);
      }
    }
    hide InOf, OutOf, InTotal, OutTotal;
  }

  /** Where no two allowances are for one asset, as an accepted policy has it,
      amounts are accepted exactly when everything fits, every asset with an output
      balances, and of every asset that goes in nothing is burned or no more than a
      confirmed allowance for it. */
  lemma AmountsExactly(l: Library, inputs: seq<Input>, outputs: seq<Output>, policy: LossPolicy)
    requires OneEach(l, policy.allowances)
    ensures AmountsOk(AssetsOf(l), inputs, outputs, policy) <==>
            && AllFit(l, inputs, outputs)
            && (forall i | 0 <= i < |outputs| ::
                  InOf(l, outputs[i].ref, inputs) == OutOf(l, outputs[i].ref, outputs))
            && (forall i | 0 <= i < |inputs| ::
                  BurnOf(l, inputs[i].ref, outputs) == 0
                  || Allows(l, policy, inputs[i].ref, BurnOf(l, inputs[i].ref, outputs)))
  {
    hide OneEach, InOf, OutOf, BurnOf, BalancedAt, AllFit, InputsFit, OutputsFit, Allows, AssetKey, AllowanceOf;
    FitsByReference(l, inputs, outputs);
    forall i | 0 <= i < |outputs|
      ensures InOf(l, outputs[i].ref, inputs) == OutOf(l, outputs[i].ref, outputs) <==>
              BalancedAt(AssetsOf(l), inputs, outputs, AssetsOf(l).key(outputs[i].ref))
    {
      SameBalance(l, outputs[i].ref, inputs, outputs);
    }
    forall i | 0 <= i < |inputs|
      ensures WithinAt(AssetsOf(l), outputs, policy, AssetsOf(l).key(inputs[i].ref)) <==>
              BurnOf(l, inputs[i].ref, outputs) == 0
              || Allows(l, policy, inputs[i].ref, BurnOf(l, inputs[i].ref, outputs))
    {
      BurnByKey(l, inputs[i].ref, outputs);
      AllowanceIs(l, policy, inputs[i].ref, BurnOf(l, inputs[i].ref, outputs));
    }
    hide WithinAt;
  }
}
