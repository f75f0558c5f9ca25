/** Signing plans and the requests derived from them
    (custom_anchor_signing.go, custom_anchor_lifecycle.go). */
module SigningPlans {
  import opened Wrappers
  import opened Bytes
  import opened Collections

  type Key = seq<byte>

  datatype MuSig2Plan = MuSig2Plan(participants: seq<Key>, sessionContext: seq<byte>)

  datatype ScriptPathPlan = ScriptPathPlan(leafHash: nat, requiredSigners: seq<Key>)

  /** A tagged union written as optional variants: callers must set exactly one. */
  datatype SigningPlan = SigningPlan(
    inputIndex: nat,
    keyPath: Option<Key>,
    muSig2: Option<MuSig2Plan>,
    scriptPath: Option<ScriptPathPlan>,
    callerSigned: bool)

  /** The curve library: which byte strings are keys. */
  datatype Curve = Curve(xOnly: Key -> bool, pubKey: Key -> bool)

  // ----------------------------------------------------------------- plan validity

  predicate KeysOk(valid: Key -> bool, keys: seq<Key>) {
    (forall i | 0 <= i < |keys| :: valid(keys[i])) && Distinct(keys)
  }

  /** `validateCustomAnchorXOnlyKeys` and `validateCustomAnchorPubKeys`. */
  method ValidateKeys(valid: Key -> bool, keys: seq<Key>) returns (ok: bool)
    ensures ok <==> KeysOk(valid, keys)
  {
    var seen: set<Key> := {};
    for i := 0 to |keys|
      invariant forall k | 0 <= k < i :: valid(keys[k])
      invariant Distinct(keys[..i]) && seen == SetOf(keys[..i])
    {
      TakeOneMore(keys, i);
      DistinctAppend(keys[..i], keys[i]);
      if !valid(keys[i]) {
        return false;
      }
      if keys[i] in seen {
        assert !Distinct(keys[..i + 1]);
        DistinctPrefix(keys, i + 1);
        return false;
      }
      seen := seen + {keys[i]};
    }
    assert keys[..|keys|] == keys;
    ok := true;
  }

  predicate PlanOk(c: Curve, p: SigningPlan) {
    && (p.keyPath.Some? ==> c.xOnly(p.keyPath.value))
    && (p.muSig2.Some? ==>
          && |p.muSig2.value.participants| >= 2 && p.muSig2.value.sessionContext != []
          && KeysOk(c.pubKey, p.muSig2.value.participants))
    && (p.scriptPath.Some? ==>
          p.scriptPath.value.leafHash != 0 && KeysOk(c.xOnly, p.scriptPath.value.requiredSigners))
    && Variants(p) == 1
  }

  function Variants(p: SigningPlan): nat {
    (if p.keyPath.Some? then 1 else 0) + (if p.muSig2.Some? then 1 else 0) +
    (if p.scriptPath.Some? then 1 else 0) + (if p.callerSigned then 1 else 0)
  }

  method ValidatePlan(c: Curve, p: SigningPlan) returns (ok: bool)
    ensures ok <==> PlanOk(c, p)
  {
    var variants := 0;
    if p.keyPath.Some? {
      variants := variants + 1;
      if !c.xOnly(p.keyPath.value) {
        return false;
      }
    }
    if p.muSig2.Some? {
      variants := variants + 1;
      if |p.muSig2.value.participants| < 2 || p.muSig2.value.sessionContext == [] {
        return false;
      }
      var keysOk := ValidateKeys(c.pubKey, p.muSig2.value.participants);
      if !keysOk {
        return false;
      }
    }
    if p.scriptPath.Some? {
      variants := variants + 1;
      if p.scriptPath.value.leafHash == 0 {
        return false;
      }
      var keysOk := ValidateKeys(c.xOnly, p.scriptPath.value.requiredSigners);
      if !keysOk {
        return false;
      }
    }
    if p.callerSigned {
      variants := variants + 1;
    }
    ok := variants == 1;
  }

  ghost predicate AllKeys(valid: Key -> bool, keys: seq<Key>) {
    (forall k | k in keys :: valid(k)) && forall i, j | 0 <= i < j < |keys| :: keys[i] != keys[j]
  }

  /** A plan is accepted exactly when it is of one of four kinds: a valid key; two
      or more distinct valid participants with a session; a leaf with distinct
      valid signers, none included; or nothing but the caller's word. */
  lemma PlanKinds(c: Curve, p: SigningPlan)
    ensures PlanOk(c, p) <==>
            || (exists key :: p == SigningPlan(p.inputIndex, Some(key), None, None, false) && c.xOnly(key))
            || (exists keys, session ::
                  && p == SigningPlan(p.inputIndex, None, Some(MuSig2Plan(keys, session)), None, false)
                  && |keys| >= 2 && session != [] && AllKeys(c.pubKey, keys))
            || (exists leaf, signers ::
                  && p == SigningPlan(p.inputIndex, None, None, Some(ScriptPathPlan(leaf, signers)), false)
                  && leaf != 0 && AllKeys(c.xOnly, signers))
            || p == SigningPlan(p.inputIndex, None, None, None, true)
  {
    hide Distinct;
    forall valid: Key -> bool, keys
      ensures KeysOk(valid, keys) <==> AllKeys(valid, keys)
    {
      SameKeys(valid, keys);
    }
    hide KeysOk, AllKeys;
    if p.muSig2.Some? {
      assert p.muSig2.value == MuSig2Plan(p.muSig2.value.participants, p.muSig2.value.sessionContext);
    }
    if p.scriptPath.Some? {
      assert p.scriptPath.value == ScriptPathPlan(p.scriptPath.value.leafHash, p.scriptPath.value.requiredSigners);
    }
  }

  lemma SameKeys(valid: Key -> bool, keys: seq<Key>)
    ensures KeysOk(valid, keys) <==> AllKeys(valid, keys)
  {
  }

  // -------------------------------------------------------------- exact coverage

  function Indices(plans: seq<SigningPlan>): (s: seq<nat>)
    ensures |s| == |plans|
  {
    seq(|plans|, i requires 0 <= i < |plans| => plans[i].inputIndex)
  }

  /** Plans and backend-managed indices classify every input exactly once. */
  ghost predicate Partition(plans: seq<SigningPlan>, backend: seq<nat>, inputCount: nat) {
    Distinct(Indices(plans) + backend) && SetOf(Indices(plans) + backend) == Below(inputCount)
  }

  lemma DistinctConcat(a: seq<nat>, b: seq<nat>)
    ensures Distinct(a + b) <==> Distinct(a) && Distinct(b) && SetOf(a) !! SetOf(b)
    ensures SetOf(a + b) == SetOf(a) + SetOf(b)
  {
    var all := a + b;
    assert forall i | 0 <= i < |a| :: a[i] == all[i];
    assert forall j | 0 <= j < |b| :: b[j] == all[|a| + j];
    if Distinct(a) && Distinct(b) && SetOf(a) !! SetOf(b) {
      forall i, j | 0 <= i < j < |all|
        ensures all[i] != all[j]
      {
        assert i < |a| ==> all[i] in SetOf(a);
        assert j >= |a| ==> all[j] == b[j - |a|] && all[j] in SetOf(b);
      }
    } else if Distinct(a) && Distinct(b) {
      var x :| x in SetOf(a) && x in SetOf(b);
      var i :| 0 <= i < |a| && a[i] == x;
      var j :| 0 <= j < |b| && b[j] == x;
      assert all[i] == all[|a| + j];
    }
  }

  /** `validateCustomAnchorSigningPlans`; the count comparison is on 32 bits. */
  method ValidatePlans(c: Curve, plans: seq<SigningPlan>, backend: seq<nat>, inputCount: nat) returns (ok: bool)
    requires inputCount < 0x1_0000_0000
    ensures ok <==> (forall i | 0 <= i < |plans| :: PlanOk(c, plans[i])) && Partition(plans, backend, inputCount)
  {
    hide PlanOk, Indices, Distinct, SetOf;
    DistinctConcat(Indices(plans), backend);
    if Partition(plans, backend, inputCount) {
      DistinctSize(Indices(plans) + backend);
    }
    if (|plans| + |backend|) % 0x1_0000_0000 != inputCount {
      return false;
    }
    var plansOk, planned := ClassifyPlans(c, plans, inputCount);
    if !plansOk {
      return false;
    }
    var backendOk, seen := ClassifyBackend(backend, planned, inputCount);
    if !backendOk {
      return false;
    }
    for inputIndex := 0 to inputCount
      invariant forall k: nat | k < inputIndex :: k in seen
    {
      if inputIndex !in seen {
        assert inputIndex in Below(inputCount);
        return false;
      }
    }
    assert seen == Below(inputCount);
    ok := true;
  }

  method ClassifyPlans(c: Curve, plans: seq<SigningPlan>, inputCount: nat) returns (ok: bool, seen: set<nat>)
    ensures ok <==> (forall i | 0 <= i < |plans| :: PlanOk(c, plans[i])) &&
                    Distinct(Indices(plans)) && SetOf(Indices(plans)) <= Below(inputCount)
    ensures ok ==> seen == SetOf(Indices(plans))
  {
    hide PlanOk;
    ghost var all := Indices(plans);
    seen := {};
    for i := 0 to |plans|
      invariant forall k | 0 <= k < i :: PlanOk(c, plans[k])
      invariant Distinct(all[..i]) && seen == SetOf(all[..i]) && seen <= Below(inputCount)
    {
      TakeOneMore(all, i);
      DistinctAppend(all[..i], all[i]);
      DistinctPrefix(all, i + 1);
      if plans[i].inputIndex >= inputCount {
        assert all[i] in SetOf(all);
        return false, seen;
      }
      if plans[i].inputIndex in seen {
        return false, seen;
      }
      seen := seen + {plans[i].inputIndex};
      var planOk := ValidatePlan(c, plans[i]);
      if !planOk {
        return false, seen;
      }
    }
    assert all[..|plans|] == all;
    ok := true;
  }

  method ClassifyBackend(backend: seq<nat>, planned: set<nat>, inputCount: nat) returns (ok: bool, seen: set<nat>)
    ensures ok <==> Distinct(backend) && SetOf(backend) !! planned && SetOf(backend) <= Below(inputCount)
    ensures ok ==> seen == planned + SetOf(backend)
  {
    seen := planned;
    for i := 0 to |backend|
      invariant Distinct(backend[..i]) && seen == planned + SetOf(backend[..i])
      invariant SetOf(backend[..i]) !! planned && SetOf(backend[..i]) <= Below(inputCount)
    {
      TakeOneMore(backend, i);
      DistinctAppend(backend[..i], backend[i]);
      DistinctPrefix(backend, i + 1);
      assert backend[i] in SetOf(backend);
      if backend[i] >= inputCount {
        return false, seen;
      }
      if backend[i] in seen {
        return false, seen;
      }
      seen := seen + {backend[i]};
    }
    assert backend[..|backend|] == backend;
    ok := true;
  }

  /** `addedAnchorInputIndices`. */
  method AddedInputs(before: nat, after: nat) returns (added: seq<nat>)
    ensures added == Added(before, after)
  {
    added := [];
    if after <= before {
      return;
    }
    for i := before to after
      invariant added == Added(before, i)
    {
      added := added + [i];
    }
  }

  function Added(before: nat, after: nat): (s: seq<nat>)
    ensures |s| == if after > before then after - before else 0
  {
    if after > before then seq(after - before, i requires 0 <= i < after - before => before + i) else []
  }

  /** Committing keeps the coverage exact: plans that cover the submitted inputs,
      with the inputs the backend appended, cover the committed inputs. */
  lemma CommitKeepsPartition(plans: seq<SigningPlan>, before: nat, after: nat)
    requires Partition(plans, [], before) && before <= after
    ensures Partition(plans, Added(before, after), after)
  {
    var prior, all := Indices(plans) + [], Indices(plans) + Added(before, after);
    assert prior == Indices(plans);
    forall i, j | 0 <= i < j < |all|
      ensures all[i] != all[j]
    {
      assert i < |plans| ==> all[i] in SetOf(prior);
      assert j < |plans| ==> all[i] == prior[i] && all[j] == prior[j];
    }
    forall k: nat | k < after
      ensures k in SetOf(all)
    {
      if k < before {
        assert k in SetOf(prior);
      } else {
        assert all[|plans| + (k - before)] == k;
      }
    }
    forall k | k in SetOf(all)
      ensures k < after
    {
      assert k in prior ==> k in SetOf(prior);
    }
    assert SetOf(all) == Below(after);
  }

  ghost predicate PlansOk(c: Curve, plans: seq<SigningPlan>, backend: seq<nat>, inputCount: nat) {
    (forall i | 0 <= i < |plans| :: PlanOk(c, plans[i])) && Partition(plans, backend, inputCount)
  }

  // --------------------------------------------------------------- sorting the plans

  function InsertPlan(p: SigningPlan, sorted: seq<SigningPlan>): (r: seq<SigningPlan>)
    ensures multiset(r) == multiset(sorted) + multiset{p}
  {
    if sorted == [] || p.inputIndex <= sorted[0].inputIndex then [p] + sorted
    else assert sorted == [sorted[0]] + sorted[1..]; [sorted[0]] + InsertPlan(p, sorted[1..])
  }

  /** The plans by input index. */
  function SortPlans(plans: seq<SigningPlan>): (r: seq<SigningPlan>)
    ensures multiset(r) == multiset(plans)
  {
    if plans == [] then []
    else assert plans == [plans[0]] + plans[1..]; InsertPlan(plans[0], SortPlans(plans[1..]))
  }

  function InsertIndex(k: nat, sorted: seq<nat>): (r: seq<nat>)
    ensures multiset(r) == multiset(sorted) + multiset{k}
  {
    if sorted == [] || k <= sorted[0] then [k] + sorted
    else assert sorted == [sorted[0]] + sorted[1..]; [sorted[0]] + InsertIndex(k, sorted[1..])
  }

  function SortIndices(s: seq<nat>): (r: seq<nat>)
    ensures multiset(r) == multiset(s)
  {
    if s == [] then [] else assert s == [s[0]] + s[1..]; InsertIndex(s[0], SortIndices(s[1..]))
  }

  predicate PlansSorted(plans: seq<SigningPlan>) {
    forall i, j | 0 <= i < j < |plans| :: plans[i].inputIndex <= plans[j].inputIndex
  }

  predicate IndicesSorted(s: seq<nat>) {
    forall i, j | 0 <= i < j < |s| :: s[i] <= s[j]
  }

  lemma {:induction false} InsertPlanSorts(p: SigningPlan, sorted: seq<SigningPlan>)
    requires PlansSorted(sorted)
    ensures PlansSorted(InsertPlan(p, sorted))
    decreases |sorted|
  {
    if sorted != [] && p.inputIndex > sorted[0].inputIndex {
      InsertPlanSorts(p, sorted[1..]);
      var rest := InsertPlan(p, sorted[1..]);
      assert multiset(rest) == multiset(sorted[1..]) + multiset{p};
      hide InsertPlan;
      forall j | 0 <= j < |rest|
        ensures sorted[0].inputIndex <= rest[j].inputIndex
      {
        assert rest[j] in multiset(rest);
        assert rest[j] in sorted[1..] || rest[j] == p;
      }
      PrependSortedPlan(sorted[0], rest);
    } else {
      PrependSortedPlan(p, sorted);
    }
  }

  lemma PrependSortedPlan(p: SigningPlan, s: seq<SigningPlan>)
    requires PlansSorted(s) && forall j | 0 <= j < |s| :: p.inputIndex <= s[j].inputIndex
    ensures PlansSorted([p] + s)
  {
  }

  lemma {:induction false} SortPlansSorts(plans: seq<SigningPlan>)
    ensures PlansSorted(SortPlans(plans))
    decreases |plans|
  {
    if plans != [] {
      SortPlansSorts(plans[1..]);
      InsertPlanSorts(plans[0], SortPlans(plans[1..]));
    }
  }

  lemma {:induction false} SortedPlansStay(plans: seq<SigningPlan>)
    requires PlansSorted(plans)
    ensures SortPlans(plans) == plans
    decreases |plans|
  {
    if plans != [] {
      assert PlansSorted(plans[1..]);
      SortedPlansStay(plans[1..]);
    }
  }

  lemma {:induction false} InsertIndexSorts(k: nat, sorted: seq<nat>)
    requires IndicesSorted(sorted)
    ensures IndicesSorted(InsertIndex(k, sorted))
    decreases |sorted|
  {
    if sorted != [] && k > sorted[0] {
      InsertIndexSorts(k, sorted[1..]);
      var rest := InsertIndex(k, sorted[1..]);
      assert sorted == [sorted[0]] + sorted[1..];
      assert multiset(rest) == multiset(sorted[1..]) + multiset{k};
      hide InsertIndex;
      forall j | 0 <= j < |rest|
        ensures sorted[0] <= rest[j]
      {
        assert rest[j] in multiset(rest);
        assert rest[j] in sorted[1..] || rest[j] == k;
      }
      PrependSorted(sorted[0], rest);
      assert InsertIndex(k, sorted) == [sorted[0]] + rest;
    }
  }

  lemma PrependSorted(k: nat, s: seq<nat>)
    requires IndicesSorted(s) && forall j | 0 <= j < |s| :: k <= s[j]
    ensures IndicesSorted([k] + s)
  {
  }

  lemma {:induction false} SortIndicesSorts(s: seq<nat>)
    ensures IndicesSorted(SortIndices(s))
    decreases |s|
  {
    if s != [] {
      SortIndicesSorts(s[1..]);
      InsertIndexSorts(s[0], SortIndices(s[1..]));
    }
  }

  lemma {:induction false} SortedIndicesStay(s: seq<nat>)
    requires IndicesSorted(s)
    ensures SortIndices(s) == s
    decreases |s|
  {
    if s != [] {
      assert IndicesSorted(s[1..]);
      SortedIndicesStay(s[1..]);
    }
  }

  // ------------------------------------------------------- the plan check on commit

  lemma {:induction false} InsertPlanIndices(p: SigningPlan, sorted: seq<SigningPlan>)
    ensures multiset(Indices(InsertPlan(p, sorted))) == multiset(Indices(sorted)) + multiset{p.inputIndex}
    decreases |sorted|
  {
    if sorted == [] || p.inputIndex <= sorted[0].inputIndex {
      IndicesCons(p, sorted);
    } else {
      var rest := InsertPlan(p, sorted[1..]);
      InsertPlanIndices(p, sorted[1..]);
      IndicesCons(sorted[0], rest);
      IndicesCons(sorted[0], sorted[1..]);
      assert sorted == [sorted[0]] + sorted[1..];
    }
  }

  lemma IndicesCons(p: SigningPlan, plans: seq<SigningPlan>)
    ensures Indices([p] + plans) == [p.inputIndex] + Indices(plans)
    ensures multiset(Indices([p] + plans)) == multiset{p.inputIndex} + multiset(Indices(plans))
  {
    assert Indices([p] + plans) == [p.inputIndex] + Indices(plans);
  }

  lemma {:induction false} SortPlansIndices(plans: seq<SigningPlan>)
    ensures multiset(Indices(SortPlans(plans))) == multiset(Indices(plans))
    decreases |plans|
  {
    if plans != [] {
      SortPlansIndices(plans[1..]);
      InsertPlanIndices(plans[0], SortPlans(plans[1..]));
      IndicesCons(plans[0], plans[1..]);
      assert plans == [plans[0]] + plans[1..];
    }
  }

  /** The sorted plans are the same plans. */
  lemma SortPlansMembers(plans: seq<SigningPlan>)
    ensures forall p :: p in SortPlans(plans) <==> p in plans
  {
    assert forall p :: p in SortPlans(plans) <==> p in multiset(SortPlans(plans));
    assert forall p :: p in plans <==> p in multiset(plans);
  }

  /** Sorting only the plans does not disturb the plan check. */
  lemma SortedPlansOk(c: Curve, plans: seq<SigningPlan>, backend: seq<nat>, inputCount: nat)
    requires PlansOk(c, plans, backend, inputCount)
    ensures PlansOk(c, SortPlans(plans), backend, inputCount)
  {
    hide Distinct, Indices, SetOf, PlanOk;
    SortPlansIndices(plans);
    SameElements(Indices(plans) + backend, Indices(SortPlans(plans)) + backend);
    SortPlansMembers(plans);
    forall i | 0 <= i < |SortPlans(plans)|
      ensures PlanOk(c, SortPlans(plans)[i])
    {
      assert SortPlans(plans)[i] in plans;
    }
  }

  /** Sorting does not disturb the plan check. */
  lemma SortKeepsPlansOk(c: Curve, plans: seq<SigningPlan>, backend: seq<nat>, inputCount: nat)
    requires PlansOk(c, plans, backend, inputCount)
    ensures PlansOk(c, SortPlans(plans), SortIndices(backend), inputCount)
  {
    hide Distinct, Indices, SetOf, PlanOk;
    SortPlansIndices(plans);
    SameElements(Indices(plans) + backend, Indices(SortPlans(plans)) + SortIndices(backend));
    forall i | 0 <= i < |SortPlans(plans)|
      ensures PlanOk(c, SortPlans(plans)[i])
    {
      assert SortPlans(plans)[i] in multiset(SortPlans(plans));
      assert SortPlans(plans)[i] in plans;
    }
  }
}
