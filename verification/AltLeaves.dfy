/** Order-insensitive comparison of alternate leaves
    (custom_anchor_lifecycle.go). */
module AltLeaves {
  import opened Wrappers
  import opened Bytes
  import opened Collections

  /** An alternate leaf. Its commitment key is computed from its content. */
  type Leaf = seq<byte>

  type KeyOf = Leaf -> seq<byte>

  function LeafKeys(key: KeyOf, leaves: seq<Leaf>): (r: seq<seq<byte>>)
    ensures |r| == |leaves|
  {
    seq(|leaves|, i requires 0 <= i < |leaves| => key(leaves[i]))
  }

  /** The last leaf with this key. */
  function LastWithKey(key: KeyOf, leaves: seq<Leaf>, k: seq<byte>): (r: Option<Leaf>)
    ensures r.Some? ==> r.value in leaves && key(r.value) == k
    ensures r.None? <==> k !in LeafKeys(key, leaves)
  {
    if leaves == [] then None else
    var last := leaves[|leaves| - 1];
    assert LeafKeys(key, leaves)[|leaves| - 1] == key(last);
    assert LeafKeys(key, leaves) == LeafKeys(key, leaves[..|leaves| - 1]) + [key(last)];
    if key(last) == k then Some(last) else LastWithKey(key, leaves[..|leaves| - 1], k)
  }

  /** Each left leaf is the leaf the right list holds under its key. */
  predicate Matches(key: KeyOf, left: seq<Leaf>, right: seq<Leaf>) {
    |left| == |right| && forall i | 0 <= i < |left| :: LastWithKey(key, right, key(left[i])) == Some(left[i])
  }

  /** `customAnchorAltLeavesEqual`. */
  method LeavesEqual(key: KeyOf, left: seq<Leaf>, right: seq<Leaf>) returns (ok: bool)
    ensures ok <==> Matches(key, left, right)
  {
    if |left| != |right| {
      return false;
    }
    var rightByKey := map[];
    for i := 0 to |right|
      invariant forall k :: LastWithKey(key, right[..i], k) == if k in rightByKey then Some(rightByKey[k]) else None
    {
      assert right[..i + 1][..i] == right[..i];
      rightByKey := rightByKey[key(right[i]) := right[i]];
    }
    assert right[..|right|] == right;
    for i := 0 to |left|
      invariant forall j | 0 <= j < i :: LastWithKey(key, right, key(left[j])) == Some(left[j])
    {
      var k := key(left[i]);
      if k !in rightByKey || rightByKey[k] != left[i] {
        return false;
      }
    }
    ok := true;
  }

  predicate DistinctKeys(key: KeyOf, leaves: seq<Leaf>) {
    Distinct(LeafKeys(key, leaves))
  }

  /** The comparison means equality as multisets. */
  predicate Correct(key: KeyOf, left: seq<Leaf>, right: seq<Leaf>) {
    Matches(key, left, right) <==> multiset(left) == multiset(right)
  }

  lemma KeysThenLeaves(key: KeyOf, leaves: seq<Leaf>)
    requires DistinctKeys(key, leaves)
    ensures Distinct(leaves)
  {
    var keys := LeafKeys(key, leaves);
    forall i, j | 0 <= i < j < |leaves|
      ensures leaves[i] != leaves[j]
    {
      assert keys[i] != keys[j];
    }
  }

  /** Where keys are distinct, looking a leaf up by its key finds it. */
  lemma {:induction false} LookupFinds(key: KeyOf, leaves: seq<Leaf>, i: nat)
    requires DistinctKeys(key, leaves) && i < |leaves|
    ensures LastWithKey(key, leaves, key(leaves[i])) == Some(leaves[i])
    decreases |leaves|
  {
    var last := |leaves| - 1;
    var keys := LeafKeys(key, leaves);
    if i < last {
      assert keys[i] != keys[last];
      assert LeafKeys(key, leaves[..last]) == keys[..last];
      LookupFinds(key, leaves[..last], i);
    }
  }

  lemma PermutedKeys(key: KeyOf, left: seq<Leaf>, right: seq<Leaf>)
    requires DistinctKeys(key, left) && multiset(left) == multiset(right)
    ensures DistinctKeys(key, right) && |left| == |right|
  {
    KeysThenLeaves(key, left);
    SameElements(left, right);
    forall x | x in right
      ensures x in left
    {
      assert x in SetOf(right);
    }
    var keys, keys' := LeafKeys(key, left), LeafKeys(key, right);
    forall i, j | 0 <= i < j < |right|
      ensures keys'[i] != keys'[j]
    {
      assert right[i] in left && right[j] in left && right[i] != right[j];
      var a :| 0 <= a < |left| && left[a] == right[i];
      var b :| 0 <= b < |left| && left[b] == right[j];
      assert keys[a] != keys[b];
    }
  }

  /** With distinct keys on the left the comparison accepts exactly the
      permutations. */
  lemma DistinctIsCorrect(key: KeyOf, left: seq<Leaf>, right: seq<Leaf>)
    requires DistinctKeys(key, left)
    ensures Correct(key, left, right)
  {
    KeysThenLeaves(key, left);
    if Matches(key, left, right) {
      DistinctSize(left);
      assert forall i | 0 <= i < |left| :: LastWithKey(key, right, key(left[i])).value in right;
      assert SetOf(left) <= SetOf(right);
      FullSetIsDistinct(right);
      SubsetSizes(SetOf(left), SetOf(right));
      DistinctSize(right);
    }
    if multiset(left) == multiset(right) {
      PermutedKeys(key, left, right);
      forall i | 0 <= i < |left|
        ensures LastWithKey(key, right, key(left[i])) == Some(left[i])
      {
        assert left[i] in multiset(right);
        var j :| 0 <= j < |right| && right[j] == left[i];
        LookupFinds(key, right, j);
      }
    }
  }

  lemma {:induction false} LookupSurvives(key: KeyOf, leaves: seq<Leaf>, i: nat)
    requires i < |leaves|
    requires forall j | 0 <= j < |leaves| && key(leaves[j]) == key(leaves[i]) :: leaves[j] == leaves[i]
    ensures LastWithKey(key, leaves, key(leaves[i])) == Some(leaves[i])
  {
    assert LeafKeys(key, leaves)[i] == key(leaves[i]);
    var found := LastWithKey(key, leaves, key(leaves[i]));
    var j :| 0 <= j < |leaves| && leaves[j] == found.value;
  }

  /** A list with a repeated leaf matches a list that is not a permutation:
      one occurrence can be exchanged for a leaf the left list does not have. */
  lemma RepeatedLeafMisleads(key: KeyOf, left: seq<Leaf>, other: Leaf, i: nat, j: nat)
    requires i < j < |left| && left[i] == left[j] && key(other) !in LeafKeys(key, left)
    requires forall a, b | 0 <= a < b < |left| && key(left[a]) == key(left[b]) :: left[a] == left[b]
    ensures Matches(key, left, left[j := other]) && multiset(left) != multiset(left[j := other])
  {
    var right := left[j := other];
    forall k | 0 <= k < |left|
      ensures LastWithKey(key, right, key(left[k])) == Some(left[k])
    {
      assert LeafKeys(key, left)[k] == key(left[k]);
      var at := if k == j then i else k;
      LookupSurvives(key, right, at);
    }
    assert forall k | 0 <= k < |left| :: LeafKeys(key, left)[k] == key(left[k]);
    assert other !in left;
    assert other in multiset(right) && other !in multiset(left) by { assert right[j] == other; }
  }

  /** Two different leaves under one key make a list unequal to itself. */
  lemma SharedKeyMisleads(key: KeyOf, left: seq<Leaf>, i: nat, j: nat)
    requires i < j < |left| && key(left[i]) == key(left[j]) && left[i] != left[j]
    ensures !Matches(key, left, left)
  {
  }

  /** The comparison is right for every right-hand list exactly when the left
      list has pairwise distinct keys; `other` is any leaf with a new key. */
  lemma CorrectExactlyOnDistinctKeys(key: KeyOf, left: seq<Leaf>, other: Leaf)
    requires key(other) !in LeafKeys(key, left)
    ensures DistinctKeys(key, left) <==> forall right :: Correct(key, left, right)
  {
    hide Matches;
    if DistinctKeys(key, left) {
      forall right
        ensures Correct(key, left, right)
      {
        DistinctIsCorrect(key, left, right);
      }
    } else {
      var keys := LeafKeys(key, left);
      var i, j :| 0 <= i < j < |keys| && keys[i] == keys[j];
      if a, b :| 0 <= a < b < |left| && key(left[a]) == key(left[b]) && left[a] != left[b] {
        SharedKeyMisleads(key, left, a, b);
        assert !Correct(key, left, left);
      } else {
        RepeatedLeafMisleads(key, left, other, i, j);
        assert !Correct(key, left, left[j := other]);
      }
    }
  }

  /** The leaf is in the list, with no leaf of its key behind it. */
  ghost predicate LastOfItsKey(key: KeyOf, leaves: seq<Leaf>, x: Leaf) {
    exists i | 0 <= i < |leaves| :: leaves[i] == x && forall j | i < j < |leaves| :: key(leaves[j]) != key(x)
  }

  lemma {:induction false} LookupIsLast(key: KeyOf, leaves: seq<Leaf>, x: Leaf)
    ensures LastWithKey(key, leaves, key(x)) == Some(x) <==> LastOfItsKey(key, leaves, x)
    decreases |leaves|
  {
    hide LastOfItsKey, LeafKeys;
    if leaves == [] {
      NoneIsLast(key, x);
    } else {
      var init := leaves[..|leaves| - 1];
      LookupIsLast(key, init, x);
      OneMoreLeaf(key, init, leaves[|leaves| - 1], x);
      assert leaves == init + [leaves[|leaves| - 1]];
    }
  }

  lemma NoneIsLast(key: KeyOf, x: Leaf)
    ensures !LastOfItsKey(key, [], x)
  {
  }

  lemma OneMoreLeaf(key: KeyOf, leaves: seq<Leaf>, last: Leaf, x: Leaf)
    ensures LastOfItsKey(key, leaves + [last], x) <==>
            last == x || (key(last) != key(x) && LastOfItsKey(key, leaves, x))
  {
    var all := leaves + [last];
    assert all[|leaves|] == last;
    assert forall i | 0 <= i < |leaves| :: all[i] == leaves[i];
  }

  /** On any two lists: equal means as long, and every left leaf is on the right
      with no leaf of its key behind it. */
  lemma EqualExactly(key: KeyOf, left: seq<Leaf>, right: seq<Leaf>)
    ensures Matches(key, left, right) <==>
            |left| == |right| && forall i | 0 <= i < |left| :: LastOfItsKey(key, right, left[i])
  {
    hide LastWithKey, LastOfItsKey;
    forall i | 0 <= i < |left|
      ensures LastWithKey(key, right, key(left[i])) == Some(left[i]) <==> LastOfItsKey(key, right, left[i])
    {
      LookupIsLast(key, right, left[i]);
    }
  }
}
