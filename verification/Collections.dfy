/** Duplicate-free sequences, the sets they denote, and counting. */
module Collections {

  function SetOf<T>(s: seq<T>): set<T> {
    set x | x in s
  }

  predicate Distinct<T(==)>(s: seq<T>) {
    forall i, j | 0 <= i < j < |s| :: s[i] != s[j]
  }

  lemma SubsetSizes<T>(a: set<T>, b: set<T>)
    requires a <= b
    ensures |a| <= |b|
    ensures |a| == |b| ==> a == b
  {
    assert b == a + (b - a) && |b| == |a| + |b - a|;
  }

  lemma {:induction false} DistinctSize<T>(s: seq<T>)
    requires Distinct(s)
    ensures |SetOf(s)| == |s| && multiset(s) == multiset(SetOf(s))
    decreases |s|
  {
    if s == [] {
    } else {
      var init, last := s[..|s| - 1], s[|s| - 1];
      DistinctSize(init);
      assert s == init + [last];
      assert forall i | 0 <= i < |init| :: init[i] == s[i] && s[i] != last;
      assert SetOf(s) == SetOf(init) + {last};
    }
  }

  lemma {:induction false} SetInMultiset<T>(s: seq<T>)
    ensures multiset(SetOf(s)) <= multiset(s)
  {
    forall x | x in multiset(SetOf(s))
      ensures multiset(SetOf(s))[x] <= multiset(s)[x]
    {
      assert x in s;
    }
  }

  /** Pigeonhole: as many items as slots, every slot taken, every item in a
      slot; then the items are exactly the slots, each once. */
  lemma Pigeonhole<T>(items: seq<T>, slots: seq<T>)
    requires Distinct(slots) && |items| == |slots| && SetOf(items) == SetOf(slots)
    ensures multiset(items) == multiset(slots)
  {
    DistinctSize(slots);
    SetInMultiset(items);
    var extra := multiset(items) - multiset(SetOf(items));
    assert multiset(items) == multiset(SetOf(items)) + extra;
    assert |multiset(SetOf(items))| == |SetOf(items)|;
  }

  /** A sequence no longer than the set of its elements has no duplicates. */
  lemma {:induction false} FullSetIsDistinct<T>(s: seq<T>)
    ensures |SetOf(s)| <= |s|
    ensures |SetOf(s)| == |s| ==> Distinct(s)
    decreases |s|
  {
    if s == [] {
    } else {
      var init, last := s[..|s| - 1], s[|s| - 1];
      FullSetIsDistinct(init);
      assert s == init + [last];
      assert SetOf(s) == SetOf(init) + {last};
      if |SetOf(s)| == |s| {
        assert last !in init;
        assert forall i | 0 <= i < |init| :: init[i] == s[i] && init[i] in init;
      }
    }
  }

  /** Rearranging a sequence. */
  lemma SameElements<T>(s: seq<T>, t: seq<T>)
    requires multiset(s) == multiset(t)
    ensures SetOf(s) == SetOf(t) && (Distinct(s) ==> Distinct(t)) && |s| == |t|
  {
    assert forall x :: x in s <==> x in multiset(s);
    assert forall x :: x in t <==> x in multiset(t);
    assert |multiset(s)| == |s| && |multiset(t)| == |t|;
    if Distinct(s) {
      DistinctSize(s);
      FullSetIsDistinct(t);
    }
  }

  lemma {:induction false} DistinctAppend<T>(s: seq<T>, x: T)
    ensures Distinct(s + [x]) <==> Distinct(s) && x !in s
  {
    if Distinct(s + [x]) {
      assert forall i | 0 <= i < |s| :: s[i] == (s + [x])[i];
      assert (s + [x])[|s|] == x;
    }
  }

  lemma DistinctPrefix<T>(s: seq<T>, n: nat)
    requires n <= |s|
    ensures Distinct(s) ==> Distinct(s[..n])
  {
  }

  /** The indices of a list of `n` elements. */
  function Below(n: nat): (s: set<nat>)
    ensures |s| == n
    ensures forall k: nat :: k in s <==> k < n
  {
    if n == 0 then {} else Below(n - 1) + {n - 1}
  }

  lemma TakeOneMore<T>(s: seq<T>, i: nat)
    requires i < |s|
    ensures s[..i + 1] == s[..i] + [s[i]]
    ensures multiset(s[..i + 1]) == multiset(s[..i]) + multiset{s[i]}
    ensures SetOf(s[..i + 1]) == SetOf(s[..i]) + {s[i]}
  {
  }
}
