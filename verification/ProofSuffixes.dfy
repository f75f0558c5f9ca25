/** Encoding a virtual packet with its proofs taken out and put back
    (custom_anchor_lifecycle.go). */
module ProofSuffixes {
  import opened Wrappers
  import opened Bytes

  type Proof = seq<byte>

  /** What the encoding leaves out: the transition proof of an input, the proof
      suffix and alternate leaves of an output. */
  datatype Held = Held(proof: Option<Proof>, leaves: seq<seq<byte>>)

  const NOTHING := Held(None, [])

  /** A virtual input or output behind a pointer. */
  class Entry {
    var held: Held
    const rest: seq<byte>

    constructor (held: Held, rest: seq<byte>)
      ensures this.held == held && this.rest == rest
    {
      this.held, this.rest := held, rest;
    }
  }

  /** The entries before the first nil pointer. */
  function BeforeNil(entries: seq<Entry?>): (s: seq<Entry>)
    ensures |s| <= |entries| && forall i | 0 <= i < |s| :: s[i] == entries[i]
    ensures |s| == |entries| <==> null !in entries
    ensures |s| < |entries| ==> entries[|s|] == null
  {
    if entries == [] || entries[0] == null then [] else [entries[0]] + BeforeNil(entries[1..])
  }

  function HeldBy(entries: seq<Entry>): (s: seq<Held>)
    reads entries
    ensures |s| == |entries| && forall i | 0 <= i < |s| :: s[i] == entries[i].held
  {
    seq(|entries|, i requires 0 <= i < |entries| reads entries => entries[i].held)
  }

  /** What the first `n` steps save and leave behind. */
  ghost predicate Stripped(entries: seq<Entry>, was: seq<Held>, n: nat, saved: seq<Held>)
    requires |was| == |entries| && n <= |entries|
    reads entries
  {
    && |saved| == n
    && (forall k | 0 <= k < n :: saved[k] == if entries[k] in entries[..k] then NOTHING else was[k])
    && (forall k | 0 <= k < |entries| :: entries[k].held == if entries[k] in entries[..n] then NOTHING else was[k])
  }

  /** One step: save, then clear. */
  method StripOne(ghost entries: seq<Entry>, ghost was: seq<Held>, ghost n: nat, saved: seq<Held>,
                         entry: Entry) returns (saved': seq<Held>)
    requires |was| == |entries| && n < |entries| && entry == entries[n]
    requires Stripped(entries, was, n, saved)
    modifies entry
    ensures Stripped(entries, was, n + 1, saved')
  {
    assert entries[..n + 1] == entries[..n] + [entry];
    saved' := saved + [entry.held];
    entry.held := NOTHING;
  }

  /** Takes `held` out of every entry up to the first nil. */
  method Strip(entries: seq<Entry?>) returns (ok: bool, saved: seq<Held>)
    modifies BeforeNil(entries)
    ensures ok <==> null !in entries
    ensures Stripped(BeforeNil(entries), old(HeldBy(BeforeNil(entries))), |BeforeNil(entries)|, saved)
  {
    hide Stripped;
    saved := [];
    ghost var before := BeforeNil(entries);
    ghost var was := HeldBy(before);
    NothingStripped(before, was);
    for i := 0 to |entries|
      invariant i <= |before| && Stripped(before, was, i, saved)
    {
      var entry := entries[i];
      if entry == null {
        assert i == |before|;
        return false, saved;
      }
      saved := StripOne(before, was, i, saved, entry);
    }
    ok := true;
  }

  lemma NothingStripped(entries: seq<Entry>, was: seq<Held>)
    requires was == HeldBy(entries)
    ensures Stripped(entries, was, 0, [])
  {
  }

  /** Entry `k` does not come again before position `n`. */
  predicate LastBefore(entries: seq<Entry>, k: nat, n: nat)
    requires k < |entries| && n <= |entries|
  {
    forall j | k < j < n :: entries[j] != entries[k]
  }

  ghost predicate PutBackUpTo(entries: seq<Entry>, saved: seq<Held>, n: nat)
    requires n <= |entries| == |saved|
    reads entries
  {
    forall k: nat | k < n && LastBefore(entries, k, n) :: entries[k].held == saved[k]
  }

  method PutBackOne(entries: seq<Entry>, saved: seq<Held>, n: nat)
    requires n < |entries| == |saved| && PutBackUpTo(entries, saved, n)
    modifies entries[n]
    ensures PutBackUpTo(entries, saved, n + 1)
  {
    entries[n].held := saved[n];
    forall k: nat | k < n + 1 && LastBefore(entries, k, n + 1)
      ensures entries[k].held == saved[k]
    {
      assert k < n ==> LastBefore(entries, k, n) && entries[n] != entries[k];
    }
  }

  /** Puts the saved values back in order; of several for one object the last
      stays. */
  method Restore(entries: seq<Entry>, saved: seq<Held>)
    requires |saved| == |entries|
    modifies entries
    ensures PutBackUpTo(entries, saved, |entries|)
  {
    hide PutBackUpTo;
    NothingPutBack(entries, saved);
    for i := 0 to |entries|
      invariant PutBackUpTo(entries, saved, i)
    {
      PutBackOne(entries, saved, i);
    }
  }

  lemma NothingPutBack(entries: seq<Entry>, saved: seq<Held>)
    requires |entries| == |saved|
    ensures PutBackUpTo(entries, saved, 0)
  {
  }

  /** Another pointer in the list is the same object. */
  predicate Shared(entries: seq<Entry>, k: nat)
    requires k < |entries|
  {
    exists j | 0 <= j < |entries| && j != k :: entries[j] == entries[k]
  }

  /** After clearing and restoring, only what shared entries held is gone. */
  ghost predicate Restored(entries: seq<Entry>, was: seq<Held>)
    requires |was| == |entries|
    reads entries
  {
    forall k: nat | k < |entries| :: entries[k].held == if Shared(entries, k) then NOTHING else was[k]
  }

  lemma {:induction false} LastOccurrence(entries: seq<Entry>, k: nat) returns (m: nat)
    requires k < |entries|
    ensures k <= m < |entries| && entries[m] == entries[k] && LastBefore(entries, m, |entries|)
    decreases |entries| - k
  {
    m := k;
    if j :| k < j < |entries| && entries[j] == entries[k] {
      m := LastOccurrence(entries, j);
    }
  }

  method PutBack(entries: seq<Entry>, saved: seq<Held>, ghost was: seq<Held>)
    requires |was| == |entries| && Stripped(entries, was, |entries|, saved)
    modifies entries
    ensures Restored(entries, was)
  {
    Restore(entries, saved);
    forall k: nat | k < |entries|
      ensures entries[k].held == if Shared(entries, k) then NOTHING else was[k]
    {
      var m := LastOccurrence(entries, k);
      assert entries[m].held == saved[m];
      if Shared(entries, k) {
        var j :| 0 <= j < |entries| && j != k && entries[j] == entries[k];
        assert j <= m;
        assert entries[m] in entries[..m];
      } else {
        assert m == k;
        assert entries[k] !in entries[..k];
      }
    }
  }

  /** The two deferred loops, on entries that are not nil. */
  method PutBackBoth(inputs: seq<Entry>, outputs: seq<Entry>, savedIns: seq<Held>, savedOuts: seq<Held>,
                     ghost insWere: seq<Held>, ghost outsWere: seq<Held>)
    requires |insWere| == |inputs| && Stripped(inputs, insWere, |inputs|, savedIns)
    requires |outsWere| == |outputs| && Stripped(outputs, outsWere, |outputs|, savedOuts)
    requires forall e | e in inputs :: e !in outputs
    modifies inputs, outputs
    ensures Restored(inputs, insWere) && Restored(outputs, outsWere)
  {
    hide Stripped, Restored;
    assert forall k | 0 <= k < |inputs| :: inputs[k] in inputs && inputs[k] !in outputs;
    assert forall k | 0 <= k < |outputs| :: outputs[k] !in inputs;
    PutBack(outputs, savedOuts, outsWere);
    PutBack(inputs, savedIns, insWere);
  }

  /** The other list's objects are of another Go type. */
  predicate Apart(inputs: seq<Entry?>, outputs: seq<Entry?>) {
    forall i, j | 0 <= i < |inputs| && 0 <= j < |outputs| && inputs[i] != null :: inputs[i] != outputs[j]
  }

  function Rests(entries: seq<Entry>): seq<seq<byte>> {
    seq(|entries|, i requires 0 <= i < |entries| => entries[i].rest)
  }

  predicate AllNothing(was: seq<Held>) {
    forall k | 0 <= k < |was| :: was[k] == NOTHING
  }

  predicate SharedNothing(entries: seq<Entry>, was: seq<Held>)
    requires |was| == |entries|
  {
    forall k: nat | k < |entries| && Shared(entries, k) :: was[k] == NOTHING
  }

  /** Before the call: there is nothing the call would lose. */
  predicate NothingToLose(inputs: seq<Entry?>, outputs: seq<Entry?>)
    reads BeforeNil(inputs), BeforeNil(outputs)
  {
    var ins, outs := BeforeNil(inputs), BeforeNil(outputs);
    if null in inputs then AllNothing(HeldBy(ins))
    else
      && SharedNothing(ins, HeldBy(ins))
      && if null in outputs then AllNothing(HeldBy(outs)) else SharedNothing(outs, HeldBy(outs))
  }

  lemma KeepApart(inputs: seq<Entry?>, outputs: seq<Entry?>)
    requires Apart(inputs, outputs)
    ensures forall e | e in BeforeNil(inputs) :: e !in BeforeNil(outputs)
    ensures forall k | 0 <= k < |BeforeNil(outputs)| :: BeforeNil(outputs)[k] !in BeforeNil(inputs)
  {
    var ins, outs := BeforeNil(inputs), BeforeNil(outputs);
    forall i, j | 0 <= i < |ins| && 0 <= j < |outs|
      ensures ins[i] != outs[j]
    {
      assert ins[i] == inputs[i] && outs[j] == outputs[j];
    }
  }

  lemma StrippedKeeps(entries: seq<Entry>, was: seq<Held>, saved: seq<Held>)
    requires |was| == |entries| && Stripped(entries, was, |entries|, saved)
    ensures HeldBy(entries) == was <==> AllNothing(was)
  {
    assert entries[..|entries|] == entries;
    assert forall k | 0 <= k < |entries| :: HeldBy(entries)[k] == NOTHING;
  }

  lemma RestoredKeeps(entries: seq<Entry>, was: seq<Held>)
    requires |was| == |entries| && Restored(entries, was)
    ensures HeldBy(entries) == was <==> SharedNothing(entries, was)
  {
    hide Shared;
    if HeldBy(entries) == was {
      assert forall k: nat | k < |entries| :: HeldBy(entries)[k] == was[k];
    }
  }

  /** `encodeVirtualPacketWithoutProofSuffixes`. The encoding never sees what
      entries hold. The packet comes back as it was exactly when there was
      nothing to lose: an entry listed twice loses what it held, and a nil
      entry leaves the entries before it stripped. */
  method EncodeWithoutSuffixes(encode: (seq<seq<byte>>, seq<seq<byte>>) -> Option<seq<byte>>,
                               inputs: seq<Entry?>, outputs: seq<Entry?>) returns (r: Option<seq<byte>>)
    requires Apart(inputs, outputs)
    modifies BeforeNil(inputs), BeforeNil(outputs)
    ensures r == if null in inputs || null in outputs then None
                 else encode(Rests(BeforeNil(inputs)), Rests(BeforeNil(outputs)))
    ensures HeldBy(BeforeNil(inputs)) == old(HeldBy(BeforeNil(inputs))) &&
            HeldBy(BeforeNil(outputs)) == old(HeldBy(BeforeNil(outputs))) <==>
            old(NothingToLose(inputs, outputs))
  {
    hide Stripped, Restored, Shared, SharedNothing, AllNothing;
    ghost var ins, outs := BeforeNil(inputs), BeforeNil(outputs);
    ghost var insWere, outsWere := HeldBy(ins), HeldBy(outs);
    KeepApart(inputs, outputs);
    var ok, savedIns := Strip(inputs);
    assert forall k | 0 <= k < |outs| :: outs[k].held == outsWere[k];
    assert HeldBy(outs) == outsWere;
    if !ok {
      StrippedKeeps(ins, insWere, savedIns);
      return None;
    }
    assert ins == inputs;
    var savedOuts;
    ok, savedOuts := Strip(outputs);
    if !ok {
      StrippedKeeps(outs, outsWere, savedOuts);
      PutBack(inputs, savedIns, insWere);
      RestoredKeeps(ins, insWere);
      return None;
    }
    assert outs == outputs;
    r := encode(Rests(inputs), Rests(outputs));
    PutBackBoth(inputs, outputs, savedIns, savedOuts, insWere, outsWere);
    RestoredKeeps(ins, insWere);
    RestoredKeeps(outs, outsWere);
  }
}
