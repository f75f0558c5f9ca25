/** Anchor PSBTs as the package code sees them (custom_anchor_signing.go,
    custom_anchor_lifecycle.go, custom_anchor_package.go).

    A stored PSBT is the packet it parses to. Serialising and parsing again
    loses, for every input that carries a final script, the fields that are not
    final (BIP 174, BIP 371); `Normalise` is that loss. */
module AnchorPsbt {
  import opened Wrappers
  import opened Bytes
  import opened NativeProofs

  datatype TxIn = TxIn(prevOut: Outpoint, sequence: nat, script: seq<byte>, stack: seq<seq<byte>>)

  datatype TxOut = TxOut(value: int, script: seq<byte>)

  datatype Tx = Tx(version: int, lockTime: nat, ins: seq<TxIn>, outs: seq<TxOut>)

  /** One input map. `kept` is always serialised (UTXOs, unknown fields);
      `nonFinal` is the metadata dropped on finalisation (sighash type, scripts,
      derivations, Taproot keys and leaves), and the rest are the fields that
      signing and finalising fill. */
  datatype PInput = PInput(
    kept: seq<byte>,
    nonFinal: seq<byte>,
    partialSigs: seq<byte>,
    scriptSpendSigs: seq<byte>,
    keySpendSig: seq<byte>,
    finalScriptSig: seq<byte>,
    finalWitness: seq<byte>)
  {
    predicate IsFinal() {
      finalScriptSig != [] || finalWitness != []
    }

    function Normal(): PInput {
      if IsFinal()
      then this.(nonFinal := [], partialSigs := [], scriptSpendSigs := [], keySpendSig := [])
      else this
    }

    function Stripped(): PInput {
      this.(partialSigs := [], scriptSpendSigs := [], keySpendSig := [], finalScriptSig := [], finalWitness := [])
    }

    function WithFinalsOf(other: PInput): PInput {
      this.(finalScriptSig := other.finalScriptSig, finalWitness := other.finalWitness)
    }
  }

  datatype Packet = Packet(tx: Tx, inputs: seq<PInput>, outputs: seq<seq<byte>>, globals: seq<byte>)

  /** One input map per transaction input, as the PSBT parser guarantees. */
  predicate WellFormed(p: Packet) {
    |p.inputs| == |p.tx.ins|
  }

  function MapInputs(f: PInput -> PInput, inputs: seq<PInput>): (r: seq<PInput>)
    ensures |r| == |inputs| && forall i | 0 <= i < |inputs| :: r[i] == f(inputs[i])
  {
    seq(|inputs|, i requires 0 <= i < |inputs| => f(inputs[i]))
  }

  /** Parsing what was serialised. */
  function Normalise(p: Packet): Packet {
    p.(inputs := MapInputs((i: PInput) => i.Normal(), p.inputs))
  }

  /** `canonicalAnchorPSBT`. */
  function Canonical(p: Packet, strip: bool): Packet {
    Normalise(if strip then p.(inputs := MapInputs((i: PInput) => i.Stripped(), p.inputs)) else p)
  }

  predicate HasFinal(p: Packet) {
    exists i | 0 <= i < |p.inputs| :: p.inputs[i].IsFinal()
  }

  function WithFinals(committed: Packet, final: Packet): Packet
    requires |committed.inputs| == |final.inputs|
  {
    committed.(inputs := seq(|committed.inputs|,
      i requires 0 <= i < |committed.inputs| => committed.inputs[i].WithFinalsOf(final.inputs[i])))
  }

  /** `sanitizeFinalAnchorPSBT`: the committed packet with only the final fields
      taken from `final`, provided the unsigned transaction is the same. */
  function Sanitize(committed: Packet, final: Packet): Option<Packet> {
    if committed.tx != final.tx || |committed.inputs| != |final.inputs| then None
    else Some(WithFinals(committed, final))
  }

  /** `compareCommittedAnchorPSBTMetadata`. */
  predicate KeepsMetadata(committed: Packet, current: Packet) {
    if HasFinal(current) then
      var expected := Sanitize(committed, current);
      expected.Some? && Canonical(Normalise(expected.value), false) == Canonical(current, false)
    else Canonical(committed, true) == Canonical(current, true)
  }

  /** `compareUnsignedAnchorTransactions`. */
  method CompareUnsigned(committed: Tx, final: Tx) returns (ok: bool)
    ensures ok <==> committed == final
  {
    if committed.version != final.version || committed.lockTime != final.lockTime ||
       |committed.ins| != |final.ins| {
      return false;
    }
    for i := 0 to |committed.ins|
      invariant forall k | 0 <= k < i :: committed.ins[k] == final.ins[k]
    {
      var left, right := committed.ins[i], final.ins[i];
      if left.prevOut != right.prevOut || left.sequence != right.sequence || left.script != right.script ||
         |left.stack| != |right.stack| {
        return false;
      }
      for j := 0 to |left.stack|
        invariant forall k | 0 <= k < j :: left.stack[k] == right.stack[k]
      {
        if left.stack[j] != right.stack[j] {
          return false;
        }
      }
      assert left.stack == right.stack;
    }
    assert committed.ins == final.ins;
    if |committed.outs| != |final.outs| {
      return false;
    }
    for i := 0 to |committed.outs|
      invariant forall k | 0 <= k < i :: committed.outs[k] == final.outs[k]
    {
      if committed.outs[i].value != final.outs[i].value || committed.outs[i].script != final.outs[i].script {
        return false;
      }
    }
    assert committed.outs == final.outs;
    ok := true;
  }

  // ------------------------------------------------------ what keeping metadata means

  /** Nothing but signature and final fields differs. */
  predicate OnlySignatures(committed: PInput, current: PInput) {
    committed.kept == current.kept && committed.nonFinal == current.nonFinal
  }

  /** Nothing but final fields differs, or what a final input has lost anyway. */
  predicate OnlyFinals(committed: PInput, current: PInput) {
    && committed.kept == current.kept
    && (current.finalScriptSig == [] && current.finalWitness == [] ==>
          && committed.nonFinal == current.nonFinal && committed.partialSigs == current.partialSigs
          && committed.scriptSpendSigs == current.scriptSpendSigs && committed.keySpendSig == current.keySpendSig)
  }

  lemma OnlyFieldsDiffer(committed: PInput, current: PInput)
    ensures committed.Stripped() == current.Stripped() <==> OnlySignatures(committed, current)
    ensures committed.WithFinalsOf(current).Normal() == current.Normal() <==> OnlyFinals(committed, current)
  {
  }

  /** Keeping the committed metadata, input by input: before anything is final,
      only signature fields may differ; afterwards only final fields may, and a
      signature the committed packet did not have is a difference. */
  lemma KeepsMetadataExactly(committed: Packet, current: Packet)
    ensures KeepsMetadata(committed, current) <==>
            && |committed.inputs| == |current.inputs|
            && committed.tx == current.tx && committed.outputs == current.outputs
            && committed.globals == current.globals
            && forall i | 0 <= i < |current.inputs| ::
                 if HasFinal(current) then OnlyFinals(committed.inputs[i], current.inputs[i])
                 else OnlySignatures(committed.inputs[i], current.inputs[i])
  {
    forall i | 0 <= i < |current.inputs| && i < |committed.inputs| {
      OnlyFieldsDiffer(committed.inputs[i], current.inputs[i]);
    }
    if HasFinal(current) {
      if Sanitize(committed, current).Some? {
        var expected := Sanitize(committed, current).value;
        var left, right := Canonical(Normalise(expected), false), Canonical(current, false);
        assert forall i | 0 <= i < |current.inputs| ::
            left.inputs[i] == committed.inputs[i].WithFinalsOf(current.inputs[i]).Normal()
            && right.inputs[i] == current.inputs[i].Normal();
        assert left.inputs == right.inputs <==>
               forall i | 0 <= i < |current.inputs| :: OnlyFinals(committed.inputs[i], current.inputs[i]);
      }
    } else {
      var left, right := Canonical(committed, true), Canonical(current, true);
      assert forall i | 0 <= i < |committed.inputs| :: left.inputs[i] == committed.inputs[i].Stripped();
      assert forall i | 0 <= i < |current.inputs| :: right.inputs[i] == current.inputs[i].Stripped();
      if |committed.inputs| == |current.inputs| {
        assert left.inputs == right.inputs <==>
               forall i | 0 <= i < |current.inputs| :: OnlySignatures(committed.inputs[i], current.inputs[i]);
      }
    }
  }
}
