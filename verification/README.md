# Custom anchors, addresses and event streams of tap-sdk, in Dafny

tap-sdk lets an application spend Taproot Assets through a Bitcoin anchor
transaction of its own design. This project models the parts of the SDK that
decide something locally, and proves what callers rely on.

* **Proof paths.** A path is a confirmed proof file plus steps; a step may merge
  up to fifteen nested co-input paths, three levels deep. `ProofPathCodec` is
  the checksummed recursive format on trees, `ProofPathShape` and
  `ProofPathMarshal` the same over mutable, possibly shared or cyclic objects.
  `NativeProofs`, `ProofPathVerify` and `ProofPathAssembly` are the step checks,
  the recursive verifier with its host calls, and the two recursive assemblers;
  `ProofPathObjects` has the public operations on objects, which join them, and
  `ProofPathConfirmed` relates a verified path to its confirmed file.
  `ProofPathLayout` is the format byte by byte, and `ProofPathRules` which
  step proofs, steps, paths and runs are accepted, in terms of proofs, outpoints and
  host replies.
* **The sealed package.** `AnchorPsbt`, `SigningPlans`, `SigningRequests` and
  `SigningPackage` model sealing, request derivation and the steps that apply
  signatures, `SigningDerivation` what each plan asks for and which witness answers
  it; `TransferPackage` is the object whose methods work on clones;
  `SigningRuns`, `SigningMixed` and `SigningCompletion` are about runs, `SigningSeal`
  about what Commit builds. `PackageMappings` is the bookkeeping between
  summaries and virtual packets.
* **Commit and planning.** `CommitShape` is what a backend may change and the lock
  inventory, `AnchorFees` the fee; `AltLeaves` and `ProofSuffixes` are two comparisons of
  virtual packets; `PlanMapping`, `Amounts` and `AssetRefs` are plan
  construction, conservation and asset identity.
* **Text forms.** `TapAddress` with `AddressRecords` and `Bech32`, and `FeeRates`.
* **Events.** `EventDrain` is the subscription protocol as two processes over
  two channels, `StreamRetry` the reconnect loop.

Native libraries, hashing, curves, the script engine and the host are function
values in record types (`Hasher`, `Native`, `Bitcoin`, `Oracle`, `Library`,
`Checks`, `Derive`, `Assets`), so every theorem is for all of them; a `Valid()` on such a
record states what is assumed of it (decoding undoes encoding, a transition
verifies to its own state, a serialised witness is not empty). `SigningCompletion`
alone also assumes that executing a witness looks only at the transaction and its
previous outputs, and that extraction decodes the witnesses it is given. Digests are
symbolic values, equal only for equal content; the injectivity of the hashed
bytes is proved beside them.

What the proofs found in the code:

* The shape check of a proof path counts four bytes per step besides the proof,
  the encoder writes six. Given a proof library that accepts the proofs, a path
  passes `Validate` and encodes to more than the limit. The round trip of a valid
  path holds exactly when the encoded length fits.
* Accepted amounts alone let an asset vanish: beside a balanced asset, an input of
  another asset without outputs passes. They conserve every asset exactly when
  the builder's refusal of such inputs holds.
* A final witness on one input and a key signature on another cannot coexist in
  a valid package, so Apply calls alone cannot complete a package that needs
  both kinds.
* A script-path witness is applied without asking for its required signers. A
  package completed by such steps alone is final exactly when they all signed.
* The order-insensitive comparison of alternate leaves is exact only where the
  keys on the left are pairwise distinct.
* Encoding a virtual packet without its proofs leaves it damaged when a nil
  entry follows others, or when one entry is listed twice.
* The overflow error for burned amounts, the check on added outputs at the end
  of the commit check, and the case of an input without a sealed plan can never
  be reached.
* An address with an unknown version, an invalid key or a malformed asset
  reference is encoded without complaint. The first two do not decode; the last
  comes back as the all-zero asset ID.

## Model

| member | source | states |
|---|---|---|
| `ProofPathCodec.DecodeEncode` | custom_anchor_proof_path.go:484-658 | Decoding the encoding of any path tree within the limits, at any nesting level, returns that tree, provided the encoding fits the size limit. |
| `ProofPathCodec.EncodeDecode` | custom_anchor_proof_path.go:521-658 | Whatever bytes decode, re-encoding the result reproduces exactly those bytes, co-input paths included, and the result is within the limits. |
| `ProofPathCodec.DecodesExactlyTheEncodings` | custom_anchor_proof_path.go:521-658 | A byte string decodes to a tree if and only if the tree is within the limits and the string is its encoding and fits: the codec is a bijection. |
| `Bytes.BigEndianAt` | custom_anchor_proof_path.go:1174-1176 | Byte i of a fixed-width number is the digit of weight 256 to the width minus one minus i: most significant first. |
| `ProofPathLayout.EncodingIsLaidOut` | custom_anchor_proof_path.go:484-496 | A byte string has the path format for a tree, a grammar of marker, length-prefixed fields, big-endian counts, nested paths and digest written without an encoder, if and only if it is the encoding of that tree. |
| `ProofPathLayout.DecodesExactlyTheFormat` | custom_anchor_proof_path.go:521-658 | A byte string decodes to a tree if and only if it has the path format for it, within the limits of tree and size. |
| `ProofPathLayout.OtherFormatsAreReported` | custom_anchor_proof_path.go:521-560 | An undamaged byte string with another format number is reported as such. |
| `ProofPathMarshal.EncodePath` | custom_anchor_proof_path.go:484-496 | The encoder over path objects writes the format of the denoted tree: the marker and format bytes, the base after its length and the step count, most significant byte first, the steps, and the digest of all that. |
| `ProofPathMarshal.MarshalPathBody` | custom_anchor_proof_path.go:1126-1171 | The body writer, with its loop over the steps, produces the body of the denoted tree. |
| `ProofPathMarshal.UnmarshalBinaryAt` | custom_anchor_proof_path.go:521-658 | The decoder over objects: on success the receiver and freshly allocated co-input objects denote exactly the decoded tree; on failure the receiver is untouched. |
| `ProofPathMarshal.UnmarshalCoPath` | custom_anchor_proof_path.go:628-648 | One embedded co-input path is read at the next nesting level and denotes the decoded subtree. |
| `ProofPathMarshal.Reader.SizedBytes` | custom_anchor_proof_path.go:1183-1218 | A length-prefixed field is read only if non-empty, within its maximum and within what is left, and the reader advances past it. |
| `ProofPathShape.ValidateShape` | custom_anchor_proof_path.go:286-365 | On any pointer graph, cyclic ones included, the recursive check terminates, never wraps its counter, and accepts exactly the graphs that unfold to a tree within the limits whose total fits. |
| `ProofPathShape.EncodedSize` | custom_anchor_proof_path.go:335-335 | The shape total is the encoded length minus two bytes for every step in the whole tree. |
| `ProofPathShape.AcceptedIsShallow` | custom_anchor_proof_path.go:286-300 | No pointer chain through an accepted path is longer than the nesting limit allows, and none ends in nil. |
| `ProofPathShape.UnfoldsExactlyWhenShallow` | custom_anchor_proof_path.go:286-365 | A path object denotes a tree if and only if every pointer chain from it has at most four objects and none ends at an object with a nil pointer: so no cycle is accepted. |
| `ProofPathShape.DecodedPassesShape` | custom_anchor_proof_path.go:500-515 | Every decoded tree passes the shape check. |
| `ProofPathShape.ShapeExactly` | custom_anchor_proof_path.go:286-365 | The limits themselves, on base, steps, proofs, co-input counts, depth and total size: the shape check passes exactly the trees within them, and the decoder those without empty proofs. |
| `ProofPathObjects.ValidateContent` | custom_anchor_proof_path.go:369-407 | The content check over objects decides the content rules of the denoted tree, level by level. |
| `ProofPathObjects.Validate` | custom_anchor_proof_path.go:273-280 | An object is valid exactly when it denotes a tree and that tree keeps shape and content rules. |
| `ProofPathObjects.MarshalBinary` | custom_anchor_proof_path.go:474-480 | The bytes of the denoted tree in the path format, for exactly the valid objects. |
| `ProofPathObjects.UnmarshalBinary` | custom_anchor_proof_path.go:500-515 | Succeeds exactly on bytes that decode to a valid path; the receiver then denotes it with fresh co-input objects, and is untouched otherwise. |
| `ProofPathObjects.ValidRoundTripExactly` | custom_anchor_proof_path.go:474-515 | A path that passes Validate survives marshalling and unmarshalling if and only if its total plus two bytes per step fits the limit; otherwise it is refused, never misread. |
| `ProofPathObjects.UnmarshalledIsCanonical` | custom_anchor_proof_path.go:500-515 | Whatever unmarshals is valid and marshals back to the same bytes. |
| `ProofPathObjects.ValidButUnreadable` | custom_anchor_proof_path.go:1144-1154 | With a proof library that accepts the proofs, a concrete path passes the whole of Validate and its own encoding is refused. |
| `ProofPathObjects.VerifyPath` | custom_anchor_proof_path.go:664-715 | Verification of an object is validation of the pointer graph followed by verification of the tree it denotes. |
| `ProofPathRules.ContentExactly` | custom_anchor_proof_path.go:369-407 | The content check passes exactly where every path in the tree does on its own: a valid unlocked final asset in the base file, of version one if steps follow, and acceptable step proofs. |
| `ProofPathRules.StepProofExactly` | custom_anchor_proof_path.go:1250-1429 | Which step proofs are accepted, in full: version-one transitions of valid unlocked assets that authorise the wanted number of outpoints, in their own witnesses or those of the split root, the declared predecessor once among them and spent once. |
| `NativeProofs.CheckStepProof` | custom_anchor_proof_path.go:1250-1429 | A step proof is accepted with its counting loops exactly when it decodes, has the wanted witness count and a complete predecessor that its anchor transaction spends once. |
| `NativeProofs.CountInputs` | custom_anchor_proof_path.go:1317-1336 | Counts how often the anchor transaction spends an outpoint; a nil input is an error. |
| `NativeProofs.CountPredecessors` | custom_anchor_proof_path.go:1400-1426 | Counts the witnesses that spend an outpoint; an incomplete witness is an error. |
| `ProofPathVerify.InputBinding` | custom_anchor_proof_path.go:1016-1057 | True exactly when every witness spends an expected outpoint and every expected outpoint is spent. |
| `ProofPathVerify.AnchorSpend` | custom_anchor_proof_path.go:1063-1084 | True exactly when the anchor transaction spends every expected outpoint once. |
| `ProofPathVerify.VerifyChain` | custom_anchor_proof_path.go:724-925 | The recursive loop succeeds exactly when all local checks of the tree hold and the host accepts the calls of the tree in order; it then has made exactly those calls and returns the tip. |
| `ProofPathVerify.VerifyStep` | custom_anchor_proof_path.go:756-921 | One step: the same statement for the step, its co-input paths first. |
| `ProofPathVerify.ResolveCoInputs` | custom_anchor_proof_path.go:775-839 | The loop over co-input paths collects pairwise distinct tips and their assembled files, or fails at the first path that does not verify or repeats an outpoint. |
| `ProofPathVerify.EachAttestedOnce` | custom_anchor_proof_path.go:724-925 | The calls of a verified tree name each confirmed base once and each step once, a step after every step of the co-input paths it merges. |
| `ProofPathVerify.OneIdentity` | custom_anchor_proof_path.go:980-1111 | All bases and all steps of a verified tree, at every level, and the split roots of split leaves, carry the asset parameters of the returned tip. |
| `ProofPathVerify.WitnessesAreTheTips` | custom_anchor_proof_path.go:775-1084 | For an accepted step the asset witnesses are in bijection with the spine tip and the co-input tips, those outpoints are distinct, and the anchor transaction spends each once. No branch checks this; it follows by counting. |
| `ProofPathVerify.EveryStepAccepted` | custom_anchor_proof_path.go:724-925 | Every step at any nesting level of a verified tree was accepted against a proof it extends. |
| `ProofPathRules.StepExactly` | custom_anchor_proof_path.go:756-921 | A step is accepted if and only if its co-input paths are, all tips, the step and its split root carry the parameters of the proof it extends, what it authorises is a rearrangement of the distinct tips, each is spent once by the anchor, and the native library takes it with the assembled files. |
| `ProofPathRules.PathFromLast` | custom_anchor_proof_path.go:724-925 | A path is accepted if and only if it is without its last step and that step is after its tip; the host hears the same as for the shorter path, then the co-inputs, then the step with its number, predecessor, anchor and every outpoint it spends. |
| `ProofPathRules.VerifiesExactly` | custom_anchor_proof_path.go:664-715 | Verification succeeds if and only if the path is valid, the extension exists wherever there are steps, every step is accepted, the host agrees to each call, and the final proof can be summarised. |
| `ProofPathVerify.Verify` | custom_anchor_proof_path.go:664-715 | The entry point succeeds exactly when the path is valid, the extension exists where needed, the run succeeds and the final proof can be summarised; depth and content ID are those of the path, and all of the above holds together. |
| `ProofPathAssembly.ConfirmTransition` | custom_anchor_proof_confirm.go:117-165 | A transition gets header, height and merkle proof of the first transaction with its anchor txid in the supplied block, nothing else of it changes, and it fails exactly if no such block was supplied. |
| `ProofPathAssembly.FindBlockExactly` | custom_anchor_proof_confirm.go:117-165 | A block is found if and only if one was supplied that contains the anchor; what is attached is its header, its height and the merkle proof at the place of the first transaction that is the anchor. |
| `ProofPathAssembly.ConfirmProofFile` | custom_anchor_proof_confirm.go:35-113 | The recursive confirmation of a path and of the co-input files embedded in it. |
| `ProofPathAssembly.ConfirmCoInputs` | custom_anchor_proof_confirm.go:57-84 | The embedded co-input files are confirmed in order and decoded again. |
| `ProofPathAssembly.ConfirmFileDecided` | custom_anchor_proof_confirm.go:35-165 | Blocks and library limits decide the outcome for a valid path: the confirmed file is the one without limits when both hold, a missing-block error if only blocks are missing, a limit error if only a limit is hit. |
| `ProofPathAssembly.ConfirmSucceedsExactly` | custom_anchor_proof_confirm.go:35-165 | Confirmation of a valid path succeeds if and only if every step of the whole tree has a block with its anchor transaction and every assembled proof and file is within the library limits. |
| `ProofPathRules.FitsExactly` | custom_anchor_proof_confirm.go:57-113 | The library limits are kept by the whole tree exactly where each path keeps them on its own: a known file version, every assembled proof within its size, and the file. |
| `ProofPathAssembly.AssembliesAgree` | custom_anchor_proof_path.go:933-973 | Erasing the block data of the confirmed file, recursively through the embedded files, yields the synthetic file of the same path. |
| `ProofPathConfirmed.VerifiedThenConfirmed` | custom_anchor_proof_confirm.go:35-165 | For a path that verified and was then confirmed, at every level of the confirmed file: each step has its transition with the block data of its anchor, and the files embedded in it are, block data aside, the very files its transition was verified with. |
| `AnchorPsbt.CompareUnsigned` | custom_anchor_signing.go:1517-1571 | The comparison loops accept exactly equal unsigned transactions. |
| `AnchorPsbt.KeepsMetadataExactly` | custom_anchor_package.go:1343-1405 | What keeping the committed metadata means field by field: only signature fields may differ before anything is final, only final fields afterwards. |
| `SigningPlans.ValidatePlan` | custom_anchor_signing.go:833-933 | A plan is valid exactly when one variant is set and its keys are valid and distinct. |
| `SigningPlans.PlanKinds` | custom_anchor_signing.go:833-933 | The four kinds of accepted plans: a valid key; two or more distinct valid participants with a session; a leaf with distinct valid signers; the caller's word alone. |
| `SigningPlans.ValidatePlans` | custom_anchor_signing.go:833-933 | Accepted exactly when all plans are valid and plans plus backend-managed indices classify every input once. |
| `SigningPlans.AddedInputs` | custom_anchor_lifecycle.go:1584-1598 | The indices of the inputs a commit appended. |
| `SigningPlans.CommitKeepsPartition` | custom_anchor_lifecycle.go:310-314 | Plans covering the submitted inputs, together with the appended indices, cover the committed inputs exactly. |
| `SigningRequests.DigestInputInjective` | custom_anchor_package.go:1462-1471 | The hashed bytes determine domain and payload. |
| `SigningRequests.RequestPayloadInjective` | custom_anchor_signing.go:1182-1193 | The bytes of a request ID determine package digest, mode and input index. |
| `SigningRequests.RequestPayloadBytes` | custom_anchor_signing.go:1182-1193 | Package digest, mode byte and the input index on four bytes, most significant first. |
| `SigningRequests.DeriveRequests` | custom_anchor_signing.go:197-345 | Requests are derived exactly when plans and previous outputs are valid and every plan yields one; they are the contributions of the plans in input order, by mode. |
| `SigningRequests.OneRequestPerPlan` | custom_anchor_signing.go:197-345 | Every plan that is not caller-signed gets exactly one request; caller-signed and backend-managed inputs get none. |
| `SigningRequests.RequestIds` | custom_anchor_signing.go:1182-1193 | A request ID names the package digest, the mode and the input of its request. |
| `SigningDerivation.PlanIsAsked` | custom_anchor_signing.go:197-345 | Every plan gets, in the group of its kind and in no other, the one request it asks for: key path, MuSig2 or script path with that mode and ID, and the keys, sighashes, script, control block and signers of its input; a caller-signed input gets none. |
| `SigningDerivation.RequestsExactly` | custom_anchor_signing.go:197-345 | A valid package has its requests if and only if the previous outputs are known and the library has what every plan asks for. |
| `SigningDerivation.RequestsInOrder` | custom_anchor_signing.go:197-345 | Each group is in ascending order of inputs. |
| `SigningDerivation.SignatureExactly` | custom_anchor_signing.go:1237-1276 | A signature element is a valid 64-byte signature, alone under the default sighash type, else with the type behind it. |
| `SigningRequests.VerifyRequiredSignatures` | custom_anchor_signing.go:767-810 | What the greedy scan of a script-path witness accepts. |
| `SigningRequests.AuthorisedInjectively` | custom_anchor_signing.go:767-810 | If the scan accepts, distinct required signers are authorised by distinct witness positions, and every signature-sized element verifies for a declared signer. |
| `SigningRequests.AuthorisedExactly` | custom_anchor_signing.go:767-810 | Where no element verifies for two signers, the scan accepts if and only if every signer signed and nothing else did. |
| `SigningDerivation.ScanExactly` | custom_anchor_signing.go:767-810 | Ambiguous elements included, the scan accepts if and only if every element of 64 or 65 bytes is a signature by a declared signer and, each counted for the first it fits, they reach every declared signer. |
| `SigningRequests.VerifyFinalPlans` | custom_anchor_signing.go:600-701 | The final transaction is accepted exactly when every witness follows the plan of its input; the branch for an input without a plan is unreachable. |
| `SigningDerivation.FollowsExactly` | custom_anchor_signing.go:600-765 | A final witness is accepted for its plan if and only if it answers what the plan asks for and has no annex: one signature by the output key, or authorising elements, the sealed leaf and its control block. |
| `SigningPackage.NextValidExactly` | custom_anchor_package.go:446-505 | A valid package stays valid under a new current PSBT if and only if that PSBT keeps the committed metadata. |
| `TransferPackage.CustomAnchorTransferPackage.Clone` | custom_anchor_package.go:1204-1230 | The clone is a new object with the same content. |
| `TransferPackage.CustomAnchorTransferPackage.Validate` | custom_anchor_package.go:446-505 | The object-level check decides validity. |
| `TransferPackage.CustomAnchorTransferPackage.Seal` | custom_anchor_package.go:375-441 | Sealing works on a clone and leaves the receiver as it was. |
| `TransferPackage.CustomAnchorTransferPackage.SigningRequests` | custom_anchor_signing.go:179-195 | The request set is derived from the committed PSBT. |
| `TransferPackage.CustomAnchorTransferPackage.ApplyKeyPathSignature` | custom_anchor_signing.go:350-438 | Success and result are those of the specification, on a fresh object; the receiver is never written; no index is out of range. |
| `TransferPackage.CustomAnchorTransferPackage.ApplyScriptPathWitness` | custom_anchor_signing.go:443-524 | The same for a script-path witness, with leaf script and control block appended from the request. |
| `TransferPackage.CustomAnchorTransferPackage.WithFinalAnchorPSBT` | custom_anchor_signing.go:565-598 | The same for a final PSBT: plans and consensus rules are checked for every input. |
| `SigningRuns.RequestFacts` | custom_anchor_signing.go:197-345 | Every request carries the committed digest, its own mode and an input the current PSBT has. |
| `SigningRuns.RequestsDiffer` | custom_anchor_signing.go:1182-1193 | Within a package, equal IDs or equal inputs mean the same request. |
| `SigningRuns.RequestIdNamesContent` | custom_anchor_package.go:1407-1430 | Two valid packages share a request ID only if they committed to the same content, signatures aside, for the same input and mode. |
| `SigningRuns.CommittedDigestExactly` | custom_anchor_package.go:1407-1430 | Equal committed digests mean equal version, plan ID, details, plans, backend inputs and committed packet up to signatures and final fields, and conversely. |
| `SigningRuns.PackageDigestNamesPackage` | custom_anchor_package.go:1432-1450 | Valid packages with one package digest are equal, their current PSBTs as stored. |
| `SigningRuns.ApplyKeyExactly` | custom_anchor_signing.go:350-438 | When a key signature is accepted, as an equivalence: known request, verifying signature, open input, no other signature, and nothing final yet unless the committed packet had that signature. |
| `SigningRuns.ApplyScriptExactly` | custom_anchor_signing.go:443-524 | When a script witness is accepted, as an equivalence: among others, something is final already or no other input was signed. |
| `SigningRuns.WithFinalExactly` | custom_anchor_signing.go:565-598 | A final PSBT that follows the plans is always accepted and replaces the current PSBT wholesale by the committed packet with final fields. |
| `SigningRuns.ApplyKeyEffect` | custom_anchor_signing.go:350-438 | An accepted key signature sets the signature field of its input and changes nothing else but the package digest. |
| `SigningRuns.ApplyScriptEffect` | custom_anchor_signing.go:443-524 | An accepted witness sets the final witness of its input to the serialised elements, leaf and control block, drops that input's non-final fields, and changes nothing else but the package digest. |
| `SigningRuns.WithFinalEffect` | custom_anchor_signing.go:565-598 | A final PSBT contributes its final scripts and witnesses; everything else is the committed packet's. |
| `SigningDerivation.LookupsExactly` | custom_anchor_signing.go:350-380 | An ID finds exactly the one request that has it: a key signature looks among key-path and MuSig2 requests, a witness among script-path requests. |
| `SigningDerivation.FinalisesExactly` | custom_anchor_signing.go:565-701 | A final PSBT is accepted if and only if the package has its requests, the transaction is the committed one, and in the committed packet with the final fields every witness answers the plan of its input and executes. |
| `SigningRuns.RunKeepsCommitment` | custom_anchor_package.go:446-505 | Over every run of successful steps the package stays valid and committed digest, unsigned transaction and digest, plans and the request set with its IDs never change. |
| `SigningRuns.NothingIsReplaced` | custom_anchor_signing.go:350-524 | At the end of every run of Apply steps each signature and each witness the run applied is still in place. |
| `SigningRuns.NeverMixed` | custom_anchor_package.go:1357-1379 | No valid package over an unsigned committed packet holds a final witness and, on another input, a key signature. |
| `SigningRuns.ApplyNeverMixes` | custom_anchor_package.go:1357-1379 | So no run of Apply steps mixes key-path and script-path signing. |
| `SigningMixed.EitherButNotBoth` | custom_anchor_signing.go:350-524 | A concrete sealed package, with one active virtual packet, one output and a key-path and a script-path input, accepts either authorisation first and then refuses the other. |
| `SigningCompletion.RunExecutes` | custom_anchor_signing.go:443-524 | Whatever script-path witness a run applied still executes against the PSBT at the end of the run. |
| `SigningCompletion.CompletesExactly` | custom_anchor_signing.go:443-665 | After a run of script-path steps that reaches every input, WithFinalAnchorPSBT takes the package's own PSBT if and only if every stack the run applied has all required signers and no annex, which the steps themselves never check. |
| `SigningSeal.SealPlanCheckPasses` | custom_anchor_lifecycle.go:400-425 | In the package Commit builds from a response of an accepted shape, once sealed, plans and backend-managed indices classify every input of the committed transaction once, so the plan check cannot fail. |
| `SigningSeal.CommitSealsExactly` | custom_anchor_lifecycle.go:400-425 | Nor can the digest, transaction and metadata checks: that package is sealed if and only if it has a plan ID and an active packet, its mappings hold and the funding rules accept it. |
| `SigningSeal.ResealIsIdentity` | custom_anchor_package.go:375-441 | A sealed package seals to itself, whatever has been applied since. |
| `SigningSeal.SealFixesExactly` | custom_anchor_package.go:375-505 | Sealing gives a package back unchanged if and only if it is valid, its PSBTs are stored as they parse back, and its plans and backend inputs are in order. |
| `PackageMappings.KeyInjective` | custom_anchor_package.go:1509-1518 | The nine-byte mapping key determines role and both 32-bit indices. |
| `PackageMappings.CheckEntries` | custom_anchor_package.go:619-773 | One summary loop with its duplicate map: accepted exactly when every entry is valid and the keys are distinct. |
| `PackageMappings.BijectionByCount` | custom_anchor_package.go:941-951 | Distinct keys that include every slot and are as many as the slots are in one-to-one correspondence with the slots. |
| `PackageMappings.ValidateMappings` | custom_anchor_package.go:817-954 | Accepted exactly when input summaries biject with virtual inputs, output summaries and proof updates both biject with virtual outputs, and all of them match and agree. |
| `PackageMappings.MappingsExactly` | custom_anchor_package.go:817-954 | The same without keys and maps: accepted if and only if each virtual input has one input summary and each virtual output one output summary and one update, each well formed, on an existing anchor position, matching its packet, and updates repeat their output summaries. |
| `PackageMappings.VirtualIndicesInRange` | custom_anchor_package.go:619-773 | In an accepted package every virtual index is in range although no branch compares it. |
| `PackageMappings.OneUpdatePerOutput` | custom_anchor_package.go:1079-1093 | Every output summary has exactly one proof update for the same virtual output, and they agree. |
| `SigningRuns.MappingsOverRuns` | custom_anchor_package.go:446-505 | In a valid package, and after every run of steps on it, summaries and updates biject with the virtual inputs and outputs and every index is in range. |
| `CommitShape.Contains` | custom_anchor_lifecycle.go:980-997 | True exactly when every caller-provided key origin is still there. |
| `CommitShape.VerifyShape` | custom_anchor_lifecycle.go:800-953 | The accepted commit shapes; the last check of the source, on added outputs, can never fire. |
| `CommitShape.AcceptedCommit` | custom_anchor_lifecycle.go:800-953 | Version, locktime, original inputs in order, every asset output value and every BTC-only output are kept, apart from the value of a designated change output that is no asset output. |
| `CommitShape.AcceptsExactly` | custom_anchor_lifecycle.go:800-953 | A response is accepted if and only if it keeps the PSBT globals, version, locktime, inputs and outputs as listed, reports one of the change outcomes of its funding mode, and appends inputs only with wallet funds. |
| `CommitShape.OrdinaryResponses` | custom_anchor_lifecycle.go:853-899 | The submitted PSBT with any appended inputs and no new output is accepted in every wallet-funded mode, unchanged without funding, and with one new last output reported as change where a change output may be added. |
| `CommitShape.AddedOutput` | custom_anchor_lifecycle.go:845-895 | At most one output is added, only in Add mode, at the reported change index. |
| `CommitShape.OnlyChangeMovesValue` | custom_anchor_lifecycle.go:800-953 | The sum of all output values changes by exactly the change output. |
| `CommitShape.ValidateInventory` | custom_anchor_lifecycle.go:492-533 | Accepted exactly when the locked outpoints are those of the backend-managed inputs, each once. |
| `CommitShape.InventoryExactly` | custom_anchor_lifecycle.go:492-533 | Without funding nothing is locked; otherwise every managed index exists, and every outpoint is locked once if a managed input spends it and never if not. |
| `CommitShape.LocksAreAddedInputs` | custom_anchor_lifecycle.go:492-533 | The locked outpoints are exactly the outpoints of the appended inputs. |
| `AnchorFees.PrevOutValues` | custom_anchor_signing.go:1381-1452 | The spent outputs are known exactly when no outpoint repeats and every input names its output consistently. |
| `AnchorFees.ValidateTransaction` | custom_anchor_builder.go:2363-2420 | The value checks, with and without the funding requirement, decide ranges, totals, coverage and the zero-fee rule for pay-to-anchor outputs. |
| `AnchorFees.TransactionFee` | custom_anchor_builder.go:2422-2441 | For exactly the accepted funded transactions the fee is the difference of what is spent and what is paid, never negative, and computed without leaving 64 bits. |
| `AnchorFees.AcceptsExactly` | custom_anchor_builder.go:2363-2420 | Accepted if and only if sane, no outpoint is spent twice, each input map names the output it spends, values are within 21 million bitcoin, and a funded one pays for its outputs, to the satoshi beside a zero-value pay-to-anchor output. |
| `AltLeaves.LeavesEqual` | custom_anchor_lifecycle.go:1344-1361 | Each left leaf is the leaf the right list holds last under its key. |
| `AltLeaves.DistinctIsCorrect` | custom_anchor_lifecycle.go:1344-1361 | With pairwise distinct keys on the left, the comparison accepts exactly the permutations. |
| `AltLeaves.CorrectExactlyOnDistinctKeys` | custom_anchor_lifecycle.go:1344-1361 | The comparison is right for every right-hand list if and only if the left keys are pairwise distinct. |
| `AltLeaves.RepeatedLeafMisleads` | custom_anchor_lifecycle.go:1344-1361 | A repeated leaf makes two lists compare equal that are no permutations of each other. |
| `AltLeaves.EqualExactly` | custom_anchor_lifecycle.go:1344-1361 | On any two lists: equal if and only if as long, and every left leaf is on the right with no leaf of its key behind it. |
| `ProofSuffixes.EncodeWithoutSuffixes` | custom_anchor_lifecycle.go:1435-1483 | The encoding ignores what was taken out, and the packet comes back as it was if and only if there was nothing to lose: no proof before a nil entry and none on an entry listed twice. |
| `Amounts.CheckedAdd` | custom_anchor_types.go:1489-1496 | The 64-bit sum, or an error exactly on overflow. |
| `Amounts.ValidateAmounts` | custom_anchor_types.go:1217-1298 | Accepted exactly when all totals fit, every output asset balances and every input asset burns within its allowance. |
| `Amounts.ValidatePolicy` | custom_anchor_types.go:999-1051 | Accepted loss policies: allowances for distinct assets with a sum that fits. |
| `Amounts.PolicyExactly` | custom_anchor_types.go:999-1051 | The accepted policies in full, over references in any spelling: rejection and nothing else, or a confirmed list of positive allowances, one for each asset, with a sum that fits. |
| `Amounts.ConservesAssets` | custom_anchor_types.go:1217-1337 | Over the integers and for every asset: what is output went in, and what is burned is within the confirmed allowance, zero in reject mode. |
| `Amounts.AmountsExactly` | custom_anchor_types.go:1217-1337 | Over references: accepted if and only if all totals fit, inputs and outputs of every output's asset are equal, and of every input's asset nothing is burned or no more than a confirmed allowance for it. |
| `Amounts.ConservesExactly` | custom_anchor_builder.go:874-877 | Accepted amounts conserve every asset there is if and only if every non-empty input has an output of its asset, which for validated inputs is the refusal in the builder. |
| `Amounts.ConservesEquivalents` | asset_ref.go:135-155 | The same equivalence in the terms of the API: for every reference, in any spelling and for either parity of a group key, equivalent inputs and equivalent outputs add up to the same amount exactly when every input has an output of its asset. |
| `Amounts.UnspentInputsPass` | custom_anchor_types.go:1252-1270 | Without that refusal an asset can vanish: for any two assets and amounts, a request with one output that matches its first input passes, and all of the second input is gone. |
| `Amounts.TotalLossIsBounded` | custom_anchor_types.go:999-1051 | Everything burned in one request, over all assets, is at most the sum of the allowances. |
| `AssetRefs.KeyIsEquivalence` | custom_anchor_types.go:1477-1487 | The grouping key coincides with Equivalent on all strings, malformed ones included. |
| `AssetRefs.EquivalentIsEquivalence` | asset_ref.go:135-155 | Equivalent is reflexive, symmetric and transitive. |
| `AssetRefs.DecodeEncodeRef` | asset_ref.go:189-269 | Encoding an identifier and decoding it gives kind, payload and the same canonical string back. |
| `AssetRefs.DecodesRefExactly` | asset_ref.go:189-269 | A string is a reference if and only if its lower-case form is the bech32m text under its prefix of a zero byte, the kind byte and an identifier of that kind. |
| `AssetRefs.CanonicalIsLower` | asset_ref.go:207-269 | The canonical form of a valid reference is its own lower-case spelling. |
| `AssetRefs.ParseIsEquivalent` | asset_ref.go:94-101 | Parsing is idempotent and stays within the equivalence class. |
| `AssetRefs.GroupRefsIgnoreParity` | asset_ref.go:135-155 | Two group references are equivalent exactly when their keys agree up to parity. |
| `PlanMapping.MapInputs` | custom_anchor_builder.go:2167-2216 | Succeeds exactly when logical and virtual inputs are in one-to-one correspondence by predecessor and the anchor transaction spends them all; each summary then locates its input. |
| `PlanMapping.InputsArePermuted` | custom_anchor_builder.go:2167-2216 | The mapping accepts exactly a one-to-one correspondence: the virtual inputs are a rearrangement of the logical ones, which are distinct, have a proof source and are spent by the anchor. |
| `PlanMapping.FindLogical` | custom_anchor_builder.go:1985-2017 | The scan for the logical output of a virtual output, with its early error. |
| `PlanMapping.AssignmentMatches` | custom_anchor_builder.go:2100-2108 | The logical output a virtual output is assigned to names its asset, uses its anchor output and derives its script key. |
| `PlanMapping.AssignsExactly` | custom_anchor_builder.go:1985-2060 | A virtual output is assigned to an output if and only if that is the first that names its asset and anchor and has its script key, the key is valid, and OP_TRUE outputs check out. |
| `PlanMapping.MapOutputs` | custom_anchor_builder.go:1958-2098 | Succeeds exactly when every virtual output belongs to a logical output and each logical output receives its requested amount; one plan entry per virtual output, in order. |
| `PlanMapping.MapsExactly` | custom_anchor_builder.go:1958-2098 | The plan is accepted if and only if every virtual output has an owner among the requested outputs and each of those owns what was asked for. |
| `PlanMapping.MappingConserves` | custom_anchor_builder.go:1958-2098 | The virtual outputs together hold exactly what the logical outputs together request. |
| `EventDrain.HandledInOrder` | event_listener.go:419-501 | In every interleaving the handled events are an in-order prefix of what the producer sent, and the returned count is exact. |
| `EventDrain.NothingIsLost` | event_listener.go:419-501 | A drain that does not return because of the context has handled everything that was sent and returns what the producer ended with. |
| `EventDrain.CompleteWithoutCancel` | grpc/event_client.go:61-89 | Without cancellation the whole stream is handled and its own error returned. |
| `EventDrain.NoDeadlock` | event_listener.go:419-501 | Until the drain has returned, producer or drain can move. |
| `EventDrain.RunsAreFinite` | event_listener.go:419-501 | Every run ends after a number of steps linear in the events. |
| `EventDrain.EventsComeFirst` | event_listener.go:419-501 | While an event can be received, polling and flushing receive it, whatever has been cancelled or closed. |
| `EventDrain.WaitHearsAll` | event_listener.go:419-501 | In the blocking select an event, the end of the events, the error and cancellation can each be taken. |
| `EventDrain.ProducerHearsCancel` | grpc/event_client.go:61-89 | A cancelled producer can give up wherever it receives or sends. |
| `StreamRetry.RunStream` | event_listener.go:266-334 | The reconnect loop stops at the first attempt that ends it, and its waits are those of the streak since the last delivery. |
| `StreamRetry.GivingUpExactly` | event_listener.go:290-308 | The retry limit ends the loop exactly when that many last attempts delivered nothing. |
| `StreamRetry.BackoffIsCapped` | event_listener.go:290-332 | Waits are bounded, and a delivery brings the wait back to the first. |
| `StreamRetry.FailsOnce` | event_listener.go:281-308 | An error is reported at most once, and last. |
| `StreamRetry.OtherEndings` | event_listener.go:266-334 | Which attempts end the loop otherwise: a stopped context before a fatal error, and a context that ends in the wait. |
| `StreamRetry.ReportsExactly` | event_listener.go:281-332 | Everything reported, in order: one wait for each attempt after which the loop goes on, first or grown up to the cap, a failure where it gives up, nothing where the context stopped. |
| `TapAddress.ReadWriteBigSize` | decode_addr.go:389-499 | Reading inverts writing for every uint64 and leaves the rest unread. |
| `TapAddress.BigSizeExactly` | decode_addr.go:389-499 | What is read is any of the one-, three-, five- or nine-byte big-endian forms of the number, and what is written is the shortest. |
| `TapAddress.EncodeAddress` | decode_addr.go:252-365 | The encoder writes the records in ascending type order into a bech32m string that starts with the prefix of the network. |
| `TapAddress.DecodeRecords` | decode_addr.go:100-222 | The record loop terminates and applies strictly ascending records. |
| `TapAddress.DecodeAddress` | decode_addr.go:56-242 | The decoder from text to fields. |
| `AddressRecords.PayloadWritten` | decode_addr.go:280-352 | The payload is the stream of exactly the records of the address, with their type numbers, in ascending order. |
| `AddressRecords.DecodesExactly` | decode_addr.go:100-222 | A payload decodes to fields if and only if it is a stream of records in strictly ascending order whose known ones are well formed, and each field is that of the record of its type. |
| `AddressRecords.NamesTheAsset` | decode_addr.go:224-242 | The asset ID names the asset, unless it is all zeros beside a group key, which then does. |
| `TapAddress.DecodeRecoversAddress` | decode_addr.go:56-365 | Decoding the encoding recovers versions, amount, keys, sibling and courier, and the reference in canonical form. |
| `TapAddress.RoundTripExactly` | decode_addr.go:252-365 | The address comes back as it was if and only if versions are known, keys are points and the reference is canonical; the encoder checks none of this. |
| `Bech32.ExpandSqueeze` | decode_addr.go:355-365 | Regrouping eight bits to five and back loses nothing. |
| `Bech32.SqueezeExpand` | decode_addr.go:78-84 | What expands is the one padded form of its bytes. |
| `Bech32.SqueezeIsNumber` | decode_addr.go:355-365 | Read in base 32, the regrouped bytes are the number the bytes are, shifted by the padding. |
| `Bech32.DecodeEncode` | decode_addr.go:360-365 | Decoding a bech32m string returns prefix and data. |
| `Bech32.EncodeDecode` | asset_ref.go:214-269 | A bech32m string is the only encoding of what it decodes to. |
| `FeeRates.ParseFeeRate` | fee_rate.go:50-102 | A decimal with at most three places is accepted exactly when its exact sat/kvB amount fits 64 bits, and then that amount is returned. |
| `FeeRates.ParseUint` | fee_rate.go:150-170 | The digit loop with its overflow cut-off returns the number exactly when it fits. |
| `FeeRates.DecimalExactly` | fee_rate.go:50-102 | A text denotes a rate if and only if it is not empty and is a whole part, with or without a point and up to three digits behind it; the rate is its value in thousandths. |
| `FeeRates.TrimExactly` | fee_rate.go:50-60 | Only white space at the two ends is ignored. |
| `FeeRates.ParsePrinted` | fee_rate.go:172-183 | The printed form of every rate parses back to the same rate. |
| `FeeRates.PrintsDecimal` | fee_rate.go:172-183 | The printed form denotes the rate and has no superfluous zero or point. |
| `FeeRates.CeilDiv` | fee_rate.go:185-191 | The least quotient that covers the numerator, without overflow. |

## Left out

- TransferPackage.CustomAnchorTransferPackage.Clone: byte strings are values here, so that a clone shares nothing with its origin is proved for the object but not for the byte slices inside it.
- The native asset library, Bitcoin script, elliptic curves, MuSig2, Taproot tweaks and MS-SMT commitments: function values, as above.
- `transition.Verify` of the native library is a predicate of predecessor, transition and inputs that on success yields the transition's own asset and outpoint.
- PSBT serialisation as bytes: a stored PSBT is the packet it parses to, and serialising normalises it. Absent and empty byte fields are not distinguished, as they are not after parsing.
- The JSON form of a package: digests are taken of the content it lists. Two contents with the same JSON text are not considered.
- SHA-256: digests are symbolic, so collisions do not exist in the model.
- The structural rules of a package that concern neither mappings nor signing (funding modes, lock IDs, publication data) are one predicate of the committed content in `SigningPackage`; virtual packets are decoded already.
- AnchorFees.ValidateTransaction: the consensus library's sanity check of the transaction is a function value.
- VerifyFinalAnchorPSBT: it adds no state; its checks are those of `WithFinalAnchorPSBT`.
- PackageMappings.ValidateMappings: assumes at most 2^32 packets and entries per packet, which 32-bit indices can name; the checks of single entries against native assets are function values.
- PackageMappings.MappingsExactly: for fewer than 2^32 packets of each role and fewer than 2^32 anchor inputs and outputs, since the source compares with counts cut to 32 bits.
- AnchorFees.AcceptsExactly: for previous transactions with fewer than 2^32 outputs, since the source compares with a count cut to 32 bits.
- CommitShape.AcceptsExactly: for the same number of outputs as `AcceptedCommit`.
- CommitShape.OrdinaryResponses: for the same number of outputs as `AcceptedCommit`.
- SigningPlans.ValidatePlans: assumes fewer than 2^32 inputs, more than a transaction can have.
- CommitShape.AcceptedCommit: assumes fewer than 2^31 outputs, so that the source's 32-bit casts of output indices are exact; the casts themselves are modelled.
- ProofPathObjects.VerifyPath: reads the objects into a tree once and verifies that, where the source follows the pointers as it goes; verification never writes to a path.
- ProofPathVerify.Verify: the fields of the summary that the source derives from the final proof are represented by that proof.
- Address checksums: the bech32 polynomial is a function value of which only the length and the difference of the two variants are assumed; upper-case input is covered by the lower-casing step before decoding.
- TapAddress.DecodeRecoversAddress: claims this direction only, since the reader accepts longer BigSize forms and unknown record types.
- reflect.DeepEqual of PSBT maps is equality of values; nil and empty slices are not told apart.
- Wall-clock time, jitter and floating-point backoff: `StreamRetry` keeps the wait as a number and the growth as a function.
- The network side of a subscription: the model's stream is the finite list of events it delivers before it ends, so a server that stays silent for ever is not covered.
- Start and Stop of the listener, gRPC and REST clients, macaroons, TLS, wallet and universe calls: no local invariant.
- Error texts and error classification: an outcome says which check failed only where callers can tell.
