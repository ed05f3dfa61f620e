# Verification of the attestation client

A Dafny 4.11 model of the parts of the Root Herald client that carry its guarantees, and proofs about it.
`dafny verify dfyconfig.toml` checks the whole project.

**Enrollment over a modelled TPM.** `TpmState` is a TPM 2.0 with its resource manager: contexts, transient objects
and sessions per context, persistent objects, NV indices, and PCRs, which may change from one command to the next.
What becomes of each command is scripted (executed, executed but the response lost, refused, dropped; and whatever
the TPM is free to choose, such as handles and the length of an NV read), so a claim about every script is a claim
about every run. `TpmWire` is the command grammar of the TPM 2.0 Library, Part 1, section 18; `TpmCodec` gives each
command and reply its bytes and the TPM its understanding of submitted bytes. The classes `TpmCommands`,
`TbsKeyProvider` and `EnrollmentClient` build, patch, submit and parse those bytes step by step, as the Windows
sources do, and are proved to compute the functions of `ClientSpec` and `EnrollmentSpec`. The theorems about runs
(`EnrollmentSafety`, `EnrollmentEndToEnd`, `EvidenceCoherence`, `BodyTexts`, `HandedOut`) are about these
functions, and so about the code. What is written and read is also stated without naming those functions:
`KeyTemplates` reads the key templates field by field, `WireBytes` gives commands and replies as numbers,
`HandedOut` says what the texts that leave the client state about the platform's data, NV memory and the PCRs, with
the readers of `Readings`, and `Formats` writes out the formats of the other modules. MakeCredential and
ActivateCredential are idealised: what is sealed to one EK and one Name opens under exactly those
(`EnrollmentEndToEnd.IdealPossible` and `EnrollmentEndToEnd.CodecDecodes` show that the assumptions can be met).
Commands follow the TPM 2.0 Library, Part 3, sections 11.1, 12.5, 18.4, 22.4, 23.4, 24.1, 28.4, 28.5 and 31.13.

**Texts.** `Json` and `JsonRoundTrip` are the Windows printer and scanner, `FixedJson` the Linux ones, which write
into buffers of fixed size; `Base64` is the Linux codec (RFC 4648, section 4) with the PEM armour, and also what the
Windows platform codec is taken to compute. Neither scanner parses JSON: a value is found by searching for its
quoted key. The round trips are therefore exact statements. Where no value in front that is printed verbatim
contains the quoted key, a value is recovered if and only if no earlier value equals the key or ends in a quote
followed by it, or, on Windows, the field behind the first such value has the same value, or, on Linux, the value is
empty: behind such a value Windows answers with the next field's value, Linux with nothing.

**Boot evidence.** `EventLog` and `EventLogAnalysis` are the parser of TCG_PCR_EVENT2 records (TCG PC Client
Platform Firmware Profile 1.05, section 10.2.2) and its verdict; `SignatureLists` and `SecureBoot` are the parser of
EFI_SIGNATURE_LIST (UEFI Specification 2.10, section 32.4.1) and the chain validator. The serialisers are the
specification; certificate decoding is a parameter. The loops have the guards of the source and no others: every
read goes through `Bytes.Access`, which is a value or the first offset outside the data, and the theorems say for
exactly which logs the second never happens.

**Loops.** `NvReading` shows that chunked NV reads on both platforms yield the whole index; `CertMerge` that the
capped, deduplicating merge equals its one-line specification; `PcrSelection` is about the selection bitmap.

`Bytes`, `Seqs` and `Buffers` hold the integers, the regrouping of concatenations and the copying into buffers that
the others use. No lemma relies on Dafny's automatic induction: each carries `{:induction false}`.

## Found on the way

- The length test of `ExtractEfiVariableName` is on a sum that wraps around in 64 bits, and its loop has no other
  bound but 256 characters. An event of 32 bytes with NameLength 0x7FFFFFFFFFFFFFF0 is read at offset 32
  (`EventLogAnalysis.NameReadOutside`, `LogReadOutside`). `NameInsideIff` and `LogInsideIff` say for exactly which
  events and logs this happens: the sum wraps, the event has no room for 256 characters, and none of them is zero.
- `ParseEfiSignatureList` tests `dataOffset + dataLen` in the same way. An event of 32 bytes with DataLength
  0xFFFFFFFFFFFFFFE0 is read at offset 48 (`SignatureLists.ListsReadOutside`, `SecureBoot.ChainReadOutside`).
  Without a wrap every read stays inside; with one, exactly if the sum is refused, the length is too small for a
  list, a list of size zero is met inside the data, or the lists start so close to 2^64 that the addresses wrap
  around as well and the size found at the front of the data ends the loop (`SignatureLists.ListsInsideIff`,
  `SignatureLists.ListsReadAtTop`, `SecureBoot.ChainInsideIff`). The verdicts (`EventLogAnalysis.VerdictExact`,
  `SecureBoot.ChainExact`) are stated for the logs that are read inside.
- The parsers of TPM2_CreatePrimary's and TPM2_ActivateCredential's responses do not test the length of a response
  that claims success; `ResponseParsers.CreatedOutsideIff` and `SecretOutsideIff` say which ones are read behind
  their end, and `ReadOutsideExamples` shows one each.
- `json_append_string` adds what snprintf would have written, not what it wrote. A key that does not fit has its
  terminator written behind the buffer, and so has every member behind a clipped value
  (`FixedJson.AppendInsideIff`, `FixedJson.NextIsOutside`).
- A value that equals a later key misleads both JSON scanners (`JsonRoundTrip.ClashExample`,
  `FixedJson.RoundTripIff`). In the bodies that the client builds only the device id can do harm this way: with
  the device id `quote` the reader of the evidence gets the PCR values for the quote (`BodyTexts.MisreadExample`).
  `BodyTexts.EvidenceReadIff` and `EvidenceMemberIff` say for which device ids it happens; `BodyTexts.EnrollBodyRead`
  says that enroll requests are always read back.
- The printers escape quotes, backslashes and line feeds only. What they print is JSON exactly if no value contains
  another control character (`Formats.ObjectSaysIff`, `Formats.TabExample`). The scanners in turn read the escapes
  \b, \f and \r as letters, and the Windows one also \t (`Formats.ReadStringIff`, `Formats.ReadTextIff`).
- Persisting is three commands: look, clear, move. If the response to the clear is lost, or the move fails, the
  slot is left empty and `RootHeraldEnrollComplete` reports ENROLLMENT_FAILED; `TpmEffects.EvictEmptiesIff` says
  exactly when, and `TpmEffects.EmptySlotKeepsAll` that nothing is lost when the slot is empty beforehand.
- A failed allocation at the very end of `RootHeraldEnrollComplete` returns INTERNAL with the new AK already in
  the slot (`EnrollmentSafety.CompleteOutcomes`; `EnrollmentEndToEnd.LostReply` is such a run).
- PCR values are read before the quote, one command each, and nothing is compared afterwards. If a PCR is extended
  in between, the evidence reports other values than it quotes (`EvidenceCoherence.ReportedIsCovered`);
  `EvidenceCoherence.StaleExample` is a collection in which that happens to every PCR and every command succeeds.
- The merge of the intermediate certificates does not compare those from NV with each other. A duplicate is left
  exactly if two of the first eight have one fingerprint (`CertMerge.DistinctIff`, `CertMerge.NvDuplicates`).
- Without a Spec ID header a log whose first record has type EV_NO_ACTION may be taken for one, and lost
  (`EventLog.HeaderlessIff`, `EventLog.HeaderlessExample`).
- A nonce of 65536 bytes or more has its length truncated and is not read back (`TpmCodec.QuoteNonceIff`).
- The interface of `IAttestationKeyProvider` describes `DeleteAk` as deleting the key; the TBS provider only
  drops the transient handles (`windows/src/tpm/tbs_key_provider.cpp:65-72`). The model follows the code.
- The macro `TPM2_RH_ENDORSEMENT` (`windows/src/tpm/tpm_commands.cpp:46`) has the value of TPM_RS_PW, but no code
  uses it; the commands write 0x4000000B.

## Model

| member | source | states |
|---|---|---|
| EnrollmentSafety.SlotSafety | windows/src/client/rootherald_win.cpp:431-544 | over every run of Begin, Complete and Collect with any arguments and any fate of any command, the AK slot holds its initial object, nothing, or an AK that TPM2_ActivateCredential accepted together with the EK created beside it; no other persistent handle changes |
| EnrollmentSafety.HandleConservation | windows/src/tpm/tpm_commands.cpp:468-576 | between calls no session is live and the live transients are exactly the resident provider's EK and AK, both or neither; inside calls never more than four transients and one session |
| EnrollmentSafety.OneActivationPerBegin | windows/src/client/rootherald_win.cpp:483-544 | over every run each AK goes through at most one activation attempt |
| EnrollmentSafety.InFlightDiscipline | windows/src/client/rootherald_win.cpp:436-544 | a failed Begin keeps the earlier enrollment in flight, a successful one replaces it, Complete releases it on every outcome but an invalid parameter, collecting changes no object, session or slot, and a blob is handed out exactly on OK |
| EnrollmentSafety.PerformKeepsInv | windows/src/client/rootherald_win.cpp:431-761 | every public call keeps the invariant behind these theorems, whatever its arguments and whatever its commands meet |
| EnrollmentSafety.CompleteOutcomes | windows/src/client/rootherald_win.cpp:511-543 | which slot contents each result of Complete means: unchanged when the challenge does not open, the AK in flight on OK and on a failed allocation, old, new or empty when persisting fails |
| EnrollmentSafety.BeginKeysEffect | windows/src/client/rootherald_win.cpp:456-480 | a Begin that succeeds leaves a new context with a new EK and AK in it, one that fails leaves nothing; at most two transients on top of what was there |
| EnrollmentSafety.CollectSettles | windows/src/client/rootherald_win.cpp:577-725 | evidence collection leaves no object, session, context or persistent slot changed |
| EnrollmentEndToEnd.HonestEnrollment | windows/src/client/rootherald_win.cpp:436-544 | with an ideal MakeCredential/ActivateCredential pair, a nonempty secret, a device id that is read back (any string, and any balanced text or literal that hides no key) and no failing command, an honestly relayed enrollment returns the secret, and slot 0x81029301 ends up with the very AK that this Begin created and announced, a restricted signing key of the owner hierarchy, whatever it held before; every other persistent handle is as it was; down to the JSON texts |
| EnrollmentEndToEnd.LostReply | windows/src/client/rootherald_win.cpp:532-543 | the same run with no memory left for the reply ends with INTERNAL, and the new AK is in the slot |
| EnrollmentEndToEnd.ForeignChallenge | windows/src/client/rootherald_win.cpp:511-519 | a challenge sealed to another EK or another Name is answered ATTESTATION_FAILED whatever else happens, and the slot keeps its contents |
| EnrollmentEndToEnd.UnopenedChallenge | windows/src/client/rootherald_win.cpp:502-519 | for any challenge text that has the three values, over what JsonGet reads: if the TPM does not unseal what two of them decode to, the call fails with ATTESTATION_FAILED and the slot keeps its contents |
| EnrollmentEndToEnd.CompleteRefusals | windows/src/client/rootherald_win.cpp:490-509 | for every world and every input: INVALID_PARAM if and only if the challenge or the out pointer is missing, or an enrollment is in flight and JsonGet reads nothing for deviceId, credentialBlob or encryptedSecret; NOT_ENROLLED if and only if both are there and nothing is in flight; both leave the world as it was |
| EnrollmentEndToEnd.BeginOutcomes | windows/src/client/rootherald_win.cpp:431-485 | INVALID_PARAM exactly without an out pointer, ELEVATION_REQUIRED exactly without elevation, and then nothing changes; without an EK public key the enrollment fails and nothing changes; INTERNAL only without memory; a blob exactly on OK |
| EnrollmentEndToEnd.BeginDecided | windows/src/client/rootherald_win.cpp:431-485 | if no command fails, the result of a Begin is decided by its arguments, in this order |
| EvidenceCoherence.CollectOutcomes | windows/src/client/rootherald_win.cpp:577-761 | what the results of a collection mean, whatever fails: missing arguments change nothing, INVALID_PARAM otherwise means an empty nonce, INTERNAL no memory, a blob exactly on OK |
| EvidenceCoherence.CollectOpening | windows/src/client/rootherald_win.cpp:577-612 | whatever fails: NOT_ENROLLED if and only if the first two requests do not both succeed or slot 0x81029301 is empty, NO_TPM if and only if they do, it is not, and the second context cannot be opened |
| EvidenceCoherence.CollectDecided | windows/src/client/rootherald_win.cpp:577-761 | if no command fails, the result of a collection is decided, in this order, by its arguments, by whether slot 0x81029301 is occupied, by the nonce (1 to 4053 bytes), by whether the key in the slot may sign, and by memory |
| EnrollmentEndToEnd.ActivateSucceeds | windows/src/tpm/tpm_commands.cpp:468-576 | session, policy and activation recover what was sealed if no command fails |
| EnrollmentEndToEnd.EvictSucceeds | windows/src/tpm/tpm_commands.cpp:593-636 | if no command fails the object ends up in the slot, whatever the slot held |
| EnrollmentEndToEnd.UnopenedFails | windows/src/client/rootherald_win.cpp:512-519 | nothing unsealed means ATTESTATION_FAILED and unchanged persistent memory, for every fate of every command |
| EnrollmentEndToEnd.ChallengeRead | windows/src/client/rootherald_win.cpp:502-506 | the three values of a printed challenge are read back exactly, for every device id that is printed as a string, and for every one that is copied, balanced, and does not hide the key behind it |
| KeyTemplates.AkTemplateFacts | windows/src/tpm/tpm_commands.cpp:301-338 | for every bit below 32: set if and only if it is 1, 4, 5, 6, 16 or 18, so that the AK is a restricted signing key; type, name algorithm, policy, RSASSA with SHA-256, 2048 bits and exponent, each read at its offset |
| KeyTemplates.EkTemplateFacts | windows/src/tpm/tpm_commands.cpp:397-434 | for every bit below 32: set if and only if it is 1, 4, 5, 7, 16 or 17, so that the EK is a restricted decryption key; the digest of the endorsement policy, AES-128-CFB, 2048 bits and exponent, each at its offset |
| TpmEffects.ActivateEffect | windows/src/tpm/tpm_commands.cpp:473-576 | on every path the objects stay, at most one session is added, one attempt is made, and a secret only comes from an activation of exactly these two objects |
| TpmEffects.EvictEffect | windows/src/tpm/tpm_commands.cpp:593-636 | afterwards the slot holds what it held, nothing, or the object; the object on success; no other slot changes |
| TpmEffects.EvictNotAtomic | windows/src/tpm/tpm_commands.cpp:597-635 | an input on which the old slot contents are lost although the call fails: the clear is executed and its response does not arrive |
| TpmEffects.EvictEmptiesIff | windows/src/tpm/tpm_commands.cpp:597-635 | for every fate of the three commands: an occupied slot ends up empty if and only if it is seen to be occupied and cleared, and then either the response to the clear is lost, or the move is not executed or not allowed |
| TpmEffects.EmptySlotKeepsAll | windows/src/tpm/tpm_commands.cpp:597-635 | if the slot is empty beforehand, no persistent object is lost on any path |
| TpmEffects.FlushIff | windows/src/tpm/tbs_key_provider.cpp:17-21 | for every fate of the two commands: the AK goes exactly if the first is executed, the EK exactly if the second is, and no other object goes |
| TpmFrames.CloseRestores | windows/src/tpm/tbs_key_provider.cpp:23-27 | closing a context undoes whatever happened in it since it was opened |
| TpmFrames.IssueStep | windows/src/tpm/tpm_commands.cpp:142-171 | no command but EvictControl touches persistent memory or another context |
| Enrollment.EnrollmentClient.EnrollBegin | windows/src/client/rootherald_win.cpp:436-485 | the call on the resident state computes EnrollmentSpec.EnrollBegin, byte for byte; HandedOut.BeginHandsOut says what its request states, EnrollmentEndToEnd.BeginOutcomes when it is refused |
| Enrollment.EnrollmentClient.EnrollComplete | windows/src/client/rootherald_win.cpp:490-544 | likewise for EnrollComplete; EnrollmentEndToEnd.CompleteRefusals says which calls are refused, CompleteOutcomes, HonestEnrollment and UnopenedChallenge what the others do |
| Enrollment.EnrollmentClient.CollectEvidence | windows/src/client/rootherald_win.cpp:740-761 | likewise for CollectEvidence; HandedOut.CollectHandsOut and BodyTexts.EvidenceHandedOut say what the evidence states, EvidenceCoherence.CollectDecided when there is any |
| Enrollment.EnrollmentClient.CreateProvider | windows/src/client/rootherald_win.cpp:456-478 | a provider that fails to make its AK is closed and leaves no handle |
| Enrollment.EnrollmentClient.BeginWith | windows/src/client/rootherald_win.cpp:456-485 | the new provider takes the place of the one in flight, which is closed, on success only; the blob is made at the end |
| Enrollment.EnrollmentClient.ActivateAndPersist | windows/src/client/rootherald_win.cpp:511-529 | the provider is released on every path |
| Enrollment.EnrollmentClient.SelectEnrolledProvider | windows/src/client/rootherald_win.cpp:549-554 | an open provider with the slot occupied, or none and nothing left open |
| Enrollment.EnrollmentClient.CollectEvidenceFields | windows/src/client/rootherald_win.cpp:577-725 | reads, quote and chain over two contexts that are both closed again |
| Enrollment.GatherEkEnrollData | windows/src/client/rootherald_win.cpp:299-354 | EK data, certificate choice by the 32-byte rule, merged chain; HandedOut.BeginHandsOut says, over the platform's data and NV memory alone, what of them is sent |
| Enrollment.BuildEnrollFields | windows/src/client/rootherald_win.cpp:362-384 | the enroll members in the map's key order |
| Enrollment.ReadPcrValues | windows/src/client/rootherald_win.cpp:620-634 | the loop that reads the PCRs and prints on the way ends in the same state, with the same text, as reading them all and printing what was read; nothing after the first failure |
| KeyProvider.TbsKeyProvider.FlushTransients | windows/src/tpm/tbs_key_provider.cpp:17-21 | flushes the AK, then the EK, and forgets both |
| KeyProvider.TbsKeyProvider.Close | windows/src/tpm/tbs_key_provider.cpp:23-27 | flushes and closes the context |
| KeyProvider.TbsKeyProvider.CreateAk | windows/src/tpm/tbs_key_provider.cpp:34-56 | EK then AK, or neither |
| KeyProvider.TbsKeyProvider.DeleteAk | windows/src/tpm/tbs_key_provider.cpp:65-72 | drops the transients only; the persistent slot keeps its object |
| KeyProvider.TbsKeyProvider.ActivateCredential | windows/src/tpm/tbs_key_provider.cpp:79-88 | empty without both handles, else the activation over them |
| KeyProvider.TbsKeyProvider.PersistAk | windows/src/tpm/tbs_key_provider.cpp:90-101 | evicts the AK to the slot; transients are flushed only on success |
| TpmCommands.TpmCommands.SendCommand | windows/src/tpm/tpm_commands.cpp:142-171 | the back-patched bytes do to the TPM what the intended command does, and the response reports its outcome |
| TpmCommands.TpmCommands.CreateAndLoadAk | windows/src/tpm/tpm_commands.cpp:340-393 | the handle and the complete TPM2B_PUBLIC, or 0 |
| TpmCommands.TpmCommands.CreateEk | windows/src/tpm/tpm_commands.cpp:436-466 | the EK's handle, or 0 |
| TpmCommands.TpmCommands.ActivateCredential | windows/src/tpm/tpm_commands.cpp:468-576 | session, policy, activation; the session is flushed on every path |
| TpmCommands.TpmCommands.IsPersistentPresent | windows/src/tpm/tpm_commands.cpp:578-591 | whether ReadPublic on the handle succeeds |
| TpmCommands.TpmCommands.EvictControl | windows/src/tpm/tpm_commands.cpp:593-636 | clear if occupied, then move in |
| TpmCommands.TpmCommands.Quote | windows/src/tpm/tpm_commands.cpp:225-288 | the attestation, and the signature followed by the response session area |
| TpmCommands.TpmCommands.PcrRead | windows/src/tpm/tpm_commands.cpp:173-223 | the first digest of the reply, or empty |
| TpmCommands.TpmCommands.ReadNvCertificate | windows/src/tpm/tpm_commands.cpp:638-743 | the chunk loop with its 16-bit offset equals the unbounded one; the output is empty unless the call succeeds |
| TpmCommands.TpmCommands.ReadIntelOdcaIntermediates | windows/src/tpm/tpm_commands.cpp:745-757 | the certificates found at the sixteen handles, in order |
| TpmWire.UnmarshalMarshal | windows/src/tpm/tpm_commands.cpp:54-111 | every well-formed command is read back from its bytes: tag, code, handles, sessions, parameters |
| TpmWire.MarshalUnmarshal | windows/src/tpm/tpm_commands.cpp:54-111 | nothing else reads as that command: commandSize is the length, authorizationSize the session area |
| TpmWire.PatchedIsMarshalled | windows/src/tpm/tpm_commands.cpp:146-153 | the size back-patch turns the placeholder into the length and changes no other byte |
| TpmCodec.UnderstandEncoded | windows/src/tpm/tpm_commands.cpp:173-257 | each of the eleven commands is understood as the command that was meant if it is at most 4096 bytes long and its fields fit, and as none otherwise |
| TpmCodec.EncodedUnmarshals | windows/src/tpm/tpm_commands.cpp:54-111 | header, handles, sessions and parameters of each of the eleven commands are read back from its bytes, for any length that commandSize can state |
| TpmCodec.QuoteNonceIff | windows/src/tpm/tpm_commands.cpp:70-74 | nonce and PCR selection of a quote are read back from its parameters if and only if the nonce is shorter than 65536 bytes |
| TpmCodec.SubmitIssues | windows/src/tpm/tpm_commands.cpp:142-171 | submitting the bytes has the effect of issuing the command, on every fate |
| CommandBuffer.CommandBuffer.WriteTPM2B | windows/src/tpm/tpm_commands.cpp:70-74 | appends the 16-bit length and the bytes |
| CommandBuffer.CommandBuffer.PatchSize | windows/src/tpm/tpm_commands.cpp:147-153 | the size field becomes the buffer length |
| CommandBuilders.BuildAkPublic | windows/src/tpm/tpm_commands.cpp:301-338 | the bytes of the AK template, whose fields KeyTemplates.AkTemplateFacts reads one by one |
| CommandBuilders.BuildEkPublic | windows/src/tpm/tpm_commands.cpp:397-434 | the bytes of the EK template, whose fields KeyTemplates.EkTemplateFacts reads one by one |
| CommandBuilders.BuildCreatePrimary | windows/src/tpm/tpm_commands.cpp:348-368 | the unsized form of TPM2_CreatePrimary with this template |
| CommandBuilders.BuildStartSession | windows/src/tpm/tpm_commands.cpp:478-490 | the unsized form of TPM2_StartAuthSession for a policy session |
| CommandBuilders.BuildPolicySecret | windows/src/tpm/tpm_commands.cpp:507-515 | the unsized form of TPM2_PolicySecret on the endorsement hierarchy |
| CommandBuilders.BuildActivate | windows/src/tpm/tpm_commands.cpp:532-552 | the unsized form of TPM2_ActivateCredential with both authorizations; the blobs are not wrapped again |
| CommandBuilders.BuildEvict | windows/src/tpm/tpm_commands.cpp:617-623 | the unsized form of TPM2_EvictControl |
| CommandBuilders.BuildQuote | windows/src/tpm/tpm_commands.cpp:231-257 | the unsized form of TPM2_Quote for any key, nonce and list of PCRs |
| CommandBuilders.BuildPcrRead | windows/src/tpm/tpm_commands.cpp:175-186 | the unsized form of TPM2_PCR_Read |
| CommandBuilders.BuildNvRead | windows/src/tpm/tpm_commands.cpp:704-710 | the unsized form of TPM2_NV_Read |
| CommandBuilders.BuildFlush | windows/src/tpm/tpm_commands.cpp:290-297 | the unsized form of TPM2_FlushContext |
| WireBytes.CreatePrimaryBytes | windows/src/tpm/tpm_commands.cpp:341-368 | the bytes of TPM2_CreatePrimary as numbers: tag, size, code, hierarchy, empty password, sensitive area, template |
| WireBytes.StartSessionBytes | windows/src/tpm/tpm_commands.cpp:478-490 | TPM2_StartAuthSession: two null handles, the nonce 3, 10, 17 and so on modulo 256, a policy session with SHA-256 |
| WireBytes.PolicySecretBytes | windows/src/tpm/tpm_commands.cpp:507-515 | TPM2_PolicySecret: authority and session, empty password, three empty buffers, no expiration |
| WireBytes.ActivateBytes | windows/src/tpm/tpm_commands.cpp:532-552 | TPM2_ActivateCredential: AK and EK, the password for the one and the session for the other, the blobs |
| WireBytes.FlushBytes | windows/src/tpm/tpm_commands.cpp:290-297 | TPM2_FlushContext |
| WireBytes.ReadPublicBytes | windows/src/tpm/tpm_commands.cpp:582-584 | TPM2_ReadPublic |
| WireBytes.EvictBytes | windows/src/tpm/tpm_commands.cpp:617-623 | TPM2_EvictControl: the owner, the object, the persistent handle |
| WireBytes.QuoteBytes | windows/src/tpm/tpm_commands.cpp:231-257 | TPM2_Quote: key, nonce, RSASSA with SHA-256, one selection of SHA-256 PCRs |
| WireBytes.PcrReadBytes | windows/src/tpm/tpm_commands.cpp:175-186 | TPM2_PCR_Read: one selection of SHA-256 PCRs |
| WireBytes.NvReadPublicBytes | windows/src/tpm/tpm_commands.cpp:649-651 | TPM2_NV_ReadPublic |
| WireBytes.NvReadBytes | windows/src/tpm/tpm_commands.cpp:704-710 | TPM2_NV_Read: the index twice, empty password, size and offset |
| WireBytes.BigEndian | windows/src/tpm/tpm_commands.cpp:52-77 | numbers are written with the most significant byte first |
| ResponseParsers.ParseCreated | windows/src/tpm/tpm_commands.cpp:370-392 | total on any bytes: handle and public area, or the first byte read behind the response |
| ResponseParsers.CreatedParsed | windows/src/tpm/tpm_commands.cpp:370-392 | on the TPM's reply these are its handle and its public area |
| ResponseParsers.CreatedOutsideIff | windows/src/tpm/tpm_commands.cpp:379-386 | a response is read behind its end if and only if it has 19 bytes, claims success, and its parameter size is 1 or so large that the sum wraps around |
| ResponseParsers.ParseSession | windows/src/tpm/tpm_commands.cpp:492-502 | the session handle at the offset that the tag selects |
| ResponseParsers.ParseSecret | windows/src/tpm/tpm_commands.cpp:554-570 | total on any bytes: the secret, or the first byte read behind the response |
| ResponseParsers.SecretParsed | windows/src/tpm/tpm_commands.cpp:554-570 | on the TPM's reply that is its secret |
| ResponseParsers.SecretOutsideIff | windows/src/tpm/tpm_commands.cpp:567-569 | a response is read behind its end if and only if it claims success and ends before the size of the secret, unless its parameter size is below 2 |
| ResponseParsers.ReadOutsideExamples | windows/src/tpm/tpm_commands.cpp:370-570 | one such response to each of the two commands |
| ResponseParsers.ParseQuote | windows/src/tpm/tpm_commands.cpp:259-287 | total on any bytes: attest by its length, the rest as signature |
| ResponseParsers.QuoteParsed | windows/src/tpm/tpm_commands.cpp:259-287 | on the TPM's reply that is the attest and the signature with the session area |
| ResponseParsers.ParsePcr | windows/src/tpm/tpm_commands.cpp:188-222 | total on any bytes, with the cursor walk over the selections |
| ResponseParsers.PcrParsed | windows/src/tpm/tpm_commands.cpp:188-222 | on the TPM's reply that is the first digest |
| ResponseParsers.ParseNvPublic | windows/src/tpm/tpm_commands.cpp:656-680 | total on any bytes: the data size behind the policy |
| ResponseParsers.NvPublicParsed | windows/src/tpm/tpm_commands.cpp:656-680 | on the TPM's reply that is the index's size |
| ResponseParsers.NvDataParsed | windows/src/tpm/tpm_commands.cpp:712-737 | on the TPM's reply the chunk is its data |
| WireBytes.CreatedBytes | windows/src/tpm/tpm_commands.cpp:370-392 | the reply to TPM2_CreatePrimary that the parser is proved on, as numbers: tag, size, code 0, handle, parameter size, public area |
| WireBytes.SessionBytes | windows/src/tpm/tpm_commands.cpp:492-502 | the reply to TPM2_StartAuthSession: the handle at once |
| WireBytes.BufferBytes | windows/src/tpm/tpm_commands.cpp:554-570 | the replies with one sized buffer, to TPM2_ActivateCredential and TPM2_NV_Read |
| WireBytes.QuotedBytes | windows/src/tpm/tpm_commands.cpp:259-287 | the reply to TPM2_Quote: parameter size, attestation, signature |
| WireBytes.PcrValuesBytes | windows/src/tpm/tpm_commands.cpp:188-228 | the reply to TPM2_PCR_Read: counter, selection, number of digests, digests |
| WireBytes.NvPublicBytes | windows/src/tpm/tpm_commands.cpp:653-682 | the reply to TPM2_NV_ReadPublic: index, algorithm, attributes, policy, size, in one buffer |
| PcrSelection.BitmapSelects | windows/src/tpm/tpm_commands.cpp:252-257 | the bitmap selects exactly the requested indices below 24, whatever their order and duplicates |
| PcrSelection.BuildBitmap | windows/src/tpm/tpm_commands.cpp:252-256 | the OR-ing loop computes that bitmap |
| PcrSelection.BuildSingleBitmap | windows/src/tpm/tpm_commands.cpp:183-185 | assigning one bit computes it for one index |
| PcrSelection.BuildBitmapCapped | linux/src/tpm/tpm_esapi.c:616-629 | the Linux loop computes it for the first 24 list entries |
| PcrSelection.PlatformsAgreeIff | linux/src/tpm/tpm_esapi.c:625-629 | both platforms send one selection exactly when every valid index is among the first 24 entries |
| EvidenceCoherence.CollectCoherent | windows/src/client/rootherald_win.cpp:613-650 | a successful collection makes one quote, by the AK in the slot and over the nonce that was asked for; it covers exactly the PCRs whose values are reported, each of those as it was when read, and those quoted as they were at the quote |
| EvidenceCoherence.EvidenceOverRuns | windows/src/client/rootherald_win.cpp:577-725 | over every run, evidence that is handed out is coherent in that sense and signed by the slot's initial AK or by an activated one, which is a restricted signing key |
| EvidenceCoherence.QuoteSigned | windows/src/tpm/tpm_commands.cpp:225-287 | a quote that arrives is by the key behind the handle, over this nonce and exactly these PCRs, with their values at that command |
| EvidenceCoherence.ReadPcrsReport | windows/src/client/rootherald_win.cpp:622-633 | the values reported are those of the requested PCRs, in order, each as it was when its command was executed |
| EvidenceCoherence.ReportedIsCovered | windows/src/client/rootherald_win.cpp:620-650 | the values reported are the values quoted if no PCR is extended between its reading and the quote, and, for PCRs that never return to an earlier value, only then |
| EvidenceCoherence.StaleExample | windows/src/client/rootherald_win.cpp:613-650 | an input: every command succeeds, every PCR is extended between its reading and the quote, and evidence whose values differ from the quoted ones is handed out |
| EvidenceCoherence.CollectSucceeds | windows/src/client/rootherald_win.cpp:577-725 | with a signing key in the slot and no failing command, collection succeeds for every nonce of 1 to 4053 bytes |
| BodyTexts.EvidenceHandedOut | windows/src/client/rootherald_win.cpp:755-760 | read as JsonGet reads, the evidence text of any successful collection yields the PCR values as they were read, unless the device id clashes with that key, and the nonce, the attestation and the signature by the key in the slot, unless it clashes with the quote's |
| HandedOut.CollectHandsOut | windows/src/client/rootherald_win.cpp:613-722 | evidence of any successful collection: read by JsonGet and as hexadecimal digits, the value behind each of the keys 0, 1, 2, 3, 4 and 7 is that of the PCR at the moment when it was read, unless the device id clashes with the key of the PCR values; device id, EK certificate, event log and Secure Boot report are read back as the platform supplied them under such a condition, and each is there exactly when it should be |
| HandedOut.CollectChain | windows/src/client/rootherald_win.cpp:700-716 | if no command fails, evidence carries the PEM texts of every certificate that can be read at the sixteen NV indices from 0x01C00100 on, in order |
| HandedOut.BeginHandsOut | windows/src/client/rootherald_win.cpp:299-385 | every request of a successful Begin: ekPublicKey is the base64 of the EK public key that the platform supplied, ekCertPem the PEM of the stored certificate if longer than 32 bytes, else of the provider's if longer than 32 bytes, else of AMD's if there is one, else absent, akPublicArea the public area of the AK; with no failing command the chain is the first eight of the readable NV contents and the new certificates of the store |
| HandedOut.ContentsIsOnDie | windows/src/tpm/tpm_commands.cpp:742-758 | the certificates of the on-die chain are those at the NV indices 0x01C00100 to 0x01C0010F, each exactly if it has 1 to 65535 bytes and the TPM accepts reads of its size or of 1024 bytes |
| Readings.HexDigitsAt | windows/src/client/rootherald_win.cpp:92-102 | characters 2k and 2k+1 are the digits of the high and the low nibble of byte k |
| Readings.HexBack | windows/src/client/rootherald_win.cpp:92-102 | reading the digits gives every byte string back |
| Readings.PcrBack | windows/src/client/rootherald_win.cpp:619-634 | from the text of the PCR values, the value of any of them is read back behind its decimal key |
| Readings.PemArrayItems | windows/src/client/rootherald_win.cpp:370-380 | the items of the printed chain, taken apart as JSON strings, are the PEM texts of its certificates, in order |
| BodyTexts.EvidenceReadIff | windows/src/client/rootherald_win.cpp:680-722 | for every device id and any optional members: the quote is found if and only if the device id is harmless to it, and the PCR values if and only if it is harmless to them or nothing stands between the two; for a device id that is copied and contains the key, see EvidenceRead |
| BodyTexts.EvidenceRead | windows/src/client/rootherald_win.cpp:680-722 | the exact result for the key of any member and every device id: the member's value, the first member's value behind a clash, or what is found inside a device id that is copied and contains the key, or further on |
| BodyTexts.EvidenceMemberIff | windows/src/client/rootherald_win.cpp:680-722 | any member, certificates, event log and report among them, is found if and only if the device id is harmless to its key or the first member has the same value |
| BodyTexts.MisreadExample | windows/src/client/rootherald_win.cpp:680-722 | with the device id quote and no optional member the reader is given the PCR values for the quote |
| BodyTexts.RawIdRead | windows/src/internal/json_helpers.h:50-91 | a device id that looks like JSON: the exact text in which the search goes on, for any members behind it |
| BodyTexts.EnrollBodyRead | windows/src/client/rootherald_win.cpp:362-384 | every member of an enroll request is found again, whatever the keys and certificates are |
| BodyTexts.ChainShape | windows/src/client/rootherald_win.cpp:371-382 | the certificate array is balanced and hides no plain key |
| Json.JsonBuild | windows/src/internal/json_helpers.h:16-42 | the loop prints exactly the object of the fields |
| Json.JsonGet | windows/src/internal/json_helpers.h:47-93 | the scanner computes the specified search and value |
| Formats.ObjectSaysIff | windows/src/internal/json_helpers.h:16-42 | read by the grammar of RFC 8259, a printed object of strings says exactly its members, in order, if and only if no value contains a control character other than the line feed |
| Formats.QuotedSays | windows/src/internal/json_helpers.h:28-37 | likewise for one string |
| Formats.TabExample | windows/src/internal/json_helpers.h:28-37 | a device id with a tab in it is printed as something that is not JSON |
| Formats.OneField | windows/src/internal/json_helpers.h:24-38 | true, false, null and what starts with a brace or a bracket are copied as they are, everything else is quoted and escaped |
| Formats.ReadStringIff | windows/src/internal/json_helpers.h:62-76 | of the JSON strings without \u, the scanner reads exactly those as what they say that do not use the escapes \b, \f, \r and \t |
| Formats.WindowsFinds | windows/src/internal/json_helpers.h:49-62 | in any text, a string is found behind its quoted key whatever stands before the first colon, with blanks and tabs behind it |
| JsonRoundTrip.GetIsLookup | windows/src/internal/json_helpers.h:47-93 | the exact result on any printed object: the value of the key, or of the field behind the first clashing value |
| JsonRoundTrip.RoundTripIff | windows/src/internal/json_helpers.h:16-93 | a field is recovered if and only if no earlier value clashes with its key or the field behind the first clash has the same value |
| JsonRoundTrip.RoundTrip | windows/src/internal/json_helpers.h:16-93 | JsonGet inverts JsonBuild for string, literal and balanced values without an earlier clash |
| JsonRoundTrip.Locate | windows/src/internal/json_helpers.h:50-51 | the search for a quoted key stops at the key, or behind a value equal to it or ending in a quote and it, and nowhere else |
| JsonRoundTrip.ReadBalanced | windows/src/internal/json_helpers.h:78-91 | a balanced verbatim value ends where it was printed to end |
| JsonRoundTrip.ClashExample | windows/src/internal/json_helpers.h:50-53 | a value equal to a later key yields the wrong field |
| JsonRoundTrip.RawClashExample | windows/src/internal/json_helpers.h:50-53 | a verbatim value that contains the quoted key yields a value from inside it |
| JsonRoundTrip.RawReached | windows/src/internal/json_helpers.h:50-91 | any verbatim value that the search reaches: the exact text in which it goes on, whether or not the value contains the key or can be read |
| FixedJson.JsonGet | linux/src/client/rootherald_linux.c:124-189 | returns the full length of the decoded value; the buffer holds as much of it as fits, a terminator, and otherwise what it held |
| Formats.ReadTextIff | linux/src/client/rootherald_linux.c:144-167 | of the JSON strings without \u, the scanner reads exactly those as what they say that do not use the escapes \b, \f and \r |
| Formats.LinuxFinds | linux/src/client/rootherald_linux.c:124-142 | in any text, a string is found behind its quoted key with white space of any kind on both sides of the colon |
| FixedJson.JsonAppendString | linux/src/client/rootherald_linux.c:195-223 | for any room, offset, key and value: the new offset and the whole buffer, with the value clipped to the room; or the first write behind the room, and the buffer up to there |
| FixedJson.AppendInsideIff | linux/src/client/rootherald_linux.c:195-221 | every write stays inside the room if and only if the comma, the quoted key and a terminator fit |
| FixedJson.ClippedIsFull | linux/src/client/rootherald_linux.c:206-220 | a value that does not fit fills the room up to the terminator, for every way its escapes fall |
| FixedJson.NextIsOutside | linux/src/client/rootherald_linux.c:200-221 | so a member appended behind a clipped value has its terminator written behind the room |
| FixedJson.WholeIff | linux/src/client/rootherald_linux.c:206-220 | the value is appended whole if and only if its escaped form, the quote and a terminator fit |
| FixedJson.AppendGrowsObject | linux/src/client/rootherald_linux.c:195-223 | with enough room the text of one object becomes that of the next |
| FixedJson.LookupIsFound | linux/src/client/rootherald_linux.c:124-189 | the exact result on any printed object: the value, or nothing behind a clash |
| FixedJson.RoundTripIff | linux/src/client/rootherald_linux.c:124-223 | the value is recovered if and only if no earlier value clashes with its key, or it is empty |
| FixedJson.BodyRoundTripIff | linux/src/client/rootherald_linux.c:337-348 | from buffer to buffer: a value that was appended to a body that fits is read back from the finished buffer if and only if no earlier value clashes with its key, or it is empty |
| FixedJson.LongKey | linux/src/client/rootherald_linux.c:130-132 | no key of 254 characters or more is ever found |
| Base64.Base64Encode | linux/src/client/rootherald_linux.c:32-53 | writes the encoding and a terminator, or only reports the room needed |
| Base64.Base64Decode | linux/src/client/rootherald_linux.c:65-99 | writes the decoding, with the unsigned size computation |
| Base64.RoundTrip | linux/src/client/rootherald_linux.c:32-99 | decoding the encoding gives every byte string back, with the exact length |
| Base64.AgainIff | linux/src/client/rootherald_linux.c:32-99 | re-encoding gives a text back exactly when it is canonical |
| Base64.DerToPem | linux/src/client/rootherald_linux.c:245-266 | -1 and an untouched buffer, or the whole text and a terminator |
| Base64.PemBody | linux/src/client/rootherald_linux.c:247-263 | the line behind the header decodes to the certificate |
| Formats.EncodeIs | linux/src/client/rootherald_linux.c:32-53 | every group of the encoding: three bytes, or what there is of them, are the four digits to the base 64 that its characters are in the alphabet of RFC 4648; = stands for missing bytes |
| Formats.DecodeIs | linux/src/client/rootherald_linux.c:65-99 | the decoder on any text: with A for every character that is missing to a whole group or not in the alphabet, it yields the bytes that encode to that text, less one for each of the last two characters that is = |
| NvReading.LoopReads | windows/src/tpm/tpm_commands.cpp:697-741 | for every chunk size and every pattern of short reads, what has been read is completed to the contents |
| NvReading.ReadNvIsContents | windows/src/tpm/tpm_commands.cpp:638-743 | a certificate that is returned is the whole index |
| NvReading.ReadNvIff | windows/src/tpm/tpm_commands.cpp:638-743 | without failing commands, an index is read exactly when it exists, has 1 to 65535 bytes, and the TPM accepts the first chunk |
| NvReading.ChainIsContents | windows/src/tpm/tpm_commands.cpp:745-757 | the chain is the contents of the readable indices, in order |
| NvReading.ReadChunks | linux/src/tpm/tpm_esapi.c:269-292 | the Linux loop fills the caller's buffer with the contents, ends, and touches nothing behind them |
| NvReading.TpmReadEkCert | linux/src/tpm/tpm_esapi.c:225-293 | size query, too small a buffer, success and failure, each with its return code and length |
| CertMerge.MergeIntermediates | windows/src/client/rootherald_win.cpp:333-350 | the loop with early break and final resize equals the first eight of the NV list followed by the unseen store entries |
| CertMerge.MergeGuarantees | windows/src/client/rootherald_win.cpp:333-350 | for any fingerprints: at most eight, the NV entries first and in order, no fingerprint twice if and only if none occurs twice among the first eight NV entries, and no store entry missing unless the list is full |
| CertMerge.MergedIs | windows/src/client/rootherald_win.cpp:333-350 | the merge is the first eight of the NV entries and those store entries whose fingerprint neither an NV entry nor an earlier store entry has, where an empty fingerprint never counts as known |
| CertMerge.DistinctIff | windows/src/client/rootherald_win.cpp:333-350 | duplicates are left exactly when two of the first eight NV entries have one fingerprint, whatever the store holds |
| CertMerge.NvDuplicates | windows/src/client/rootherald_win.cpp:338-349 | an input: two equal NV entries both survive |
| EventLog.RoundTrip | windows/src/boot/event_log_parser.cpp:140-207 | behind a Spec ID header any list of records is parsed back in order, every byte consumed |
| Formats.RecordHeadIs | windows/src/boot/event_log_parser.cpp:163-180 | the records that are parsed back start with PCR, event type and number of digests, in four little-endian bytes each |
| Formats.RecordRestIs | windows/src/boot/event_log_parser.cpp:180-207 | behind them every digest lies at the end of those before it, its algorithm in two bytes; then the data, with its size in four |
| Formats.HeaderIs | windows/src/boot/event_log_parser.cpp:146-160 | the header: PCR, event type 3, twenty bytes of digest, the size of its data at offset 28 |
| EventLog.HeaderlessIff | windows/src/boot/event_log_parser.cpp:145-160 | without a header that holds exactly when the first record does not pass for one |
| EventLog.HeaderlessExample | windows/src/boot/event_log_parser.cpp:145-160 | one loggable record of type EV_NO_ACTION that is taken for a header, and lost |
| EventLog.HeaderlessRoundTrip | windows/src/boot/event_log_parser.cpp:145-207 | in particular for lists that start with another type than EV_NO_ACTION |
| EventLog.ParsedPrefix | windows/src/boot/event_log_parser.cpp:162-207 | the parsed records serialise to a prefix of the body |
| EventLog.CutLog | windows/src/boot/event_log_parser.cpp:145-207 | a log cut anywhere behind its header yields the first records of the whole one |
| EventLog.EntryBound | windows/src/boot/event_log_parser.cpp:163-206 | sixteen times the number of entries never exceeds the log's length |
| EventLogAnalysis.ParseAndAnalyzeEventLog | windows/src/boot/event_log_parser.cpp:140-392 | entries, counters, flags, verdict and its reason are those of the specification for any log, or the first offset at which an event is read outside its data |
| EventLogAnalysis.ReadEvents | windows/src/boot/event_log_parser.cpp:162-366 | the event loop yields an entry per record and keeps counters and flags in step, up to a read outside an event |
| EventLogAnalysis.Analysis.Add | windows/src/boot/event_log_parser.cpp:209-365 | one entry is appended and each counter counts its label, or the event is read outside its data; EventLogAnalysis.VerdictOverRecords says which types get which label |
| EventLogAnalysis.VerdictExact | windows/src/boot/event_log_parser.cpp:368-389 | for every log whose events are read inside their data: every entry is counted once, none is revoked, PASS and FAIL exactly as the last SecureBoot variable and the unknown entries say, and the undetermined branch is unreachable; EventLogAnalysis.VerdictOverRecords says the same over the records |
| EventLogAnalysis.VerdictOverRecords | windows/src/boot/event_log_parser.cpp:209-389 | for every log that is read inside its events, over its records: PASS if and only if the last SecureBoot variable is on and every record has one of the named event types or a PCR of 11 to 14, WARNING if it is on and some record has not, FAIL otherwise, with the literal reasons; the numbers of policy, verified and unknown entries, by event type and PCR |
| EventLogAnalysis.UnknownWarns | windows/src/boot/event_log_parser.cpp:347-377 | a log in which Secure Boot is on and a record of a type that is not named follows, in a PCR outside 11 to 14, gets WARNING |
| EventLogAnalysis.SwitchedOnIff | windows/src/boot/event_log_parser.cpp:123-138 | the value of a variable event switches Secure Boot on exactly if its first byte is 1 |
| EventLogAnalysis.LastDecides | windows/src/boot/event_log_parser.cpp:219-223 | the last SecureBoot variable decides |
| EventLogAnalysis.EntriesRoundTrip | windows/src/boot/event_log_parser.cpp:140-207 | the entries of a log with a header are those of the records it was made of, and so are the reads outside an event |
| EventLogAnalysis.CutEntries | windows/src/boot/event_log_parser.cpp:145-207 | losing the end of a log that is read inside loses entries from the end and changes none |
| EventLogAnalysis.DigestsKept | windows/src/boot/event_log_parser.cpp:196-197 | with distinct algorithms an entry's map has exactly its record's digests |
| EventLogAnalysis.LastDigestStays | windows/src/boot/event_log_parser.cpp:180-198 | of several digests with one algorithm the last one stays, and the map has no others |
| EventLogAnalysis.ExtractEfiVariableName | windows/src/boot/event_log_parser.cpp:63-81 | the loop computes the rendered name with the guards of the source, or meets the first offset behind the event |
| EventLogAnalysis.NameInsideIff | windows/src/boot/event_log_parser.cpp:66-75 | the name is read inside the event if and only if it is refused at once, or 32 + 2 * NameLength does not wrap around, or the event has room for 256 characters, or a zero character lies inside |
| EventLogAnalysis.NameReadOutside | windows/src/boot/event_log_parser.cpp:66-75 | a 32-byte event that passes the test of the wrapped sum and is read at offset 32 |
| EventLogAnalysis.LogInsideIff | windows/src/boot/event_log_parser.cpp:140-392 | the analysis of a log stays inside its events if and only if every variable event meets that condition |
| EventLogAnalysis.LogReadOutside | windows/src/boot/event_log_parser.cpp:140-392 | a log of one such event makes the analysis read outside |
| EventLogAnalysis.VariableRoundTrip | windows/src/boot/event_log_parser.cpp:61-138 | a variable event is taken apart into its name and value |
| Formats.VariableIs | windows/src/boot/event_log_parser.cpp:61-138 | the layout behind that: GUID, two 64-bit lengths at 16 and 24, the name in UTF-16 from offset 32 on, the value |
| SignatureLists.RoundTrip | windows/src/boot/secureboot_validator.cpp:185-241 | parsing any sequence of signature lists, wherever it lies in the data, yields exactly the decodable X.509 certificates, in order |
| Formats.ListIs | windows/src/boot/secureboot_validator.cpp:185-241 | the layout behind that: type, list size at 16, header size at 20, entry size at 24, header, entries of that size |
| Formats.X509Guid | windows/src/boot/secureboot_validator.cpp:32-35 | the type of an X.509 list is a5c059a1-94e4-4aa7-87b5-ab155c2bf072 |
| SignatureLists.VariableRoundTrip | windows/src/boot/secureboot_validator.cpp:185-241 | likewise for the event of a whole variable |
| SignatureLists.FirstBoundRedundant | windows/src/boot/secureboot_validator.cpp:219 | the first inner bound is redundant when the list size plus 28 fits 32 bits |
| SignatureLists.ParseEfiSignatureList | windows/src/boot/secureboot_validator.cpp:185-241 | both loops end and compute the specified certificates with the source's 64-bit sum and 64-bit addresses, or meet the first offset outside the data |
| SignatureLists.ListsInsideIff | windows/src/boot/secureboot_validator.cpp:189-238 | a variable event is read inside its data if and only if DataOffset + dataLen does not wrap around, or the wrapped sum is refused, or dataLen is too small for a list, or walking the lists inside the data meets one of size zero, or the lists start less than 17 bytes below 2^64 and the list size that is then read from the front of the data ends the loop |
| SignatureLists.ListsReadOutside | windows/src/boot/secureboot_validator.cpp:197-204 | a 32-byte event that passes the test of the wrapped sum and is read at offset 48 |
| SignatureLists.ListsReadAtTop | windows/src/boot/secureboot_validator.cpp:197-207 | a 32-byte event whose lists start 16 bytes below 2^64: the first word of its GUID is taken for the list size, and decides whether anything is read outside |
| SecureBoot.ValidateSecureBootChain | windows/src/boot/secureboot_validator.cpp:259-354 | the report is the fold over the PCR 7 variables, and its verdict says whether the chain holds; or the first offset at which the log is read outside an event |
| SecureBoot.SecureBootChainReport.Conclude | windows/src/boot/secureboot_validator.cpp:312-353 | chainValid exactly when all four conditions hold; the verdict starts with FAIL exactly when it does not |
| SecureBoot.FindingsSnoc | windows/src/boot/secureboot_validator.cpp:267-310 | what the report says is updated event by event |
| SecureBoot.ChainExact | windows/src/boot/secureboot_validator.cpp:259-354 | for every log that is read inside: valid if and only if the last SecureBoot variable is on, the last PK event has a certificate, some KEK event one of Microsoft's and some db event one whose subject contains Microsoft Corporation UEFI CA 2011, Microsoft UEFI CA 2023 or Windows UEFI CA 2023 |
| SecureBoot.ChainOverRecords | windows/src/boot/secureboot_validator.cpp:259-354 | the same over the records of the log, with the names of the variables and the subjects written out, for every field of the report: known manufacturer, Microsoft KEK, each UEFI CA, Windows Production PCA 2011, the lists of the last PK, KEK and db, the number of certificates of the last dbx, and the manufacturer of the last known certificate in any PK |
| SecureBoot.ContainsIff | windows/src/boot/secureboot_validator.cpp:296-302 | a subject contains a pattern exactly if the pattern stands at some place in it |
| SecureBoot.ChainInsideIff | windows/src/boot/secureboot_validator.cpp:259-310 | the validation of a log stays inside its events if and only if the analysis does and every variable event of PCR 7 meets the condition on lists |
| SecureBoot.ChainReadOutside | windows/src/boot/secureboot_validator.cpp:259-310 | a log of one event that the analysis reads inside its data and the validation does not |
| SecureBoot.KeyEventBack | windows/src/boot/secureboot_validator.cpp:272-273 | a measured variable contributes its name and the decodable certificates it was made of |
| Enrollment.EnrollmentClient.constructor | windows/src/client/rootherald_win.cpp:431 | a client starts with nothing in flight |
| Enrollment.EnrollmentClient.CollectOver | windows/src/client/rootherald_win.cpp:613-722 | nonce, PCRs, quote and chain over one open context, with the source's error results |
| Enrollment.BuildPemArray | windows/src/client/rootherald_win.cpp:371-380 | the JSON array of the escaped PEM texts |
| Enrollment.BuildEvidenceFields | windows/src/client/rootherald_win.cpp:680-722 | the evidence members in the map's key order |
| Enrollment.BytesToHex | windows/src/client/rootherald_win.cpp:92-102 | two lower-case digits per byte, the high nibble first: Readings.HexDigitsAt and HexBack read them back |
| KeyProvider.TbsKeyProvider.Open | windows/src/tpm/tbs_key_provider.cpp:15 | opens the provider's context |
| KeyProvider.TbsKeyProvider.AkExists | windows/src/tpm/tbs_key_provider.cpp:29-32 | whether the slot is occupied |
| KeyProvider.TbsKeyProvider.LoadAk | windows/src/tpm/tbs_key_provider.cpp:58-63 | whether the slot is occupied; nothing is loaded |
| TpmCommands.TpmCommands.Open | windows/src/tpm/tpm_commands.cpp:116-131 | opens a context once |
| TpmCommands.TpmCommands.Close | windows/src/tpm/tpm_commands.cpp:133-140 | closes the context and everything in it |
| TpmCommands.TpmCommands.FlushContext | windows/src/tpm/tpm_commands.cpp:290-297 | releases a transient or a session |
| TpmCommands.TpmCommands.ReadNvChunk | windows/src/tpm/tpm_commands.cpp:700-737 | one chunk, at most 1024 bytes and never past the end |
| TpmCommands.TpmCommands.ReadNvSize | windows/src/tpm/tpm_commands.cpp:648-682 | the index's size, 0 when it cannot be told |
| CommandBuffer.CommandBuffer.BeginCommand | windows/src/tpm/tpm_commands.cpp:79-83 | tag, placeholder size and code |
| CommandBuffer.CommandBuffer.WritePasswordAuth | windows/src/tpm/tpm_commands.cpp:95-111 | one empty password authorization with its size |
| CommandBuilders.BuildReadPublic | windows/src/tpm/tpm_commands.cpp:582-584 | the unsized form of TPM2_ReadPublic |
| CommandBuilders.BuildNvReadPublic | windows/src/tpm/tpm_commands.cpp:649-651 | the unsized form of TPM2_NV_ReadPublic |
| ResponseParsers.ParseCreatedHandle | windows/src/tpm/tpm_commands.cpp:459-465 | the handle alone |
| ResponseParsers.ParseStatus | windows/src/tpm/tpm_commands.cpp:625-635 | whether the response reports success |
| Json.AppendEscaped | windows/src/internal/json_helpers.h:30-36 | escapes quotes, backslashes and line breaks |
| Json.ScanString | windows/src/internal/json_helpers.h:62-76 | a string value up to its closing quote, unescaped |
| Json.ScanRaw | windows/src/internal/json_helpers.h:78-91 | any other value up to the comma or bracket that ends it |
| FixedJson.FindValue | linux/src/client/rootherald_linux.c:129-142 | where the value starts; the colon must follow the key at once |
| FixedJson.CopyText | linux/src/client/rootherald_linux.c:144-167 | a string value into the buffer, decoded and cut to its size |
| FixedJson.CopyRaw | linux/src/client/rootherald_linux.c:168-188 | any other value into the buffer, cut to its size |
| FixedJson.AppendValue | linux/src/client/rootherald_linux.c:206-220 | the escaping loop and the closing quote, within the room |
| Base64.EncodeInto | linux/src/client/rootherald_linux.c:39-50 | the encoder's loop |
| Base64.FillDecoded | linux/src/client/rootherald_linux.c:79-98 | the decoder's loop |
| Base64.WriteParts | linux/src/client/rootherald_linux.c:255-264 | header, body and footer, each where it belongs |
| NvReading.EsysNvRead | linux/src/tpm/tpm_esapi.c:276-283 | one NV read as the TPM answers it: a nonempty piece of the contents, or a failure |
| NvReading.NextChunk | linux/src/tpm/tpm_esapi.c:272-288 | one turn of the chunk loop |
| EventLogAnalysis.ReadEvent | windows/src/boot/event_log_parser.cpp:163-207 | one record, or the reason to stop |
| EventLogAnalysis.ReadDigests | windows/src/boot/event_log_parser.cpp:180-198 | the digests of a record, entered into its map; later duplicates override |
| EventLogAnalysis.SkipHeader | windows/src/boot/event_log_parser.cpp:146-160 | where the records start, with the 32-bit sum of the header's size |
| EventLogAnalysis.Analysis.Conclude | windows/src/boot/event_log_parser.cpp:370-389 | the cascade over flag and counters ends in the verdict and the text of its reason |
| EventLogAnalysis.Conservation | windows/src/boot/event_log_parser.cpp:209-365 | verified, policy, unknown and revoked add up to the number of entries, and revoked is 0 |
| SignatureLists.ParseList | windows/src/boot/secureboot_validator.cpp:218-233 | the certificates of one list, with the source's two bounds |
| SignatureLists.ParseLists | windows/src/boot/secureboot_validator.cpp:204-238 | the lists one behind the other |
| SecureBoot.SecureBootChainReport.NotePk | windows/src/boot/secureboot_validator.cpp:275-283 | the PK's certificates, and the last known manufacturer among them |
| SecureBoot.SecureBootChainReport.NoteKek | windows/src/boot/secureboot_validator.cpp:284-291 | the KEK's certificates, and whether one is Microsoft's |
| SecureBoot.SecureBootChainReport.NoteDb | windows/src/boot/secureboot_validator.cpp:292-304 | the db's certificates, and which of the three are among them |
| SecureBoot.InspectAll | windows/src/boot/secureboot_validator.cpp:267-310 | only PCR 7 variables contribute, in the order of the log, up to a read outside an event |
| SecureBoot.LastCertsExact | windows/src/boot/secureboot_validator.cpp:276 | the PK list is not empty exactly when the last PK event has certificates |

## Left out

- SignatureLists.ListsInsideIff: data of 2^63 bytes or more, which no std::vector holds, is left out; so is data of more than 2^64 bytes in SignatureLists.RoundTrip.
- SignatureLists.ParseEfiSignatureList: address arithmetic is modulo 2^64 relative to the start of the data, for the sizes in a list's header; no other read can wrap around, because the list's type is read first.
- EventLogAnalysis.ParseAndAnalyzeEventLog: the description texts and type names of entries are left out but for the variable name, and the rendering of a character is a parameter; the raw pointers are modelled as what is left of the log. What a run does after a read outside its data is not modelled: the result is the offset of that read.
- SecureBoot.ValidateSecureBootChain: the decoding of a certificate, with its thumbprint and manufacturer tables, is a parameter.
- FixedJson.JsonAppendString: the result of a write outside the buffer is its offset; what the write destroys there is not modelled.
- TpmCodec.UnderstandEncoded: of commands over 4096 bytes, the room of the modelled TPM, it only says that they are refused; TpmCodec.EncodedUnmarshals and TpmCodec.QuoteNonceIff have no such bound.
- CommandBuilders.BuildQuote: a nonce of 65536 bytes or more has its length truncated, as in the source; what a TPM makes of that command is not modelled.
- TpmCommands.TpmCommands.SendCommand: the 4096-byte response buffer is not modelled; every reply of the modelled TPM is shorter or, for NV reads, bounded by the requested size.
- NvReading.TpmReadEkCert: the library's own commands for resolving the index are one outcome given as an argument, and the tests for null pointers at the start are left out; an empty successful read, on which the source would not progress, is excluded by the modelled TPM.
- EnrollmentSafety.HandleConservation: closing a context is modelled as releasing everything it owns, as TBS does.
- BodyTexts.EvidenceReadIff: of a device id that is copied verbatim and contains the quoted key it states nothing; BodyTexts.EvidenceRead gives the text in which the search then goes on, but no condition on when the value found there happens to be the right one.
- EnrollmentEndToEnd.ChallengeRead: device ids that are copied verbatim and are not balanced, or contain the key behind them, are left out here and in EnrollmentEndToEnd.HonestEnrollment and EnrollmentEndToEnd.ForeignChallenge; EnrollmentEndToEnd.UnopenedChallenge holds for any text.
- BodyTexts.EvidenceHandedOut: says nothing about a key that the device id clashes with; BodyTexts.EvidenceRead does.
- Formats.ObjectSaysIff: is about objects of strings; of values that are copied verbatim Formats.OneField only says that they are.
- Formats.ReadStringIff: strings with \u escapes are left out, here and in Formats.ReadTextIff; both scanners read the letter u and the digits.
- HandedOut.CollectHandsOut: says nothing about the text behind a key that the device id clashes with, and the last member only if the report is a string or balanced.
- HandedOut.BeginHandsOut: which certificates the chain has is determined only if no command fails; otherwise it says only that the text states some chain.
- HandedOut.CollectChain: likewise for the evidence, and for PCRs whose values are never empty.
- Enrollment.EnrollmentClient.CollectEvidenceFields: the Secure Boot report text and the event log are arguments.
- Enrollment.EnrollmentClient.CollectOver: the members of the Secure Boot report come in as one text.
- EvidenceCoherence.CollectCoherent: PCRs change between commands, not during one, and no more once the script of fates is used up.
- Base64.Base64Encode: sizes are unbounded integers; the encoder's 64-bit size computation is taken not to wrap.
- What the host supplies comes in as arguments: elevation, EK material, the certificate store, the AMD certificate, the Secure Boot report text, the event log, the device id, memory.
- tpm2-tss beyond the chunk loop and the PCR selection, including its policy sessions.
- HTTP transports, the AMD certificate fetch, registry and store readers, the platform crypto provider: foreign libraries.
- SHA-256 is a parameter of the merge; the Windows base64 functions are taken to compute the proved codec.
- Device ids, hex dumps of hashes, heuristics that strip certificate blobs, boot application paths: they would only add easy members.
- The facades, stubs and status tables around these calls, the native hosts, the macOS enclave code, samples and build files.
- Threads: the public calls are taken one after the other.
