# CipherSign: a verified model

CipherSign is a signing vault that lives in a trusted execution environment. It holds a private key
and a policy (recipients, a maximum amount, an expiry) and signs an intent only if the policy admits
it. This project models the parts of it where state, interleaving or byte layout make mistakes easy,
and proves what they promise, for all inputs and all runs.

| module | what it models |
|---|---|
| `Serializer` | the promise chain that serializes requests, for arbitrary asynchronous handlers |
| `Vault`, `Gate`, `VaultRuns` | the handlers with their two cells, the policy gate on decoded values, and whole runs of the vault behind the serializer |
| `Approval` | the consumer that parses and verifies an approval |
| `AbiPair`, `AbiValues`, `Bytes`, `Hex`, `Signature`, `Dispatch` | the codecs: ABI layouts, big-endian words, hex text, signature packing, key parsing, operation names |
| `Library` | the external libraries as arbitrary functions, with the laws the proofs use |
| `Registration`, `RegistrationSteps`, `RegistrationCounts`, `RegistrationResume` | the resumable registration workflow with its progress file |
| `InstructionSender` | the on-chain entry contract |
| `Report`, `ExtensionEnv` | verification reports with their in-place filter, and the two parsers of `extension.env` |

## How it is modelled

Objects that the source updates are classes (`ActionServer`, `Vault`, `Framework`, `Registrar`,
`Contract`), and each of their methods is proved to take exactly the step that a function of the old
state describes. The theorems are about those functions, over whole runs.

*Serializer.* A link of the chain is a request with the state of its promise. A link may start when
the promise before it is fulfilled, and for no other reason: that at most one handler is active is a
theorem. A handler consumes one observation of the environment per turn (a clock reading, or the
reply it was waiting for). A run is any interleaving of arrivals, turns and rejections. The
specification `OneAtATime` reads only the trace: who arrived in which order, and what each request
was told.

*Environment.* Clock readings, decrypt replies, failing sends, lost saves, dying processes, the
growth of the registry and the choice of TEE ids are inputs of a run. viem's decoders, checksums,
Keccak-256, ECDSA and address recovery are arbitrary functions that satisfy `Library.Lawful`; a toy
library shows that the laws are consistent. A decoder may do anything on input that is not a
standard encoding, except yield badly typed values.

*Machine integers.* The Go codec narrows offsets and lengths to 64 bits and its sums wrap around; a
slice expression outside its bounds is the outcome `Panic`. For words of 2^63 and more the narrowing
is the one math/big performs (the low 64 bits).

## What turned out

- The promise chain is safe only for handlers that do not throw: one rejected callback leaves every
  later request unanswered for good (`ThrowPoisonsChain`). While requests are unanswered, the chain
  stands still exactly if a handler has thrown or one is suspended (`ProgressUnlessHeldUp`).
- The operations of the vault catch everything; the state read does not. It would throw on a stored
  key that is no valid scalar (`ThrowsIff`), but no run ever stores one (`NothingRejected`). So the
  only thing that holds up the vault is a decrypt call in flight (`VaultProgresses`); since that call
  has no timeout, a node that never replies stops the vault for good. If it replies, everybody is
  answered (`EveryScheduleAnswersAll`).
- The two ABI decoders agree on all data of 128 bytes and more, with no bound on the words, and on
  shorter data exactly if the tool's decoder fails on it too (`DecodersAgreeIff`; a 96-byte
  difference is `DecodersDifferBelow128`).
- Both decoders cut offsets and lengths to 64 bits. What they return is what the layout says if and
  only if no word was cut (`StoredIffDecoded`): a length word of 2^64 passes for an empty string
  (`TruncatedLengthAccepted`). They panic exactly when a sum of offset and length leaves the range of
  an int64 (`DecodeMeans`), as for an offset of 2^63 - 1 (`LargeOffsetPanics`).
- On malformed hex text the Go decoder reports an error, while the TypeScript one drops the tail
  silently; so its refusal "invalid hex" arises only from messages that are not strings
  (`DecodersAgreeWhenGoAccepts`, `NodeDropsMalformedTail`).
- "Expires later" cannot be read off the numbers, because 0 means never. `LooserIffAdmitsMore` gives
  the order on policies that is right, in both directions; `NumericallyLaterCanRefuseMore` is the
  counterexample to the naive one.
- Without an expected vault the consumer approves a payload signed by anybody at all (`VerdictMeans`).
- A failed read of the chain is harmless to a registration unless it makes the tool send again what
  the chain then accepts a second time (`SessionResumes`, `AtMostOnceOnChain`).
- A name survives its bytes32 encoding exactly if it has at most 32 bytes and no trailing NUL.

## Model

| member | source | states |
|---|---|---|
| Serializer.Linearizable | tee/typescript/src/base/server.ts:145-161 | for any async handlers and any interleaving, the shared cells and every request's answer are those of handling the requests one at a time in order of arrival |
| Serializer.MutualExclusion | tee/typescript/src/base/server.ts:26-27 | while one handler is active, all earlier ones have returned and no later one has started |
| Serializer.IsolatedWhileSuspended | tee/typescript/src/app/handlers.ts:81-97 | while a handler awaits, only arrivals and its own continuation can happen, and arrivals leave the cells alone |
| Serializer.ThrowPoisonsChain | tee/typescript/src/base/server.ts:150-159 | after a handler throws, no request from it on is ever answered and the cells never change again |
| Serializer.ProgressUnlessHeldUp | tee/typescript/src/base/server.ts:152-157 | with something unanswered, the next request can start if and only if no handler has thrown and none is suspended |
| Serializer.PhaseExplained | tee/typescript/src/base/server.ts:150-161 | each request that has begun stands where its handler would, run alone in the cells that exactly the earlier requests left: suspended there, answered with that answer, or rejected |
| Serializer.CellsExplained | tee/typescript/src/base/server.ts:152-157 | the cells of any reachable state are those left by the requests so far, each run alone in order |
| Serializer.ActionServer.Enqueue | tee/typescript/src/base/server.ts:152 | appends one waiting link to the chain and changes nothing else |
| Serializer.ActionServer.StartLink | tee/typescript/src/base/server.ts:152-157 | runs the first turn of a link whose predecessor is fulfilled, and settles only that link |
| Serializer.ActionServer.ContinueLink | tee/typescript/src/base/server.ts:155-156 | runs the next turn of a suspended link in the cells as they are then, and settles only that link |
| Serializer.ActionServer.RejectLink | tee/typescript/src/base/server.ts:152 | a link behind a rejected one is rejected without its callback having any effect |
| Vault.ProcessAction | tee/typescript/src/base/server.ts:140-154 | a request is enqueued for an operation exactly when the texts are the names of KEY and of that operation; it carries originalMessage if that is truthy, else message if that is, else the empty text |
| Vault.Vault.HandleKeyUpdate | tee/typescript/src/app/handlers.ts:67-83 | up to the await: refuses empty and undecodable messages, else suspends on the ciphertext, without touching the cells |
| Vault.Vault.FinishKeyUpdate | tee/typescript/src/app/handlers.ts:82-98 | after the await: stores the parsed key, or refuses and leaves the cells as they were |
| Vault.Vault.HandleSetPolicy | tee/typescript/src/app/handlers.ts:100-140 | takes the SET_POLICY turn of the specification; only the policy cell may change |
| Vault.Vault.HandleKeySign | tee/typescript/src/app/handlers.ts:142-208 | takes the SIGN turn of the specification; changes nothing |
| Vault.Vault.SomeEqual | tee/typescript/src/app/handlers.ts:181-183 | finds whether some allowlist entry equals the recipient regardless of letter case |
| Vault.Vault.ReportState | tee/typescript/src/app/handlers.ts:39-54 | reports whether a key and a policy are held, the key's address, and the policy; throws if the stored key is no valid scalar |
| Vault.Vault.StartRequest | tee/typescript/src/app/handlers.ts:32-36 | the object takes, for every request, the turn that the program behind the serializer takes |
| Vault.ThrowsIff | tee/typescript/src/app/handlers.ts:39-43 | a turn throws exactly if it is a state read while the stored key is no valid scalar; the operations catch whatever they call |
| Vault.Framing | tee/typescript/src/app/handlers.ts:67-208 | refusals and suspensions change nothing; UPDATE changes only the key, SET_POLICY only the policy, SIGN and state reads nothing |
| Gate.ZeroAddressText | tee/typescript/src/app/handlers.ts:127-131 | comparing with the zero text rejects the zero address and no other, whatever the checksum case |
| Gate.AllowedIffListed | tee/typescript/src/app/handlers.ts:181-186 | the case-insensitive text search finds exactly the listed 20-byte addresses |
| Gate.ListedIgnoresCase | tee/typescript/src/app/handlers.ts:181-183 | the search through the allowlist does not see letter case on either side |
| Gate.SetPolicyMeans | tee/typescript/src/app/handlers.ts:116-139 | SET_POLICY installs exactly the decodable policies with 1 to 5 recipients, none zero; otherwise it refuses and changes nothing |
| Gate.NoObjectionIffAdmitted | tee/typescript/src/app/handlers.ts:171-190 | the four checks pass exactly when expiry, deadline, recipient and amount are within the policy, 0 meaning no limit |
| Gate.SignMeans | tee/typescript/src/app/handlers.ts:142-208 | SIGN releases the submitted bytes with the key's signature over them if and only if the gate lets it |
| Gate.SignRefusalIsTruthful | tee/typescript/src/app/handlers.ts:145-197 | a refusal of SIGN names a rule that is broken on the decoded values, and no rule checked before it is |
| Gate.SetPolicyRefusalIsTruthful | tee/typescript/src/app/handlers.ts:103-131 | so does a refusal of SET_POLICY |
| Gate.UpdateRefusalIsTruthful | tee/typescript/src/app/handlers.ts:70-97 | UPDATE asks to decrypt the submitted bytes or names the fault of the message; then it stores the delivered number as a 32-byte word, or names the fault of the reply |
| Gate.RefusalPersists | tee/typescript/src/app/handlers.ts:171-190 | with the same cells, a refused message is refused at every later time |
| Gate.LooserIffAdmitsMore | tee/typescript/src/app/abi.ts:24-30 | superset allowlist, larger maximum and later-or-no expiry hold if and only if every intent admitted at any time stays admitted |
| Gate.NumericallyLaterCanRefuseMore | tee/typescript/src/app/abi.ts:29 | a numerically later expiry can refuse what was admitted, when the earlier value was 0 |
| Gate.LooserPolicyKeepsApproval | tee/typescript/src/app/handlers.ts:171-207 | replacing the stored policy by a looser one never turns a release into a refusal |
| VaultRuns.StateInvariant | tee/typescript/src/app/handlers.ts:95-133 | in every reachable state the cells hold the key and policy in force; a key is a valid 32-byte scalar, a policy has 1 to 5 recipients, none zero |
| VaultRuns.AnswersTellTruth | tee/typescript/src/app/handlers.ts:67-140 | in every run, an UPDATE is answered "done" if and only if the node delivered 1 to 32 bytes denoting a valid scalar, a SET_POLICY if and only if its message stood for an acceptable policy; else they are refused |
| VaultRuns.InForceIsCurrent | tee/typescript/src/app/handlers.ts:95-133 | the key and policy of the latest requests that were answered "done" are the ones most recently stored, in order of arrival |
| VaultRuns.AwaitsSubmitted | tee/typescript/src/app/handlers.ts:74-83 | in every run, whatever is suspended is an UPDATE that has asked the node to decrypt exactly the bytes it was sent |
| VaultRuns.GateHolds | tee/typescript/src/app/handlers.ts:142-208 | in every run, an answered SIGN released a signature if and only if the gate lets it at the clock value it read, with the key and policy of the latest earlier UPDATE and SET_POLICY that were answered "done"; and then exactly the submitted bytes and that key's signature |
| VaultRuns.RefusedStaysRefused | tee/typescript/src/app/handlers.ts:171-190 | in every run, a refused message stays refused while no UPDATE or SET_POLICY is answered "done" and the clock does not go back |
| VaultRuns.StateReadIsCurrent | tee/typescript/src/base/server.ts:188-203 | a state read answers, in order of arrival, with the address of the key in force, and with the numbers and, one by one, the checksum addresses of the policy in force |
| VaultRuns.NothingRejected | tee/typescript/src/base/server.ts:188-203 | in every run of the vault no link of the chain is ever rejected: no state read meets a key on which it would throw |
| VaultRuns.VaultProgresses | tee/typescript/src/base/server.ts:145-159 | while requests are unanswered, the next one can start if and only if no UPDATE awaits the node, and a reply lets that one go on |
| VaultRuns.EveryScheduleAnswersAll | tee/typescript/src/base/server.ts:145-203 | once no more requests arrive, any schedule of turns ends after at most two turns for each unanswered request, and cannot go on exactly when all are answered |
| VaultRuns.AllCanBeAnswered | tee/typescript/src/base/server.ts:145-203 | every reachable state leads, without further arrivals, to one in which all requests are answered |
| Approval.ClientIntentUnderstood | tee/typescript/src/app/abi.ts:76-97 | an intent encoded by a client is the intent the gate decides on |
| Approval.ClientPolicyUnderstood | tee/typescript/src/app/abi.ts:39-59 | a policy encoded by a client is installed unchanged exactly when it is acceptable |
| Approval.ParseMeans | web/src/verify.ts:32-56 | on any data: parsing finds the two strings in it and the fields of the intent in the first, or fails if there are none |
| Approval.ReleaseParses | web/src/verify.ts:32-56 | a released payload parses back to the submitted bytes and the intent the gate decided on |
| Approval.VerdictMeans | web/src/verify.ts:58-122 | on any data and any expected vault: positive exactly if the data parses, carries 65 signature bytes and a signer is recovered who is the expected vault, in any letter case, or none is expected; throws exactly if there is a signer to compare with a text that is no address |
| Approval.ReleaseVerifies | web/src/verify.ts:58-122 | for a released payload the recovered signer is the key's address, and the verdict is positive exactly for that vault address in any letter case, or for none |
| Approval.ApprovalEndToEnd | web/src/verify.ts:75-121 | over any run: a payload released by SIGN is accepted against the address a state read reports for the same key, with the submitted intent |
| AbiValues.IntentRoundTrip | tee/typescript/src/app/abi.ts:69-97 | decoding the four-word layout of an intent gives the intent back |
| AbiValues.PolicyRoundTrip | tee/typescript/src/app/abi.ts:32-59 | decoding the layout of a policy gives it back, for any number of recipients |
| AbiValues.IntentLayout | tee/typescript/src/app/abi.ts:69-84 | the four words of an encoded intent: the address behind twelve zeros, amount, deadline, hash |
| AbiValues.PolicyLayout | tee/typescript/src/app/abi.ts:32-47 | the words of an encoded policy: offset of the list, maximum, expiry, length of the list, each address behind twelve zeros |
| Library.LawsAreSatisfiable | tee/typescript/src/app/crypto.ts:39-66 | the laws assumed of signing, recovery, decoding and checksums hold of some library |
| AbiPair.PadToMultipleOf32 | tee/go/internal/app/abi.go:71-84 | the data followed by the fewest zeros that make the length a multiple of 32 |
| AbiPair.AbiEncodeTwo | tee/go/internal/app/abi.go:17-36 | writes the standard layout of a pair of byte strings, without overflow for any representable pair |
| AbiPair.EncodingParts | tee/go/internal/app/abi.go:17-36 | the two offsets, and each string behind its length word and followed by zeros only |
| AbiPair.PairRoundTrip | tee/go/internal/app/abi.go:17-68 | both decoders give back every pair of representable size from its encoding |
| AbiPair.EncodingInjective | tee/go/internal/app/abi.go:17-36 | different pairs have different encodings |
| AbiPair.DecodeMeans | tee/go/internal/app/abi.go:39-68 | either decoder succeeds exactly if both strings lie inside the data, going by offsets and lengths cut to 64 bits, and fails to return exactly when a sum of offset and length overflows first |
| AbiPair.StoredIffDecoded | tee/go/internal/app/abi.go:46-67 | a pair is stored in the data as the layout says, with the lengths its length words state, if and only if it is what the decoders return and none of the four words was cut |
| AbiPair.TruncatedLengthAccepted | tee/go/internal/app/abi.go:62 | a length word of 2^64 is taken for 0: the decoders return a pair that is not stored in the data |
| AbiPair.LargeOffsetPanics | tee/go/internal/app/abi.go:59-62 | with an offset word of 2^63 - 1 neither decoder returns |
| AbiPair.BoundedWordsDecode | tee/go/internal/app/abi.go:58-68 | with offsets and length words below 2^62, both decoders return the pair stored in the data, sub-ranges with the lengths their length words state, or an error if there is none |
| AbiPair.DecodersAgree | tee/go/tools/cmd/run-test/main.go:182-210 | the signed and the unsigned decoder have the same outcome on all data of at least 128 bytes |
| AbiPair.DecodersAgreeIff | tee/go/tools/cmd/run-test/main.go:182-210 | on any data the decoders have the same outcome if and only if it has 128 bytes or more, or the tool's decoder reports an error: a string outside the data and no overflow before it |
| AbiPair.DecodersDifferBelow128 | tee/go/tools/cmd/run-test/main.go:183-185 | 96 bytes on which the outcomes differ |
| Bytes.LeftPaddedIsBE | tee/typescript/src/app/crypto.ts:14-21 | padding or cutting to a size yields the big-endian form of the same value modulo 256 to that size |
| Bytes.PadLeft | tee/go/internal/app/crypto.go:11-18 | the buffer form computes that |
| Hex.HexRoundTrip | tee/typescript/src/base/encoding.ts:4-14 | both decoders undo the encoder |
| Hex.DecodersAgreeWhenGoAccepts | tee/go/internal/base/encoding.go:9-15 | Go accepts exactly even-length hex, and then both decoders agree; otherwise the TypeScript one stops before the end |
| Hex.NodeDropsMalformedTail | tee/typescript/src/base/encoding.ts:4-9 | a malformed text that decodes to a prefix |
| Hex.HexFormMeans | tee/go/tools/pkg/validate/checks.go:26-27 | a text is "0x" and 2n hex digits exactly if it is, letter case aside, the hex of n bytes, and then of those it decodes to |
| Signature.BigintToBytes | tee/typescript/src/app/crypto.ts:24-32 | the bytes read from the hex digits of a number denote that number |
| Signature.PackSignature | tee/typescript/src/app/crypto.ts:45-57 | fills the 65-byte buffer with the words of r and s and the recovery byte |
| Signature.PackingKeepsValues | tee/typescript/src/app/crypto.ts:39-58 | the two slices denote r and s, and the last byte less 27 is the recovery bit |
| Signature.RotateCompact | tee/go/internal/app/crypto.go:37-43 | moves the leading recovery byte behind r and s |
| Signature.RotationGivesPacking | tee/go/internal/app/crypto.go:34-44 | the Go rotation and the TypeScript packing give the same bytes for the same signature |
| Signature.NormalizeV | tee/go/tools/cmd/run-test/main.go:169-179 | takes 27 off the last byte of a 65-byte signature where it is at least 27, and leaves all else |
| Signature.NormalizeUndoesOffset | tee/go/tools/cmd/run-test/main.go:167-179 | normalizing a packed signature leaves r, s and the bare recovery bit, and doing it twice changes nothing more |
| Signature.ParsePrivateKey | tee/typescript/src/app/crypto.ts:78-109 | the loop with its flag decides as specified, error by error |
| Signature.KeyAcceptedIffUsable | tee/typescript/src/app/crypto.ts:78-109 | accepts exactly 1 to 32 bytes denoting a scalar in [1, order - 1], and stores that scalar as a 32-byte word; each error is reported exactly for its reason |
| Dispatch.Bytes32HexToString | tee/typescript/src/base/types.ts:82-89 | the decoded bytes without their trailing zeros |
| Dispatch.NameRoundTripIff | tee/typescript/src/base/types.ts:75-89 | a name comes back from its encoding if and only if it has at most 32 bytes and no trailing NUL |
| Dispatch.NamesInjective | tee/go/internal/base/types.go:97-101 | such names are told apart by their encodings |
| Dispatch.Framework.Handle | tee/typescript/src/base/types.ts:110-116 | appends one entry with the encoded names |
| Dispatch.Framework.Lookup | tee/typescript/src/base/types.ts:119-128 | returns the earliest entry of the type whose command matches or is the wildcard, and nothing if there is none |
| Dispatch.MatchesMeans | tee/typescript/src/base/types.ts:119-124 | an entry registered with the empty command takes every command of its type, any other only its own |
| Dispatch.Register | tee/typescript/src/app/handlers.ts:32-36 | adds the three operations of the vault in their order |
| Dispatch.EachOperationReachesItsHandler | tee/typescript/src/app/handlers.ts:32-36 | a pair of texts reaches a handler exactly if it is KEY with that handler's command |
| Registration.InOrderIsPrefix | tee/go/tools/pkg/fccutils/registration.go:28-32 | what is recorded is a duplicate-free prefix of the command's steps in the order r, R, a |
| Registration.SessionFresh | tee/go/tools/pkg/fccutils/registration.go:75-162 | over all runs of a command, with failures and deaths anywhere: every availability check uses the latest attestation id, every proof is polled for the latest check, and the file stays in order |
| RegistrationSteps.PreRegisterOutcome | tee/go/tools/pkg/fccutils/registration.go:76-106 | what step r does in each case: skipped, without effect, or one transaction, recorded exactly if it was confirmed and saved; a fresh attestation exactly if the machine was found |
| RegistrationSteps.AttestOutcome | tee/go/tools/pkg/fccutils/registration.go:109-125 | the same for step R |
| RegistrationSteps.CheckOutcome | tee/go/tools/pkg/fccutils/registration.go:128-156 | the same for step a; a failed pre-flight check stops the run before anything is sent |
| RegistrationSteps.ProduceOutcome | tee/go/tools/pkg/fccutils/registration.go:158-171 | step p requests the proof once, and then sends the machine into production for the same id unless it sees it there |
| RegistrationSteps.RunPolls | tee/go/tools/pkg/fccutils/registration.go:158-162 | a run requests the proof exactly once if it gets to step p, for the latest availability check or the given id, and never otherwise |
| RegistrationSteps.SessionPolls | tee/go/tools/pkg/fccutils/registration.go:158-171 | over all runs: every entry into production comes right after a request of the proof of the same id, and there are as many requests as runs that got there |
| RegistrationSteps.CleanSessionPolls | tee/go/tools/pkg/fccutils/registration.go:127-162 | a completed session stopped only at step boundaries fetched the proof of the one availability check its command makes |
| RegistrationSteps.CorruptFileStops | tee/go/tools/pkg/fccutils/registration.go:66-69 | a progress file that does not parse ends a run before it does anything |
| RegistrationCounts.RepeatsAreUnrecorded | tee/go/tools/pkg/fccutils/registration.go:76-153 | each of r, R and a is sent once per run that stopped after sending it unrecorded, plus once if it is recorded or the session completed |
| RegistrationCounts.AtMostOnceOnChain | tee/go/tools/pkg/fccutils/registration.go:81-99 | over all runs the machine is pre-registered exactly once if it became registered and not otherwise, plus once for each run that failed to read that it was registered already and whose transaction was accepted; likewise for production |
| RegistrationResume.SessionResumes | tee/go/tools/pkg/fccutils/registration.go:66-172 | runs stopped at step boundaries, the one after the unrecorded entry into production included, and resumed leave the same file and the same chain, ids included, as one uninterrupted run |
| RegistrationResume.SessionFollowsUninterrupted | tee/go/tools/pkg/fccutils/registration.go:66-172 | at every moment the requests made so far are the first ones of the uninterrupted run |
| RegistrationResume.CompletedSessionRequests | tee/go/tools/pkg/fccutils/registration.go:75-172 | a completed session has requested exactly the command's steps, each once, in order, each with the id of the one it builds on |
| RegistrationResume.Registrar.RegisterNode | tee/go/tools/pkg/fccutils/registration.go:60-173 | the imperative workflow takes exactly the specified run, early returns included |
| InstructionSender.Binding | tee/contracts/InstructionSender.sol:37-82 | over every call sequence: unbound and nothing sent, or bound to the least public id registered to the contract and every send drawn from it |
| InstructionSender.NeverRebound | tee/contracts/InstructionSender.sol:37-48 | once set, the id never changes and nothing sent is lost |
| InstructionSender.SendsForwarded | tee/contracts/InstructionSender.sol:50-77 | from then on exactly the sends that neither registry reverts are forwarded, in order, each with the names of KEY and of its operation, its TEE ids, message, caller and full value |
| InstructionSender.BindsIffRegistered | tee/contracts/InstructionSender.sol:40-47 | an unbound contract can be bound exactly when some public extension is registered to it |
| InstructionSender.EntryPointReachesHandler | tee/contracts/InstructionSender.sol:11-61 | what an entry point sends selects its own handler in the extension and no other |
| InstructionSender.Contract.DoSetExtensionId | tee/contracts/InstructionSender.sol:37-48 | the search loop takes the specified step; it reverts when already set or not found |
| InstructionSender.Contract.DoSend | tee/contracts/InstructionSender.sol:63-82 | appends one instruction, or reverts, by itself or in either registry, and changes nothing |
| Report.FilterInPlace | tee/go/tools/cmd/verify-deploy/main.go:87-93 | overwriting the array that is being read leaves the filtered results in front and the rest untouched |
| Report.FilterIsSubsequence | tee/go/tools/cmd/verify-deploy/main.go:87-93 | filtering keeps exactly the results to be kept, in their order |
| Report.Fprint | tee/go/tools/pkg/validate/report.go:123-160 | the nested loops print the title, one labelled section for each step in order of first appearance with colored items, and the totals |
| Report.PrintedFaithfully | tee/go/tools/pkg/validate/report.go:123-160 | every result is printed exactly as often as recorded, in one section per step in order of first appearance, in-step order kept |
| Report.PrintedLayout | tee/go/tools/pkg/validate/report.go:123-160 | each item stands under the label of its own step, in the color of its status, followed by its own message and fix lines and no others; sections end in a blank line, and the last line has the four counts |
| Report.LabelMeans | tee/go/tools/pkg/validate/report.go:97-104 | six steps have labels of their own, every other is its own label |
| Report.Summary | tee/go/tools/pkg/validate/report.go:68-84 | the four counters are the numbers of results with each status |
| Report.SummaryCountsAll | tee/go/tools/pkg/validate/report.go:68-84 | the counters add up to the number of results exactly when every status is one of the four |
| ExtensionEnv.CheckExtensionEnvFormat | tee/go/tools/pkg/validate/checks.go:168-243 | passes, fails for its format, or fails as missing each key according to the value of the last line that assigns to it |
| ExtensionEnv.ParseExtensionEnv | tee/go/tools/pkg/validate/checks.go:255-274 | returns the value of the last line that assigns to each key, empty if none |
| ExtensionEnv.LineAssigns | tee/go/tools/pkg/validate/checks.go:172-180 | a line `key = value`, with any blanks around both, assigns exactly that pair, split at the first equals sign |
| ExtensionEnv.LineIsIgnored | tee/go/tools/pkg/validate/checks.go:173-180 | comments, blank lines and lines without an equals sign assign nothing |
| ExtensionEnv.SpacesAre | tee/go/tools/pkg/validate/checks.go:172-179 | the blanks that are trimmed off are the eight of Latin-1 |
| ExtensionEnv.ParsersAgree | tee/go/tools/pkg/validate/checks.go:154-275 | both entries pass exactly when both values the other parser returns have the right format |

## Left out

- HTTP, JSON parsing, sockets and logging: a request enters the model with its operation texts and its two message fields.
- The reply envelope of processAction (id, version, log text): it copies fields; the answer stays with its request by its place in the chain.
- The moment between `resolve(result)` and the settling of the link's promise: they are one event, since only arrivals can fall between them.
- The port for decrypt calls (setSignPort) and resetState, which only tests use.
- Cryptography and viem's decoders: arbitrary functions under the laws of the module `Library`.
- The Go handlers of tee/go/internal/app/handlers.go: the ungated scaffold of the vault.
- Policy synchronisation of the FTDC proxy: an input of the availability check step that may stop a run.
- Progress files written halfway: a save is done or lost. A file that does not parse ends a run before it does anything.
- A progress file that survives completion because its removal failed, read by a later registration.
- Reentrancy of the registries into the contract; registries are lists that only grow.
- Dispatch.Bytes32: names are byte strings; where a name of more than 32 bytes ends in a character cut by the limit, Node leaves the whole character out.
- Report.Fprint: lines carry their label, result, color or totals; the texts and escape codes they are formatted into are not modelled.
- ExtensionEnv.TrimSpace: spaces beyond Latin-1 are not trimmed; both parsers share the function.
- HasFailures and FprintJSON of the report: single loops without interplay.
- The user interface, the instruct API, deployment scripts and generated bindings.
