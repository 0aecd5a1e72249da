# A verified model of clawdotter's VM orchestrator and WeChat bridge

clawdotter gives every chat user a Firecracker VM. The orchestrator (Go) hands out an address, a TAP
device, five iptables rules and a registry slot for each VM; the bridge (TypeScript) decrypts, signs,
splits and sends WeChat messages and shares one access token between processes. This project models the
parts of both whose correctness is not visible in any single function, and proves what they guarantee.

How the model is built:

- **The resource protocol** (`Protocol`, `Invariant`, `RuleAccounting`, `Isolation`, `Registration`). A
  call of `CreateVM`, `StopVM` or `DestroyVM` is a program counter with its local variables. Every locked
  section, Redis command, iptables command, TAP command and process start or stop is one step, any
  external command may fail, a VM may also end by itself, and the steps of any number of calls interleave
  freely. `Effect` says what a step does to the shared state, `Next` where the call goes, `Remember` what
  the history of the run records: who answers for each address and device, overwritten instances, rules
  that nobody will delete, devices whose deletion failed.
- **The FORWARD chain** (`Firewall`). A sequence of rules with first-match evaluation; `-A` appends, `-D`
  removes the first equal rule. `Isolation` adds packets and connection tracking on top.
- **Operations one at a time** (`Lifecycle`, `LoneRuns`, `CreateOutcomes`, `StopOutcomes`,
  `Sequential`, `RoundTrip`, `Orchestrator`). The same steps, one call advanced until it ends.
  `Orchestrator` holds the two Go structs as classes whose methods take the same steps in the same order; their postconditions say that they do exactly what the protocol's call
  does when it is advanced alone, so the theorems about the protocol are theorems about them. What an
  external command does is a parameter of each operation (`fate`, `ok`, `undo`).
- **The address pool** (`Numerals`, `AddressPool`). uint32 arithmetic, first fit, dotted-decimal texts as
  map keys, for every IPv4 prefix length.
- **The envelope** (`Base64`, `Envelope`), **the signature** (`Signature`), **the splitter** (`Texts`,
  `Splitter`) and **the token lock** (`TokenLock`). AES is any family of block functions with an inverse,
  SHA-1 any function; texts are sequences of UTF-16 code units; the token protocol is a timed transition
  system with a millisecond clock and Redis keys that expire.

Where the code is weaker than it looks, the model follows the code, and says both exactly when and that it
does happen:

- Two overlapping creates of one user can overwrite an instance, from any state in which the pool has room
  for them (`OverlappingCreatesOverwrite`), and what was overwritten is never given back
  (`OverwrittenIsNeverGivenBack`).
- A failed create leaves rules behind if and only if its own setup failed after the first rule, or its
  launch failed and then one of its five deletions (`RulesRemainIff`): exactly the rules before the failing
  one (`FailedSetupLeavesRules`), or those it could not delete (`FailedLaunch`).
- A DROP rule is left over if and only if its deletion failed (`OnlyFailedDeletionsLeaveDrops`), and it can
  cut the next VM at its address off from the gateway (`GatewayReachedIff`, `CreatedVmReachesGatewayIff`,
  `LeftDropCutsOffGateway`).
- A second process can enter the token refresh with no time passing if and only if some refresh has taken
  30 s (`BrokenIffLate`), and then the late one deletes its lock (`LateRefreshDeletesOthersLock`,
  `SlowRefreshLosesLock`).
- The bound of 30 retries needs token lifetimes over 631 s: with 631 s a caller can retry a 31st time
  (`ShorterTokensRetryMore`).
- The signature joins its strings without separators, so it can validate for other strings of other
  lengths (`SameLengthsValidateIff`, `JoinForgetsBoundaries`).
- The splitter cuts a word if and only if it finds no newline or space from 300 to 600 and position 600 has
  a non-space on both sides (`CutsWordIff`, `SolidTextLosesItsWord`), and can separate a surrogate pair in
  the same way (`SurrogatesSplitIff`).
- The comment in `wechat-message.ts` speaks of a limit of 600 characters; a numbered chunk exceeds it if and
  only if it leaves no room for its number (`PostExceedsIff`, `SolidTextExceeds`).
- Under an empty appId a length field pointing past the end is accepted (`AcceptsExactlyFrames`).

## Model

| member | source | states |
|---|---|---|
| Isolation.GuestsNeverTalk | vm-orchestrator/internal/vm/network.go:120-161 | Over any interleaving of packets, creates, stops, destroys, command failures and address reuse, and any chain policy, no packet between two non-gateway addresses of the subnet is ever accepted, when a flow becomes ESTABLISHED only through an accepted packet |
| Isolation.OutsideConversation | vm-orchestrator/internal/vm/network.go:122-129 | After everything that can happen on the host, a launched VM can send to any outside address and gets the reply, whatever the chain's policy |
| Isolation.LaunchedVmPolicy | vm-orchestrator/internal/vm/network.go:120-144 | In every run, for every launched VM, first-match evaluation gives the simple policy: a new packet inside the subnet is dropped; outside, replies from outside and gateway-to-VM are accepted; VM-to-gateway is accepted unless a deletion of that address's DROP failed; a new packet from outside is left to the chain's policy |
| Isolation.GatewayReachedIff | vm-orchestrator/internal/vm/network.go:124-132 | A launched VM's packets to the gateway are accepted if and only if a copy of its first rule precedes every copy of its DROP in the chain, and dropped otherwise |
| RoundTrip.CreatedVmReachesGatewayIff | vm-orchestrator/internal/vm/network.go:120-144 | From every reachable state, the VM of a create whose commands succeed reaches its gateway if and only if the chain before held no DROP of the lowest free address, or an ACCEPT of it to the gateway ahead of every such DROP |
| RoundTrip.LeftDropCutsOffGateway | vm-orchestrator/internal/vm/network.go:147-161 | In every subnet with room for a guest, create, a stop whose last deletion fails and create again give a launched VM whose packets to the gateway are dropped |
| Isolation.LeasedIffOneHolder | vm-orchestrator/internal/vm/manager.go:53-204 | In every run an address is leased if and only if a call, an instance or an overwritten instance holds it, and never two do |
| Isolation.TapNamesNeverReused | vm-orchestrator/internal/vm/network.go:80-109 | In every run all TAP names handed out differ, no two holders share one, and a live device has a holder unless its deletion failed |
| Isolation.RuleCopies | vm-orchestrator/internal/vm/network.go:120-161 | In every run the copies of each of an address's five rules are the recorded left-overs plus the holder's share; unless a deletion of its DROP failed, an address has one DROP while its VM is launched and none while it is free |
| Isolation.OnlyFailedDeletionsLeaveDrops | vm-orchestrator/internal/vm/manager.go:117-122 | In every run a DROP of an address is left over if and only if a deletion of that rule failed; failed setups and any other failed command leave none |
| Invariant.OrphansAreFailedDeletions | vm-orchestrator/internal/vm/network.go:94-117 | In every run the devices on record as left behind are exactly those whose deletion failed |
| RuleAccounting.RunKeepsInv | vm-orchestrator/internal/vm/manager.go:53-228 | The whole invariant (address and device ownership, rule counts, rule order, every process secured by its five rules) holds after every run |
| RuleAccounting.AdvanceKeepsInv | vm-orchestrator/internal/vm/manager.go:53-204 | Every step of every call keeps it, whether its command succeeds or fails |
| RuleAccounting.DeletedRuleIsPresent | vm-orchestrator/internal/vm/network.go:147-161 | In every reachable state the rule a cleanup is about to delete is in the chain |
| Firewall.IsolationRulesDistinct | vm-orchestrator/internal/vm/network.go:122-155 | Equal rules come from the same VM and the same step, so `-D` never hits another VM's rule |
| Firewall.FiveRules | vm-orchestrator/internal/vm/network.go:122-133 | The five rules of a setup, one by one and in order |
| Firewall.DeleteFirstTakesFirst | vm-orchestrator/internal/vm/network.go:147-161 | `-D` takes out the first copy of its rule and leaves all others where they are |
| Registration.ExclusiveCreatesNeverOverwrite | vm-orchestrator/internal/vm/manager.go:57-149 | If no user ever has two creates in flight, no instance is ever overwritten and no create in flight finds its user registered |
| Registration.OverlappingCreatesOverwrite | vm-orchestrator/internal/vm/manager.go:57-149 | From every reachable state in which two creates of one user are in flight and the pool has room for those still without an address, some continuation overwrites an instance |
| Registration.OverwrittenIsNeverGivenBack | vm-orchestrator/internal/vm/manager.go:147-204 | In every continuation the address of an overwritten instance is leased, its device exists and its five rules are in the chain, whatever is stopped or destroyed |
| CreateOutcomes.FailedCreateRollsBack | vm-orchestrator/internal/vm/manager.go:84-144 | A create advanced alone that fails at any step, whatever else fails, leaves leases, processes, registry and all other users' records and storage as they were, and the devices too if those that exist can be deleted; the chain is as before, unless its own setup failed (rules before the failing one appended) or its launch failed (rules it could not delete left, as multisets) |
| CreateOutcomes.FailedSetupLeavesRules | vm-orchestrator/internal/vm/manager.go:117-122 | A create that gets to its setup and cannot add rule n fails and leaves exactly rules 0 to n-1 of the address it had leased at the end of the chain, whatever else fails |
| CreateOutcomes.FailedLaunch | vm-orchestrator/internal/vm/manager.go:138-144 | A create whose launch fails leaves exactly the rules whose deletion fails |
| CreateOutcomes.RulesRemainIff | vm-orchestrator/internal/vm/manager.go:84-144 | A failed create changes the multiset of rules if and only if its own setup failed at a rule after the first, or its launch failed and then one of its five deletions |
| CreateOutcomes.CreateEnds | vm-orchestrator/internal/vm/manager.go:53-170 | How every create ends: it does nothing for a registered user; it gives the user a VM, with the whole final state stated, exactly when every command up to the launch succeeds; or it fails, gives back what it held and records an error with the address and device it had, if Redis takes it |
| StopOutcomes.StopEnds | vm-orchestrator/internal/vm/manager.go:173-204 | How every stop ends, with the whole final state, for every pattern of failures: it succeeds exactly when the user is registered, and otherwise changes nothing |
| StopOutcomes.DestroyEnds | vm-orchestrator/internal/vm/manager.go:207-228 | How every destroy ends, with the whole final state, from any state: it succeeds exactly when the storage can be removed; then the storage is gone, and the record too if Redis deletes it; otherwise storage is untouched |
| RoundTrip.CreateSucceeds | vm-orchestrator/internal/vm/manager.go:53-170 | A create whose commands succeed gives the user a VM at the lowest free address, with a new device, its five rules at the end of the chain, a process, a registration and a running record, and changes nothing else |
| RoundTrip.StopUndoesCreate | vm-orchestrator/internal/vm/manager.go:53-204 | Create then stop restores leases, devices, registry, processes and the multiset of rules, and leaves just the storage, a stopped record and the advanced TAP counter |
| RoundTrip.OperationsThenCreateAndStop | vm-orchestrator/internal/vm/manager.go:53-204 | The same after any sequence of completed operations with working Redis, whatever else failed in them |
| RoundTrip.SomeVmIsLaunched | vm-orchestrator/internal/vm/manager.go:53-154 | In every subnet with room for a guest some run launches a VM, at offset 2 |
| Lifecycle.RankDrops | vm-orchestrator/internal/vm/manager.go:53-228 | Every step brings a call closer to its end, so every operation ends |
| Sequential.OperationsSettle | vm-orchestrator/internal/vm/manager.go:53-228 | After every sequence of completed, non-overlapping operations with working Redis, every user is registered exactly when the record says running, with the same address and device, no record stays at provisioning, and every lease, process and device is one instance's, except for devices whose deletion failed at some step of the run that the operations are |
| Sequential.IdleUsersAgree | vm-orchestrator/internal/vm/manager.go:53-228 | In every interleaved run with working Redis in which no user has two calls in progress at once, registry and record of every user without a call in progress agree, whatever calls of other users do in between |
| Sequential.DestroyLeavesNothing | vm-orchestrator/internal/vm/manager.go:207-228 | After any sequence of completed operations with working Redis, a destroy whose storage can be removed succeeds and leaves no instance, lease, process, storage or record of the user; its device is gone if the one deletion succeeded, no other device is touched, and every device that remains is another instance's or one whose deletion failed |
| Sequential.DestroyDeletesDevice | vm-orchestrator/internal/vm/manager.go:207-216 | A destroy from any state deletes the user's device if there is an instance and the one deletion succeeds, and touches no other device, whatever else fails |
| Sequential.QuiescentIsSettled | vm-orchestrator/internal/vm/manager.go:53-204 | In any interleaved run, whenever no call is in progress and nothing was overwritten, leases, devices, processes and rules are those of the registered instances, one each, but for devices and rules on record as left behind |
| Sequential.OperationsAreARun | vm-orchestrator/internal/vm/manager.go:53-228 | Every sequence of completed operations is a run of the interleaved protocol |
| Orchestrator.NetworkManager.constructor | vm-orchestrator/internal/vm/network.go:27-44 | The masked subnet contains the parsed address; nothing is leased and the counter starts at 1 |
| Orchestrator.NetworkManager.AllocateIP | vm-orchestrator/internal/vm/network.go:48-61 | Leases the free address of lowest offset, as first fit over the pool, and its text reads as base plus that offset; fails if and only if as many addresses are leased as the pool has; as a set of offsets the lease map gains exactly that one |
| Orchestrator.NetworkManager.ReleaseIP | vm-orchestrator/internal/vm/network.go:64-68 | Removes exactly the named lease; as a set of offsets the lease map loses exactly that one |
| Orchestrator.NetworkManager.CreateTapDevice | vm-orchestrator/internal/vm/network.go:80-109 | Always takes the next name; the device exists afterwards if and only if all commands succeeded or the undoing of a part-made one failed |
| Orchestrator.NetworkManager.SetupVMIsolation | vm-orchestrator/internal/vm/network.go:120-144 | Appends the rules before the first failing one, in order, and no other |
| Orchestrator.NetworkManager.CleanupVMIsolation | vm-orchestrator/internal/vm/network.go:147-161 | Tries all five deletions in order whatever fails |
| LoneRuns.CleanupUndoesSetup | vm-orchestrator/internal/vm/network.go:119-161 | A cleanup undoes a setup, as multisets of rules and whatever was added in between, if and only if all five deletions succeed |
| Orchestrator.Manager.constructor | vm-orchestrator/internal/vm/manager.go:36-50 | A new manager is in the protocol's first state |
| Orchestrator.Manager.CreateVM | vm-orchestrator/internal/vm/manager.go:53-170 | Ends in exactly the state and outcome of the protocol's create advanced alone, for every pattern of failures; and, of its fields: nothing for a registered user, a VM exactly when every command up to the launch succeeds, otherwise all given back and an error recorded |
| Orchestrator.Manager.StopVM | vm-orchestrator/internal/vm/manager.go:173-204 | The same for a stop; it succeeds exactly when the user was registered, takes registration, process, address, device and rules, and marks the record stopped; otherwise it changes nothing |
| Orchestrator.Manager.DestroyVM | vm-orchestrator/internal/vm/manager.go:207-228 | The same for a destroy; it returns success exactly when the storage could be removed, and then removes the record, if Redis deletes it |
| AddressPool.MaskedIsValid | vm-orchestrator/internal/vm/network.go:33-40 | Masking keeps the address in its subnet and leaves a prefix of the right width, for every prefix length |
| AddressPool.PoolAddressIsHost | vm-orchestrator/internal/vm/network.go:53-77 | For every prefix length each candidate is computed without wrap-around, its text reads as that address, and it lies in the subnet and is neither the network address, offset 1 nor the broadcast address |
| AddressPool.PoolIsAllHosts | vm-orchestrator/internal/vm/network.go:53-60 | Every other address of the subnet is a candidate |
| AddressPool.PoolIsDistinct | vm-orchestrator/internal/vm/network.go:71-77 | Different offsets print different texts |
| AddressPool.GatewayNotInPool | vm-orchestrator/internal/vm/network.go:47-53 | The gateway's text is never a candidate |
| AddressPool.InsertByTextIsInsertByOffset | vm-orchestrator/internal/vm/network.go:54-67 | Inserting and deleting by text is inserting and deleting one offset |
| AddressPool.ExhaustedIffCountFull | vm-orchestrator/internal/vm/network.go:53-60 | Allocation fails if and only if the number of leases equals the size of the pool |
| Numerals.DottedReadsBack | vm-orchestrator/internal/vm/network.go:71-77 | A printed address is four numerals between dots that read, most significant byte first, as the address, for all 2^32 |
| Numerals.FirstGuestText | vm-orchestrator/internal/vm/network.go:71-77 | The first address of 172.16.0.0/24 that is handed out prints as 172.16.0.2 |
| Numerals.DottedInjective | vm-orchestrator/internal/vm/network.go:71-77 | Two 32-bit addresses with one dotted-decimal text are equal |
| Envelope.EnvelopeReadsBack | clawdbot-wechat-bridge/src/utils/crypto.ts:51-131 | For every message under 2^32 bytes, 16 random bytes, appId and 43-character key, decrypting an encrypted message gives it back, and under any other appId is refused |
| Envelope.EncryptMeetsStandards | clawdbot-wechat-bridge/src/utils/crypto.ts:98-131 | What is put on the wire, by the standards and not by its inverse: standard base64 of a CBC encryption, under the key and its first 16 bytes, of a PKCS#7 padding of the random bytes, the length in four bytes most significant first, the message and the appId |
| Envelope.IssuedKeyReads | clawdbot-wechat-bridge/src/utils/crypto.ts:19-21 | The 43 characters that a 32-byte key is issued as decode to that key |
| Envelope.CbcPlainBlocks | clawdbot-wechat-bridge/src/utils/crypto.ts:61-67 | Decryption by its own law, for every ciphertext of whole blocks |
| Envelope.AcceptsExactlyFrames | clawdbot-wechat-bridge/src/utils/crypto.ts:72-87 | The parser accepts exactly the well-formed frames of its appId, with their message, and under the empty appId also what has a length field pointing past the end |
| Envelope.CbcReadsBack | clawdbot-wechat-bridge/src/utils/crypto.ts:61-128 | CBC decryption undoes CBC encryption of whole blocks, for any block cipher, and keeps the length |
| Envelope.PadReadsBack | clawdbot-wechat-bridge/src/utils/crypto.ts:26-41 | Unpadding undoes padding; the padded length is a multiple of 32, hence of the cipher block, and longer by 1 to 32 |
| Envelope.PadIsPkcs7 | clawdbot-wechat-bridge/src/utils/crypto.ts:37-41 | The padding is the one of section 6.3 of RFC 5652 for 32-byte blocks, and there is no other |
| Envelope.UnpadCases | clawdbot-wechat-bridge/src/utils/crypto.ts:26-32 | What unpadding makes of every buffer, well padded or not |
| Envelope.KeyLength | clawdbot-wechat-bridge/src/utils/crypto.ts:19-21 | Every key of 43 base64 characters decodes to 32 bytes |
| Base64.EncodeIsStandard | clawdbot-wechat-bridge/src/utils/crypto.ts:130-130 | A strict reader of section 4 of RFC 4648, over its literal alphabet and padding, reads every encoded text back |
| Base64.EncodeUsesAlphabet | clawdbot-wechat-bridge/src/utils/crypto.ts:130-130 | Every character is of the standard alphabet, but for one or two final paddings |
| Base64.LongVectors | clawdbot-wechat-bridge/src/utils/crypto.ts:130-130 | The example vectors of section 10 of RFC 4648 |
| Base64.EncodeReadsBack | clawdbot-wechat-bridge/src/utils/crypto.ts:59-130 | The decoder in use undoes encoding too, for all bytes |
| Signature.OrderDoesNotMatter | clawdbot-wechat-bridge/src/utils/crypto.ts:136-159 | A signature of four strings validates against them in any order |
| Signature.DigestOfMultiset | clawdbot-wechat-bridge/src/utils/crypto.ts:142-144 | The digest depends only on the multiset of strings, and every sorting algorithm gives the same |
| Signature.SortedDigest | clawdbot-wechat-bridge/src/utils/crypto.ts:142-144 | Four strings in order are hashed as their concatenation |
| Signature.AtMostIff | clawdbot-wechat-bridge/src/utils/crypto.ts:142-142 | The order of the sort: a prefix first, otherwise by the first different code unit |
| Signature.SameLengthsValidateIff | clawdbot-wechat-bridge/src/utils/crypto.ts:136-159 | If SHA-1 tells texts apart and the sorted strings have the same lengths, a signature validates if and only if it was made from the same multiset of strings |
| Signature.JoinForgetsBoundaries | clawdbot-wechat-bridge/src/utils/crypto.ts:142-144 | Without the lengths it need not: two one-character strings validate against the signature of their concatenation |
| Splitter.Split | clawdbot-wechat-bridge/src/services/wechat-message.ts:79-100 | The loop computes the one split of the text: each chunk ends at the last newline from 300 to 600, else at the last space there, else at 600, and the next starts after white space |
| Splitter.ChunksAreTheSplit | clawdbot-wechat-bridge/src/services/wechat-message.ts:83-100 | Every text has exactly one split in that sense |
| Splitter.LineBreakIsPreferred | clawdbot-wechat-bridge/src/services/wechat-message.ts:89-99 | With a newline at 400 and a space at 500, 700 characters are cut at 400 |
| Splitter.BreakableTextKeepsWords | clawdbot-wechat-bridge/src/services/wechat-message.ts:83-100 | If every 301 consecutive characters contain a newline or a space, no cut falls inside a word and the words of the chunks in order are the words of the text |
| Splitter.WordsAcrossChunks | clawdbot-wechat-bridge/src/services/wechat-message.ts:83-100 | For every text the chunks have exactly one word more for each cut inside a word |
| Splitter.CutsWordIff | clawdbot-wechat-bridge/src/services/wechat-message.ts:89-99 | A cut falls inside a word if and only if positions 300 to 600 hold no newline or space and positions 599 and 600 are both non-space |
| Splitter.WordsSurviveIff | clawdbot-wechat-bridge/src/services/wechat-message.ts:83-100 | The words survive if and only if that holds of no remainder the loop cuts |
| Splitter.SolidTextLosesItsWord | clawdbot-wechat-bridge/src/services/wechat-message.ts:83-100 | 1200 equal non-space characters are cut into two chunks and lose their one word |
| Splitter.SurrogatesSplitIff | clawdbot-wechat-bridge/src/services/wechat-message.ts:89-99 | A cut separates a surrogate pair if and only if positions 300 to 600 hold no newline or space and the pair lies at 599 and 600 |
| Splitter.ChunksReconstruct | clawdbot-wechat-bridge/src/services/wechat-message.ts:79-100 | The text is its chunks interleaved, in order, with gaps of white space only |
| Splitter.VisibleTextIsKept | clawdbot-wechat-bridge/src/services/wechat-message.ts:79-100 | The sequence of non-space characters is unchanged |
| Texts.WordsAreVisible | clawdbot-wechat-bridge/src/services/wechat-message.ts:98-99 | Words are non-empty runs of visible characters and have all of them in order |
| Splitter.SolidTextIsCutEvenly | clawdbot-wechat-bridge/src/services/wechat-message.ts:94-99 | A text without white space is the concatenation of its chunks, ceil(length/600) of them |
| Splitter.ChunkShapes | clawdbot-wechat-bridge/src/services/wechat-message.ts:83-100 | Chunks have 1 to 600 characters, all but the last at least 300, all but the first start with a non-space, and the first is a prefix of the text |
| Splitter.ChunkCount | clawdbot-wechat-bridge/src/services/wechat-message.ts:83-100 | At most floor((length - 1)/300) + 1 chunks |
| Splitter.SendTextMessage | clawdbot-wechat-bridge/src/services/wechat-message.ts:66-123 | Posts what the chunks' sends post, in order, and succeeds if and only if every chunk was delivered |
| Splitter.SendPostsTwiceAtMost | clawdbot-wechat-bridge/src/services/wechat-message.ts:27-61 | One message is posted at most twice, a second time only after an expired token, and counts as sent exactly when one of the two attempts was delivered |
| Splitter.PostsAreNumberedChunks | clawdbot-wechat-bridge/src/services/wechat-message.ts:102-120 | Everything posted is a numbered chunk, and there are at most two posts a chunk |
| Splitter.PostsInOrder | clawdbot-wechat-bridge/src/services/wechat-message.ts:102-120 | The posts come in the order of the chunks, none more than twice |
| Splitter.AllDelivered | clawdbot-wechat-bridge/src/services/wechat-message.ts:102-120 | When every first attempt is delivered the posts are the numbered chunks, each once |
| Splitter.NumberedReads | clawdbot-wechat-bridge/src/services/wechat-message.ts:105-105 | The number of a post reads as its position, then the total |
| Splitter.PostCount | clawdbot-wechat-bridge/src/services/wechat-message.ts:79-122 | A long text makes at most 2 * (floor((length - 1)/300) + 1) posts |
| Splitter.PostLength | clawdbot-wechat-bridge/src/services/wechat-message.ts:104-110 | A post has at most 600 + 4 + digits(i) + digits(n) characters |
| Splitter.PostExceedsIff | clawdbot-wechat-bridge/src/services/wechat-message.ts:104-110 | A post is longer than 600 characters if and only if it is not the first and its chunk is longer than 600 - 4 - digits(i) - digits(n) |
| Splitter.SolidTextExceeds | clawdbot-wechat-bridge/src/services/wechat-message.ts:66-122 | 1200 equal non-space characters make a post of 606 |
| TokenLock.MutualExclusion | clawdbot-wechat-bridge/src/services/wechat-token.ts:38-92 | In every run of any number of processes, forced refreshes, failures and crashes included, whose refreshes finish within 30 s of taking the lock, at most one is between lock and unlock, and every DEL of the lock removes the deleter's own |
| TokenLock.ReturnedTokensAreGiven | clawdbot-wechat-bridge/src/services/wechat-token.ts:17-92 | In every run whoever ends with a token has one that the API gave to some fetch of the run, and whoever ends without one had a fetch or store of its own fail |
| TokenLock.PunctualCallersGetTokens | clawdbot-wechat-bridge/src/services/wechat-token.ts:17-83 | If refreshes succeed nobody ends without a token |
| TokenLock.RefreshersGetTheirOwn | clawdbot-wechat-bridge/src/services/wechat-token.ts:51-82 | A refresher ends with the token of its own fetch |
| TokenLock.CachedTokensHaveTimeLeft | clawdbot-wechat-bridge/src/services/wechat-token.ts:21-29 | In every run whoever gets a token from the cache gets one with more than 600 s of its lifetime left |
| TokenLock.FreshCacheIsUsed | clawdbot-wechat-bridge/src/services/wechat-token.ts:21-32 | A cached token with that much left is returned at once, any other leads to the lock |
| TokenLock.ForcedTokensAreNew | clawdbot-wechat-bridge/src/services/wechat-token.ts:88-92 | In every run a forced refresh never ends with a token cached before its DEL |
| TokenLock.BrokenIffLate | clawdbot-wechat-bridge/src/services/wechat-token.ts:38-92 | After every run that was in time so far, some continuation without delay has two processes between lock and unlock if and only if some refresh has taken 30 s |
| TokenLock.LateRefreshDeletesOthersLock | clawdbot-wechat-bridge/src/services/wechat-token.ts:79-91 | After every run that was in time so far, if a process has been there for 30 s, a newcomer can enter and the late one's DEL then removes the newcomer's lock |
| TokenLock.SlowRefreshLosesLock | clawdbot-wechat-bridge/src/services/wechat-token.ts:43-82 | It happens without any forced refresh: a concrete run has both, and the wrong lock deleted |
| TokenLock.RetriesAreBounded | clawdbot-wechat-bridge/src/services/wechat-token.ts:17-82 | If refreshes succeed within 30 s and give tokens of more than 631 s, waits last 1 s, steps are otherwise immediate and nobody forces a refresh, no caller retries more than 30 times, and after its 30th wait it finds a valid token |
| TokenLock.ThirtyRetriesHappen | clawdbot-wechat-bridge/src/services/wechat-token.ts:17-49 | Some run of that kind makes a caller retry 30 times |
| TokenLock.ShorterTokensRetryMore | clawdbot-wechat-bridge/src/services/wechat-token.ts:17-74 | Some run that is of that kind but for a token of exactly 631 s makes a caller retry a 31st time |

## Left out

Assumptions of the model:

- The subnet is IPv4 and the gateway is its offset 1, as the comments of `network.go` say; parsing of `VM_SUBNET` is not part of this model, its result is.
- `launcher.Stop` ends the process. A process may also end earlier by itself, which is modelled.
- Packets between VMs traverse FORWARD, a VM sends only under its own address, and the chain holds only the orchestrator's rules; those of `setup-network.sh` are not part of this model.
- A RELATED packet counts as one of the same pair of addresses.
- A command that fails has no effect: `iptables`, `ip` and Redis writes alike. `-D` and `ip link del` may fail, and the history keeps what they leave.
- The orchestrator is the only writer of its Redis records. The bridge writes the same key with other field names (`clawdbot-wechat-bridge/src/services/redis.ts:8-18`), so agreement between the two is not claimed.

Contracts that say less than one might expect:

- Isolation.LaunchedVmPolicy: VM-to-gateway excludes addresses of which a DROP deletion failed, because a left-over DROP can precede the new rules; `GatewayReachedIff` has the exact condition.
- CreateOutcomes.FailedLaunch: speaks of the multiset of rules, because `-D` removes the first of several equal rules and so may change their order.
- Sequential.OperationsSettle: needs Redis reads and writes to succeed, because failed saves are only logged.
- Orchestrator.Manager.CreateVM: returns the outcome and not the VM's information, because the record holds only status, address and device here.
- Orchestrator.NetworkManager.CreateTapDevice: the order in which the bridge is attached and the link is set up is kept, but their effect on the device is not modelled.
- TokenLock.MutualExclusion: the DEL of the lock is assumed to succeed; a process that never reaches it is a crash, which is modelled.

Not modelled:

- The token protocol is a step relation on values and not a class, since its state lives in Redis and every step of every process may interleave.
- `Array.prototype.sort` is an insertion sort here; `DigestOfMultiset` makes the algorithm irrelevant.
- UTF-8 conversion: the envelope works on bytes, the splitter on UTF-16 code units.
- Node's base64 decoder is taken to skip every character outside the two alphabets.
- AES and SHA-1 themselves.
- Storage is the set of users whose directory may exist; images, sizes and shell commands are not part of this model.
- `ChangePassword`, `ListVMs`, `waitForVMReady`, request contexts, HTTP handlers, SSH, key generation, XML, configuration and logging: single-branch code or foreign calls.
- The 100 ms pause between two chunks, which changes nothing but time.
- User commands of `wechat.ts`, the plugin, the root file system builder, container files and the simulator.
